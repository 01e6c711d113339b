/** get_metal_resource_index: the Metal buffer, texture or sampler slot of a
    resource variable. A caller-supplied binding for the variable's
    (stage, descriptor set, binding) wins and is flagged as used; otherwise
    the next free slot of the resource's kind is taken from a per-kind
    counter that every compile pass restarts at zero. */
module ResourceIndex {
  import opened Wrappers
  import opened Ir

  /** MSLResourceBinding: one caller-supplied mapping from a Vulkan-style
      (stage, set, binding) to Metal slots. */
  datatype ResourceBinding = ResourceBinding(
    stage: ExecutionModel,
    descSet: nat,
    binding: nat,
    mslBuffer: nat,
    mslTexture: nat,
    mslSampler: nat,
    usedByShader: bool)

  /** The next free Metal slot of each kind. */
  datatype Counters = Counters(buffer: nat, texture: nat, sampler: nat)

  /** The counters at the start of each compile pass. */
  const InitialCounters := Counters(0, 0, 0)

  /** The descriptor set and binding reserved for the push-constant block. */
  datatype PushConstantSlot = PushConstantSlot(descSet: nat, binding: nat)

  datatype ResourceState = ResourceState(bindings: seq<ResourceBinding>, counters: Counters)

  datatype Allocation = Allocation(index: nat, state: ResourceState)

  predicate Matches(rb: ResourceBinding, stage: ExecutionModel, descSet: nat, binding: nat) {
    rb.stage == stage && rb.descSet == descSet && rb.binding == binding
  }

  /** The position of the first binding matching the key, if any. */
  function FirstMatch(bs: seq<ResourceBinding>, stage: ExecutionModel, descSet: nat, binding: nat): (r: Option<nat>)
    ensures r.Some? ==> r.value < |bs| && Matches(bs[r.value], stage, descSet, binding)
    ensures r.Some? ==> forall k :: 0 <= k < r.value ==> !Matches(bs[k], stage, descSet, binding)
    ensures r.None? ==> forall k :: 0 <= k < |bs| ==> !Matches(bs[k], stage, descSet, binding)
  {
    if bs == [] then None
    else if Matches(bs[0], stage, descSet, binding) then Some(0)
    else match FirstMatch(bs[1..], stage, descSet, binding)
      case None => None
      case Some(k) => Some(k + 1)
  }

  /** The (set, binding) key a variable is looked up under. */
  function LookupKey(storage: StorageClass, dec: Dec, push: PushConstantSlot): (r: (nat, nat))
    ensures storage == PushConstant ==> r == (push.descSet, push.binding)
    ensures storage != PushConstant ==> r == (dec.descSet, dec.binding)
  {
    if storage == PushConstant then (push.descSet, push.binding) else (dec.descSet, dec.binding)
  }

  /** The slot a caller binding assigns to a resource kind; kinds without a
      Metal slot get 0. */
  function BoundIndex(rb: ResourceBinding, kind: BaseType): nat {
    match kind
    case Struct => rb.mslBuffer
    case Image => rb.mslTexture
    case Sampler => rb.mslSampler
    case _ => 0
  }

  /** The counter a resource kind draws from. */
  function CounterOf(c: Counters, kind: BaseType): nat {
    match kind
    case Struct => c.buffer
    case Image => c.texture
    case Sampler => c.sampler
    case _ => 0
  }

  predicate HasSlotKind(kind: BaseType) {
    kind == Struct || kind == Image || kind == Sampler
  }

  /** The slot the kind's counter hands out when no caller binding applies,
      and the counters afterwards. In a vertex shader buffer slot 0 is kept
      for the stage-in buffer. */
  function AutoAllocate(c: Counters, stage: ExecutionModel, kind: BaseType): (r: (nat, Counters))
    ensures HasSlotKind(kind) ==>
              && r.0 >= CounterOf(c, kind)
              && CounterOf(r.1, kind) == r.0 + 1
              && (kind != Struct || stage != Vertex ==> r.0 == CounterOf(c, kind))
              && (kind == Struct && stage == Vertex ==> (c.buffer == 0 ==> r.0 == 1) && (c.buffer > 0 ==> r.0 == c.buffer))
    ensures !HasSlotKind(kind) ==> r.0 == 0 && r.1 == c
    ensures forall other :: HasSlotKind(other) && other != kind ==> CounterOf(r.1, other) == CounterOf(c, other)
  {
    match kind
    case Struct =>
      var next := if stage == Vertex && c.buffer == 0 then 1 else c.buffer;
      (next, c.(buffer := next + 1))
    case Image => (c.texture, c.(texture := c.texture + 1))
    case Sampler => (c.sampler, c.(sampler := c.sampler + 1))
    case _ => (0, c)
  }

  /** get_metal_resource_index for a variable of the given storage class and
      decoration, asked for a slot of the given kind. */
  function GetMetalResourceIndex(st: ResourceState, stage: ExecutionModel, push: PushConstantSlot,
                                 storage: StorageClass, dec: Dec, kind: BaseType): (r: Allocation)
    // The binding list keeps its entries; at most the used flag changes.
    ensures |r.state.bindings| == |st.bindings|
    ensures forall k :: 0 <= k < |st.bindings| ==>
              r.state.bindings[k].(usedByShader := st.bindings[k].usedByShader) == st.bindings[k]
    // A caller binding for the key wins: it is flagged, counters stay.
    ensures var key := LookupKey(storage, dec, push);
            var m := FirstMatch(st.bindings, stage, key.0, key.1);
            m.Some? ==>
              && r.index == BoundIndex(st.bindings[m.value], kind)
              && r.state.counters == st.counters
              && r.state.bindings[m.value].usedByShader
              && forall k :: 0 <= k < |st.bindings| && k != m.value ==> r.state.bindings[k] == st.bindings[k]
    // Otherwise the kind's counter hands out its next slot.
    ensures var key := LookupKey(storage, dec, push);
            FirstMatch(st.bindings, stage, key.0, key.1).None? ==>
              && r.state.bindings == st.bindings
              && (HasSlotKind(kind) ==>
                    && r.index >= CounterOf(st.counters, kind)
                    && CounterOf(r.state.counters, kind) == r.index + 1
                    && (kind != Struct || stage != Vertex ==> r.index == CounterOf(st.counters, kind))
                    && (kind == Struct && stage == Vertex ==>
                         && (st.counters.buffer == 0 ==> r.index == 1)
                         && (st.counters.buffer > 0 ==> r.index == st.counters.buffer)))
              && (!HasSlotKind(kind) ==> r.index == 0 && r.state.counters == st.counters)
              && forall other :: HasSlotKind(other) && other != kind ==>
                   CounterOf(r.state.counters, other) == CounterOf(st.counters, other)
  {
    var key := LookupKey(storage, dec, push);
    match FirstMatch(st.bindings, stage, key.0, key.1)
    case Some(k) =>
      var used := st.bindings[k := st.bindings[k].(usedByShader := true)];
      Allocation(BoundIndex(st.bindings[k], kind), st.(bindings := used))
    case None =>
      var (index, counters) := AutoAllocate(st.counters, stage, kind);
      Allocation(index, st.(counters := counters))
  }

  /** Flagging a binding as used does not change which binding a key finds. */
  lemma {:induction false} FirstMatchIgnoresUsedFlag(bs: seq<ResourceBinding>, cs: seq<ResourceBinding>,
                                                     stage: ExecutionModel, descSet: nat, binding: nat)
    requires |bs| == |cs|
    requires forall k :: 0 <= k < |bs| ==> cs[k].(usedByShader := bs[k].usedByShader) == bs[k]
    ensures FirstMatch(cs, stage, descSet, binding) == FirstMatch(bs, stage, descSet, binding)
    decreases |bs|
  {
    if bs != [] {
      assert cs[0].(usedByShader := bs[0].usedByShader) == bs[0];
      FirstMatchIgnoresUsedFlag(bs[1..], cs[1..], stage, descSet, binding);
    }
  }

  /** A resource covered by a caller binding gets the same slot every time it
      is asked for, and asking again changes nothing further. */
  lemma BoundLookupRepeatable(st: ResourceState, stage: ExecutionModel, push: PushConstantSlot,
                              storage: StorageClass, dec: Dec, kind: BaseType)
    requires var key := LookupKey(storage, dec, push);
             FirstMatch(st.bindings, stage, key.0, key.1).Some?
    ensures var r1 := GetMetalResourceIndex(st, stage, push, storage, dec, kind);
            GetMetalResourceIndex(r1.state, stage, push, storage, dec, kind) == r1
  {
    var key := LookupKey(storage, dec, push);
    var r1 := GetMetalResourceIndex(st, stage, push, storage, dec, kind);
    FirstMatchIgnoresUsedFlag(st.bindings, r1.state.bindings, stage, key.0, key.1);
    var k := FirstMatch(st.bindings, stage, key.0, key.1).value;
    assert r1.state.bindings[k := r1.state.bindings[k].(usedByShader := true)] == r1.state.bindings;
  }

  /** One request for a slot, as entry_point_args issues them for each
      uniform, uniform-constant or push-constant resource. */
  datatype Request = Request(storage: StorageClass, dec: Dec, kind: BaseType)

  datatype Assignment = Assignment(indices: seq<nat>, state: ResourceState)

  /** Serves the requests in order, threading the state through. */
  function AssignAll(st: ResourceState, stage: ExecutionModel, push: PushConstantSlot, reqs: seq<Request>): (r: Assignment)
    ensures |r.indices| == |reqs|
    ensures |r.state.bindings| == |st.bindings|
    decreases |reqs|
  {
    if reqs == [] then Assignment([], st)
    else
      var first := GetMetalResourceIndex(st, stage, push, reqs[0].storage, reqs[0].dec, reqs[0].kind);
      var rest := AssignAll(first.state, stage, push, reqs[1..]);
      Assignment([first.index] + rest.indices, rest.state)
  }

  /** No request is covered by a caller binding. */
  predicate Unbound(bs: seq<ResourceBinding>, stage: ExecutionModel, push: PushConstantSlot, reqs: seq<Request>) {
    forall i :: 0 <= i < |reqs| ==>
      var key := LookupKey(reqs[i].storage, reqs[i].dec, push);
      FirstMatch(bs, stage, key.0, key.1).None?
  }

  /** The requests after the first are unbound when all are. */
  lemma UnboundTail(bs: seq<ResourceBinding>, stage: ExecutionModel, push: PushConstantSlot, reqs: seq<Request>)
    requires reqs != [] && Unbound(bs, stage, push, reqs)
    ensures Unbound(bs, stage, push, reqs[1..])
  {
    forall i | 0 <= i < |reqs[1..]|
      ensures var key := LookupKey(reqs[1..][i].storage, reqs[1..][i].dec, push);
              FirstMatch(bs, stage, key.0, key.1).None?
    {
      assert reqs[1..][i] == reqs[i + 1];
    }
  }

  /** Without caller bindings, the slots handed out for one kind lie between
      that kind's counter before and after, strictly increasing in request
      order: no two resources of one kind share a Metal slot. */
  lemma {:induction false} AutoIndicesIncrease(st: ResourceState, stage: ExecutionModel, push: PushConstantSlot, reqs: seq<Request>)
    requires Unbound(st.bindings, stage, push, reqs)
    ensures var r := AssignAll(st, stage, push, reqs);
            && (forall i :: 0 <= i < |reqs| && HasSlotKind(reqs[i].kind) ==>
                  CounterOf(st.counters, reqs[i].kind) <= r.indices[i] < CounterOf(r.state.counters, reqs[i].kind))
            && (forall i, j :: 0 <= i < j < |reqs| && reqs[i].kind == reqs[j].kind && HasSlotKind(reqs[i].kind) ==>
                  r.indices[i] < r.indices[j])
            && (forall kind :: HasSlotKind(kind) ==> CounterOf(st.counters, kind) <= CounterOf(r.state.counters, kind))
            && r.state.bindings == st.bindings
    decreases |reqs|
  {
    if reqs != [] {
      var first := GetMetalResourceIndex(st, stage, push, reqs[0].storage, reqs[0].dec, reqs[0].kind);
      assert first.state.bindings == st.bindings;
      UnboundTail(st.bindings, stage, push, reqs);
      AutoIndicesIncrease(first.state, stage, push, reqs[1..]);
      var rest := AssignAll(first.state, stage, push, reqs[1..]);
      var r := AssignAll(st, stage, push, reqs);
      assert r.indices == [first.index] + rest.indices;
      forall i | 0 < i < |reqs| && HasSlotKind(reqs[i].kind)
        ensures CounterOf(st.counters, reqs[i].kind) <= r.indices[i] < CounterOf(r.state.counters, reqs[i].kind)
      {
        assert reqs[i] == reqs[1..][i - 1] && r.indices[i] == rest.indices[i - 1];
      }
      forall i, j | 0 <= i < j < |reqs| && reqs[i].kind == reqs[j].kind && HasSlotKind(reqs[i].kind)
        ensures r.indices[i] < r.indices[j]
      {
        assert reqs[j] == reqs[1..][j - 1] && r.indices[j] == rest.indices[j - 1];
        if i > 0 {
          assert reqs[i] == reqs[1..][i - 1] && r.indices[i] == rest.indices[i - 1];
        }
      }
    }
  }

  /** A vertex shader never has a buffer placed in slot 0 by the counter:
      that slot stays free for the stage-in vertex buffer. */
  lemma {:induction false} VertexBuffersSkipSlotZero(st: ResourceState, push: PushConstantSlot, reqs: seq<Request>)
    requires Unbound(st.bindings, Vertex, push, reqs)
    ensures var r := AssignAll(st, Vertex, push, reqs);
            forall i :: 0 <= i < |reqs| && reqs[i].kind == Struct ==> r.indices[i] >= 1
    decreases |reqs|
  {
    if reqs != [] {
      var first := GetMetalResourceIndex(st, Vertex, push, reqs[0].storage, reqs[0].dec, reqs[0].kind);
      UnboundTail(st.bindings, Vertex, push, reqs);
      VertexBuffersSkipSlotZero(first.state, push, reqs[1..]);
      var rest := AssignAll(first.state, Vertex, push, reqs[1..]);
      var r := AssignAll(st, Vertex, push, reqs);
      forall i | 0 < i < |reqs| && reqs[i].kind == Struct
        ensures r.indices[i] >= 1
      {
        assert reqs[i] == reqs[1..][i - 1] && r.indices[i] == rest.indices[i - 1];
      }
    }
  }

  /** From the pass-start counters, the n-th texture of a shader without
      caller bindings gets slot n. */
  lemma FreshTexturesNumberedFromZero(bs: seq<ResourceBinding>, stage: ExecutionModel, push: PushConstantSlot, dec: Dec)
    requires forall k :: 0 <= k < |bs| ==> !Matches(bs[k], stage, dec.descSet, dec.binding)
    ensures var reqs := [Request(Uniform, dec, Image), Request(Uniform, dec, Image), Request(Uniform, dec, Image)];
            AssignAll(ResourceState(bs, InitialCounters), stage, push, reqs).indices == [0, 1, 2]
  {
    var q := Request(Uniform, dec, Image);
    var s0 := ResourceState(bs, InitialCounters);
    var s1 := s0.(counters := Counters(0, 1, 0));
    var s2 := s0.(counters := Counters(0, 2, 0));
    var s3 := s0.(counters := Counters(0, 3, 0));
    assert FirstMatch(bs, stage, dec.descSet, dec.binding).None?;
    assert GetMetalResourceIndex(s2, stage, push, Uniform, dec, Image) == Allocation(2, s3);
    assert AssignAll(s2, stage, push, [q]).indices == [2];
    assert GetMetalResourceIndex(s1, stage, push, Uniform, dec, Image) == Allocation(1, s2);
    assert [q, q][1..] == [q];
    assert AssignAll(s1, stage, push, [q, q]).indices == [1, 2];
    assert GetMetalResourceIndex(s0, stage, push, Uniform, dec, Image) == Allocation(0, s1);
    assert [q, q, q][1..] == [q, q];
  }
}
