/** The pass loop of compile: up to three emission passes, each starting the
    resource-slot counters from zero, repeated while the emission asks for a
    recompile. Emission itself is not modelled; what a pass contributes here
    is the slot assignment of the resource requests, and the recompile
    request at the end of each pass is a parameter. */
module Driver {
  import opened Wrappers
  import opened Ir
  import opened ResourceIndex

  /** The number of passes compile runs before it gives up. */
  const MaxPasses: nat := 3

  /** Two binding lists that differ at most in their used flags. */
  predicate SameUpToUsed(bs: seq<ResourceBinding>, cs: seq<ResourceBinding>) {
    |bs| == |cs| && forall k :: 0 <= k < |bs| ==> cs[k].(usedByShader := bs[k].usedByShader) == bs[k]
  }

  /** Used flags left over from an earlier pass do not change the slots a
      later pass hands out, and the flags stay the only difference. */
  lemma {:induction false} AssignAllIgnoresUsedFlags(bs: seq<ResourceBinding>, cs: seq<ResourceBinding>, c: Counters,
                                                     stage: ExecutionModel, push: PushConstantSlot, reqs: seq<Request>)
    requires SameUpToUsed(bs, cs)
    ensures var p := AssignAll(ResourceState(bs, c), stage, push, reqs);
            var q := AssignAll(ResourceState(cs, c), stage, push, reqs);
            p.indices == q.indices && p.state.counters == q.state.counters
            && SameUpToUsed(p.state.bindings, q.state.bindings)
    decreases |reqs|
  {
    if reqs != [] {
      var rq := reqs[0];
      var key := LookupKey(rq.storage, rq.dec, push);
      FirstMatchIgnoresUsedFlag(bs, cs, stage, key.0, key.1);
      var p1 := GetMetalResourceIndex(ResourceState(bs, c), stage, push, rq.storage, rq.dec, rq.kind);
      var q1 := GetMetalResourceIndex(ResourceState(cs, c), stage, push, rq.storage, rq.dec, rq.kind);
      var m := FirstMatch(bs, stage, key.0, key.1);
      if m.Some? {
        assert cs[m.value].(usedByShader := bs[m.value].usedByShader) == bs[m.value];
      }
      assert p1.index == q1.index && p1.state.counters == q1.state.counters;
      assert SameUpToUsed(p1.state.bindings, q1.state.bindings) by {
        forall k | 0 <= k < |bs|
          ensures q1.state.bindings[k].(usedByShader := p1.state.bindings[k].usedByShader) == p1.state.bindings[k]
        {
          assert p1.state.bindings[k].(usedByShader := bs[k].usedByShader) == bs[k];
          assert q1.state.bindings[k].(usedByShader := cs[k].usedByShader) == cs[k];
        }
      }
      AssignAllIgnoresUsedFlags(p1.state.bindings, q1.state.bindings, p1.state.counters, stage, push, reqs[1..]);
    }
  }

  /** Differing only in used flags is transitive. */
  lemma SameUpToUsedTransitive(xs: seq<ResourceBinding>, bs: seq<ResourceBinding>, cs: seq<ResourceBinding>)
    requires SameUpToUsed(xs, bs) && SameUpToUsed(bs, cs)
    ensures SameUpToUsed(xs, cs)
  {
    forall k | 0 <= k < |xs|
      ensures cs[k].(usedByShader := xs[k].usedByShader) == xs[k]
    {
      assert cs[k].(usedByShader := bs[k].usedByShader) == bs[k];
      assert bs[k].(usedByShader := xs[k].usedByShader) == xs[k];
    }
  }

  /** A pass changes nothing in the binding list but used flags. */
  lemma {:induction false} AssignAllKeepsBindings(st: ResourceState, stage: ExecutionModel, push: PushConstantSlot, reqs: seq<Request>)
    ensures SameUpToUsed(st.bindings, AssignAll(st, stage, push, reqs).state.bindings)
    decreases |reqs|
  {
    if reqs != [] {
      var first := GetMetalResourceIndex(st, stage, push, reqs[0].storage, reqs[0].dec, reqs[0].kind);
      AssignAllKeepsBindings(first.state, stage, push, reqs[1..]);
      SameUpToUsedTransitive(st.bindings, first.state.bindings, AssignAll(first.state, stage, push, reqs[1..]).state.bindings);
    }
  }

  /** What a completed compile leaves: the number of passes run, the slots
      of the last pass and the binding list with its used flags. */
  datatype Outcome = Outcome(passes: nat, indices: seq<nat>, bindings: seq<ResourceBinding>)

  /** compile's do/while loop. `recompile(p)` is whether pass p ends with a
      recompile request. A fourth pass is refused with a fatal error. */
  method Compile(bindings: seq<ResourceBinding>, stage: ExecutionModel, push: PushConstantSlot,
                 reqs: seq<Request>, recompile: nat -> bool) returns (r: Result<Outcome>)
    ensures r.Err? <==> recompile(0) && recompile(1) && recompile(2)
    ensures r.Err? ==> r.error == TooManyPasses
    ensures r.Ok? ==> 1 <= r.value.passes <= MaxPasses && !recompile(r.value.passes - 1)
    ensures r.Ok? ==> forall p :: 0 <= p < r.value.passes - 1 ==> recompile(p)
    // Restarting the counters makes the last pass hand out the slots of a
    // single pass over the caller's bindings.
    ensures r.Ok? ==> r.value.indices == AssignAll(ResourceState(bindings, InitialCounters), stage, push, reqs).indices
    ensures r.Ok? ==> SameUpToUsed(bindings, r.value.bindings)
  {
    var passCount := 0;
    var bs := bindings;
    while true
      invariant passCount <= MaxPasses
      invariant forall p :: 0 <= p < passCount ==> recompile(p)
      invariant SameUpToUsed(bindings, bs)
      decreases MaxPasses - passCount
    {
      if passCount >= MaxPasses {
        return Err(TooManyPasses);
      }
      var pass := AssignAll(ResourceState(bs, InitialCounters), stage, push, reqs);
      AssignAllIgnoresUsedFlags(bindings, bs, InitialCounters, stage, push, reqs);
      AssignAllKeepsBindings(ResourceState(bs, InitialCounters), stage, push, reqs);
      SameUpToUsedTransitive(bindings, bs, pass.state.bindings);
      bs := pass.state.bindings;
      passCount := passCount + 1;
      if !recompile(passCount - 1) {
        return Ok(Outcome(passCount, pass.indices, bs));
      }
    }
  }
}
