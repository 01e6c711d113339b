/** The intermediate representation the backend rewrites: an arena of
    records keyed by numeric ID (types, variables, functions, blocks), plus
    decoration metadata keyed by ID and, for struct types, by member index.
    Only the fields the modelled passes read or write are kept. */
module Ir {

  type Id = nat

  datatype StorageClass =
    | UniformConstant | Input | Uniform | Output | Workgroup | CrossWorkgroup
    | Private | FunctionStorage | Generic | PushConstant
    | AtomicCounterStorage | ImageStorage

  datatype BaseType =
    | Unknown | Void | Boolean | Char | Int | UInt | Int64 | UInt64
    | AtomicCounter | Float | Double | Struct | Image | SampledImage | Sampler

  datatype Dim = Dim1D | Dim2D | Dim3D | DimCube | DimRect | DimBuffer | DimSubpassData

  datatype ExecutionModel =
    | Vertex | TessellationControl | TessellationEvaluation | Geometry
    | Fragment | GLCompute | Kernel

  datatype ExecutionMode = EarlyFragmentTests | DepthGreater | DepthLess | DepthUnchanged | OtherMode

  /** The entry point's execution model and the execution modes it declares. */
  datatype Execution = Execution(model: ExecutionModel, modes: set<ExecutionMode>)

  datatype BuiltIn =
    | Position | PointSize | ClipDistance | CullDistance | VertexId | InstanceId
    | PrimitiveId | InvocationId | Layer | ViewportIndex | TessLevelOuter
    | TessLevelInner | TessCoord | PatchVertices | FragCoord | PointCoord
    | FrontFacing | SampleId | SamplePosition | SampleMask | FragDepth
    | HelperInvocation | NumWorkgroups | WorkgroupSize | WorkgroupId
    | LocalInvocationId | GlobalInvocationId | LocalInvocationIndex
    | VertexIndex | InstanceIndex

  /** Decoration kinds whose presence bit the modelled code tests. */
  datatype Decoration =
    | DecorationBlock | DecorationBufferBlock | DecorationRowMajor | DecorationColMajor
    | DecorationArrayStride | DecorationLocation | DecorationBuiltIn | DecorationOffset

  /** Image operand of an image or sampled-image type. */
  datatype ImageInfo = ImageInfo(sampledType: Id, dim: Dim, depth: bool, arrayed: bool, ms: bool)

  /** A type record. `self` is the ID of the type the record was declared as;
      a pointer type copies its pointee's record, `self` included, so a
      pointer to a struct names the struct. `arraySizes` holds literal array
      sizes, the LAST entry being the outermost dimension. */
  datatype Type = Type(
    self: Id,
    basetype: BaseType,
    width: nat,
    vecsize: nat,
    columns: nat,
    arraySizes: seq<nat>,
    pointer: bool,
    storage: StorageClass,
    memberTypes: seq<Id>,
    image: ImageInfo)

  /** A variable record; `initializer` 0 means none. */
  datatype Variable = Variable(basetype: Id, storage: StorageClass, initializer: Id)

  datatype Parameter = Parameter(typeId: Id, id: Id)

  datatype Function = Function(returnType: Id, params: seq<Parameter>, blocks: seq<Id>, locals: seq<Id>)

  datatype Terminator = TermUnknown | Direct | Select | MultiSelect | Return | Unreachable | Kill

  /** The instructions the extraction walk dispatches on, each reduced to its
      third operand word: the pointer of OpLoad, the base of OpAccessChain,
      the callee of OpFunctionCall. */
  datatype Instr = Load(pointer: Id) | AccessChain(base: Id) | FunctionCall(callee: Id) | OtherOp

  datatype BasicBlock = BasicBlock(ops: seq<Instr>, terminator: Terminator, returnValue: Id)

  /** Decoration record, used both for an ID and for one member of a struct. */
  datatype Dec = Dec(
    alias: string,
    qualifiedAlias: string,
    flags: set<Decoration>,
    location: nat,
    builtin: bool,
    builtinType: BuiltIn,
    offset: nat,
    descSet: nat,
    binding: nat,
    arrayStride: nat)

  const EmptyDec := Dec("", "", {}, 0, false, Position, 0, 0, 0, 0)

  datatype Meta = Meta(decoration: Dec, members: seq<Dec>)

  const EmptyMeta := Meta(EmptyDec, [])

  /** The arena. `bound` is the first unallocated ID; `globalVariables` is the
      front end's list of module-scope variables, in declaration order. */
  datatype Arena = Arena(
    types: map<Id, Type>,
    vars: map<Id, Variable>,
    funcs: map<Id, Function>,
    blocks: map<Id, BasicBlock>,
    meta: map<Id, Meta>,
    bound: nat,
    globalVariables: seq<Id>,
    entryPoint: Id)

  /** meta[id]: every ID below the bound has a (possibly empty) record. */
  function MetaAt(meta: map<Id, Meta>, id: Id): Meta {
    if id in meta then meta[id] else EmptyMeta
  }

  function MetaOf(a: Arena, id: Id): Meta {
    MetaAt(a.meta, id)
  }

  function DecOf(a: Arena, id: Id): Dec {
    MetaOf(a, id).decoration
  }

  /** The decoration of member `index` of type `id`, empty when none was set. */
  function MemberDecOf(a: Arena, id: Id, index: nat): Dec {
    var members := MetaOf(a, id).members;
    if index < |members| then members[index] else EmptyDec
  }

  function SetDec(a: Arena, id: Id, d: Dec): (r: Arena)
    ensures DecOf(r, id) == d && MetaOf(r, id).members == MetaOf(a, id).members
    ensures forall other :: other != id ==> MetaOf(r, other) == MetaOf(a, other)
  {
    a.(meta := a.meta[id := MetaOf(a, id).(decoration := d)])
  }

  /** set_member_*: writes one member record, growing the member list with
      empty records when it is too short. */
  function SetMemberDec(a: Arena, id: Id, index: nat, d: Dec): (r: Arena)
    ensures MemberDecOf(r, id, index) == d
    ensures forall j :: j != index ==> MemberDecOf(r, id, j) == MemberDecOf(a, id, j)
    ensures DecOf(r, id) == DecOf(a, id)
    ensures forall other :: other != id ==> MetaOf(r, other) == MetaOf(a, other)
  {
    var m := MetaOf(a, id);
    var grown := if index < |m.members| then m.members
                 else m.members + seq(index + 1 - |m.members|, _ => EmptyDec);
    a.(meta := a.meta[id := m.(members := grown[index := d])])
  }

  /** The IDs of `s` in [lo, hi), ascending: the order in which the arena's
      ID vector visits them. */
  function AscendingIds(s: set<Id>, lo: nat, hi: nat): (r: seq<Id>)
    ensures forall i, j :: 0 <= i < j < |r| ==> r[i] < r[j]
    ensures forall x :: x in r <==> x in s && lo <= x < hi
    decreases hi - lo
  {
    if lo >= hi then []
    else
      var rest := AscendingIds(s, lo + 1, hi);
      assert forall j :: 0 <= j < |rest| ==> lo < rest[j] by {
        forall j | 0 <= j < |rest| ensures lo < rest[j] {
          assert rest[j] in rest;
        }
      }
      if lo in s then [lo] + rest else rest
  }

  ghost predicate NoDuplicates<T>(q: seq<T>) {
    forall i, j :: 0 <= i < j < |q| ==> q[i] != q[j]
  }

  /** The elements of a sequence, as a set. */
  ghost function Elements<T>(q: seq<T>): set<T> {
    set x | x in q
  }

  lemma {:induction false} DistinctCard<T>(q: seq<T>)
    requires NoDuplicates(q)
    ensures |Elements(q)| == |q|
  {
    if q != [] {
      DistinctCard(q[1..]);
      assert Elements(q) == {q[0]} + Elements(q[1..]);
      assert q[0] !in q[1..];
    }
  }

  /** An ascending enumeration of a set of IDs below the bound has exactly one
      entry per element. */
  lemma AscendingIdsCard(s: set<Id>, hi: nat)
    requires forall x :: x in s ==> x < hi
    ensures |AscendingIds(s, 0, hi)| == |s|
  {
    var r := AscendingIds(s, 0, hi);
    assert NoDuplicates(r);
    DistinctCard(r);
    assert forall x :: x in s <==> x in r;
    assert Elements(r) == s;
  }

  /** The operation stream of a list of blocks, block by block. */
  function BlocksOps(a: Arena, bs: seq<Id>): seq<Instr>
    requires forall b :: b in bs ==> b in a.blocks
  {
    if bs == [] then [] else a.blocks[bs[0]].ops + BlocksOps(a, bs[1..])
  }

  predicate BlocksResolve(a: Arena) {
    forall f, b :: f in a.funcs && b in a.funcs[f].blocks ==> b in a.blocks
  }

  function FuncOps(a: Arena, f: Id): seq<Instr>
    requires BlocksResolve(a) && f in a.funcs
  {
    BlocksOps(a, a.funcs[f].blocks)
  }

  predicate CallsResolve(a: Arena, ops: seq<Instr>) {
    forall i :: 0 <= i < |ops| && ops[i].FunctionCall? ==> ops[i].callee in a.funcs
  }

  predicate IsImageLike(t: Type) {
    t.basetype == Image || t.basetype == SampledImage
  }

  /** The structural facts a validated module guarantees: every reference
      resolves to a record of the right kind, every allocated ID is below the
      bound, and an image's sampled type is a non-image type. */
  predicate WellFormed(a: Arena) {
    && a.entryPoint in a.funcs
    && (forall v :: v in a.vars ==> a.vars[v].basetype in a.types)
    && BlocksResolve(a)
    && (forall f :: f in a.funcs ==> CallsResolve(a, FuncOps(a, f)))
    && (forall g :: g in a.globalVariables ==> g in a.vars)
    && (forall id :: id in a.types ==> id < a.bound)
    && (forall id :: id in a.vars ==> id < a.bound)
    && (forall id :: id in a.funcs ==> id < a.bound)
    && (forall id :: id in a.blocks ==> id < a.bound)
    && (forall id :: id in a.meta ==> id < a.bound)
    && (forall t :: t in a.types && IsImageLike(a.types[t]) ==>
          a.types[t].image.sampledType in a.types && !IsImageLike(a.types[a.types[t].image.sampledType]))
  }
}
