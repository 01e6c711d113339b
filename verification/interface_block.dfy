/** add_interface_block: the stage-in or stage-out struct the Metal backend
    synthesises from the entry point's interface variables. Qualifying
    variables are flattened into members of a fresh struct type, the
    variables' references are redirected through the new block variable,
    and the members are sorted for Metal. */
module InterfaceBlock {
  import opened Wrappers
  import opened Ir
  import opened Naming
  import MemberSort

  /** What the rest of the compiler supplies: the entry point's name, the
      names of the stage block variables, the reserved words, the base-class
      queries interface_variable_exists_in_entry_point, is_hidden_variable
      and to_expression, the generic builtin names, and the locations that
      carry a vertex attribute. */
  datatype Env = Env(
    entryName: string,
    stageInName: string,
    stageOutName: string,
    stageUniformName: string,
    reserved: set<string>,
    inEntryInterface: Id -> bool,
    hidden: (Id, bool) -> bool,
    expression: Id -> string,
    glslName: BuiltIn -> string,
    vertexAttrs: set<nat>)

  /** ib_var_ref: the name the block variable is referenced by. */
  function BlockVarName(storage: StorageClass, env: Env): string {
    match storage
    case Input => env.stageInName
    case Output => env.stageOutName
    case UniformConstant => env.stageUniformName
    case _ => ""
  }

  /** The filter on variables: the requested storage class, used by the
      entry point, not hidden (builtins count only for outputs) and of
      pointer type. */
  predicate IsCandidate(a: Arena, env: Env, storage: StorageClass, v: Id) {
    && v in a.vars && a.vars[v].storage == storage
    && env.inEntryInterface(v) && !env.hidden(v, storage == Output)
    && a.vars[v].basetype in a.types && a.types[a.vars[v].basetype].pointer
  }

  /** The qualifying variables in the order the ID vector is walked. */
  function Candidates(a: Arena, env: Env, storage: StorageClass): (r: seq<Id>)
    ensures forall v: Id :: v in r <==> v < a.bound && IsCandidate(a, env, storage, v)
    ensures forall i, j :: 0 <= i < j < |r| ==> r[i] < r[j]
  {
    AscendingIds(set v | v in a.vars && IsCandidate(a, env, storage, v), 0, a.bound)
  }

  /** The scalar kinds that are copied into the block as a single member. */
  predicate IsScalarKind(b: BaseType) {
    b == Boolean || b == Char || b == Int || b == UInt || b == Int64 || b == UInt64 || b == Float || b == Double
  }

  /** Where a member's qualified name is written back: a member of the
      variable's struct type, or the variable itself. */
  datatype Target = MemberOf(typeId: Id, index: nat) | VariableOf(id: Id)

  /** One member of the block as flattening produces it, with the location
      that is reported to the vertex-attribute table. */
  datatype Entry = Entry(member: MemberSort.Member, target: Target, location: nat)

  /** get_member_decoration(.., DecorationLocation): 0 when not decorated. */
  function MemberLocation(a: Arena, typeId: Id, index: nat): (r: nat)
    ensures DecorationLocation in MemberDecOf(a, typeId, index).flags ==> r == MemberDecOf(a, typeId, index).location
    ensures DecorationLocation !in MemberDecOf(a, typeId, index).flags ==> r == 0
  {
    var d := MemberDecOf(a, typeId, index);
    if DecorationLocation in d.flags then d.location else 0
  }

  /** The builtin part of a block member's decoration, copied from the
      source's builtin flag. */
  function WithBuiltin(d: Dec, builtin: bool, b: BuiltIn): Dec {
    if builtin then d.(flags := d.flags + {DecorationBuiltIn}, builtin := true, builtinType := b) else d
  }

  /** The block member for member `index` of the struct reached through the
      pointer type `typeId`. The name and the builtin flag are read from the
      struct's own record (`self`), as to_qualified_member_name and
      is_member_builtin do; the location is read from, and the qualified name
      later written back to, the record of `typeId` itself. The member
      always carries its location and, when the source member is a builtin,
      is decorated BuiltIn with the same builtin kind. */
  function StructEntry(a: Arena, env: Env, typeId: Id, index: nat): (e: Entry)
    requires typeId in a.types && index < |a.types[typeId].memberTypes|
    ensures var self := a.types[typeId].self;
            && e.member.typeId == a.types[typeId].memberTypes[index]
            && e.member.dec.alias == EnsureValidName(QualifiedMemberName(a, self, index, env.glslName), "m", env.reserved)
            && (e.member.dec.builtin <==> MemberDecOf(a, self, index).builtin)
            && (DecorationBuiltIn in e.member.dec.flags <==> MemberDecOf(a, self, index).builtin)
            && (MemberDecOf(a, self, index).builtin ==> e.member.dec.builtinType == MemberDecOf(a, self, index).builtinType)
            && DecorationLocation in e.member.dec.flags
            && e.member.dec.location == e.location == MemberLocation(a, typeId, index)
            && e.target == MemberOf(typeId, index)
  {
    var self := a.types[typeId].self;
    var src := MemberDecOf(a, self, index);
    var name := EnsureValidName(QualifiedMemberName(a, self, index, env.glslName), "m", env.reserved);
    var locn := MemberLocation(a, typeId, index);
    var dec := EmptyDec.(alias := name, flags := {DecorationLocation}, location := locn);
    Entry(MemberSort.Member(a.types[typeId].memberTypes[index], WithBuiltin(dec, src.builtin, src.builtinType)),
          MemberOf(typeId, index), locn)
  }

  /** The block member for a scalar variable: named by the validated
      expression for the variable, carrying its location only when the
      variable is decorated with one, and the variable's builtin kind when it
      is a builtin. */
  function ScalarEntry(a: Arena, env: Env, v: Id): (e: Entry)
    requires v in a.vars
    ensures && e.member.typeId == a.vars[v].basetype
            && e.member.dec.alias == EnsureValidName(env.expression(v), "m", env.reserved)
            && (DecorationLocation in e.member.dec.flags <==> DecorationLocation in DecOf(a, v).flags)
            && (DecorationLocation in DecOf(a, v).flags ==> e.member.dec.location == DecOf(a, v).location)
            && (e.member.dec.builtin <==> DecOf(a, v).builtin)
            && (DecorationBuiltIn in e.member.dec.flags <==> DecOf(a, v).builtin)
            && (DecOf(a, v).builtin ==> e.member.dec.builtinType == DecOf(a, v).builtinType)
            && e.location == DecOf(a, v).location
            && e.target == VariableOf(v)
  {
    var src := DecOf(a, v);
    var name := EnsureValidName(env.expression(v), "m", env.reserved);
    var dec := if DecorationLocation in src.flags
               then EmptyDec.(alias := name, flags := {DecorationLocation}, location := src.location)
               else EmptyDec.(alias := name);
    Entry(MemberSort.Member(a.vars[v].basetype, WithBuiltin(dec, src.builtin, src.builtinType)),
          VariableOf(v), src.location)
  }

  /** The members one variable contributes. */
  function VariableEntries(a: Arena, env: Env, v: Id): (r: seq<Entry>)
    requires v in a.vars && a.vars[v].basetype in a.types
  {
    var typeId := a.vars[v].basetype;
    var t := a.types[typeId];
    if t.basetype == Struct then seq(|t.memberTypes|, i requires 0 <= i < |t.memberTypes| => StructEntry(a, env, typeId, i))
    else if IsScalarKind(t.basetype) then [ScalarEntry(a, env, v)]
    else []
  }

  predicate Typed(a: Arena, vs: seq<Id>) {
    forall v :: v in vs ==> v in a.vars && a.vars[v].basetype in a.types
  }

  /** The members of the block before sorting, variable after variable. */
  function Flatten(a: Arena, env: Env, vs: seq<Id>): seq<Entry>
    requires Typed(a, vs)
  {
    if vs == [] then [] else VariableEntries(a, env, vs[0]) + Flatten(a, env, vs[1..])
  }

  /** Reference count: a struct variable gives one member per member type, a
      scalar variable one, anything else none. */
  function MemberCount(a: Arena, vs: seq<Id>): nat
    requires Typed(a, vs)
  {
    if vs == [] then 0
    else
      var t := a.types[a.vars[vs[0]].basetype];
      (if t.basetype == Struct then |t.memberTypes| else if IsScalarKind(t.basetype) then 1 else 0)
      + MemberCount(a, vs[1..])
  }

  lemma {:induction false} FlattenCount(a: Arena, env: Env, vs: seq<Id>)
    requires Typed(a, vs)
    ensures |Flatten(a, env, vs)| == MemberCount(a, vs)
  {
    if vs != [] {
      assert Typed(a, vs[1..]) by {
        forall v | v in vs[1..] ensures v in vs { }
      }
      FlattenCount(a, env, vs[1..]);
    }
  }

  /** Every member a qualifying variable contributes is in the flattening. */
  lemma {:induction false} FlattenContains(a: Arena, env: Env, vs: seq<Id>, v: Id)
    requires Typed(a, vs) && v in vs
    ensures forall e :: e in VariableEntries(a, env, v) ==> e in Flatten(a, env, vs)
  {
    if vs[0] != v {
      assert Typed(a, vs[1..]) by {
        forall x | x in vs[1..] ensures x in vs { }
      }
      FlattenContains(a, env, vs[1..], v);
    }
  }

  /** The type a record was declared as (`self`); an ID without a type
      record stands for itself. */
  function DeclaredAs(a: Arena, typeId: Id): Id {
    if typeId in a.types then a.types[typeId].self else typeId
  }

  /** The qualified name written back for a target: the block reference, a
      dot, and the member name the target's block member receives. */
  function QualifiedFor(a: Arena, env: Env, ref: string, t: Target): string {
    match t
    case MemberOf(typeId, index) =>
      ref + "." + EnsureValidName(QualifiedMemberName(a, DeclaredAs(a, typeId), index, env.glslName), "m", env.reserved)
    case VariableOf(v) => ref + "." + EnsureValidName(env.expression(v), "m", env.reserved)
  }

  /** Each block member's write-back target receives the block reference
      followed by "." and that member's own name. */
  lemma {:induction false} FlattenQualified(a: Arena, env: Env, ref: string, vs: seq<Id>)
    requires Typed(a, vs)
    ensures forall e :: e in Flatten(a, env, vs) ==>
              QualifiedFor(a, env, ref, e.target) == ref + "." + e.member.dec.alias
  {
    if vs != [] {
      assert Typed(a, vs[1..]) by {
        forall v | v in vs[1..] ensures v in vs { }
      }
      FlattenQualified(a, env, ref, vs[1..]);
      var head := VariableEntries(a, env, vs[0]);
      forall e | e in head ensures QualifiedFor(a, env, ref, e.target) == ref + "." + e.member.dec.alias {
      }
      assert forall e :: e in Flatten(a, env, vs) ==> e in head || e in Flatten(a, env, vs[1..]);
    }
  }

  /** A decoration without its qualified alias. */
  function Unqualified(d: Dec): Dec {
    d.(qualifiedAlias := "")
  }

  /** Two arenas that differ at most in their metadata. */
  predicate SameButMeta(a: Arena, r: Arena) {
    && r.types == a.types && r.vars == a.vars && r.funcs == a.funcs && r.blocks == a.blocks
    && r.bound == a.bound && r.globalVariables == a.globalVariables && r.entryPoint == a.entryPoint
  }

  /** set_member_qualified_name, or the direct write of a variable's
      qualified alias. */
  function SetQualified(a: Arena, t: Target, q: string): (r: Arena)
    ensures SameButMeta(a, r)
  {
    match t
    case MemberOf(id, i) => SetMemberDec(a, id, i, MemberDecOf(a, id, i).(qualifiedAlias := q))
    case VariableOf(v) => SetDec(a, v, DecOf(a, v).(qualifiedAlias := q))
  }

  /** One write-back seen from one struct member. */
  lemma SetQualifiedMember(a: Arena, t: Target, x: string, id: Id, j: nat)
    ensures MemberDecOf(SetQualified(a, t, x), id, j).qualifiedAlias
            == if t == MemberOf(id, j) then x else MemberDecOf(a, id, j).qualifiedAlias
    ensures Unqualified(MemberDecOf(SetQualified(a, t, x), id, j)) == Unqualified(MemberDecOf(a, id, j))
  {
  }

  /** One write-back seen from one variable. */
  lemma SetQualifiedVariable(a: Arena, t: Target, x: string, v: Id)
    ensures DecOf(SetQualified(a, t, x), v).qualifiedAlias == if t == VariableOf(v) then x else DecOf(a, v).qualifiedAlias
    ensures Unqualified(DecOf(SetQualified(a, t, x), v)) == Unqualified(DecOf(a, v))
  {
  }

  /** QualifiedFor as a function value, computed on the arena before the
      block is added. */
  function Qualifier(a: Arena, env: Env, ref: string): (q: Target -> string)
    ensures forall t :: q(t) == QualifiedFor(a, env, ref, t)
  {
    t => QualifiedFor(a, env, ref, t)
  }

  /** The write-backs of a flattening, in order, each target receiving the
      name `q` gives it; only metadata changes. */
  function ApplyQualified(a: Arena, ts: seq<Target>, q: Target -> string): (r: Arena)
    ensures SameButMeta(a, r)
    decreases |ts|
  {
    if ts == [] then a else ApplyQualified(SetQualified(a, ts[0], q(ts[0])), ts[1..], q)
  }

  /** A targeted struct member ends with the qualified name `q` gives it, any
      other keeps its own; no other field of the member record changes. */
  lemma {:induction false} ApplyQualifiedMember(a: Arena, ts: seq<Target>, q: Target -> string, id: Id, j: nat)
    ensures MemberOf(id, j) in ts ==> MemberDecOf(ApplyQualified(a, ts, q), id, j).qualifiedAlias == q(MemberOf(id, j))
    ensures MemberOf(id, j) !in ts ==>
              MemberDecOf(ApplyQualified(a, ts, q), id, j).qualifiedAlias == MemberDecOf(a, id, j).qualifiedAlias
    ensures Unqualified(MemberDecOf(ApplyQualified(a, ts, q), id, j)) == Unqualified(MemberDecOf(a, id, j))
    decreases |ts|
  {
    if ts != [] {
      var a1 := SetQualified(a, ts[0], q(ts[0]));
      ApplyQualifiedMember(a1, ts[1..], q, id, j);
      SetQualifiedMember(a, ts[0], q(ts[0]), id, j);
      assert MemberOf(id, j) in ts <==> MemberOf(id, j) == ts[0] || MemberOf(id, j) in ts[1..];
    }
  }

  /** A targeted variable ends with the qualified name `q` gives it, any
      other keeps its own; no other field of its decoration changes. */
  lemma {:induction false} ApplyQualifiedVariable(a: Arena, ts: seq<Target>, q: Target -> string, v: Id)
    ensures VariableOf(v) in ts ==> DecOf(ApplyQualified(a, ts, q), v).qualifiedAlias == q(VariableOf(v))
    ensures VariableOf(v) !in ts ==> DecOf(ApplyQualified(a, ts, q), v).qualifiedAlias == DecOf(a, v).qualifiedAlias
    ensures Unqualified(DecOf(ApplyQualified(a, ts, q), v)) == Unqualified(DecOf(a, v))
    decreases |ts|
  {
    if ts != [] {
      var a1 := SetQualified(a, ts[0], q(ts[0]));
      ApplyQualifiedVariable(a1, ts[1..], q, v);
      SetQualifiedVariable(a, ts[0], q(ts[0]), v);
      assert VariableOf(v) in ts <==> VariableOf(v) == ts[0] || VariableOf(v) in ts[1..];
    }
  }

  function Members(es: seq<Entry>): (r: seq<MemberSort.Member>)
    ensures |r| == |es| && forall i :: 0 <= i < |es| ==> r[i] == es[i].member
  {
    if es == [] then [] else [es[0].member] + Members(es[1..])
  }

  function Targets(es: seq<Entry>): (r: seq<Target>)
    ensures |r| == |es| && forall i :: 0 <= i < |es| ==> r[i] == es[i].target
  {
    if es == [] then [] else [es[0].target] + Targets(es[1..])
  }

  /** Fragment inputs and vertex outputs are finally sorted by name. */
  predicate SortsAlphabetically(storage: StorageClass, exec: Execution) {
    (exec.model == Fragment && storage == Input) || (exec.model == Vertex && storage == Output)
  }

  /** The order the block's members end in: by name where the second sort
      runs, otherwise descending locations for inputs and ascending ones for
      everything else. */
  function FinalAspect(storage: StorageClass, exec: Execution): MemberSort.SortAspect {
    if SortsAlphabetically(storage, exec) then MemberSort.Alphabetical
    else if storage == Input then MemberSort.LocationReverse
    else MemberSort.Location
  }

  /** The two MemberSorter passes over the flattened members. */
  function SortBlock(storage: StorageClass, exec: Execution, ms: seq<MemberSort.Member>): (r: MemberSort.Sorted)
    ensures |r.memberTypes| == |ms| && |r.members| == |ms|
    ensures multiset(MemberSort.Zip(r.memberTypes, r.members)) == multiset(ms)
    ensures MemberSort.DecsSorted(FinalAspect(storage, exec), r.members)
  {
    var first := MemberSort.Sort(if storage == Input then MemberSort.LocationReverse else MemberSort.Location,
                                 MemberSort.TypeIds(ms), MemberSort.Decs(ms));
    assert MemberSort.Zip(MemberSort.TypeIds(ms), MemberSort.Decs(ms)) == ms;
    if SortsAlphabetically(storage, exec) then
      var second := MemberSort.Sort(MemberSort.Alphabetical, first.memberTypes, first.members);
      assert second.members[..|first.memberTypes|] == second.members;
      second
    else
      assert first.members[..|ms|] == first.members;
      first
  }

  /** The fresh struct type of the block, declared at `ibType`. */
  function BlockType(ibType: Id, storage: StorageClass, memberTypes: seq<Id>): Type {
    Type(ibType, Struct, 0, 1, 1, [], false, storage, memberTypes, ImageInfo(0, Dim1D, false, false, false))
  }

  /** The records of the block: the struct type at `ibType`, decorated Block
      and named `typeName`, with the sorted members; the block variable right
      after it, named `ref`, whose initializer takes the third ID. */
  function InstallBlock(a: Arena, ibType: Id, storage: StorageClass, sorted: MemberSort.Sorted, typeName: string, ref: string): (r: Arena)
    ensures r.bound == ibType + 3 && r.funcs == a.funcs && r.blocks == a.blocks
    ensures r.entryPoint == a.entryPoint && r.globalVariables == a.globalVariables
    ensures r.types == a.types[ibType := BlockType(ibType, storage, sorted.memberTypes)]
    ensures r.vars == a.vars[ibType + 1 := Variable(ibType, storage, ibType + 2)]
    ensures DecOf(r, ibType).alias == typeName && DecorationBlock in DecOf(r, ibType).flags
    ensures MetaOf(r, ibType).members == sorted.members
    ensures DecOf(r, ibType + 1).alias == ref
  {
    var typeMeta := Meta(Dec(typeName, "", {DecorationBlock}, 0, false, Position, 0, 0, 0, 0), sorted.members);
    var varMeta := Meta(Dec(ref, "", {}, 0, false, Position, 0, 0, 0, 0), []);
    a.(bound := ibType + 3,
       types := a.types[ibType := BlockType(ibType, storage, sorted.memberTypes)],
       vars := a.vars[ibType + 1 := Variable(ibType, storage, ibType + 2)],
       meta := a.meta[ibType := typeMeta][ibType + 1 := varMeta])
  }

  /** InstallBlock leaves the metadata of every other ID alone. */
  lemma InstallBlockKeepsMeta(a: Arena, ibType: Id, storage: StorageClass, sorted: MemberSort.Sorted, typeName: string, ref: string, id: Id)
    requires id != ibType && id != ibType + 1
    ensures MetaOf(InstallBlock(a, ibType, storage, sorted, typeName, ref), id) == MetaOf(a, id)
  {
  }

  /** The output block becomes a local of the entry function, and every block
      of the entry function that returns now returns the block variable. */
  function ReturnBlockVariable(a: Arena, ibVar: Id): (r: Arena)
    requires a.entryPoint in a.funcs
    ensures r.types == a.types && r.vars == a.vars && r.meta == a.meta && r.bound == a.bound
    ensures r.entryPoint == a.entryPoint && r.globalVariables == a.globalVariables
    ensures r.funcs.Keys == a.funcs.Keys
    ensures forall f :: f in a.funcs && f != a.entryPoint ==> r.funcs[f] == a.funcs[f]
    ensures r.funcs[a.entryPoint].locals == a.funcs[a.entryPoint].locals + [ibVar]
    ensures r.funcs[a.entryPoint].params == a.funcs[a.entryPoint].params
    ensures r.funcs[a.entryPoint].blocks == a.funcs[a.entryPoint].blocks
    ensures r.blocks.Keys == a.blocks.Keys
    ensures forall b :: b in a.blocks ==> r.blocks[b].ops == a.blocks[b].ops && r.blocks[b].terminator == a.blocks[b].terminator
    ensures forall b :: b in a.blocks ==>
              r.blocks[b].returnValue
              == if b in a.funcs[a.entryPoint].blocks && a.blocks[b].terminator == Return then ibVar else a.blocks[b].returnValue
  {
    var entry := a.funcs[a.entryPoint];
    a.(funcs := a.funcs[a.entryPoint := entry.(locals := entry.locals + [ibVar])],
       blocks := map b | b in a.blocks ::
                   if b in entry.blocks && a.blocks[b].terminator == Return
                   then a.blocks[b].(returnValue := ibVar) else a.blocks[b])
  }

  /** The storage-specific step: only an output block is wired into the
      entry function's returns. */
  function WireBlock(a: Arena, storage: StorageClass, ibVar: Id): (r: Arena)
    requires a.entryPoint in a.funcs
    ensures r.types == a.types && r.vars == a.vars && r.meta == a.meta && r.bound == a.bound
    ensures r.entryPoint == a.entryPoint && r.globalVariables == a.globalVariables
    ensures storage != Output ==> r == a
  {
    if storage == Output then ReturnBlockVariable(a, ibVar) else a
  }

  /** mark_location_as_used_by_shader over the flattened members: only a
      vertex shader's inputs mark the attributes at their locations. */
  function Marked(exec: Execution, storage: StorageClass, es: seq<Entry>, attrs: set<nat>): set<nat> {
    if exec.model == Vertex && storage == Input then set e | e in es && e.location in attrs :: e.location else {}
  }

  /** A block member that stands for the Position builtin. */
  predicate IsPositionEntry(e: Entry) {
    e.member.dec.builtin && e.member.dec.builtinType == Position
  }

  /** qual_pos_var_name: the qualified name of the last Position member, if
      any; found exactly when some member is the Position builtin. */
  function PositionName(ref: string, es: seq<Entry>): (r: Option<string>)
    ensures r.None? <==> forall k :: 0 <= k < |es| ==> !IsPositionEntry(es[k])
    ensures r.Some? ==> exists k :: && 0 <= k < |es| && IsPositionEntry(es[k])
                                    && r.value == ref + "." + es[k].member.dec.alias
                                    && forall j :: k < j < |es| ==> !IsPositionEntry(es[j])
    decreases |es|
  {
    if es == [] then None
    else
      var last := |es| - 1;
      if IsPositionEntry(es[last]) then Some(ref + "." + es[last].member.dec.alias)
      else
        var r := PositionName(ref, es[..last]);
        assert forall k :: 0 <= k < last ==> es[..last][k] == es[k];
        r
  }

  /** The outcome: the arena, the block variable (0 for none), the attribute
      locations marked as used, and the new qualified Position name if one
      was found. */
  datatype BlockResult = BlockResult(arena: Arena, ibVar: Id, marked: set<nat>, position: Option<string>)

  /** The arena after the block is added for a non-empty flattening whose
      members, sorted, are `sorted`: the qualified names are written back,
      three IDs are taken from the bound for the struct type, the block
      variable and its initializer, and an output block is returned by every
      returning block of the entry function. */
  function BlockArena(a: Arena, env: Env, storage: StorageClass, es: seq<Entry>, sorted: MemberSort.Sorted): (r: Arena)
    requires a.entryPoint in a.funcs
    ensures r.bound == a.bound + 3
  {
    var ref := BlockVarName(storage, env);
    var a1 := ApplyQualified(a, Targets(es), Qualifier(a, env, ref));
    var a2 := InstallBlock(a1, a.bound, storage, sorted, env.entryName + "_" + ref, ref);
    WireBlock(a2, storage, a.bound + 1)
  }

  /** The whole outcome for a non-empty flattening: the new arena, the block
      variable at the second fresh ID, the marked attribute locations and
      the Position member's qualified name. */
  function BuildBlock(a: Arena, env: Env, exec: Execution, storage: StorageClass, es: seq<Entry>): (r: BlockResult)
    requires a.entryPoint in a.funcs
    ensures r.ibVar == a.bound + 1 && r.arena.bound == a.bound + 3
  {
    BlockResult(BlockArena(a, env, storage, es, SortBlock(storage, exec, Members(es))), a.bound + 1,
                Marked(exec, storage, es, env.vertexAttrs), PositionName(BlockVarName(storage, env), es))
  }

  /** The block type added at the first fresh ID: a struct of the block's
      storage class whose member types and member records are the sorted
      ones. */
  lemma BlockArenaType(a: Arena, env: Env, storage: StorageClass, es: seq<Entry>, sorted: MemberSort.Sorted, r: Arena)
    requires a.entryPoint in a.funcs
    requires r == BlockArena(a, env, storage, es, sorted)
    ensures a.bound in r.types
    ensures r.types[a.bound].basetype == Struct && r.types[a.bound].storage == storage
    ensures r.types[a.bound].memberTypes == sorted.memberTypes && MetaOf(r, a.bound).members == sorted.members
  {
  }

  /** The block type is decorated Block and named after the entry point and
      the block reference. */
  lemma BlockArenaTypeName(a: Arena, env: Env, storage: StorageClass, es: seq<Entry>, sorted: MemberSort.Sorted, r: Arena)
    requires a.entryPoint in a.funcs
    requires r == BlockArena(a, env, storage, es, sorted)
    ensures DecOf(r, a.bound).alias == env.entryName + "_" + BlockVarName(storage, env)
    ensures DecorationBlock in DecOf(r, a.bound).flags
  {
  }

  /** The block variable added at the second fresh ID: of the block type and
      storage class, named by the block reference, with the third fresh ID
      as its initializer. */
  lemma BlockArenaVariable(a: Arena, env: Env, storage: StorageClass, es: seq<Entry>, sorted: MemberSort.Sorted, r: Arena)
    requires a.entryPoint in a.funcs
    requires r == BlockArena(a, env, storage, es, sorted)
    ensures a.bound + 1 in r.vars && r.vars[a.bound + 1] == Variable(a.bound, storage, a.bound + 2)
    ensures DecOf(r, a.bound + 1).alias == BlockVarName(storage, env)
  {
  }

  /** Adding the block keeps the entry point, the global variable list and
      every existing type. */
  lemma BlockArenaKeepsTypes(a: Arena, env: Env, storage: StorageClass, es: seq<Entry>, sorted: MemberSort.Sorted, r: Arena)
    requires a.entryPoint in a.funcs
    requires forall t :: t in a.types ==> t < a.bound
    requires r == BlockArena(a, env, storage, es, sorted)
    ensures r.entryPoint == a.entryPoint && r.globalVariables == a.globalVariables
    ensures forall t :: t in a.types ==> t in r.types && r.types[t] == a.types[t]
  {
  }

  /** Adding the block keeps every existing variable. */
  lemma BlockArenaKeepsVars(a: Arena, env: Env, storage: StorageClass, es: seq<Entry>, sorted: MemberSort.Sorted, r: Arena)
    requires a.entryPoint in a.funcs
    requires forall v :: v in a.vars ==> v < a.bound
    requires r == BlockArena(a, env, storage, es, sorted)
    ensures forall v :: v in a.vars ==> v in r.vars && r.vars[v] == a.vars[v]
  {
  }

  /** The write-back on a member of an existing struct type: a member some
      block member stands for receives the block reference, a dot and that
      block member's name; every other keeps its qualified name; nothing else
      in the member's record changes. */
  lemma BlockArenaQualifiedMember(a: Arena, env: Env, storage: StorageClass, es: seq<Entry>, sorted: MemberSort.Sorted, r: Arena, t: Id, i: nat)
    requires a.entryPoint in a.funcs
    requires r == BlockArena(a, env, storage, es, sorted)
    requires t < a.bound
    ensures MemberOf(t, i) in Targets(es) ==>
              MemberDecOf(r, t, i).qualifiedAlias == QualifiedFor(a, env, BlockVarName(storage, env), MemberOf(t, i))
    ensures MemberOf(t, i) !in Targets(es) ==> MemberDecOf(r, t, i).qualifiedAlias == MemberDecOf(a, t, i).qualifiedAlias
    ensures Unqualified(MemberDecOf(r, t, i)) == Unqualified(MemberDecOf(a, t, i))
  {
    var ref := BlockVarName(storage, env);
    var a1 := ApplyQualified(a, Targets(es), Qualifier(a, env, ref));
    ApplyQualifiedMember(a, Targets(es), Qualifier(a, env, ref), t, i);
    InstallBlockKeepsMeta(a1, a.bound, storage, sorted, env.entryName + "_" + ref, ref, t);
  }

  /** The write-back on an existing variable: a scalar variable some block
      member stands for receives the block reference, a dot and that
      member's name; every other keeps its qualified name; nothing else in
      its decoration changes. */
  lemma BlockArenaQualifiedVariable(a: Arena, env: Env, storage: StorageClass, es: seq<Entry>, sorted: MemberSort.Sorted, r: Arena, v: Id)
    requires a.entryPoint in a.funcs
    requires r == BlockArena(a, env, storage, es, sorted)
    requires v < a.bound
    ensures VariableOf(v) in Targets(es) ==>
              DecOf(r, v).qualifiedAlias == QualifiedFor(a, env, BlockVarName(storage, env), VariableOf(v))
    ensures VariableOf(v) !in Targets(es) ==> DecOf(r, v).qualifiedAlias == DecOf(a, v).qualifiedAlias
    ensures Unqualified(DecOf(r, v)) == Unqualified(DecOf(a, v))
  {
    var ref := BlockVarName(storage, env);
    var a1 := ApplyQualified(a, Targets(es), Qualifier(a, env, ref));
    ApplyQualifiedVariable(a, Targets(es), Qualifier(a, env, ref), v);
    InstallBlockKeepsMeta(a1, a.bound, storage, sorted, env.entryName + "_" + ref, ref, v);
  }

  /** Only an output block touches the functions: it becomes the last local
      of the entry function. */
  lemma BlockArenaLocals(a: Arena, env: Env, storage: StorageClass, es: seq<Entry>, sorted: MemberSort.Sorted, r: Arena)
    requires a.entryPoint in a.funcs
    requires r == BlockArena(a, env, storage, es, sorted)
    ensures storage != Output ==> r.funcs == a.funcs
    ensures storage == Output ==> r.funcs.Keys == a.funcs.Keys
    ensures storage == Output ==> forall f :: f in a.funcs && f != a.entryPoint ==> r.funcs[f] == a.funcs[f]
    ensures storage == Output ==> r.funcs[a.entryPoint].locals == a.funcs[a.entryPoint].locals + [a.bound + 1]
    ensures storage == Output ==> r.funcs[a.entryPoint].params == a.funcs[a.entryPoint].params
    ensures storage == Output ==> r.funcs[a.entryPoint].blocks == a.funcs[a.entryPoint].blocks
  {
  }

  /** Only an output block touches the basic blocks: every block of the entry
      function that ends in a return now returns the block variable; nothing
      else changes. */
  lemma BlockArenaReturns(a: Arena, env: Env, storage: StorageClass, es: seq<Entry>, sorted: MemberSort.Sorted, r: Arena)
    requires a.entryPoint in a.funcs
    requires r == BlockArena(a, env, storage, es, sorted)
    ensures storage != Output ==> r.blocks == a.blocks
    ensures r.blocks.Keys == a.blocks.Keys
    ensures forall b :: b in a.blocks ==> r.blocks[b].ops == a.blocks[b].ops && r.blocks[b].terminator == a.blocks[b].terminator
    ensures forall b :: b in a.blocks ==>
              r.blocks[b].returnValue
              == if storage == Output && b in a.funcs[a.entryPoint].blocks && a.blocks[b].terminator == Return
                 then a.bound + 1 else a.blocks[b].returnValue
  {
  }

  /** A member type and member record sit side by side in a type. */
  predicate InBlock(r: Arena, ib: Id, m: MemberSort.Member) {
    && ib in r.types
    && exists k :: && 0 <= k < |r.types[ib].memberTypes| && k < |MetaOf(r, ib).members|
                   && r.types[ib].memberTypes[k] == m.typeId && MetaOf(r, ib).members[k] == m.dec
  }

  /** Every flattened member ends up in the block, its type still paired
      with its record. */
  lemma BlockHasEntry(a: Arena, env: Env, exec: Execution, storage: StorageClass, es: seq<Entry>, e: Entry, r: Arena)
    requires a.entryPoint in a.funcs
    requires r == BlockArena(a, env, storage, es, SortBlock(storage, exec, Members(es)))
    requires e in es
    ensures InBlock(r, a.bound, e.member)
  {
    var sorted := SortBlock(storage, exec, Members(es));
    BlockArenaType(a, env, storage, es, sorted, r);
    var z := MemberSort.Zip(sorted.memberTypes, sorted.members);
    assert e.member in multiset(Members(es)) by {
      var k :| 0 <= k < |es| && es[k] == e;
      assert Members(es)[k] == e.member;
    }
    assert e.member in multiset(z);
    var k :| 0 <= k < |z| && z[k] == e.member;
    assert MemberSort.TypeIds(z)[k] == e.member.typeId && MemberSort.Decs(z)[k] == e.member.dec;
  }

  /** A flattened member's write-back target ends with the block reference,
      a dot and the member's name, provided that is the name it was to get. */
  lemma BlockQualifiesEntry(a: Arena, env: Env, storage: StorageClass, es: seq<Entry>, sorted: MemberSort.Sorted, e: Entry, r: Arena)
    requires a.entryPoint in a.funcs
    requires r == BlockArena(a, env, storage, es, sorted)
    requires e in es
    requires QualifiedFor(a, env, BlockVarName(storage, env), e.target) == BlockVarName(storage, env) + "." + e.member.dec.alias
    ensures e.target.MemberOf? && e.target.typeId < a.bound ==>
              MemberDecOf(r, e.target.typeId, e.target.index).qualifiedAlias == BlockVarName(storage, env) + "." + e.member.dec.alias
    ensures e.target.VariableOf? && e.target.id < a.bound ==>
              DecOf(r, e.target.id).qualifiedAlias == BlockVarName(storage, env) + "." + e.member.dec.alias
  {
    var k :| 0 <= k < |es| && es[k] == e;
    assert Targets(es)[k] == e.target;
    match e.target
    case MemberOf(t, i) =>
      if t < a.bound {
        BlockArenaQualifiedMember(a, env, storage, es, sorted, r, t, i);
      }
    case VariableOf(v) =>
      if v < a.bound {
        BlockArenaQualifiedVariable(a, env, storage, es, sorted, r, v);
      }
  }

  /** The flattened members of the qualifying variables. */
  function BlockEntries(a: Arena, env: Env, storage: StorageClass): (r: seq<Entry>)
    requires WellFormed(a)
  {
    Flatten(a, env, Candidates(a, env, storage))
  }

  /** add_interface_block. With no qualifying variable nothing changes and 0
      is returned; otherwise the block is built from the flattened members of
      the qualifying variables. */
  function AddInterfaceBlock(a: Arena, env: Env, exec: Execution, storage: StorageClass): (r: BlockResult)
    requires WellFormed(a)
  {
    if Candidates(a, env, storage) == [] then BlockResult(a, 0, {}, None)
    else BuildBlock(a, env, exec, storage, BlockEntries(a, env, storage))
  }

  /** No block is added (0 is returned and nothing changes) exactly when no
      variable passes the filter; otherwise the block variable is the second
      of three IDs taken from the bound. */
  lemma AddInterfaceBlockAbsent(a: Arena, env: Env, exec: Execution, storage: StorageClass)
    requires WellFormed(a)
    ensures AddInterfaceBlock(a, env, exec, storage).ibVar == 0
            <==> forall v :: v in a.vars ==> !IsCandidate(a, env, storage, v)
    ensures AddInterfaceBlock(a, env, exec, storage).ibVar == 0
            ==> AddInterfaceBlock(a, env, exec, storage) == BlockResult(a, 0, {}, None)
    ensures AddInterfaceBlock(a, env, exec, storage).ibVar != 0
            ==> && AddInterfaceBlock(a, env, exec, storage).ibVar == a.bound + 1
                && AddInterfaceBlock(a, env, exec, storage).arena.bound == a.bound + 3
  {
    CandidatesEmpty(a, env, storage);
  }

  /** Under a well-formed arena, the walk over the IDs finds nothing exactly
      when no variable qualifies. */
  lemma CandidatesEmpty(a: Arena, env: Env, storage: StorageClass)
    requires WellFormed(a)
    ensures Candidates(a, env, storage) == [] <==> forall v :: v in a.vars ==> !IsCandidate(a, env, storage, v)
  {
    var cands := Candidates(a, env, storage);
    if cands != [] {
      assert cands[0] in cands;
    }
    forall v | v in a.vars && IsCandidate(a, env, storage, v) ensures v in cands { }
  }

  /** When some variable qualifies, the block is built from the flattened
      members of the qualifying variables. */
  lemma AddInterfaceBlockBuilds(a: Arena, env: Env, exec: Execution, storage: StorageClass)
    requires WellFormed(a) && Candidates(a, env, storage) != []
    ensures AddInterfaceBlock(a, env, exec, storage).arena
            == BlockArena(a, env, storage, BlockEntries(a, env, storage), SortBlock(storage, exec, Members(BlockEntries(a, env, storage))))
    ensures AddInterfaceBlock(a, env, exec, storage).marked == Marked(exec, storage, BlockEntries(a, env, storage), env.vertexAttrs)
    ensures AddInterfaceBlock(a, env, exec, storage).position == PositionName(BlockVarName(storage, env), BlockEntries(a, env, storage))
  {
  }

  /** The block has one member per member type of each qualifying struct
      variable and one per qualifying scalar variable. */
  lemma AddInterfaceBlockMemberCount(a: Arena, env: Env, exec: Execution, storage: StorageClass)
    requires WellFormed(a) && Candidates(a, env, storage) != []
    ensures a.bound in AddInterfaceBlock(a, env, exec, storage).arena.types
    ensures |AddInterfaceBlock(a, env, exec, storage).arena.types[a.bound].memberTypes| == MemberCount(a, Candidates(a, env, storage))
    ensures |MetaOf(AddInterfaceBlock(a, env, exec, storage).arena, a.bound).members| == MemberCount(a, Candidates(a, env, storage))
  {
    var es := BlockEntries(a, env, storage);
    var sorted := SortBlock(storage, exec, Members(es));
    AddInterfaceBlockBuilds(a, env, exec, storage);
    BlockArenaType(a, env, storage, es, sorted, AddInterfaceBlock(a, env, exec, storage).arena);
    FlattenCount(a, env, Candidates(a, env, storage));
  }

  /** The block's members are the flattened members rearranged, each member
      type staying paired with its record, in the final order: by name for
      fragment inputs and vertex outputs, by descending location for other
      inputs, by ascending location otherwise. */
  lemma AddInterfaceBlockMembers(a: Arena, env: Env, exec: Execution, storage: StorageClass)
    requires WellFormed(a) && Candidates(a, env, storage) != []
    ensures a.bound in AddInterfaceBlock(a, env, exec, storage).arena.types
    ensures |AddInterfaceBlock(a, env, exec, storage).arena.types[a.bound].memberTypes|
            == |MetaOf(AddInterfaceBlock(a, env, exec, storage).arena, a.bound).members|
    ensures multiset(MemberSort.Zip(AddInterfaceBlock(a, env, exec, storage).arena.types[a.bound].memberTypes,
                                    MetaOf(AddInterfaceBlock(a, env, exec, storage).arena, a.bound).members))
            == multiset(Members(BlockEntries(a, env, storage)))
    ensures MemberSort.DecsSorted(FinalAspect(storage, exec), MetaOf(AddInterfaceBlock(a, env, exec, storage).arena, a.bound).members)
  {
    var es := BlockEntries(a, env, storage);
    var sorted := SortBlock(storage, exec, Members(es));
    AddInterfaceBlockBuilds(a, env, exec, storage);
    BlockArenaType(a, env, storage, es, sorted, AddInterfaceBlock(a, env, exec, storage).arena);
  }

  /** Each member of a qualifying struct variable's type is flattened, and
      each qualifying scalar variable is. */
  lemma EntriesOfCandidate(a: Arena, env: Env, storage: StorageClass, v: Id)
    requires WellFormed(a) && IsCandidate(a, env, storage, v)
    ensures forall e :: e in VariableEntries(a, env, v) ==> e in BlockEntries(a, env, storage)
  {
    assert v in Candidates(a, env, storage);
    FlattenContains(a, env, Candidates(a, env, storage), v);
  }

  /** Each member of a qualifying struct variable's type becomes a block
      member: its StructEntry, named by the validated qualified member name
      and carrying the member's location. */
  lemma AddInterfaceBlockStructMember(a: Arena, env: Env, exec: Execution, storage: StorageClass, v: Id, i: nat)
    requires WellFormed(a) && IsCandidate(a, env, storage, v)
    requires a.types[a.vars[v].basetype].basetype == Struct && i < |a.types[a.vars[v].basetype].memberTypes|
    ensures InBlock(AddInterfaceBlock(a, env, exec, storage).arena, a.bound, StructEntry(a, env, a.vars[v].basetype, i).member)
  {
    var es := BlockEntries(a, env, storage);
    var e := StructEntry(a, env, a.vars[v].basetype, i);
    EntriesOfCandidate(a, env, storage, v);
    assert VariableEntries(a, env, v)[i] == e;
    AddInterfaceBlockBuilds(a, env, exec, storage);
    BlockHasEntry(a, env, exec, storage, es, e, AddInterfaceBlock(a, env, exec, storage).arena);
  }

  /** The qualified name of each member of a qualifying struct variable's
      type becomes the block reference, a dot and the block member's name. */
  lemma AddInterfaceBlockStructQualified(a: Arena, env: Env, exec: Execution, storage: StorageClass, v: Id, i: nat)
    requires WellFormed(a) && IsCandidate(a, env, storage, v)
    requires a.types[a.vars[v].basetype].basetype == Struct && i < |a.types[a.vars[v].basetype].memberTypes|
    ensures MemberDecOf(AddInterfaceBlock(a, env, exec, storage).arena, a.vars[v].basetype, i).qualifiedAlias
            == BlockVarName(storage, env) + "." + StructEntry(a, env, a.vars[v].basetype, i).member.dec.alias
  {
    var es := BlockEntries(a, env, storage);
    var e := StructEntry(a, env, a.vars[v].basetype, i);
    EntriesOfCandidate(a, env, storage, v);
    assert VariableEntries(a, env, v)[i] == e;
    AddInterfaceBlockBuilds(a, env, exec, storage);
    FlattenQualified(a, env, BlockVarName(storage, env), Candidates(a, env, storage));
    BlockQualifiesEntry(a, env, storage, es, SortBlock(storage, exec, Members(es)), e, AddInterfaceBlock(a, env, exec, storage).arena);
  }

  /** A qualifying scalar variable becomes one block member: its
      ScalarEntry, named by the validated expression for the variable. */
  lemma AddInterfaceBlockScalarMember(a: Arena, env: Env, exec: Execution, storage: StorageClass, v: Id)
    requires WellFormed(a) && IsCandidate(a, env, storage, v)
    requires IsScalarKind(a.types[a.vars[v].basetype].basetype)
    ensures InBlock(AddInterfaceBlock(a, env, exec, storage).arena, a.bound, ScalarEntry(a, env, v).member)
  {
    var es := BlockEntries(a, env, storage);
    var e := ScalarEntry(a, env, v);
    EntriesOfCandidate(a, env, storage, v);
    assert VariableEntries(a, env, v)[0] == e;
    AddInterfaceBlockBuilds(a, env, exec, storage);
    BlockHasEntry(a, env, exec, storage, es, e, AddInterfaceBlock(a, env, exec, storage).arena);
  }

  /** The qualified name of a qualifying scalar variable becomes the block
      reference, a dot and its block member's name. */
  lemma AddInterfaceBlockScalarQualified(a: Arena, env: Env, exec: Execution, storage: StorageClass, v: Id)
    requires WellFormed(a) && IsCandidate(a, env, storage, v)
    requires IsScalarKind(a.types[a.vars[v].basetype].basetype)
    ensures DecOf(AddInterfaceBlock(a, env, exec, storage).arena, v).qualifiedAlias == BlockVarName(storage, env) + "." + ScalarEntry(a, env, v).member.dec.alias
  {
    var es := BlockEntries(a, env, storage);
    var e := ScalarEntry(a, env, v);
    EntriesOfCandidate(a, env, storage, v);
    assert VariableEntries(a, env, v)[0] == e;
    AddInterfaceBlockBuilds(a, env, exec, storage);
    FlattenQualified(a, env, BlockVarName(storage, env), Candidates(a, env, storage));
    BlockQualifiesEntry(a, env, storage, es, SortBlock(storage, exec, Members(es)), e, AddInterfaceBlock(a, env, exec, storage).arena);
  }

  /** Only a vertex shader's input block marks attribute locations: exactly
      the attribute locations some block member carries. */
  lemma AddInterfaceBlockMarks(a: Arena, env: Env, exec: Execution, storage: StorageClass, res: BlockResult)
    requires WellFormed(a)
    requires res == AddInterfaceBlock(a, env, exec, storage)
    ensures !(exec.model == Vertex && storage == Input) ==> res.marked == {}
    ensures forall loc :: loc in res.marked <==>
              && exec.model == Vertex && storage == Input && loc in env.vertexAttrs
              && exists e :: e in BlockEntries(a, env, storage) && e.location == loc
  {
    if Candidates(a, env, storage) != [] {
      AddInterfaceBlockBuilds(a, env, exec, storage);
    }
  }
}
