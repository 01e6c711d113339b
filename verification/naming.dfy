/** Identifier rules of the Metal backend: display names of IDs and members,
    the transient-name and reserved-word prefixing, the function-name
    override table, the entry-point suffix, the per-function 'm' prefix and
    the builtin identifier table. */
module Naming {
  import opened Wrappers
  import opened Text
  import opened Ir

  /** Compiler::to_name: the alias when one is set, otherwise "_" followed by
      the decimal ID. */
  function BaseName(a: Arena, id: Id): (r: string)
    ensures DecOf(a, id).alias != "" ==> r == DecOf(a, id).alias
    ensures DecOf(a, id).alias == "" ==> r != [] && r[0] == '_' && ParseDecimal(r[1..]) == Some(id)
  {
    DecimalRoundTrip(id);
    DisplayName(MetaOf(a, id), id)
  }

  /** The same name, from the ID's own metadata record. */
  function DisplayName(m: Meta, id: Id): string {
    if m.decoration.alias != "" then m.decoration.alias else "_" + NatToDecimal(id)
  }

  /** CompilerMSL::to_name: while the entry function is being emitted, a
      non-empty qualified alias replaces the plain name. */
  function MslName(a: Arena, id: Id, inEntryFunction: bool): (r: string)
    ensures inEntryFunction && DecOf(a, id).qualifiedAlias != "" ==> r == DecOf(a, id).qualifiedAlias
    ensures !inEntryFunction || DecOf(a, id).qualifiedAlias == "" ==> r == BaseName(a, id)
  {
    if inEntryFunction && DecOf(a, id).qualifiedAlias != "" then DecOf(a, id).qualifiedAlias
    else BaseName(a, id)
  }

  /** Compiler::to_member_name: the member alias, or "_" and the index. */
  function MemberName(a: Arena, typeId: Id, index: nat): (r: string)
    ensures MemberDecOf(a, typeId, index).alias != "" ==> r == MemberDecOf(a, typeId, index).alias
    ensures MemberDecOf(a, typeId, index).alias == "" ==> r != [] && r[0] == '_' && ParseDecimal(r[1..]) == Some(index)
  {
    DecimalRoundTrip(index);
    var d := MemberDecOf(a, typeId, index);
    if d.alias != "" then d.alias else "_" + NatToDecimal(index)
  }

  /** A name of the form "_<digit>...", which the front end generates for
      unnamed IDs and which may change between passes. */
  predicate IsTransientName(name: string) {
    |name| >= 2 && name[0] == '_' && IsDigit(name[1])
  }

  /** ensure_valid_name: prefix transient and reserved names. */
  function EnsureValidName(name: string, pfx: string, reserved: set<string>): (r: string)
    ensures IsTransientName(name) || name in reserved ==> r == pfx + name
    ensures !IsTransientName(name) && name !in reserved ==> r == name
  {
    if IsTransientName(name) then pfx + name
    else if name in reserved then pfx + name
    else name
  }

  /** With a prefix that does not start with '_', the result is never a
      transient name. */
  lemma EnsureValidNameNotTransient(name: string, pfx: string, reserved: set<string>)
    requires pfx != [] && pfx[0] != '_'
    ensures !IsTransientName(EnsureValidName(name, pfx, reserved))
  {
  }

  /** Validating an already validated name changes nothing, unless the
      prefixed name is itself reserved. */
  lemma EnsureValidNameIdempotent(name: string, pfx: string, reserved: set<string>)
    requires pfx != [] && pfx[0] != '_'
    requires EnsureValidName(name, pfx, reserved) !in reserved
    ensures EnsureValidName(EnsureValidName(name, pfx, reserved), pfx, reserved)
            == EnsureValidName(name, pfx, reserved)
  {
  }

  /** Every generated default name is transient, so ensure_valid_name always
      prefixes the name of an unnamed ID. */
  lemma UnnamedIdGetsPrefix(a: Arena, id: Id, pfx: string, reserved: set<string>)
    requires DecOf(a, id).alias == ""
    ensures EnsureValidName(BaseName(a, id), pfx, reserved) == pfx + "_" + NatToDecimal(id)
  {
    var d := NatToDecimal(id);
    assert ("_" + d)[1] == d[0];
  }

  /** Names the Metal language reserves for its own functions. */
  const FuncNameOverrides: map<string, string> := map["main" := "main0", "saturate" := "saturate0"]

  /** clean_func_name: remap the two names that Metal reserves. */
  function CleanFuncName(name: string): (r: string)
    ensures r != "main" && r != "saturate"
    ensures name in FuncNameOverrides ==> r == name + "0"
    ensures name !in FuncNameOverrides ==> r == name
  {
    if name in FuncNameOverrides then FuncNameOverrides[name] else name
  }

  /** The override table is not injective: a user function already named
      "main0" renders exactly like the renamed "main". */
  lemma CleanFuncNameCollision()
    ensures CleanFuncName("main") == CleanFuncName("main0")
  {
  }

  /** set_entry_point_name: the entry point's alias, which always mentions
      "main". */
  function SetEntryPointName(a: Arena, name: string): (r: Arena)
    ensures Contains(DecOf(r, a.entryPoint).alias, "main")
    ensures StartsWith(DecOf(r, a.entryPoint).alias, name)
    ensures DecOf(r, a.entryPoint).alias == name <==> Contains(name, "main")
    ensures forall id :: id != a.entryPoint ==> MetaOf(r, id) == MetaOf(a, id)
    ensures r.types == a.types && r.vars == a.vars && r.funcs == a.funcs && r.blocks == a.blocks
  {
    var alias := if Contains(name, "main") then name else name + "_main";
    assert Contains(alias, "main") by {
      if !Contains(name, "main") {
        ContainsSuffix(name + "_", "main");
        assert alias == (name + "_") + "main";
      }
    }
    assert StartsWith(alias, name) by {
      assert alias[..|name|] == name;
    }
    SetDec(a, a.entryPoint, DecOf(a, a.entryPoint).(alias := alias))
  }

  /** The alias rewrite of emit_function_declarations, as written: prefix "m"
      unless the stored alias already starts with 'm'. An empty alias reads
      its terminating '\0' as first character and becomes "m". */
  function PrefixAlias(alias: string): (r: string)
    ensures r != [] && r[0] == 'm'
    ensures alias != [] && alias[0] == 'm' ==> r == alias
    ensures alias == [] || alias[0] != 'm' ==> r[1..] == alias
  {
    if alias == [] || alias[0] != 'm' then "m" + alias else alias
  }

  /** One emit_function_declarations pass over the given function IDs: only
      the alias of each non-entry function changes. */
  function PrefixFunctionAliases(a: Arena, fs: seq<Id>): (r: Arena)
    ensures forall f :: f in fs && f != a.entryPoint ==>
              MetaOf(r, f) == MetaOf(a, f).(decoration := DecOf(a, f).(alias := PrefixAlias(DecOf(a, f).alias)))
    ensures forall id :: id !in fs || id == a.entryPoint ==> MetaOf(r, id) == MetaOf(a, id)
    ensures r.entryPoint == a.entryPoint && r.funcs == a.funcs
    decreases |fs|
  {
    if fs == [] then a
    else
      var f := fs[0];
      var a1 := if f != a.entryPoint then SetDec(a, f, DecOf(a, f).(alias := PrefixAlias(DecOf(a, f).alias))) else a;
      PrefixFunctionAliases(a1, fs[1..])
  }

  /** The pass is idempotent, so the up to three compile passes leave the same
      metadata as one. */
  lemma PrefixPassIdempotent(a: Arena, fs: seq<Id>)
    ensures forall id :: MetaOf(PrefixFunctionAliases(PrefixFunctionAliases(a, fs), fs), id)
                         == MetaOf(PrefixFunctionAliases(a, fs), id)
  {
  }

  /** The rewrite evidently intended by emit_function_declarations: every
      non-entry function is emitted as "m" followed by its display name from
      before the first pass, so later passes cannot prefix twice and no name
      escapes the prefix. */
  function IntendedFunctionName(original: Arena, f: Id): (r: string)
    ensures StartsWith(r, "m") && r[1..] == BaseName(original, f)
  {
    "m" + BaseName(original, f)
  }

  /** Under the intended rewrite, two distinct unnamed functions keep
      distinct names. */
  lemma IntendedNamesDistinct(a: Arena, f: Id, g: Id)
    requires f != g
    requires DecOf(a, f).alias == "" && DecOf(a, g).alias == ""
    ensures IntendedFunctionName(a, f) != IntendedFunctionName(a, g)
  {
    assert BaseName(a, f) != BaseName(a, g);
  }


  /** As written, two distinct unnamed non-entry functions both end up with
      the alias "m", and a function named "max" is left as "max", the name of
      a Metal standard-library function. */
  lemma PrefixAliasCounterexamples(a: Arena, f: Id, g: Id)
    requires f != g && f != a.entryPoint && g != a.entryPoint
    requires DecOf(a, f).alias == "" && DecOf(a, g).alias == ""
    ensures DecOf(PrefixFunctionAliases(a, [f, g]), f).alias == "m"
    ensures DecOf(PrefixFunctionAliases(a, [f, g]), g).alias == "m"
    ensures PrefixAlias("max") == "max"
  {
  }

  /** builtin_to_glsl of the Metal backend: the vertex-input builtins are
      renamed, the output builtins are qualified by the stage-out struct
      inside the entry function, everything else falls back to the generic
      GLSL name. */
  function BuiltinName(b: BuiltIn, inEntryFunction: bool, stageOutName: string, glslName: BuiltIn -> string): (r: string)
    ensures b == VertexId ==> r == "gl_VertexID"
    ensures b == InstanceId ==> r == "gl_InstanceID"
    ensures b == VertexIndex ==> r == "gl_VertexIndex"
    ensures b == InstanceIndex ==> r == "gl_InstanceIndex"
    ensures b in {Position, PointSize, ClipDistance, Layer} && inEntryFunction ==> r == stageOutName + "." + glslName(b)
    ensures b !in {VertexId, InstanceId, VertexIndex, InstanceIndex} && !(b in {Position, PointSize, ClipDistance, Layer} && inEntryFunction) ==> r == glslName(b)
  {
    match b
    case VertexId => "gl_VertexID"
    case InstanceId => "gl_InstanceID"
    case VertexIndex => "gl_VertexIndex"
    case InstanceIndex => "gl_InstanceIndex"
    case Position | PointSize | ClipDistance | Layer =>
      if inEntryFunction then stageOutName + "." + glslName(b) else glslName(b)
    case _ => glslName(b)
  }

  /** The member name with its leading underscores removed. */
  function StripLeadingUnderscores(s: string): (r: string)
    ensures |r| <= |s| && s[|s| - |r|..] == r
    ensures forall i :: 0 <= i < |s| - |r| ==> s[i] == '_'
    ensures r == [] || r[0] != '_'
  {
    if s != [] && s[0] == '_' then StripLeadingUnderscores(s[1..]) else s
  }

  /** to_qualified_member_name: builtin members keep their builtin name,
      every other member is "<struct>_<member without leading '_'>". */
  function QualifiedMemberName(a: Arena, typeId: Id, index: nat, glslName: BuiltIn -> string): (r: string)
    ensures MemberDecOf(a, typeId, index).builtin ==>
              r == BuiltinName(MemberDecOf(a, typeId, index).builtinType, false, "", glslName)
    ensures !MemberDecOf(a, typeId, index).builtin ==>
              StartsWith(r, BaseName(a, typeId) + "_") &&
              r[|BaseName(a, typeId)| + 1..] == StripLeadingUnderscores(MemberName(a, typeId, index))
  {
    var d := MemberDecOf(a, typeId, index);
    if d.builtin then BuiltinName(d.builtinType, false, "", glslName)
    else
      var prefix := BaseName(a, typeId) + "_";
      var r := prefix + StripLeadingUnderscores(MemberName(a, typeId, index));
      assert r[..|prefix|] == prefix;
      r
  }
}
