/** The Metal rendering tables: type names, texture type names, builtin
    attribute qualifiers and declared builtin types, member attribute
    qualifiers, member locations and gather component arguments. */
module Render {
  import opened Wrappers
  import opened Text
  import opened Ir
  import opened Naming

  /** Compiler::is_scalar and Compiler::is_vector. */
  predicate IsScalar(t: Type) {
    t.vecsize == 1 && t.columns == 1
  }

  predicate IsVector(t: Type) {
    t.vecsize > 1 && t.columns == 1
  }

  /** The image records reachable from `t` resolve to a non-image sampled type. */
  predicate Renderable(a: Arena, t: Type) {
    IsImageLike(t) ==> t.image.sampledType in a.types && !IsImageLike(a.types[t.image.sampledType])
  }

  function PrecisionName(width: nat, narrow: string, wide: string): string {
    if width == 16 then narrow else wide
  }

  /** type_to_glsl of the Metal backend. A struct is named after the type it
      was declared as, so an unnamed one's name reads back as that ID; an
      image's name reads back as its texture shape and its pixel type's name. */
  function TypeToMsl(a: Arena, t: Type): (r: string)
    requires Renderable(a, t)
    ensures t.basetype == Struct && DecOf(a, t.self).alias != "" ==> r == DecOf(a, t.self).alias
    ensures t.basetype == Struct && DecOf(a, t.self).alias == "" ==> r != [] && ParseDecimal(r[1..]) == Some(t.self)
    ensures IsImageLike(t) && HasTextureName(t.image) ==>
              ParseImageTypeName(r) == Some((CanonicalShape(t.image), TypeToMsl(a, a.types[t.image.sampledType])))
    decreases if IsImageLike(t) then 1 else 0
  {
    match t.basetype
    case Struct => BaseName(a, t.self)
    case Image | SampledImage =>
      var pixel := TypeToMsl(a, a.types[t.image.sampledType]);
      ImageTypeNameRoundTrip(t.image, pixel);
      ImageTypeName(t.image, pixel)
    case Sampler => "sampler"
    case Void => "void"
    case _ =>
      if IsScalar(t) then
        match t.basetype
        case Boolean => "bool"
        case Char => "char"
        case Int => PrecisionName(t.width, "short", "int")
        case UInt => PrecisionName(t.width, "ushort", "uint")
        case AtomicCounter => "atomic_uint"
        case Float => PrecisionName(t.width, "half", "float")
        case _ => "unknown_type"
      else if IsVector(t) then
        match t.basetype
        case Boolean => "bool" + NatToDecimal(t.vecsize)
        case Char => "char" + NatToDecimal(t.vecsize)
        case Int => PrecisionName(t.width, "short", "int") + NatToDecimal(t.vecsize)
        case UInt => PrecisionName(t.width, "ushort", "uint") + NatToDecimal(t.vecsize)
        case Float => PrecisionName(t.width, "half", "float") + NatToDecimal(t.vecsize)
        case _ => "unknown_type"
      else
        match t.basetype
        case Boolean | Int | UInt | Float =>
          PrecisionName(t.width, "half", "float") + NatToDecimal(t.columns) + "x" + NatToDecimal(t.vecsize)
        case _ => "unknown_type"
  }

  predicate HasVectorForm(b: BaseType) {
    b == Boolean || b == Char || b == Int || b == UInt || b == Float
  }

  /** A vector's name is its scalar's name followed by the component count. */
  lemma VectorNameExtendsScalarName(a: Arena, t: Type)
    requires IsVector(t) && HasVectorForm(t.basetype)
    ensures TypeToMsl(a, t) == TypeToMsl(a, t.(vecsize := 1)) + NatToDecimal(t.vecsize)
  {
  }

  /** 16-bit and 32-bit numeric scalars and vectors render as different
      tokens. */
  lemma WidthDistinguishesNames(a: Arena, t: Type)
    requires t.columns == 1 && t.vecsize >= 1
    requires t.basetype == Int || t.basetype == UInt || t.basetype == Float
    ensures TypeToMsl(a, t.(width := 16)) != TypeToMsl(a, t.(width := 32))
  {
    if t.vecsize > 1 {
      var n := NatToDecimal(t.vecsize);
      var narrow := TypeToMsl(a, t.(width := 16));
      var wide := TypeToMsl(a, t.(width := 32));
      assert narrow[..|narrow| - |n|] != wide[..|wide| - |n|];
    }
  }

  /** A matrix name reads back as its column and row counts; the component
      type is lost except for its width (integer and boolean matrices render
      as floating-point ones). */
  lemma MatrixNameRoundTrip(a: Arena, t: Type)
    requires t.columns != 1 && t.vecsize >= 1
    requires t.basetype == Boolean || t.basetype == Int || t.basetype == UInt || t.basetype == Float
    ensures var s := TypeToMsl(a, t);
            var p := PrecisionName(t.width, "half", "float");
            StartsWith(s, p) && ParseDims(s[|p|..]) == Some((t.columns, t.vecsize))
  {
    var p := PrecisionName(t.width, "half", "float");
    var s := TypeToMsl(a, t);
    var c, r := NatToDecimal(t.columns), NatToDecimal(t.vecsize);
    assert s == p + (c + "x" + r);
    assert s[..|p|] == p;
    assert s[|p|..] == c + "x" + r;
    DimsRoundTrip(t.columns, t.vecsize);
  }

  /** Index of the first c in s, or |s| when there is none. */
  function IndexOf(s: string, c: char): (k: nat)
    ensures k <= |s|
    ensures k < |s| ==> s[k] == c
    ensures forall i :: 0 <= i < k ==> s[i] != c
  {
    if s == [] then 0 else if s[0] == c then 0 else 1 + IndexOf(s[1..], c)
  }

  /** Reads "<columns>x<rows>". */
  function ParseDims(s: string): Option<(nat, nat)> {
    var k := IndexOf(s, 'x');
    if k == |s| then None
    else
      match (ParseDecimal(s[..k]), ParseDecimal(s[k + 1..]))
      case (Some(c), Some(r)) => Some((c, r))
      case _ => None
  }

  lemma DimsRoundTrip(c: nat, r: nat)
    ensures ParseDims(NatToDecimal(c) + "x" + NatToDecimal(r)) == Some((c, r))
  {
    var dc, dr := NatToDecimal(c), NatToDecimal(r);
    var s := dc + "x" + dr;
    assert forall i :: 0 <= i < |dc| ==> s[i] == dc[i] && IsDigit(dc[i]);
    assert s[|dc|] == 'x';
    assert IndexOf(s, 'x') == |dc| by {
      IndexOfFirst(s, 'x', |dc|);
    }
    assert s[..|dc|] == dc && s[|dc| + 1..] == dr;
    DecimalRoundTrip(c);
    DecimalRoundTrip(r);
  }

  lemma IndexOfFirst(s: string, c: char, k: nat)
    requires k < |s| && s[k] == c
    requires forall i :: 0 <= i < k ==> s[i] != c
    ensures IndexOf(s, c) == k
  {
    if k > 0 {
      IndexOfFirst(s[1..], c, k - 1);
    }
  }

  /** image_type_glsl without the pixel type: the texture template name
      chosen by (depth, dimensionality, multisampled, arrayed). */
  function TextureBaseName(img: ImageInfo): (r: string)
    ensures HasTextureName(img) ==> ParseTextureName(r) == Some(CanonicalShape(img))
    ensures !HasTextureName(img) ==> ParseTextureName(r) == None
    ensures forall i :: 0 <= i < |r| ==> r[i] != '<'
  {
    if img.depth then
      match img.dim
      case Dim2D => if img.ms then "depth2d_ms" else if img.arrayed then "depth2d_array" else "depth2d"
      case DimCube => if img.arrayed then "depthcube_array" else "depthcube"
      case _ => "unknown_depth_texture_type"
    else
      match img.dim
      case Dim1D => if img.arrayed then "texture1d_array" else "texture1d"
      case DimBuffer | Dim2D => if img.ms then "texture2d_ms" else if img.arrayed then "texture2d_array" else "texture2d"
      case Dim3D => "texture3d"
      case DimCube => if img.arrayed then "texturecube_array" else "texturecube"
      case _ => "unknown_texture_type"
  }

  /** image_type_glsl: the texture template applied to the pixel type. */
  function ImageTypeName(img: ImageInfo, pixel: string): (r: string)
    ensures StartsWith(r, TextureBaseName(img))
    ensures r[|TextureBaseName(img)|..] == "<" + pixel + ">"
  {
    var base := TextureBaseName(img);
    var r := base + "<" + pixel + ">";
    assert r[..|base|] == base;
    assert r[|base|..] == "<" + pixel + ">";
    r
  }

  /** The shape a texture name can express. */
  datatype TextureShape = TextureShape(depth: bool, dim: Dim, arrayed: bool, ms: bool)

  predicate HasTextureName(img: ImageInfo) {
    if img.depth then img.dim == Dim2D || img.dim == DimCube
    else img.dim in {Dim1D, Dim2D, Dim3D, DimCube, DimBuffer}
  }

  /** What survives in the name: buffers render as 2D textures, only 2D
      textures record multisampling, and a multisampled or 3D texture drops
      the arrayed flag. */
  function CanonicalShape(img: ImageInfo): TextureShape {
    var dim := if img.dim == DimBuffer then Dim2D else img.dim;
    var ms := dim == Dim2D && img.ms;
    var arrayed := !ms && dim != Dim3D && img.arrayed;
    TextureShape(img.depth, dim, arrayed, ms)
  }

  /** Reads a texture template name back into the shape it denotes. */
  function ParseTextureName(s: string): Option<TextureShape> {
    match s
    case "depth2d_ms" => Some(TextureShape(true, Dim2D, false, true))
    case "depth2d_array" => Some(TextureShape(true, Dim2D, true, false))
    case "depth2d" => Some(TextureShape(true, Dim2D, false, false))
    case "depthcube_array" => Some(TextureShape(true, DimCube, true, false))
    case "depthcube" => Some(TextureShape(true, DimCube, false, false))
    case "texture1d_array" => Some(TextureShape(false, Dim1D, true, false))
    case "texture1d" => Some(TextureShape(false, Dim1D, false, false))
    case "texture2d_ms" => Some(TextureShape(false, Dim2D, false, true))
    case "texture2d_array" => Some(TextureShape(false, Dim2D, true, false))
    case "texture2d" => Some(TextureShape(false, Dim2D, false, false))
    case "texture3d" => Some(TextureShape(false, Dim3D, false, false))
    case "texturecube_array" => Some(TextureShape(false, DimCube, true, false))
    case "texturecube" => Some(TextureShape(false, DimCube, false, false))
    case _ => None
  }

  /** Reads "<template><<pixel>>" back into the shape and the pixel type. */
  function ParseImageTypeName(s: string): Option<(TextureShape, string)> {
    var k := IndexOf(s, '<');
    if k + 1 >= |s| || s[|s| - 1] != '>' then None
    else
      match ParseTextureName(s[..k])
      case Some(shape) => Some((shape, s[k + 1..|s| - 1]))
      case None => None
  }

  /** A full texture type name reads back as the image's canonical shape and
      the pixel type it was built from; an unsupported image's name reads
      back as nothing. */
  lemma ImageTypeNameRoundTrip(img: ImageInfo, pixel: string)
    ensures HasTextureName(img) ==> ParseImageTypeName(ImageTypeName(img, pixel)) == Some((CanonicalShape(img), pixel))
    ensures !HasTextureName(img) ==> ParseImageTypeName(ImageTypeName(img, pixel)) == None
  {
    var base, s := TextureBaseName(img), ImageTypeName(img, pixel);
    assert s == base + "<" + pixel + ">";
    IndexOfFirst(s, '<', |base|);
    assert s[..|base|] == base;
    assert s[|base| + 1..|s| - 1] == pixel;
  }

  /** builtin_qualifier: the Metal attribute name of a builtin. FragDepth
      takes the first of the depth execution modes that is declared, and
      falls through to the unsupported marker when none is. */
  function BuiltinQualifier(b: BuiltIn, exec: Execution): string {
    match b
    case VertexId => "vertex_id"
    case VertexIndex => "vertex_id"
    case InstanceId => "instance_id"
    case InstanceIndex => "instance_id"
    case ClipDistance => "clip_distance"
    case PointSize => "point_size"
    case Position => "position"
    case Layer => "render_target_array_index"
    case FrontFacing => "front_facing"
    case PointCoord => "point_coord"
    case FragCoord => "position"
    case SampleId => "sample_id"
    case SampleMask => "sample_mask"
    case FragDepth =>
      if DepthGreater in exec.modes then "depth(greater)"
      else if DepthLess in exec.modes then "depth(less)"
      else if DepthUnchanged in exec.modes then "depth(any)"
      else "unsupported-built-in"
    case _ => "unsupported-built-in"
  }

  const UnsupportedBuiltin := "unsupported-built-in"

  /** Builtins that Metal exposes through the same attribute. */
  predicate SameAttribute(b1: BuiltIn, b2: BuiltIn) {
    || b1 == b2
    || ((b1.VertexId? || b1.VertexIndex?) && (b2.VertexId? || b2.VertexIndex?))
    || ((b1.InstanceId? || b1.InstanceIndex?) && (b2.InstanceId? || b2.InstanceIndex?))
    || ((b1.Position? || b1.FragCoord?) && (b2.Position? || b2.FragCoord?))
  }

  /** Two supported builtins share an attribute name exactly when they
      denote the same Metal attribute. */
  lemma BuiltinQualifierCollisions(b1: BuiltIn, b2: BuiltIn, exec: Execution)
    requires b1 != FragDepth && b2 != FragDepth
    requires BuiltinQualifier(b1, exec) != UnsupportedBuiltin && BuiltinQualifier(b2, exec) != UnsupportedBuiltin
    ensures BuiltinQualifier(b1, exec) == BuiltinQualifier(b2, exec) <==> SameAttribute(b1, b2)
  {
    QualifierClassOf(b1, exec);
    QualifierClassOf(b2, exec);
    if BuiltinQualifier(b1, exec) == BuiltinQualifier(b2, exec) {
      SameClassSameAttribute(b1, b2);
    }
    if SameAttribute(b1, b2) {
      SameAttributeSameQualifier(b1, b2, exec);
    }
  }

  /** Builtins denoting the same attribute get the same attribute name. */
  lemma SameAttributeSameQualifier(b1: BuiltIn, b2: BuiltIn, exec: Execution)
    requires SameAttribute(b1, b2)
    ensures BuiltinQualifier(b1, exec) == BuiltinQualifier(b2, exec)
  {
  }

  /** Numbers the Metal attributes of the supported builtins other than the
      depth output. */
  function AttributeClass(b: BuiltIn): nat {
    match b
    case VertexId | VertexIndex => 0
    case InstanceId | InstanceIndex => 1
    case ClipDistance => 2
    case PointSize => 3
    case Position | FragCoord => 4
    case Layer => 5
    case FrontFacing => 6
    case PointCoord => 7
    case SampleId => 8
    case SampleMask => 9
    case _ => 10
  }

  /** Reads the attribute number back from an attribute name. */
  function QualifierClass(q: string): nat {
    if q == "vertex_id" then 0
    else if q == "instance_id" then 1
    else if q == "clip_distance" then 2
    else if q == "point_size" then 3
    else if q == "position" then 4
    else if q == "render_target_array_index" then 5
    else if q == "front_facing" then 6
    else if q == "point_coord" then 7
    else if q == "sample_id" then 8
    else if q == "sample_mask" then 9
    else 10
  }

  /** The attribute name of a supported builtin determines its attribute
      number, and builtins with the same number share an attribute. */
  lemma QualifierClassOf(b: BuiltIn, exec: Execution)
    requires b != FragDepth && BuiltinQualifier(b, exec) != UnsupportedBuiltin
    ensures QualifierClass(BuiltinQualifier(b, exec)) == AttributeClass(b) < 10
  {
  }

  /** Builtins with the same attribute number share an attribute. */
  lemma SameClassSameAttribute(b1: BuiltIn, b2: BuiltIn)
    requires AttributeClass(b1) == AttributeClass(b2) < 10
    ensures SameAttribute(b1, b2)
  {
  }

  /** The depth attribute follows the declared depth mode, preferring
      greater, then less, then unchanged. */
  lemma FragDepthQualifier(exec: Execution)
    ensures BuiltinQualifier(FragDepth, exec) != UnsupportedBuiltin <==>
            (DepthGreater in exec.modes || DepthLess in exec.modes || DepthUnchanged in exec.modes)
    ensures DepthGreater in exec.modes ==> BuiltinQualifier(FragDepth, exec) == "depth(greater)"
  {
  }

  /** builtin_type_decl: the Metal type of a builtin passed as an entry-point
      argument. */
  function BuiltinTypeDecl(b: BuiltIn): string {
    match b
    case VertexId | VertexIndex | InstanceId | InstanceIndex => "uint"
    case ClipDistance | PointSize => "float"
    case Position => "float4"
    case FrontFacing => "bool"
    case PointCoord => "float2"
    case FragCoord => "float4"
    case SampleId | SampleMask => "uint"
    case _ => "unsupported-built-in-type"
  }

  /** Every builtin that has a declared type also has an attribute, so an
      entry-point builtin argument is never emitted with a type but without
      its attribute. */
  lemma TypedBuiltinsHaveQualifier(b: BuiltIn, exec: Execution)
    requires BuiltinTypeDecl(b) != "unsupported-built-in-type"
    ensures BuiltinQualifier(b, exec) != UnsupportedBuiltin
  {
  }

  /** The IR type whose Metal rendering is the declared builtin type. */
  function BuiltinValueType(b: BuiltIn): Type {
    var scalar := Type(0, Float, 32, 1, 1, [], false, Input, [], ImageInfo(0, Dim2D, false, false, false));
    match b
    case VertexId | VertexIndex | InstanceId | InstanceIndex | SampleId | SampleMask => scalar.(basetype := UInt)
    case FrontFacing => scalar.(basetype := Boolean)
    case PointCoord => scalar.(vecsize := 2)
    case Position | FragCoord => scalar.(vecsize := 4)
    case _ => scalar
  }

  /** The builtin type table agrees with the type renderer on the type of
      each builtin value. */
  lemma BuiltinTypeDeclIsRenderedType(a: Arena, b: BuiltIn)
    requires BuiltinTypeDecl(b) != "unsupported-built-in-type"
    ensures BuiltinTypeDecl(b) == TypeToMsl(a, BuiltinValueType(b))
  {
    if BuiltinValueType(b).vecsize == 1 {
      ScalarBuiltinRendered(a, b);
    } else {
      VectorBuiltinRendered(a, b);
    }
  }

  /** The scalar builtins' half of BuiltinTypeDeclIsRenderedType. */
  lemma ScalarBuiltinRendered(a: Arena, b: BuiltIn)
    requires BuiltinTypeDecl(b) != "unsupported-built-in-type" && BuiltinValueType(b).vecsize == 1
    ensures BuiltinTypeDecl(b) == TypeToMsl(a, BuiltinValueType(b))
  {
    var t := BuiltinValueType(b);
    assert IsScalar(t) && t.width == 32;
  }

  /** The vector builtins' half of BuiltinTypeDeclIsRenderedType. */
  lemma VectorBuiltinRendered(a: Arena, b: BuiltIn)
    requires BuiltinTypeDecl(b) != "unsupported-built-in-type" && BuiltinValueType(b).vecsize != 1
    ensures BuiltinTypeDecl(b) == TypeToMsl(a, BuiltinValueType(b))
  {
    var t := BuiltinValueType(b);
    assert IsVector(t) && t.basetype == Float && t.width == 32;
    assert NatToDecimal(2) == "2" && NatToDecimal(4) == "4";
  }

  /** get_ordered_member_location: an explicit Location decoration wins,
      otherwise the member index stands in for the location. */
  function OrderedMemberLocation(a: Arena, typeId: Id, index: nat): (r: nat)
    ensures index < |MetaOf(a, typeId).members| && DecorationLocation in MemberDecOf(a, typeId, index).flags
            ==> r == MemberDecOf(a, typeId, index).location
    ensures !(index < |MetaOf(a, typeId).members| && DecorationLocation in MemberDecOf(a, typeId, index).flags)
            ==> r == index
  {
    var m := MetaOf(a, typeId);
    if index < |m.members| && DecorationLocation in m.members[index].flags then m.members[index].location
    else index
  }

  /** member_attribute_qualifier: the attribute after a member of the
      interface struct `typeId`, chosen by the execution model, the struct's
      storage class and whether the member is a builtin. */
  function MemberAttributeQualifier(a: Arena, exec: Execution, typeId: Id, index: nat, isRenderingPoints: bool): string
    requires typeId in a.types
  {
    var storage := a.types[typeId].storage;
    var d := MemberDecOf(a, typeId, index);
    var locn := NatToDecimal(OrderedMemberLocation(a, typeId, index));
    var q := " [[" + BuiltinQualifier(d.builtinType, exec) + "]]";
    if exec.model == Vertex && storage == Input then
      if d.builtin then
        (if d.builtinType in {VertexId, VertexIndex, InstanceId, InstanceIndex} then q else "")
      else " [[attribute(" + locn + ")]]"
    else if exec.model == Vertex && storage == Output then
      if d.builtin then
        match d.builtinType
        case ClipDistance => " /* [[clip_distance]] built-in not yet supported under Metal. */"
        case PointSize => if isRenderingPoints then q else ""
        case Position | Layer => q
        case _ => ""
      else " [[user(locn" + locn + ")]]"
    else if exec.model == Fragment && storage == Input then
      if d.builtin then
        (if d.builtinType in {FrontFacing, PointCoord, FragCoord, SampleId, SampleMask, Layer} then q else "")
      else " [[user(locn" + locn + ")]]"
    else if exec.model == Fragment && storage == Output then
      if d.builtin then
        (if d.builtinType in {SampleMask, FragDepth} then q else "")
      else " [[color(" + locn + ")]]"
    else ""
  }

  /** Reads back the number inside an attribute of the form
      prefix + digits + ")]]". */
  function AttributeNumber(s: string, prefix: string): Option<nat> {
    if StartsWith(s, prefix) && |s| >= |prefix| + 3 && s[|s| - 3..] == ")]]" then
      ParseDecimal(s[|prefix|..|s| - 3])
    else None
  }

  /** The attribute prefix Metal uses for a user-defined member of an
      interface struct, if any. */
  function LocationAttributePrefix(model: ExecutionModel, storage: StorageClass): Option<string> {
    if model == Vertex && storage == Input then Some(" [[attribute(")
    else if (model == Vertex && storage == Output) || (model == Fragment && storage == Input) then Some(" [[user(locn")
    else if model == Fragment && storage == Output then Some(" [[color(")
    else None
  }

  /** For every non-builtin member of a vertex or fragment interface struct,
      the attribute carries the member's ordered location and nothing else:
      reading the number back yields that location. Any other member of a
      struct outside those four stage/direction pairs gets no attribute. */
  lemma MemberAttributeCarriesLocation(a: Arena, exec: Execution, typeId: Id, index: nat, pts: bool)
    requires typeId in a.types && !MemberDecOf(a, typeId, index).builtin
    ensures var p := LocationAttributePrefix(exec.model, a.types[typeId].storage);
            var s := MemberAttributeQualifier(a, exec, typeId, index, pts);
            (p.Some? ==> AttributeNumber(s, p.value) == Some(OrderedMemberLocation(a, typeId, index)))
            && (p.None? ==> s == "")
  {
    var p := LocationAttributePrefix(exec.model, a.types[typeId].storage);
    var s := MemberAttributeQualifier(a, exec, typeId, index, pts);
    var n := OrderedMemberLocation(a, typeId, index);
    if p.Some? {
      var d := NatToDecimal(n);
      assert s == p.value + d + ")]]";
      assert s[..|p.value|] == p.value;
      assert s[|s| - 3..] == ")]]";
      assert s[|p.value|..|s| - 3] == d;
      DecimalRoundTrip(n);
    }
  }

  /** The vertex-stage Position output member carries Metal's position
      attribute. */
  lemma VertexPositionAttribute(a: Arena, exec: Execution, typeId: Id, index: nat, pts: bool)
    requires typeId in a.types && a.types[typeId].storage == Output && exec.model == Vertex
    requires MemberDecOf(a, typeId, index).builtin && MemberDecOf(a, typeId, index).builtinType == Position
    ensures MemberAttributeQualifier(a, exec, typeId, index, pts) == " [[position]]"
  {
  }

  /** to_component_argument: the gather component selector. `constant` is the
      scalar value of the operand when it is an OpConstant, None otherwise. */
  function ComponentArgument(constant: Option<nat>): (r: Result<string>)
    ensures r.Ok? <==> constant.Some? && constant.value < 4
    ensures constant.None? ==> r == Err(NotAConstant)
    ensures constant.Some? && constant.value >= 4 ==> r == Err(BadComponentIndex)
    ensures r.Ok? ==> StartsWith(r.value, "component::") && |r.value| == 12 &&
                      r.value[11] == "xyzw"[constant.value]
  {
    match constant
    case None => Err(NotAConstant)
    case Some(k) =>
      if k == 0 then Ok("component::x")
      else if k == 1 then Ok("component::y")
      else if k == 2 then Ok("component::z")
      else if k == 3 then Ok("component::w")
      else Err(BadComponentIndex)
  }
}
