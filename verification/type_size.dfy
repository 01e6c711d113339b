/** get_declared_type_size: the byte size the Metal backend gives a type as
    declared in a buffer. Structs are measured by the base compiler, opaque
    types have no size, a strided array is its stride times its outermost
    length, and matrices are padded for three-component accesses. The
    source computes in 32-bit unsigned and 64-bit size_t arithmetic; both
    wrap-arounds are written out. */
module TypeSize {
  import opened Wrappers
  import opened Ir

  const Modulus32: nat := 0x1_0000_0000
  const Modulus64: nat := 0x1_0000_0000_0000_0000

  /** A product of two 32-bit unsigned operands, kept in 32 bits. */
  function MulU32(x: nat, y: nat): (r: nat)
    ensures r < Modulus32
    ensures (x * y - r) % Modulus32 == 0
    ensures x * y < Modulus32 ==> r == x * y
  {
    (x * y) % Modulus32
  }

  /** A product in size_t, kept in 64 bits. */
  function MulU64(x: nat, y: nat): (r: nat)
    ensures r < Modulus64
    ensures (x * y - r) % Modulus64 == 0
    ensures x * y < Modulus64 ==> r == x * y
  {
    (x * y) % Modulus64
  }

  /** Base types with no byte size: asking for one is a fatal error. */
  predicate OpaqueSized(b: BaseType) {
    b.Unknown? || b.Void? || b.AtomicCounter? || b.Image? || b.SampledImage? || b.Sampler?
  }

  /** The matrix dimensions after padding: RowMajor with three columns counts
      four columns; otherwise ColMajor with three rows counts four rows. */
  function PaddedShape(vecsize: nat, columns: nat, decMask: set<Decoration>): (r: (nat, nat))
    ensures DecorationRowMajor in decMask && columns == 3 ==> r == (vecsize, 4)
    ensures !(DecorationRowMajor in decMask && columns == 3) && DecorationColMajor in decMask && vecsize == 3 ==> r == (4, columns)
    ensures !(DecorationRowMajor in decMask && columns == 3) && !(DecorationColMajor in decMask && vecsize == 3) ==> r == (vecsize, columns)
    ensures r.0 >= vecsize && r.1 >= columns
    ensures r.0 == vecsize || r.1 == columns
  {
    if DecorationRowMajor in decMask && columns == 3 then (vecsize, 4)
    else if DecorationColMajor in decMask && vecsize == 3 then (4, columns)
    else (vecsize, columns)
  }

  /** get_declared_type_size(type_id, dec_mask) for the type `t` whose own
      decoration is `dec`; `structSize` is the base compiler's
      get_declared_struct_size. */
  function DeclaredTypeSize(t: Type, dec: Dec, decMask: set<Decoration>, structSize: Type -> nat): (r: Result<nat>)
    ensures t.basetype == Struct ==> r == Ok(structSize(t))
    ensures r.Err? <==> OpaqueSized(t.basetype)
    ensures r.Err? ==> r.error == OpaqueSize
    ensures !OpaqueSized(t.basetype) && t.basetype != Struct && t.arraySizes != [] && DecorationArrayStride in dec.flags ==>
              r == Ok(MulU32(dec.arrayStride, t.arraySizes[|t.arraySizes| - 1]))
    ensures r.Ok? && t.basetype != Struct && !(t.arraySizes != [] && DecorationArrayStride in dec.flags) ==>
              r.value < Modulus64
  {
    if t.basetype == Struct then Ok(structSize(t))
    else if OpaqueSized(t.basetype) then Err(OpaqueSize)
    else if t.arraySizes != [] && DecorationArrayStride in dec.flags then
      Ok(MulU32(dec.arrayStride, t.arraySizes[|t.arraySizes| - 1]))
    else if t.columns == 1 then Ok(MulU64(t.vecsize, t.width / 8))
    else
      var (rows, cols) := PaddedShape(t.vecsize, t.columns, decMask);
      Ok(MulU64(MulU32(rows, cols), t.width / 8))
  }

  /** get_declared_type_size(type_id): measured under the type's own
      decoration mask. */
  function DeclaredTypeSizeOf(a: Arena, typeId: Id, structSize: Type -> nat): (r: Result<nat>)
    requires typeId in a.types
    ensures r.Err? <==> OpaqueSized(a.types[typeId].basetype)
  {
    DeclaredTypeSize(a.types[typeId], DecOf(a, typeId), DecOf(a, typeId).flags, structSize)
  }

  /** get_declared_struct_member_size: the member type measured under the
      decoration mask of the member, read from the struct's own record. */
  function DeclaredMemberSize(a: Arena, structId: Id, index: nat, structSize: Type -> nat): (r: Result<nat>)
    requires structId in a.types && index < |a.types[structId].memberTypes|
    requires a.types[structId].memberTypes[index] in a.types
    ensures r.Err? <==> OpaqueSized(a.types[a.types[structId].memberTypes[index]].basetype)
  {
    var m := a.types[structId].memberTypes[index];
    DeclaredTypeSize(a.types[m], DecOf(a, m), MemberDecOf(a, a.types[structId].self, index).flags, structSize)
  }

  /** A sized, non-struct type that is not measured through an array stride. */
  predicate MeasuredByShape(t: Type, dec: Dec) {
    !OpaqueSized(t.basetype) && t.basetype != Struct && !(t.arraySizes != [] && DecorationArrayStride in dec.flags)
  }

  /** Small shapes, as SPIR-V allows them: at most four rows and four
      columns, components of at most 64 bits. No product wraps for them. */
  predicate SmallShape(t: Type) {
    1 <= t.vecsize <= 4 && 1 <= t.columns <= 4 && t.width <= 64
  }

  /** A vector or scalar is its components laid end to end, whatever the
      layout decorations say. */
  lemma VectorSize(t: Type, dec: Dec, decMask: set<Decoration>, structSize: Type -> nat)
    requires MeasuredByShape(t, dec) && SmallShape(t) && t.columns == 1
    ensures DeclaredTypeSize(t, dec, decMask, structSize) == Ok(t.vecsize * (t.width / 8))
    ensures DeclaredTypeSize(t, dec, decMask, structSize) == DeclaredTypeSize(t, dec, {}, structSize)
  {
    assert t.vecsize * (t.width / 8) <= 4 * 8 by {
      assert t.width / 8 <= 8;
    }
  }

  /** A column-major matrix is its columns laid end to end, each measured as
      the column vector padded to four components when it has three. */
  lemma ColumnMajorMatrixIsColumns(t: Type, dec: Dec, structSize: Type -> nat)
    requires MeasuredByShape(t, dec) && SmallShape(t) && t.columns > 1
    ensures var column := t.(columns := 1, vecsize := if t.vecsize == 3 then 4 else t.vecsize);
            DeclaredTypeSize(t, dec, {DecorationColMajor}, structSize).Ok?
            && DeclaredTypeSize(column, dec, {}, structSize).Ok?
            && DeclaredTypeSize(t, dec, {DecorationColMajor}, structSize).value
               == t.columns * DeclaredTypeSize(column, dec, {}, structSize).value
  {
    var rows := if t.vecsize == 3 then 4 else t.vecsize;
    var w := t.width / 8;
    assert w <= 8;
    assert rows * t.columns <= 16 by {
      assert rows <= 4;
    }
    assert rows * w <= 32;
    assert rows * t.columns * w <= 128;
    assert t.columns * (rows * w) == rows * t.columns * w;
  }

  /** A row-major matrix is its rows laid end to end, each row being the
      columns padded to four when there are three. */
  lemma RowMajorMatrixIsRows(t: Type, dec: Dec, structSize: Type -> nat)
    requires MeasuredByShape(t, dec) && SmallShape(t) && t.columns > 1
    ensures var row := t.(columns := 1, vecsize := if t.columns == 3 then 4 else t.columns);
            DeclaredTypeSize(t, dec, {DecorationRowMajor}, structSize).Ok?
            && DeclaredTypeSize(row, dec, {}, structSize).Ok?
            && DeclaredTypeSize(t, dec, {DecorationRowMajor}, structSize).value
               == t.vecsize * DeclaredTypeSize(row, dec, {}, structSize).value
  {
    var cols := if t.columns == 3 then 4 else t.columns;
    var w := t.width / 8;
    assert w <= 8;
    assert t.vecsize * cols <= 16 by {
      assert cols <= 4;
    }
    assert cols * w <= 32;
    assert t.vecsize * cols * w <= 128;
    assert t.vecsize * (cols * w) == t.vecsize * cols * w;
  }

  /** RowMajor takes precedence: a three-by-three matrix decorated with both
      layouts is padded in its columns only. */
  lemma RowMajorTakesPrecedence(t: Type, dec: Dec, structSize: Type -> nat)
    requires MeasuredByShape(t, dec) && t.columns == 3 && t.vecsize == 3
    ensures DeclaredTypeSize(t, dec, {DecorationRowMajor, DecorationColMajor}, structSize)
            == DeclaredTypeSize(t, dec, {DecorationRowMajor}, structSize)
            == Ok(MulU64(12, t.width / 8))
  {
  }

  /** An array without an ArrayStride decoration is measured as one element:
      the shape of its element, whatever its lengths. */
  lemma UnstridedArrayIsElement(t: Type, dec: Dec, decMask: set<Decoration>, structSize: Type -> nat)
    requires t.basetype != Struct && DecorationArrayStride !in dec.flags
    ensures DeclaredTypeSize(t, dec, decMask, structSize) == DeclaredTypeSize(t.(arraySizes := []), dec, decMask, structSize)
  {
  }

  /** Only the outermost length of a strided array counts: the inner lengths
      are already folded into the stride. */
  lemma StridedArrayIgnoresInnerLengths(t: Type, dec: Dec, decMask: set<Decoration>, inner: seq<nat>, structSize: Type -> nat)
    requires !OpaqueSized(t.basetype) && t.basetype != Struct && t.arraySizes != [] && DecorationArrayStride in dec.flags
    ensures DeclaredTypeSize(t.(arraySizes := inner + [t.arraySizes[|t.arraySizes| - 1]]), dec, decMask, structSize)
            == DeclaredTypeSize(t, dec, decMask, structSize)
  {
  }

  /** The stride product wraps at 2^32, as it is computed in 32-bit unsigned
      arithmetic before widening to size_t. */
  lemma StrideProductWraps(t: Type, dec: Dec, structSize: Type -> nat)
    requires t.basetype == Float && t.arraySizes == [0x1_0000] && dec.arrayStride == 0x1_0000
    requires DecorationArrayStride in dec.flags
    ensures DeclaredTypeSize(t, dec, {}, structSize) == Ok(0)
  {
  }

  /** The padding of a matrix member follows the member's own layout
      decoration, not the layout flags of the member type: a RowMajor member
      with three columns is measured with four, while the same type asked
      for directly, carrying no layout flag of its own, is measured with
      three. */
  lemma MemberLayoutDecidesPadding(a: Arena, structId: Id, index: nat, structSize: Type -> nat)
    requires structId in a.types && index < |a.types[structId].memberTypes|
    requires a.types[structId].memberTypes[index] in a.types
    requires var m := a.types[structId].memberTypes[index];
             && MeasuredByShape(a.types[m], DecOf(a, m)) && SmallShape(a.types[m]) && a.types[m].columns == 3
             && DecorationRowMajor in MemberDecOf(a, a.types[structId].self, index).flags
             && DecorationRowMajor !in DecOf(a, m).flags && DecorationColMajor !in DecOf(a, m).flags
    ensures var t := a.types[a.types[structId].memberTypes[index]];
            DeclaredMemberSize(a, structId, index, structSize) == Ok(t.vecsize * 4 * (t.width / 8))
    ensures var t := a.types[a.types[structId].memberTypes[index]];
            DeclaredTypeSizeOf(a, a.types[structId].memberTypes[index], structSize) == Ok(t.vecsize * 3 * (t.width / 8))
  {
    var t := a.types[a.types[structId].memberTypes[index]];
    assert t.width / 8 <= 8;
    assert t.vecsize * 4 <= 16;
    assert t.vecsize * 4 * (t.width / 8) <= 128;
  }

  /** A member without a layout decoration is measured unpadded, whatever
      layout flags its type carries. */
  lemma UndecoratedMemberIsUnpadded(a: Arena, structId: Id, index: nat, structSize: Type -> nat)
    requires structId in a.types && index < |a.types[structId].memberTypes|
    requires a.types[structId].memberTypes[index] in a.types
    requires var m := a.types[structId].memberTypes[index];
             && MeasuredByShape(a.types[m], DecOf(a, m)) && SmallShape(a.types[m])
             && DecorationRowMajor !in MemberDecOf(a, a.types[structId].self, index).flags
             && DecorationColMajor !in MemberDecOf(a, a.types[structId].self, index).flags
    ensures var t := a.types[a.types[structId].memberTypes[index]];
            DeclaredMemberSize(a, structId, index, structSize) == Ok(t.vecsize * t.columns * (t.width / 8))
  {
    var t := a.types[a.types[structId].memberTypes[index]];
    assert t.width / 8 <= 8;
    assert t.vecsize * t.columns <= 16;
    assert t.vecsize * t.columns * (t.width / 8) <= 128;
  }

  /** The array stride is read from the array type's own record, so a
      strided array has the same size as a member as on its own. */
  lemma StridedMemberUsesTypeStride(a: Arena, structId: Id, index: nat, structSize: Type -> nat)
    requires structId in a.types && index < |a.types[structId].memberTypes|
    requires a.types[structId].memberTypes[index] in a.types
    requires var m := a.types[structId].memberTypes[index];
             && !OpaqueSized(a.types[m].basetype) && a.types[m].basetype != Struct
             && a.types[m].arraySizes != [] && DecorationArrayStride in DecOf(a, m).flags
    ensures var m := a.types[structId].memberTypes[index];
            && DeclaredMemberSize(a, structId, index, structSize) == DeclaredTypeSizeOf(a, m, structSize)
            && DeclaredTypeSizeOf(a, m, structSize)
               == Ok(MulU32(DecOf(a, m).arrayStride, a.types[m].arraySizes[|a.types[m].arraySizes| - 1]))
  {
  }
}
