/**
 * A terrain attribute of either kind, and the parts of its behaviour that
 * dispatch on the kind: comparison, equality and copy.
 */
module Attributes {
  import opened Tokens
  import opened Wrappers
  import opened FloatAttributes
  import opened TextureAttributes

  /** A reference to an attribute object, as the container stores it. */
  datatype Attr = Float(f: TerrainFloatAttribute) | Texture(t: TerrainTextureAttribute) {

    /** The attribute's type token (a constant of the object). */
    function Type(): Token {
      match this
      case Float(f) => f.token
      case Texture(t) => t.token
    }

    function Obj(): object {
      match this
      case Float(f) => f
      case Texture(t) => t
    }

    /** A texture attribute always carries a texture type. */
    predicate Valid() {
      match this
      case Float(_) => true
      case Texture(t) => t.Valid()
    }
  }

  /** What an attribute holds, independent of the object holding it. */
  datatype AttrValue = FloatV(fv: FloatValue) | TextureV(tv: TextureValue) {
    function Type(): Token {
      match this
      case FloatV(v) => v.token
      case TextureV(v) => v.token
    }
  }

  function Value(a: Attr): (v: AttrValue)
    reads a.Obj()
    ensures v.Type() == a.Type()
    ensures v.FloatV? <==> a.Float?
  {
    match a
    case Float(f) => FloatV(f.Snapshot())
    case Texture(t) => TextureV(t.Snapshot())
  }

  /** An attribute whose object is untouched keeps its value. */
  twostate lemma ValueUnchanged(a: Attr)
    requires unchanged(a.Obj())
    ensures Value(a) == old(Value(a))
  {
  }

  /** `compareTo` of two attributes.  Different types are ordered by type
      alone; equal types compare the values, and a float attribute compared
      with a texture attribute of the same type fails on the cast. */
  function Compare(x: AttrValue, y: AttrValue): (r: Result<int>)
    ensures x.Type() != y.Type() ==> r == Ok(TypeCompare(x.Type(), y.Type()))
    ensures r.Err? <==> x.Type() == y.Type() && x.FloatV? != y.FloatV?
    ensures r.Err? ==> r.error == ClassCast
  {
    match x
    case FloatV(a) =>
      if a.token != y.Type() then Ok(TypeCompare(a.token, y.Type()))
      else (match y
        case FloatV(b) => Ok(CompareValues(a.value, b.value))
        case TextureV(_) => Err(ClassCast))
    case TextureV(a) =>
      if a.token != y.Type() then Ok(if Key(a.token) < Key(y.Type()) then -1 else 1)
      else (match y
        case TextureV(b) => Ok(CompareSameType(a, b))
        case FloatV(_) => Err(ClassCast))
  }

  /** Swapping the arguments negates the result (or fails the same way). */
  lemma CompareAntisymmetric(x: AttrValue, y: AttrValue)
    ensures Compare(x, y).Ok? == Compare(y, x).Ok?
    ensures Compare(x, y).Ok? ==> Compare(x, y).value == -Compare(y, x).value
  {
    TypeCompareAntisymmetric(x.Type(), y.Type());
    if x.TextureV? && y.TextureV? && x.Type() == y.Type() {
      CompareSameTypeIsOrdering(x.tv, y.tv);
    }
  }

  /** The comparison is consistent with equality: zero exactly for equal values. */
  lemma CompareZeroIffEqual(x: AttrValue, y: AttrValue)
    ensures Compare(x, y) == Ok(0) <==> x == y
  {
    if x.TextureV? && y.TextureV? && x.Type() == y.Type() {
      CompareSameTypeIsOrdering(x.tv, y.tv);
    }
  }

  /** `copy()`: a new object of the same kind holding the same value. */
  method Copy(a: Attr) returns (c: Attr)
    requires a.Valid()
    ensures fresh(c.Obj()) && c.Valid()
    ensures c.Float? == a.Float? && Value(c) == Value(a)
  {
    match a
    case Float(f) =>
      var g := f.Copy();
      c := Float(g);
    case Texture(t) =>
      var u := t.Copy();
      c := Texture(u);
  }
}
