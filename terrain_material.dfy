/**
 * A terrain material: a named attribute container. Default names come
 * from a counter shared by all materials ("mtl1", "mtl2", ...).
 */
module Materials {
  import opened Tokens
  import opened Attributes
  import opened AttributeSeq
  import opened AttributeContainer

  /** Decimal digits of `n`, as Java's string concatenation writes it. */
  function NatToString(n: nat): (s: string)
    ensures |s| >= 1
    ensures n >= 10 ==> |s| >= 2
  {
    if n < 10 then ["0123456789"[n]]
    else NatToString(n / 10) + ["0123456789"[n % 10]]
  }

  /** Different numbers have different decimal strings. */
  lemma {:induction false} NatToStringInjective(a: nat, b: nat)
    requires NatToString(a) == NatToString(b)
    ensures a == b
  {
    var s := NatToString(a);
    if a < 10 && b < 10 {
      assert "0123456789"[a] == "0123456789"[b];
    } else if a >= 10 && b >= 10 {
      var sa := NatToString(a / 10);
      var sb := NatToString(b / 10);
      assert s[|s| - 1] == "0123456789"[a % 10] == "0123456789"[b % 10];
      assert sa == s[..|s| - 1] == sb;
      NatToStringInjective(a / 10, b / 10);
    }
  }

  /** The default name of the `n`-th material. */
  function DefaultId(n: nat): string {
    "mtl" + NatToString(n)
  }

  /** Materials numbered differently get different default names. */
  lemma DefaultIdsDistinct(a: nat, b: nat)
    requires a != b
    ensures DefaultId(a) != DefaultId(b)
  {
    if DefaultId(a) == DefaultId(b) {
      assert DefaultId(a)[3..] == NatToString(a);
      assert DefaultId(b)[3..] == NatToString(b);
      NatToStringInjective(a, b);
    }
  }

  /** The shared counter of default material names. */
  class MaterialCounter {
    var count: nat

    constructor ()
      ensures count == 0
    {
      count := 0;
    }

    /** Increments the counter, then names a material after it. */
    method Next() returns (id: string)
      modifies this
      ensures count == old(count) + 1
      ensures id == DefaultId(count)
    {
      count := count + 1;
      id := DefaultId(count);
    }
  }

  class TerrainMaterial {
    var id: string
    const attributes: TerrainAttributes

    predicate Valid()
      reads this, attributes
    {
      attributes.Valid()
    }

    /** An empty material with the next default name. */
    constructor (counter: MaterialCounter)
      modifies counter
      ensures Valid() && fresh(attributes)
      ensures counter.count == old(counter.count) + 1
      ensures id == DefaultId(counter.count)
      ensures attributes.attributes == [] && attributes.mask == {}
    {
      var next := counter.Next();
      id := next;
      attributes := new TerrainAttributes();
    }

    /** An empty material with the given name. */
    constructor WithId(id: string)
      ensures Valid() && fresh(attributes)
      ensures this.id == id
      ensures attributes.attributes == [] && attributes.mask == {}
    {
      this.id := id;
      attributes := new TerrainAttributes();
    }

    /** A material with the next default name holding `list`, set in order. */
    constructor WithAttributes(counter: MaterialCounter, list: seq<Attr>)
      requires AllValid(list)
      modifies counter
      ensures Valid() && fresh(attributes)
      ensures counter.count == old(counter.count) + 1
      ensures id == DefaultId(counter.count)
      ensures attributes.attributes == AttributeSeq.SetAll([], list)
      ensures attributes.mask == MaskOf(list)
    {
      var next := counter.Next();
      id := next;
      attributes := new TerrainAttributes();
      new;
      attributes.SetAll(list);
    }

    /** A material with the given name holding `list`, set in order. */
    constructor WithIdAndAttributes(id: string, list: seq<Attr>)
      requires AllValid(list)
      ensures Valid() && fresh(attributes)
      ensures this.id == id
      ensures attributes.attributes == AttributeSeq.SetAll([], list)
      ensures attributes.mask == MaskOf(list)
    {
      this.id := id;
      attributes := new TerrainAttributes();
      new;
      attributes.SetAll(list);
    }

    /** A material named `id` holding a copy of each attribute of
        `copyFrom`: new objects with the same types and values. */
    constructor CopyOf(id: string, copyFrom: TerrainMaterial)
      requires copyFrom.Valid()
      ensures Valid() && fresh(attributes)
      ensures this.id == id
      ensures attributes.mask == copyFrom.attributes.mask
      ensures attributes.Contents() == copyFrom.attributes.Contents()
      ensures forall x :: x in attributes.attributes ==> fresh(x.Obj())
    {
      this.id := id;
      attributes := new TerrainAttributes();
      new;
      var src := copyFrom.attributes.attributes;
      label filling:
      CopyAll(attributes, src);
      ValuesUnchanged@filling(src);
      MaskOfSameTypes(attributes.attributes, src);
      assert forall j :: 0 <= j < |src| ==> Values(attributes.attributes)[j] == Values(src)[j];
    }

    /** A copy of this material under the same name. */
    method Copy() returns (c: TerrainMaterial)
      requires Valid()
      ensures fresh(c) && fresh(c.attributes) && c.Valid()
      ensures c.id == id
      ensures c.attributes.mask == attributes.mask
      ensures c.attributes.Contents() == attributes.Contents()
      ensures forall x :: x in c.attributes.attributes ==> fresh(x.Obj())
    {
      c := new TerrainMaterial.CopyOf(id, this);
    }

    /** Equal names and equal attribute containers. */
    method Equals(other: TerrainMaterial?) returns (r: bool)
      requires Valid() && (other != null ==> other.Valid())
      ensures r == (other != null &&
                    (other == this ||
                     (other.id == id && attributes.mask == other.attributes.mask &&
                      attributes.Contents() == other.attributes.Contents())))
    {
      if other == null {
        return false;
      }
      if other == this {
        return true;
      }
      if other.id != id {
        return false;
      }
      r := attributes.Equals(other.attributes);
    }
  }

  /** Two materials built from the same attributes of distinct types, listed
      in any order, hold the same contents: the same mask and the same values
      at every index, which is what `same(other, true)` compares. */
  lemma AttributeOrderIrrelevant(m1: TerrainMaterial, m2: TerrainMaterial, l1: seq<Attr>, l2: seq<Attr>)
    requires UniqueTypes(l1) && UniqueTypes(l2) && multiset(l1) == multiset(l2)
    requires m1.Valid() && m1.attributes.attributes == AttributeSeq.SetAll([], l1)
    requires m2.Valid() && m2.attributes.attributes == AttributeSeq.SetAll([], l2)
    ensures m1.attributes.attributes == m2.attributes.attributes
    ensures m1.attributes.mask == m2.attributes.mask
    ensures m1.attributes.Contents() == m2.attributes.Contents()
  {
    SetAllOrderIndependent(l1, l2);
  }

  /** Builds two default-named materials from the same attributes in two
      orders and compares their containers with values: they are the same. */
  method SameInAnyOrder(counter: MaterialCounter, l1: seq<Attr>, l2: seq<Attr>) returns (r: bool)
    requires AllValid(l1) && AllValid(l2)
    requires UniqueTypes(l1) && UniqueTypes(l2) && multiset(l1) == multiset(l2)
    modifies counter
    ensures r
  {
    var m1 := new TerrainMaterial.WithAttributes(counter, l1);
    var m2 := new TerrainMaterial.WithAttributes(counter, l2);
    AttributeOrderIrrelevant(m1, m2, l1, l2);
    r := m1.attributes.Same(m2.attributes, true);
  }

  /** Copies `m`, then changes the value of the copy's `k`-th attribute,
      a float attribute: the original keeps all its values. */
  method ChangeCopiedFloat(m: TerrainMaterial, k: nat, v: real) returns (c: TerrainMaterial)
    requires m.Valid() && k < |m.attributes.attributes| && m.attributes.attributes[k].Float?
    modifies {}
    ensures c.Valid() && k < |c.attributes.attributes| && c.attributes.attributes[k].Float?
    ensures c.attributes.attributes[k].f.value == v
    ensures m.attributes.Contents() == old(m.attributes.Contents())
  {
    c := m.Copy();
    var f := c.attributes.attributes[k].f;
    assert c.attributes.attributes[k].Obj() == f;
    assert c.attributes.attributes[k] in c.attributes.attributes;
    ghost var original := m.attributes.attributes;
    label copied:
    f.SetValue(v);
    forall i | 0 <= i < |original| ensures unchanged(original[i].Obj()) {
      assert old(allocated(original[i]));
      assert old(allocated(original[i].Obj()));
    }
    ValuesUnchanged(original);
  }

  /** The first `i` attributes of `target` have the types of the first `i`
      of `src` and the values `vals` recorded for them. */
  ghost predicate CopiedPrefix(target: TerrainAttributes, src: seq<Attr>, vals: seq<AttrValue>, i: nat)
    reads target, Objects(target.attributes)
  {
    i <= |src| && |vals| == |src| && |target.attributes| == i &&
    (forall j :: 0 <= j < i ==> target.attributes[j].Type() == src[j].Type()) &&
    (forall j :: 0 <= j < i ==> Value(target.attributes[j]) == vals[j])
  }

  /** Fills the empty container `target` with copies of the sorted
      attributes `src`, one `set` per attribute. */
  method CopyAll(target: TerrainAttributes, src: seq<Attr>)
    requires target.Valid() && target.attributes == []
    requires Sorted(src) && AllValid(src)
    requires forall j :: 0 <= j < |src| ==> src[j].Obj() != target
    modifies target
    ensures target.Valid() && CopiedPrefix(target, src, old(Values(src)), |src|)
    ensures forall j :: 0 <= j < |src| ==> fresh(target.attributes[j].Obj())
  {
    ghost var vals := Values(src);
    var i := 0;
    while i < |src|
      invariant 0 <= i <= |src|
      invariant target.Valid() && CopiedPrefix(target, src, vals, i)
      invariant forall j :: 0 <= j < i ==> fresh(target.attributes[j].Obj())
    {
      assert Value(src[i]) == vals[i] by {
        ValueUnchanged(src[i]);
      }
      AddCopy(target, src, vals, i);
      i := i + 1;
    }
  }

  /** One step of the copy: sets a copy of `src[i]` into `target`, which
      holds copies of the attributes before it. */
  method AddCopy(target: TerrainAttributes, src: seq<Attr>, ghost vals: seq<AttrValue>, i: nat)
    requires target.Valid() && CopiedPrefix(target, src, vals, i) && i < |src|
    requires Sorted(src) && src[i].Valid() && Value(src[i]) == vals[i]
    modifies target
    ensures target.Valid() && CopiedPrefix(target, src, vals, i + 1)
    ensures target.attributes[..i] == old(target.attributes) && fresh(target.attributes[i].Obj())
  {
    ghost var prev := target.attributes;
    TypesBelow(prev, src, i);
    label before:
    var c := SetCopy(target, src[i]);
    forall j | 0 <= j < i ensures Value(target.attributes[j]) == vals[j] {
      assert target.attributes[j] == prev[j];
      ValueUnchanged@before(prev[j]);
    }
    assert target.attributes[..i] == prev;
  }

  /** Copies of the attributes before `src[i]` have types below its type. */
  lemma TypesBelow(prev: seq<Attr>, src: seq<Attr>, i: nat)
    requires Sorted(src) && i < |src| && |prev| == i
    requires forall j :: 0 <= j < i ==> prev[j].Type() == src[j].Type()
    ensures forall j :: 0 <= j < |prev| ==> Key(prev[j].Type()) < Key(src[i].Type())
  {
  }

  /** Sets a copy of `a` into `target`, whose types all precede `a`'s, so
      the copy goes at the end. */
  method SetCopy(target: TerrainAttributes, a: Attr) returns (c: Attr)
    requires target.Valid() && a.Valid()
    requires forall j :: 0 <= j < |target.attributes| ==> Key(target.attributes[j].Type()) < Key(a.Type())
    modifies target
    ensures target.Valid()
    ensures target.attributes == old(target.attributes) + [c]
    ensures fresh(c.Obj()) && c.Type() == a.Type() && Value(c) == old(Value(a))
  {
    c := Attributes.Copy(a);
    AppendNewLargest(target.attributes, c);
    label before:
    target.Set(c);
    ValueUnchanged@before(c);
  }

  /** Setting an attribute whose type follows every held type appends it. */
  lemma AppendNewLargest(s: seq<Attr>, c: Attr)
    requires Sorted(s)
    requires forall j :: 0 <= j < |s| ==> Key(s[j].Type()) < Key(c.Type())
    ensures SetSpec(s, c) == s + [c]
  {
    FindToken(s, c.Type());
    if s != [] {
      assert s[|s| - 1] in s;
    }
  }

  /** Sequences with the same types index by index have the same mask. */
  lemma MaskOfSameTypes(s: seq<Attr>, r: seq<Attr>)
    requires |s| == |r| && forall j :: 0 <= j < |s| ==> s[j].Type() == r[j].Type()
    ensures MaskOf(s) == MaskOf(r)
  {
    forall x | x in s ensures x.Type() in MaskOf(r) {
      var j :| 0 <= j < |s| && s[j] == x;
      assert r[j] in r;
    }
    forall x | x in r ensures x.Type() in MaskOf(s) {
      var j :| 0 <= j < |r| && r[j] == x;
      assert s[j] in s;
    }
  }
}
