/**
 * The attribute container of a terrain material: a mask of the types it
 * holds and the attributes themselves, at most one per type, kept sorted
 * by type.
 */
module AttributeContainer {
  import opened Tokens
  import opened Wrappers
  import opened Attributes
  import opened AttributeSeq

  class TerrainAttributes {
    var mask: Mask
    var attributes: seq<Attr>
    var sorted: bool

    /** Holds between operations, and also while an operation has added or
        removed attributes and not yet sorted them. */
    predicate Consistent()
      reads this
    {
      mask == MaskOf(attributes) && UniqueTypes(attributes) && AllValid(attributes) &&
      (sorted ==> Sorted(attributes))
    }

    /** Holds between operations: every public operation ends by sorting. */
    predicate Valid()
      reads this
    {
      Consistent() && sorted
    }

    /** The values of the attributes, in order. */
    function Contents(): seq<AttrValue>
      reads this, Objects(attributes)
    {
      Values(attributes)
    }

    constructor ()
      ensures Valid() && attributes == [] && mask == {}
    {
      mask := {};
      attributes := [];
      sorted := true;
    }

    /** Sorts the attributes by type if they are not sorted. */
    method Sort()
      requires Consistent()
      modifies this
      ensures Valid()
      ensures multiset(attributes) == multiset(old(attributes))
      ensures old(sorted) ==> attributes == old(attributes)
      ensures mask == old(mask)
    {
      if !sorted {
        attributes := SortByType(attributes);
        sorted := true;
        MaskOfMultiset(attributes, old(attributes));
        assert AllValid(attributes) by {
          forall i | 0 <= i < |attributes| ensures attributes[i].Valid() {
            assert attributes[i] in multiset(old(attributes));
          }
        }
      } else {
        SortOfSorted(attributes);
      }
      SortedIsUnique(attributes);
    }

    /** The mask: one bit per attribute held. */
    function GetMask(): (m: Mask)
      reads this
      requires Valid()
      ensures forall t :: t in m <==> exists x :: x in attributes && x.Type() == t
      ensures |m| == |attributes|
    {
      MaskSize(attributes);
      mask
    }

    /** The number of attributes, which is the number of bits in the mask. */
    function Size(): (n: nat)
      reads this
      requires Valid()
      ensures n == |mask|
    {
      MaskSize(attributes);
      |attributes|
    }

    /** Whether every type in `types` is held (and `types` is not empty). */
    function Has(types: Mask): (b: bool)
      reads this
      requires Valid()
      ensures b <==> types != {} && forall t :: t in types ==> exists x :: x in attributes && x.Type() == t
    {
      types != {} && types <= mask
    }

    /** Index of the attribute whose type is exactly `types`, or -1. */
    method IndexOf(types: Mask) returns (r: int)
      requires Valid()
      ensures r == Find(attributes, types)
      ensures !Has(types) ==> r == -1
    {
      if Has(types) {
        var i := 0;
        while i < |attributes|
          invariant 0 <= i <= |attributes|
          invariant forall j :: 0 <= j < i ==> {attributes[j].Type()} != types
        {
          if {attributes[i].Type()} == types {
            FindIsFirst(attributes, types, i);
            return i;
          }
          i := i + 1;
        }
      }
      return -1;
    }

    /** The attribute whose type is exactly `types`, if any. */
    method Get(types: Mask) returns (r: Option<Attr>)
      requires Valid()
      ensures r.Some? <==> Find(attributes, types) >= 0
      ensures r.Some? ==> r.value == attributes[Find(attributes, types)] && {r.value.Type()} == types
      ensures r.None? ==> forall x :: x in attributes ==> {x.Type()} != types
      ensures !Has(types) ==> r.None?
    {
      if Has(types) {
        var i := 0;
        while i < |attributes|
          invariant 0 <= i <= |attributes|
          invariant forall j :: 0 <= j < i ==> {attributes[j].Type()} != types
        {
          if {attributes[i].Type()} == types {
            FindIsFirst(attributes, types, i);
            return Some(attributes[i]);
          }
          i := i + 1;
        }
      }
      assert Find(attributes, types) < 0;
      forall x | x in attributes ensures {x.Type()} != types {
        var j :| 0 <= j < |attributes| && attributes[j] == x;
      }
      return None;
    }

    /** Appends to `out` every attribute whose type is among `types`. */
    method GetAll(out: seq<Attr>, types: Mask) returns (r: seq<Attr>)
      requires Valid()
      ensures r == out + Matching(attributes, types)
    {
      r := out;
      var i := 0;
      while i < |attributes|
        invariant 0 <= i <= |attributes|
        invariant r == out + Matching(attributes[..i], types)
      {
        MatchingStep(attributes, i, types);
        SingleBitTests(attributes[i].Type(), types);
        if {attributes[i].Type()} * types != {} {
          r := r + [attributes[i]];
        }
        i := i + 1;
      }
      assert attributes[..i] == attributes;
    }

    /** Removes every attribute. */
    method Clear()
      requires Consistent()
      modifies this
      ensures attributes == [] && mask == {} && sorted == old(sorted)
      ensures Consistent()
    {
      mask := {};
      attributes := [];
    }

    /** Adds `a`, replacing the attribute of the same type if there is one. */
    method Set(a: Attr)
      requires Valid() && a.Valid()
      modifies this
      ensures Valid()
      ensures attributes == SetSpec(old(attributes), a)
      ensures mask == old(mask) + {a.Type()}
    {
      var idx := IndexOf({a.Type()});
      ghost var before := attributes;
      if idx < 0 {
        assert a.Type() !in MaskOf(before) by {
          FindToken(before, a.Type());
        }
        assert UniqueTypes(before + [a]) && MaskOf(before + [a]) == mask + {a.Type()} by {
          SortAppended(before, a);
        }
        mask := mask + {a.Type()};
        attributes := attributes + [a];
        sorted := false;
        Sort();
        assert attributes == SetSpec(before, a) by {
          FindToken(before, a.Type());
          InsertSorted(before, a);
          SortedPermutationUnique(attributes, InsertByType(before, a));
        }
      } else {
        assert before[idx].Type() == a.Type() && a.Type() in mask by {
          FindToken(before, a.Type());
        }
        assert Sorted(before[idx := a]) && UniqueTypes(before[idx := a]) && AllValid(before[idx := a]) &&
               MaskOf(before[idx := a]) == mask by {
          ReplaceKeepsOrder(before, idx, a);
        }
        attributes := attributes[idx := a];
        Sort();
      }
    }

    /** Sets each attribute of `list` in order. */
    method SetAll(list: seq<Attr>)
      requires Valid() && AllValid(list)
      modifies this
      ensures Valid()
      ensures attributes == AttributeSeq.SetAll(old(attributes), list)
      ensures mask == old(mask) + MaskOf(list)
    {
      var i := 0;
      while i < |list|
        invariant 0 <= i <= |list| && Valid()
        invariant AttributeSeq.SetAll(attributes, list[i..]) == AttributeSeq.SetAll(old(attributes), list)
        invariant MaskOf(attributes) + MaskOf(list[i..]) == old(mask) + MaskOf(list)
      {
        SetAllStep(attributes, list, i);
        Set(list[i]);
        i := i + 1;
      }
    }

    /** Removes every attribute whose type is among `types`. */
    method Remove(types: Mask)
      requires Valid()
      modifies this
      ensures Valid()
      ensures attributes == Keep(old(attributes), types)
      ensures mask == old(mask) - types
    {
      ghost var before := attributes;
      var i := |attributes| - 1;
      while i >= 0
        invariant -1 <= i < |before|
        invariant attributes == before[..i + 1] + Keep(before[i + 1..], types)
        invariant Consistent() && Sorted(attributes)
      {
        var t := attributes[i].Type();
        assert attributes[i] == before[i] by {
          KeepStepAt(before, i, types);
        }
        if {t} <= types {
          ghost var next := attributes[..i] + attributes[i + 1..];
          assert next == before[..i] + Keep(before[i..], types) by {
            SingleBitTests(t, types);
            KeepStepDrop(before, i, types);
          }
          assert MaskOf(next) == mask - {t} && Sorted(next) && UniqueTypes(next) && AllValid(next) by {
            MaskOfRemoveAt(attributes, i);
            RemoveAtKeepsOrder(attributes, i);
            SortedIsUnique(next);
          }
          attributes := attributes[..i] + attributes[i + 1..];
          mask := mask - {t};
          sorted := false;
        } else {
          assert attributes == before[..i] + Keep(before[i..], types) by {
            SingleBitTests(t, types);
            KeepStepKeep(before, i, types);
          }
        }
        i := i - 1;
      }
      assert attributes == Keep(before, types) by {
        assert before[..0] == [] && before[0..] == before;
      }
      assert mask == old(mask) - types by {
        KeepMask(before, types);
      }
      ghost var kept := attributes;
      Sort();
      assert attributes == kept by {
        SortedPermutationUnique(attributes, kept);
      }
    }

    /** Whether `other` holds the same types as this container and, when
        `compareValues` is set, equal values at every index. */
    method Same(other: TerrainAttributes?, compareValues: bool) returns (r: bool)
      requires Valid() && (other != null ==> other.Valid())
      ensures r == (other == this ||
                    (other != null && mask == other.mask &&
                     (!compareValues || Contents() == other.Contents())))
    {
      if other == this {
        return true;
      }
      if other == null || mask != other.mask {
        return false;
      }
      if !compareValues {
        return true;
      }
      SameMaskSameTypes(attributes, other.attributes);
      var i := 0;
      while i < |attributes|
        invariant 0 <= i <= |attributes|
        invariant forall j :: 0 <= j < i ==> Value(attributes[j]) == Value(other.attributes[j])
      {
        if Value(attributes[i]) != Value(other.attributes[i]) {
          assert Contents()[i] != other.Contents()[i];
          return false;
        }
        i := i + 1;
      }
      return true;
    }

    /** Equality of containers: same types and equal values. */
    method Equals(other: TerrainAttributes?) returns (r: bool)
      requires Valid() && (other != null ==> other.Valid())
      ensures r == (other != null && mask == other.mask && Contents() == other.Contents())
    {
      if other == null {
        return false;
      }
      if other == this {
        return true;
      }
      r := Same(other, true);
    }

    /** Orders containers: by mask, then attribute by attribute. */
    method CompareTo(other: TerrainAttributes) returns (r: Result<int>)
      requires Valid() && other.Valid()
      ensures (mask == other.mask ==> |Contents()| == |other.Contents()|) &&
              r == CompareContents(mask, Contents(), other.mask, other.Contents())
    {
      if mask == other.mask {
        SameMaskSameTypes(attributes, other.attributes);
      }
      if other == this {
        CompareContentsZeroIffSame(mask, Contents(), mask, Contents());
        return Ok(0);
      }
      if mask != other.mask {
        return Ok(if LongLess(mask, other.mask) then -1 else 1);
      }
      var i := 0;
      while i < |attributes|
        invariant 0 <= i <= |attributes|
        invariant CompareSeq(Contents(), other.Contents()) == CompareSeq(Contents()[i..], other.Contents()[i..])
      {
        var c := Compare(Value(attributes[i]), Value(other.attributes[i]));
        assert Contents()[i..][0] == Value(attributes[i]);
        assert other.Contents()[i..][0] == Value(other.attributes[i]);
        assert Contents()[i..][1..] == Contents()[i + 1..];
        assert other.Contents()[i..][1..] == other.Contents()[i + 1..];
        if c.Err? {
          return Err(c.error);
        }
        if c.value != 0 {
          return Ok(if c.value < 0 then -1 else if c.value > 0 then 1 else 0);
        }
        i := i + 1;
      }
      return Ok(0);
    }
  }

  /** The first index that matches is the one `Find` returns. */
  lemma FindIsFirst(s: seq<Attr>, m: Mask, i: int)
    requires 0 <= i < |s| && {s[i].Type()} == m
    requires forall j :: 0 <= j < i ==> {s[j].Type()} != m
    ensures Find(s, m) == i
  {
  }
}
