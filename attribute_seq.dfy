/**
 * The contents of an attribute container as a sequence, and the functions
 * that specify what the container's operations do to it.
 */
module AttributeSeq {
  import opened Tokens
  import opened Wrappers
  import opened Attributes

  /** The mask of a sequence: the OR (union) of its attributes' types. */
  function MaskOf(s: seq<Attr>): Mask {
    set x | x in s :: x.Type()
  }

  /** Strictly ascending by type, in Java's signed order of `long`s. */
  predicate Sorted(s: seq<Attr>) {
    forall i, j :: 0 <= i < j < |s| ==> Key(s[i].Type()) < Key(s[j].Type())
  }

  /** No two attributes share a type. */
  predicate UniqueTypes(s: seq<Attr>) {
    forall i, j :: 0 <= i < j < |s| ==> s[i].Type() != s[j].Type()
  }

  /** Every texture attribute carries a texture type. */
  predicate AllValid(s: seq<Attr>) {
    forall i :: 0 <= i < |s| ==> s[i].Valid()
  }

  lemma SortedIsUnique(s: seq<Attr>)
    requires Sorted(s)
    ensures UniqueTypes(s)
  {
  }

  /** Two sequences with the same elements have the same mask. */
  lemma MaskOfMultiset(s: seq<Attr>, r: seq<Attr>)
    requires multiset(s) == multiset(r)
    ensures MaskOf(s) == MaskOf(r)
  {
    forall x | x in s ensures x in r {
      assert x in multiset(r);
    }
    forall x | x in r ensures x in s {
      assert x in multiset(s);
    }
  }

  /** Inserts `a` before the trailing attributes of larger type, as sorting
      `s + [a]` does when `s` is sorted. */
  function InsertByType(s: seq<Attr>, a: Attr): (r: seq<Attr>)
    ensures |r| == |s| + 1
    ensures multiset(r) == multiset(s) + multiset{a}
  {
    if s == [] || Key(s[|s| - 1].Type()) <= Key(a.Type()) then s + [a]
    else
      assert s == s[..|s| - 1] + [s[|s| - 1]];
      InsertByType(s[..|s| - 1], a) + [s[|s| - 1]]
  }

  /** Inserting an attribute of a new type keeps a sorted sequence sorted. */
  lemma {:induction false} InsertSorted(s: seq<Attr>, a: Attr)
    requires Sorted(s) && a.Type() !in MaskOf(s)
    ensures Sorted(InsertByType(s, a))
  {
    if s == [] || Key(s[|s| - 1].Type()) <= Key(a.Type()) {
      forall i | 0 <= i < |s| ensures Key(s[i].Type()) < Key(a.Type()) {
        assert s[i] in s;
      }
    } else {
      var init := s[..|s| - 1];
      var last := s[|s| - 1];
      assert a.Type() !in MaskOf(init) && Sorted(init) by {
        assert forall x :: x in init ==> x in s;
      }
      InsertSorted(init, a);
      assert forall x :: x in init ==> Key(x.Type()) < Key(last.Type()) by {
        assert s == init + [last];
      }
      InsertKeysBelow(init, a, Key(last.Type()));
    }
  }

  /** Insertion adds no key: a bound on every key still holds after it. */
  lemma InsertKeysBelow(s: seq<Attr>, a: Attr, bound: int)
    requires forall x :: x in s ==> Key(x.Type()) < bound
    requires Key(a.Type()) < bound
    ensures forall x :: x in InsertByType(s, a) ==> Key(x.Type()) < bound
  {
    forall x | x in InsertByType(s, a) ensures Key(x.Type()) < bound {
      assert x in multiset(InsertByType(s, a));
    }
  }

  /** Sorting by type, as the container's `sort()` does (the library sort it
      calls is stable; with unique types any correct sort gives this result). */
  function SortByType(s: seq<Attr>): (r: seq<Attr>)
    requires UniqueTypes(s)
    ensures Sorted(r) && multiset(r) == multiset(s)
  {
    if s == [] then []
    else
      var init := s[..|s| - 1];
      var r' := SortByType(init);
      assert s[|s| - 1].Type() !in MaskOf(r') by {
        MaskOfMultiset(init, r');
        assert s == init + [s[|s| - 1]];
        forall x | x in init ensures x.Type() != s[|s| - 1].Type() {
          var k :| 0 <= k < |init| && init[k] == x;
          assert s[k] == x;
        }
      }
      InsertSorted(r', s[|s| - 1]);
      InsertByType(r', s[|s| - 1])
  }

  /** Sorting a sorted sequence leaves it as it is. */
  lemma {:induction false} SortOfSorted(s: seq<Attr>)
    requires Sorted(s)
    ensures SortByType(s) == s
  {
    if s != [] {
      var init := s[..|s| - 1];
      SortOfSorted(init);
    }
  }

  /** Appending an attribute adds its type to the mask. */
  lemma MaskOfAppend(s: seq<Attr>, a: Attr)
    ensures MaskOf(s + [a]) == MaskOf(s) + {a.Type()}
  {
    assert forall x :: x in s + [a] <==> x in s || x == a;
  }

  /** Appending an attribute of a new type to sorted contents and sorting
      inserts it in type order. */
  lemma SortAppended(s: seq<Attr>, a: Attr)
    requires Sorted(s) && a.Type() !in MaskOf(s)
    ensures UniqueTypes(s + [a])
    ensures MaskOf(s + [a]) == MaskOf(s) + {a.Type()}
    ensures SortByType(s + [a]) == InsertByType(s, a)
  {
    var r := s + [a];
    MaskOfAppend(s, a);
    forall i, j | 0 <= i < j < |r| ensures r[i].Type() != r[j].Type() {
      if j == |s| {
        assert r[i] in s;
      }
    }
    assert r[..|r| - 1] == s;
    SortOfSorted(s);
  }

  /** Replacing an attribute by one of the same type keeps the contents
      sorted, their types unique and their mask. */
  lemma ReplaceKeepsOrder(s: seq<Attr>, i: int, a: Attr)
    requires Sorted(s) && AllValid(s) && a.Valid()
    requires 0 <= i < |s| && s[i].Type() == a.Type()
    ensures Sorted(s[i := a]) && UniqueTypes(s[i := a]) && AllValid(s[i := a])
    ensures MaskOf(s[i := a]) == MaskOf(s)
  {
    SetAtMask(s, i, a);
    var r := s[i := a];
    forall j, k | 0 <= j < k < |r| ensures Key(r[j].Type()) < Key(r[k].Type()) {
      assert r[j].Type() == s[j].Type() && r[k].Type() == s[k].Type();
    }
  }

  /** Sorted contents are fixed by their elements: two sorted arrangements
      of the same attributes are the same sequence. */
  lemma SortedPermutationUnique(s: seq<Attr>, r: seq<Attr>)
    requires Sorted(s) && Sorted(r) && multiset(s) == multiset(r)
    ensures s == r
  {
    MaskOfMultiset(s, r);
    SameMaskSameTypes(s, r);
    forall i | 0 <= i < |s| ensures s[i] == r[i] {
      assert s[i] in multiset(r);
      var k :| 0 <= k < |r| && r[k] == s[i];
    }
  }

  /** Index of the first attribute whose type equals the mask `m` (so `m`
      must be a single token for a match), or -1. */
  function Find(s: seq<Attr>, m: Mask): (i: int)
    ensures -1 <= i < |s|
    ensures i >= 0 ==> {s[i].Type()} == m && forall j :: 0 <= j < i ==> {s[j].Type()} != m
    ensures i < 0 ==> forall j :: 0 <= j < |s| ==> {s[j].Type()} != m
  {
    if s == [] then -1
    else if {s[0].Type()} == m then 0
    else
      var k := Find(s[1..], m);
      if k < 0 then -1 else k + 1
  }

  lemma FindToken(s: seq<Attr>, t: Token)
    ensures Find(s, {t}) >= 0 <==> t in MaskOf(s)
    ensures Find(s, {t}) >= 0 ==> s[Find(s, {t})].Type() == t
  {
    var i := Find(s, {t});
    if i >= 0 {
      assert s[i].Type() in {t};
      assert s[i] in s;
    }
  }

  /** What `set(a)` does to the contents: replace the attribute of the same
      type in place, or insert `a` in type order. */
  function SetSpec(s: seq<Attr>, a: Attr): seq<Attr> {
    var i := Find(s, {a.Type()});
    if i >= 0 then s[i := a] else InsertByType(s, a)
  }

  /** Replacing an attribute by one of the same type keeps the mask. */
  lemma SetAtMask(s: seq<Attr>, i: int, a: Attr)
    requires 0 <= i < |s| && s[i].Type() == a.Type()
    ensures MaskOf(s[i := a]) == MaskOf(s)
  {
    var r := s[i := a];
    forall x | x in s ensures x.Type() in MaskOf(r) {
      var j :| 0 <= j < |s| && s[j] == x;
      assert r[j].Type() == x.Type() && r[j] in r;
    }
    forall x | x in r ensures x.Type() in MaskOf(s) {
      var j :| 0 <= j < |r| && r[j] == x;
      assert s[j].Type() == x.Type() && s[j] in s;
    }
  }

  /** `set` keeps the contents sorted and ORs the type into the mask;
      replacement keeps the size, insertion grows it by one. */
  lemma SetInvariant(s: seq<Attr>, a: Attr)
    requires Sorted(s)
    ensures Sorted(SetSpec(s, a))
    ensures MaskOf(SetSpec(s, a)) == MaskOf(s) + {a.Type()}
    ensures a.Type() in MaskOf(s) ==> |SetSpec(s, a)| == |s|
    ensures a.Type() !in MaskOf(s) ==> |SetSpec(s, a)| == |s| + 1
  {
    FindToken(s, a.Type());
    var r := SetSpec(s, a);
    if a.Type() in MaskOf(s) {
      var i := Find(s, {a.Type()});
      SetAtMask(s, i, a);
      assert Sorted(r) by {
        forall j, k | 0 <= j < k < |r| ensures Key(r[j].Type()) < Key(r[k].Type()) {
          assert r[j].Type() == s[j].Type() && r[k].Type() == s[k].Type();
        }
      }
    } else {
      InsertSorted(s, a);
      MaskOfMultiset(r, s + [a]);
      MaskOfAppend(s, a);
    }
  }

  /** After `set(a)`, looking up `a`'s type finds `a` itself. */
  lemma GetAfterSet(s: seq<Attr>, a: Attr)
    requires Sorted(s)
    ensures Find(SetSpec(s, a), {a.Type()}) >= 0
    ensures SetSpec(s, a)[Find(SetSpec(s, a), {a.Type()})] == a
  {
    SetInvariant(s, a);
    var r := SetSpec(s, a);
    FindToken(r, a.Type());
    var k := Find(r, {a.Type()});
    SortedIsUnique(r);
    if Find(s, {a.Type()}) >= 0 {
      assert r[Find(s, {a.Type()})] == a;
    } else {
      assert a in multiset(r);
      var j :| 0 <= j < |r| && r[j] == a;
      assert r[k].Type() == r[j].Type();
    }
  }

  /** `set` leaves every attribute of another type in place. */
  lemma SetKeepsOthers(s: seq<Attr>, a: Attr, x: Attr)
    requires Sorted(s)
    requires x in s && x.Type() != a.Type()
    ensures x in SetSpec(s, a)
  {
    if Find(s, {a.Type()}) < 0 {
      assert x in multiset(SetSpec(s, a));
    } else {
      var i := Find(s, {a.Type()});
      var j :| 0 <= j < |s| && s[j] == x;
      assert SetSpec(s, a)[j] == x;
    }
  }

  /** Setting two attributes of one type in a row leaves only the second:
      the same contents as setting the second alone. */
  lemma SetTwiceSameType(s: seq<Attr>, a: Attr, b: Attr)
    requires Sorted(s) && a.Type() == b.Type()
    ensures SetSpec(SetSpec(s, a), b) == SetSpec(s, b)
  {
    var r := SetSpec(s, a);
    SetInvariant(s, a);
    GetAfterSet(s, a);
    FindToken(s, a.Type());
    var k := Find(r, {a.Type()});
    var i := Find(s, {a.Type()});
    if i >= 0 {
      assert k == i;
    } else {
      SortedIsUnique(r);
      assert r == InsertByType(s, a);
      InsertReplace(s, a, b, k);
    }
  }

  /** Replacing the inserted element by another of the same type is the
      same as inserting that one. */
  lemma {:induction false} InsertReplace(s: seq<Attr>, a: Attr, b: Attr, k: int)
    requires a.Type() == b.Type()
    requires 0 <= k < |InsertByType(s, a)| && InsertByType(s, a)[k] == a
    requires a !in s
    ensures InsertByType(s, a)[k := b] == InsertByType(s, b)
  {
    if s == [] || Key(s[|s| - 1].Type()) <= Key(a.Type()) {
      assert k == |s| by {
        assert a !in s[..|s|];
        assert InsertByType(s, a) == s + [a];
      }
      UpdateLast(s, a, b);
    } else {
      var init, last := s[..|s| - 1], s[|s| - 1];
      var r' := InsertByType(init, a);
      assert InsertByType(s, a) == r' + [last];
      assert k < |r'| && r'[k] == a && a !in init by {
        assert last != a;
        assert s == init + [last];
      }
      InsertReplace(init, a, b, k);
      UpdateBeforeLast(r', last, k, b);
    }
  }

  /** Updating the last element of `s + [a]`. */
  lemma UpdateLast<T>(s: seq<T>, a: T, b: T)
    ensures (s + [a])[|s| := b] == s + [b]
  {
  }

  /** Updating an element before an appended one. */
  lemma UpdateBeforeLast<T>(r: seq<T>, last: T, k: int, b: T)
    requires 0 <= k < |r|
    ensures (r + [last])[k := b] == r[k := b] + [last]
  {
  }

  /** `set` applied to each attribute of a list in order. */
  function SetAll(s: seq<Attr>, list: seq<Attr>): seq<Attr>
    decreases |list|
  {
    if list == [] then s else SetAll(SetSpec(s, list[0]), list[1..])
  }

  /** Setting a list of attributes keeps the contents sorted and ORs every
      listed type into the mask. */
  lemma {:induction false} SetAllMask(s: seq<Attr>, list: seq<Attr>)
    requires Sorted(s)
    ensures Sorted(SetAll(s, list))
    ensures MaskOf(SetAll(s, list)) == MaskOf(s) + MaskOf(list)
    decreases |list|
  {
    if list != [] {
      SetInvariant(s, list[0]);
      SetAllMask(SetSpec(s, list[0]), list[1..]);
    }
  }

  /** Setting attributes of distinct types, none of them held yet, adds
      exactly those attributes. */
  lemma {:induction false} SetAllDistinct(s: seq<Attr>, list: seq<Attr>)
    requires UniqueTypes(list) && MaskOf(s) !! MaskOf(list)
    ensures multiset(SetAll(s, list)) == multiset(s) + multiset(list)
    decreases |list|
  {
    if list != [] {
      var a, rest := list[0], list[1..];
      assert list == [a] + rest;
      assert a in list;
      FindToken(s, a.Type());
      var s' := InsertByType(s, a);
      assert SetSpec(s, a) == s';
      MaskOfMultiset(s', s + [a]);
      MaskOfAppend(s, a);
      assert MaskOf(s') !! MaskOf(rest) by {
        forall x | x in rest ensures x.Type() !in MaskOf(s') {
          var j :| 0 <= j < |rest| && rest[j] == x;
          assert list[j + 1] == x;
          assert x in list;
        }
      }
      SetAllDistinct(s', rest);
    }
  }

  /** Building contents from the same attributes of distinct types gives
      the same sequence whatever order they are set in: this is what
      keeping the contents sorted buys. */
  lemma SetAllOrderIndependent(l1: seq<Attr>, l2: seq<Attr>)
    requires UniqueTypes(l1) && UniqueTypes(l2) && multiset(l1) == multiset(l2)
    ensures SetAll([], l1) == SetAll([], l2)
  {
    assert MaskOf([]) == {};
    SetAllDistinct([], l1);
    SetAllDistinct([], l2);
    SetAllMask([], l1);
    SetAllMask([], l2);
    SortedPermutationUnique(SetAll([], l1), SetAll([], l2));
  }

  /** One step of `SetAll` over a suffix of the list. */
  lemma SetAllStep(s: seq<Attr>, list: seq<Attr>, i: nat)
    requires i < |list|
    ensures SetAll(s, list[i..]) == SetAll(SetSpec(s, list[i]), list[i + 1..])
    ensures MaskOf(list[i..]) == {list[i].Type()} + MaskOf(list[i + 1..])
  {
    assert list[i..][1..] == list[i + 1..];
    assert forall x :: x in list[i..] <==> x == list[i] || x in list[i + 1..];
  }

  /** The attributes that `remove(m)` keeps: those whose type is not in `m`. */
  function Keep(s: seq<Attr>, m: Mask): (r: seq<Attr>)
    ensures forall x :: x in r ==> x in s && x.Type() !in m
    ensures forall x :: x in s && x.Type() !in m ==> x in r
  {
    if s == [] then []
    else
      assert s == [s[0]] + s[1..];
      (if s[0].Type() in m then [] else [s[0]]) + Keep(s[1..], m)
  }

  /** What `remove` keeps of sorted contents is still sorted. */
  lemma {:induction false} KeepSorted(s: seq<Attr>, m: Mask)
    requires Sorted(s)
    ensures Sorted(Keep(s, m))
  {
    if s != [] {
      KeepSorted(s[1..], m);
      var rest := Keep(s[1..], m);
      forall j | 0 <= j < |rest| ensures Key(s[0].Type()) < Key(rest[j].Type()) {
        assert rest[j] in s[1..];
      }
    }
  }

  /** `remove(m)` clears exactly the bits of `m` from the mask. */
  lemma KeepMask(s: seq<Attr>, m: Mask)
    ensures MaskOf(Keep(s, m)) == MaskOf(s) - m
  {
    var r := Keep(s, m);
    forall t | t in MaskOf(s) - m ensures t in MaskOf(r) {
      var x :| x in s && x.Type() == t;
      assert x in r;
    }
  }

    /** `Keep` on a suffix, unfolded by one element. */
  lemma KeepUnfold(s: seq<Attr>, i: nat, m: Mask)
    requires i < |s|
    ensures Keep(s[i..], m) == (if s[i].Type() in m then [] else [s[i]]) + Keep(s[i + 1..], m)
  {
    assert s[i..][1..] == s[i + 1..];
  }

  /** The backward loop of `remove` has not yet touched index `i`. */
  lemma KeepStepAt(s: seq<Attr>, i: nat, m: Mask)
    requires i < |s|
    ensures (s[..i + 1] + Keep(s[i + 1..], m))[i] == s[i]
  {
  }

  /** One step of the backward loop of `remove` that drops index `i`. */
  lemma KeepStepDrop(s: seq<Attr>, i: nat, m: Mask)
    requires i < |s| && s[i].Type() in m
    ensures var t := s[..i + 1] + Keep(s[i + 1..], m);
            t[..i] + t[i + 1..] == s[..i] + Keep(s[i..], m)
  {
    KeepUnfold(s, i, m);
    SplitAt(s, i);
    DropMiddle(s[..i], s[i], Keep(s[i + 1..], m));
  }

  /** One step of the backward loop of `remove` that keeps index `i`. */
  lemma KeepStepKeep(s: seq<Attr>, i: nat, m: Mask)
    requires i < |s| && s[i].Type() !in m
    ensures s[..i + 1] + Keep(s[i + 1..], m) == s[..i] + Keep(s[i..], m)
  {
    KeepUnfold(s, i, m);
    SplitAt(s, i);
  }

  /** Splitting off the last element of a prefix. */
  lemma SplitAt<T>(s: seq<T>, i: nat)
    requires i < |s|
    ensures s[..i + 1] == s[..i] + [s[i]]
  {
  }

  /** Dropping the element between a prefix and a suffix. */
  lemma DropMiddle<T>(p: seq<T>, x: T, k: seq<T>)
    ensures var t := p + [x] + k; t[..|p|] + t[|p| + 1..] == p + k
  {
    var t := p + [x] + k;
    assert t[..|p|] == p;
    assert t[|p| + 1..] == k;
  }

  /** Removing one attribute from a sequence of unique types clears its bit. */
  lemma MaskOfRemoveAt(s: seq<Attr>, i: nat)
    requires UniqueTypes(s) && i < |s|
    ensures MaskOf(s[..i] + s[i + 1..]) == MaskOf(s) - {s[i].Type()}
  {
    var r := s[..i] + s[i + 1..];
    forall x | x in s && x.Type() != s[i].Type() ensures x in r {
      var j :| 0 <= j < |s| && s[j] == x;
      if j < i { assert r[j] == s[j]; } else { assert r[j - 1] == s[j]; }
    }
    forall x | x in r ensures x in s && x.Type() != s[i].Type() {
      var j :| 0 <= j < |r| && r[j] == x;
      if j < i { assert r[j] == s[j]; } else { assert r[j] == s[j + 1]; }
    }
  }

  /** Removing one attribute keeps the rest sorted and valid. */
  lemma RemoveAtKeepsOrder(s: seq<Attr>, i: nat)
    requires i < |s|
    ensures Sorted(s) ==> Sorted(s[..i] + s[i + 1..])
    ensures AllValid(s) ==> AllValid(s[..i] + s[i + 1..])
  {
    var r := s[..i] + s[i + 1..];
    assert forall j :: 0 <= j < |r| ==> r[j] == if j < i then s[j] else s[j + 1];
  }

  /** The attributes of a sorted sequence whose type is in `m`, in order:
      what `get(out, m)` appends. */
  function Matching(s: seq<Attr>, m: Mask): (r: seq<Attr>)
    ensures forall x :: x in r ==> x in s && x.Type() in m
    ensures forall x :: x in s && x.Type() in m ==> x in r
  {
    if s == [] then []
    else
      var init := s[..|s| - 1];
      var last := s[|s| - 1];
      assert s == init + [last];
      Matching(init, m) + (if last.Type() in m then [last] else [])
  }

  /** One step of the loop of `get(out, m)`. */
  lemma MatchingStep(s: seq<Attr>, i: nat, m: Mask)
    requires i < |s|
    ensures Matching(s[..i + 1], m) ==
            Matching(s[..i], m) + (if s[i].Type() in m then [s[i]] else [])
  {
    assert s[..i + 1][..i] == s[..i];
  }

  /** With unique types, the mask has one bit per attribute. */
  lemma {:induction false} MaskSize(s: seq<Attr>)
    requires UniqueTypes(s)
    ensures |MaskOf(s)| == |s|
  {
    if s != [] {
      MaskSize(s[1..]);
      assert MaskOf(s) == MaskOf(s[1..]) + {s[0].Type()} by {
        assert forall x :: x in s <==> x == s[0] || x in s[1..];
      }
      assert s[0].Type() !in MaskOf(s[1..]) by {
        forall x | x in s[1..] ensures x.Type() != s[0].Type() {
          var j :| 0 <= j < |s[1..]| && s[1..][j] == x;
          assert s[j + 1] == x;
        }
      }
    }
  }

  lemma MaskOfEmpty(s: seq<Attr>)
    ensures MaskOf(s) == {} <==> s == []
  {
    if s != [] {
      assert s[0].Type() in MaskOf(s);
    }
  }

  /** The first element has the smallest type, and the rest hold the others. */
  lemma SortedHead(s: seq<Attr>)
    requires Sorted(s) && s != []
    ensures forall t :: t in MaskOf(s) ==> Key(s[0].Type()) <= Key(t)
    ensures MaskOf(s[1..]) == MaskOf(s) - {s[0].Type()}
  {
    forall x | x in s ensures Key(s[0].Type()) <= Key(x.Type()) {
      var i :| 0 <= i < |s| && s[i] == x;
    }
    assert s[..0] + s[1..] == s[1..];
    MaskOfRemoveAt(s, 0);
  }

  /** Sorted contents are determined by their mask: two sorted sequences
      with equal masks have equal sizes and equal types index by index. */
  lemma {:induction false} SameMaskSameTypes(s: seq<Attr>, r: seq<Attr>)
    requires Sorted(s) && Sorted(r) && MaskOf(s) == MaskOf(r)
    ensures |s| == |r|
    ensures forall i :: 0 <= i < |s| ==> s[i].Type() == r[i].Type()
  {
    if s == [] || r == [] {
      MaskOfEmpty(s);
      MaskOfEmpty(r);
    } else {
      SortedHead(s);
      SortedHead(r);
      assert s[0] in s && r[0] in r;
      assert s[0].Type() == r[0].Type();
      SameMaskSameTypes(s[1..], r[1..]);
      forall i | 0 <= i < |s| ensures s[i].Type() == r[i].Type() {
        if i > 0 { assert s[i] == s[1..][i - 1] && r[i] == r[1..][i - 1]; }
      }
    }
  }

  /** The objects a sequence of attributes refers to. */
  function Objects(s: seq<Attr>): set<object> {
    set i | 0 <= i < |s| :: s[i].Obj()
  }

  /** The values held by a sequence of attributes. */
  function Values(s: seq<Attr>): (r: seq<AttrValue>)
    reads Objects(s)
    ensures |r| == |s|
    ensures forall i :: 0 <= i < |s| ==> r[i] == Value(s[i])
  {
    if s == [] then []
    else
      assert Objects(s[1..]) <= Objects(s) by {
        forall o | o in Objects(s[1..]) ensures o in Objects(s) {
          var i :| 0 <= i < |s[1..]| && s[1..][i].Obj() == o;
          assert s[i + 1].Obj() == o;
        }
      }
      assert s[0].Obj() in Objects(s);
      [Value(s[0])] + Values(s[1..])
  }

  /** Attributes whose objects are untouched keep their values. */
  twostate lemma ValuesUnchanged(s: seq<Attr>)
    requires forall i :: 0 <= i < |s| ==> unchanged(s[i].Obj())
    ensures Values(s) == old(Values(s))
  {
    forall i | 0 <= i < |s| ensures Values(s)[i] == old(Values(s))[i] {
      ValueUnchanged(s[i]);
    }
  }

  /** The container's `compareTo` once the masks agree: the sign of the
      first non-zero comparison of attributes at the same index, else 0. */
  function CompareSeq(xs: seq<AttrValue>, ys: seq<AttrValue>): Result<int>
    requires |xs| == |ys|
  {
    if xs == [] then Ok(0)
    else match Compare(xs[0], ys[0])
      case Err(e) => Err(e)
      case Ok(c) => if c != 0 then Ok(if c < 0 then -1 else 1) else CompareSeq(xs[1..], ys[1..])
  }

  lemma {:induction false} CompareSeqAntisymmetric(xs: seq<AttrValue>, ys: seq<AttrValue>)
    requires |xs| == |ys|
    ensures CompareSeq(xs, ys).Ok? == CompareSeq(ys, xs).Ok?
    ensures CompareSeq(xs, ys).Ok? ==> CompareSeq(xs, ys).value == -CompareSeq(ys, xs).value
  {
    if xs != [] {
      CompareAntisymmetric(xs[0], ys[0]);
      CompareSeqAntisymmetric(xs[1..], ys[1..]);
    }
  }

  lemma {:induction false} CompareSeqZeroIffEqual(xs: seq<AttrValue>, ys: seq<AttrValue>)
    requires |xs| == |ys|
    ensures CompareSeq(xs, ys) == Ok(0) <==> xs == ys
  {
    if xs != [] {
      CompareZeroIffEqual(xs[0], ys[0]);
      CompareSeqZeroIffEqual(xs[1..], ys[1..]);
      if xs[0] == ys[0] && xs[1..] == ys[1..] {
        assert xs == [xs[0]] + xs[1..] && ys == [ys[0]] + ys[1..];
      }
    }
  }

  /** The container's `compareTo`: masks first, in signed `long` order, then
      the attributes index by index. */
  function CompareContents(m1: Mask, xs: seq<AttrValue>, m2: Mask, ys: seq<AttrValue>): Result<int>
    requires m1 == m2 ==> |xs| == |ys|
  {
    if m1 != m2 then Ok(if LongLess(m1, m2) then -1 else 1)
    else CompareSeq(xs, ys)
  }

  /** Swapping the operands negates the result, and both fail or neither. */
  lemma CompareContentsAntisymmetric(m1: Mask, xs: seq<AttrValue>, m2: Mask, ys: seq<AttrValue>)
    requires m1 == m2 ==> |xs| == |ys|
    ensures CompareContents(m1, xs, m2, ys).Ok? == CompareContents(m2, ys, m1, xs).Ok?
    ensures CompareContents(m1, xs, m2, ys).Ok? ==>
              CompareContents(m1, xs, m2, ys).value == -CompareContents(m2, ys, m1, xs).value
  {
    LongLessTotal(m1, m2);
    if m1 == m2 {
      CompareSeqAntisymmetric(xs, ys);
    }
  }

  /** `compareTo` is zero exactly when the masks and all values agree, that
      is, exactly when `same(other, true)` holds. */
  lemma CompareContentsZeroIffSame(m1: Mask, xs: seq<AttrValue>, m2: Mask, ys: seq<AttrValue>)
    requires m1 == m2 ==> |xs| == |ys|
    ensures CompareContents(m1, xs, m2, ys) == Ok(0) <==> m1 == m2 && xs == ys
  {
    if m1 == m2 {
      CompareSeqZeroIffEqual(xs, ys);
    }
  }
}
