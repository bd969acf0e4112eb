/** List comparison and de-duplication (pkg/common/slice.go, controllers/network/common.go). */
module Slices {

  function Elems<T(==)>(s: seq<T>): set<T> {
    set x | x in s
  }

  ghost predicate NoDup<T>(s: seq<T>) {
    forall i, j :: 0 <= i < j < |s| ==> s[i] != s[j]
  }

  /** The elements of `a`, in order, that do not occur in `b`. */
  function Missing<T(==)>(a: seq<T>, b: seq<T>): seq<T> {
    if a == [] then []
    else
      var last := a[|a| - 1];
      Missing(a[..|a| - 1], b) + (if last in b then [] else [last])
  }

  lemma MissingSnoc<T>(a: seq<T>, i: nat, b: seq<T>)
    requires i < |a|
    ensures Missing(a[..i + 1], b) == Missing(a[..i], b) + (if a[i] in b then [] else [a[i]])
  {
    assert a[..i + 1][..i] == a[..i];
  }

  lemma ElemsSnoc<T>(s: seq<T>, x: T)
    ensures Elems(s + [x]) == Elems(s) + {x}
  {
    forall y | y in Elems(s) + {x} ensures y in s + [x] {
      if y == x {
        assert (s + [x])[|s|] == x;
      }
    }
  }

  lemma ElemsTake<T>(s: seq<T>, i: nat)
    requires i < |s|
    ensures Elems(s[..i + 1]) == Elems(s[..i]) + {s[i]}
  {
    assert s[..i + 1] == s[..i] + [s[i]];
    ElemsSnoc(s[..i], s[i]);
  }

  lemma {:induction false} MissingConcat<T>(a: seq<T>, b: seq<T>, c: seq<T>)
    ensures Missing(a + b, c) == Missing(a, c) + Missing(b, c)
  {
    if b == [] {
      assert a + b == a;
    } else {
      MissingConcat(a, b[..|b| - 1], c);
      assert (a + b)[..|a + b| - 1] == a + b[..|b| - 1];
    }
  }

  /** A missing element stands in the difference where it stands in the list, as often as there. */
  lemma MissingInOrder<T>(a: seq<T>, x: T, b: seq<T>, c: seq<T>)
    ensures Missing(a + [x] + b, c) == Missing(a, c) + (if x in c then [] else [x]) + Missing(b, c)
  {
    MissingConcat(a + [x], b, c);
    MissingConcat(a, [x], c);
    assert [x][..0] == [];
  }

  /** Two passes over the arguments, the second with the arguments swapped. */
  method SliceDiff<T(==)>(a: seq<T>, b: seq<T>) returns (diff: seq<T>)
    ensures diff == Missing(a, b) + Missing(b, a)
  {
    var s1, s2 := a, b;
    diff := [];
    for i := 0 to 2
      invariant i == 0 ==> s1 == a && s2 == b && diff == []
      invariant i == 1 ==> s1 == b && s2 == a && diff == Missing(a, b)
      invariant i == 2 ==> diff == Missing(a, b) + Missing(b, a)
    {
      ghost var start := diff;
      for j := 0 to |s1|
        invariant diff == start + Missing(s1[..j], s2)
      {
        var found := false;
        for k := 0 to |s2|
          invariant !found && s1[j] !in s2[..k]
        {
          if s1[j] == s2[k] {
            found := true;
            break;
          }
        }
        MissingSnoc(s1, j, s2);
        if !found {
          diff := diff + [s1[j]];
        }
      }
      assert s1[..|s1|] == s1;
      if i == 0 {
        s1, s2 := s2, s1;
      }
    }
  }

  lemma {:induction false} MissingElems<T>(a: seq<T>, b: seq<T>)
    ensures Elems(Missing(a, b)) == Elems(a) - Elems(b)
  {
    if a != [] {
      var last := a[|a| - 1];
      MissingElems(a[..|a| - 1], b);
      assert a == a[..|a| - 1] + [last];
      ElemsSnoc(a[..|a| - 1], last);
      ElemsSnoc(Missing(a[..|a| - 1], b), last);
      assert Missing(a[..|a| - 1], b) + [] == Missing(a[..|a| - 1], b);
    }
  }

  lemma MissingEmpty<T>(a: seq<T>, b: seq<T>)
    ensures Missing(a, b) == [] <==> Elems(a) <= Elems(b)
  {
    MissingElems(a, b);
    assert Missing(a, b) != [] ==> Missing(a, b)[0] in Elems(Missing(a, b));
    assert Elems(Missing(a, b)) == {} <==> Elems(a) <= Elems(b);
  }

  method SliceEqual<T(==)>(a: seq<T>, b: seq<T>) returns (equal: bool)
    ensures equal <==> |a| == |b| && Elems(a) == Elems(b)
  {
    if |a| != |b| {
      return false;
    }
    var diff := SliceDiff(a, b);
    MissingElems(a, b);
    MissingElems(b, a);
    MissingEmpty(a, b);
    MissingEmpty(b, a);
    return |diff| == 0;
  }

  /** The hash-based difference: elements of `b` that are not in `a`. */
  method MissingInSlice(a: seq<string>, b: seq<string>) returns (diffs: seq<string>)
    ensures diffs == Missing(b, a)
  {
    var ma: set<string> := {};
    for i := 0 to |a|
      invariant ma == Elems(a[..i])
    {
      ma := ma + {a[i]};
    }
    assert a[..|a|] == a;
    diffs := [];
    for i := 0 to |b|
      invariant diffs == Missing(b[..i], a)
    {
      MissingSnoc(b, i, a);
      if b[i] !in ma {
        diffs := diffs + [b[i]];
      }
    }
    assert b[..|b|] == b;
  }

  /** Both differences at once. What is new and what is missing rebuild the second list from the first,
      and the quadratic SliceDiff is exactly their concatenation. */
  method SliceDiffMissingNew(a: seq<string>, b: seq<string>) returns (added: seq<string>, missing: seq<string>)
    ensures missing + added == Missing(a, b) + Missing(b, a)
    ensures added == Missing(b, a)
    ensures (Elems(a) - Elems(missing)) + Elems(added) == Elems(b)
    ensures Elems(missing) !! Elems(b) && Elems(added) !! Elems(a)
  {
    added := MissingInSlice(a, b);
    missing := MissingInSlice(b, a);
    MissingElems(a, b);
    MissingElems(b, a);
  }

  lemma {:induction false} NoDupCount<T>(s: seq<T>)
    ensures |Elems(s)| <= |s|
    ensures NoDup(s) <==> |Elems(s)| == |s|
  {
    if s != [] {
      var init, last := s[..|s| - 1], s[|s| - 1];
      NoDupCount(init);
      assert s == init + [last];
      ElemsSnoc(init, last);
      if last in init {
        assert Elems(s) == Elems(init);
        var i :| 0 <= i < |init| && init[i] == last;
        assert s[i] == s[|s| - 1];
      } else {
        assert |Elems(s)| == |Elems(init)| + 1;
        assert NoDup(s) <==> NoDup(init);
      }
    }
  }

  lemma {:induction false} NoDupMultiset<T>(s: seq<T>)
    requires NoDup(s)
    ensures forall x :: multiset(s)[x] == if x in Elems(s) then 1 else 0
  {
    if s != [] {
      var init, last := s[..|s| - 1], s[|s| - 1];
      NoDupMultiset(init);
      assert s == init + [last];
      assert last !in init;
    }
  }

  /** As soon as one list is duplicate-free, the list comparison decides "is a permutation of". */
  lemma SliceEqualIsPermutation<T>(a: seq<T>, b: seq<T>)
    requires NoDup(a)
    ensures |a| == |b| && Elems(a) == Elems(b) <==> multiset(a) == multiset(b)
    ensures |a| == |b| && Elems(a) == Elems(b) ==> NoDup(b)
  {
    if |a| == |b| && Elems(a) == Elems(b) {
      NoDupCount(a);
      NoDupCount(b);
      NoDupMultiset(a);
      NoDupMultiset(b);
      assert forall x :: multiset(a)[x] == multiset(b)[x];
    }
    if multiset(a) == multiset(b) {
      assert |multiset(a)| == |a| && |multiset(b)| == |b|;
      assert forall x :: x in a <==> x in multiset(a);
      assert forall x :: x in b <==> x in multiset(b);
    }
  }

  lemma {:induction false} AllTheSame<T>(s: seq<T>, x: T)
    requires Elems(s) <= {x}
    ensures forall i :: 0 <= i < |s| ==> s[i] == x
  {
    forall i | 0 <= i < |s| ensures s[i] == x {
      assert s[i] in Elems(s);
    }
  }

  /** Overwriting one of two equal elements by another element of the list keeps the set, not the multiset. */
  lemma OverwriteDuplicate<T>(a: seq<T>, i: nat, j: nat, y: T)
    requires i < j < |a| && a[i] == a[j] && y in a && y != a[i]
    ensures var b := a[j := y]; |b| == |a| && Elems(b) == Elems(a) && multiset(b) != multiset(a)
  {
    var b := a[j := y];
    assert b[i] == a[i] && b[j] == y;
    forall x | x in a ensures x in b {
      var k :| 0 <= k < |a| && a[k] == x;
      assert b[if k == j then i else k] == x;
    }
    assert multiset(b) == multiset(a) - multiset{a[j]} + multiset{y};
    assert multiset(b)[y] == multiset(a)[y] + 1;
  }

  lemma SingleElement<T>(s: set<T>, x: T)
    requires x in s && |s| <= 1
    ensures s == {x}
  {
    assert |s - {x}| == |s| - 1;
  }

  /** The comparison with `a` decides "is a permutation of a" for every other list if and only if `a` is
      duplicate-free or repeats a single element. */
  lemma SliceEqualDecidesPermutation<T>(a: seq<T>)
    ensures (forall b: seq<T> :: |a| == |b| && Elems(a) == Elems(b) ==> multiset(a) == multiset(b)) <==>
              NoDup(a) || |Elems(a)| <= 1
  {
    if NoDup(a) || |Elems(a)| <= 1 {
      forall b: seq<T> | |a| == |b| && Elems(a) == Elems(b) ensures multiset(a) == multiset(b) {
        if NoDup(a) {
          SliceEqualIsPermutation(a, b);
        } else {
          SingleElement(Elems(a), a[0]);
          AllTheSame(a, a[0]);
          AllTheSame(b, a[0]);
          assert a == b;
        }
      }
    } else {
      var i, j :| 0 <= i < j < |a| && a[i] == a[j];
      assert Elems(a) != {a[i]};
      var y :| y in Elems(a) && y != a[i];
      OverwriteDuplicate(a, i, j, y);
    }
  }

  // ---- The library's Unique ----

  /** The order of strings, character by character. */
  predicate Less(a: string, b: string) {
    b != [] && (a == [] || a[0] < b[0] || (a[0] == b[0] && Less(a[1..], b[1..])))
  }

  /** At the first difference the character decides; a proper prefix is less. */
  lemma {:induction false} LessIff(a: string, b: string)
    ensures Less(a, b) <==>
              exists k :: 0 <= k <= |a| && k < |b| && a[..k] == b[..k] && (k == |a| || a[k] < b[k])
  {
    if a != [] && b != [] && a[0] == b[0] {
      LessIff(a[1..], b[1..]);
      if Less(a[1..], b[1..]) {
        var k :| 0 <= k <= |a[1..]| && k < |b[1..]| && a[1..][..k] == b[1..][..k] &&
          (k == |a[1..]| || a[1..][k] < b[1..][k]);
        assert a[..k + 1] == [a[0]] + a[1..][..k] && b[..k + 1] == [b[0]] + b[1..][..k];
      }
      if k :| 0 <= k <= |a| && k < |b| && a[..k] == b[..k] && (k == |a| || a[k] < b[k]) {
        assert k > 0;
        assert a[1..][..k - 1] == a[..k][1..] && b[1..][..k - 1] == b[..k][1..];
      }
    } else if Less(a, b) {
      assert a[..0] == b[..0];
    } else if k :| 0 <= k <= |a| && k < |b| && a[..k] == b[..k] && (k == |a| || a[k] < b[k]) {
      assert k > 0 ==> a[..k][0] == b[..k][0];
    }
  }

  lemma {:induction false} LessTotal(a: string, b: string)
    ensures !(Less(a, b) && Less(b, a)) && !Less(a, a)
    ensures Less(a, b) || a == b || Less(b, a)
  {
    if a != [] {
      LessTotal(a[1..], if b == [] then a[1..] else b[1..]);
      assert a == [a[0]] + a[1..] && (b != [] ==> b == [b[0]] + b[1..]);
    }
  }

  lemma {:induction false} LessTransitive(a: string, b: string, c: string)
    requires Less(a, b) && Less(b, c)
    ensures Less(a, c)
  {
    if a != [] && a[0] == b[0] == c[0] {
      LessTransitive(a[1..], b[1..], c[1..]);
    }
  }

  /** Strictly ascending. */
  ghost predicate Ascending(s: seq<string>) {
    forall i, j :: 0 <= i < j < |s| ==> Less(s[i], s[j])
  }

  ghost predicate Sorted(s: seq<string>) {
    forall i, j :: 0 <= i < j < |s| ==> !Less(s[j], s[i])
  }

  lemma NotLessTransitive(x: string, a: string, b: string)
    requires Less(x, a) && !Less(b, a)
    ensures Less(x, b)
  {
    LessTotal(a, b);
    if a != b {
      LessTransitive(x, a, b);
    }
  }

  /** Puts `x` into a sorted list. */
  method Insert(s: seq<string>, x: string) returns (r: seq<string>)
    requires Sorted(s)
    ensures Sorted(r) && multiset(r) == multiset(s) + multiset{x}
  {
    var k := |s|;
    while k > 0 && Less(x, s[k - 1])
      invariant 0 <= k <= |s|
      invariant forall i :: k <= i < |s| ==> Less(x, s[i])
    {
      k := k - 1;
    }
    r := s[..k] + [x] + s[k..];
    forall i | 0 <= i < |s| ensures i < k ==> !Less(x, s[i]) {
      if i < k - 1 && Less(x, s[i]) {
        NotLessTransitive(x, s[i], s[k - 1]);
      }
    }
    forall i | k <= i < |s| ensures !Less(s[i], x) {
      LessTotal(x, s[i]);
    }
    assert s == s[..k] + s[k..];
  }

  /** A sorted copy. */
  method Sort(s: seq<string>) returns (r: seq<string>)
    ensures Sorted(r) && multiset(r) == multiset(s)
  {
    r := [];
    for i := 0 to |s|
      invariant Sorted(r) && multiset(r) == multiset(s[..i])
    {
      assert s[..i + 1] == s[..i] + [s[i]];
      r := Insert(r, s[i]);
    }
    assert s[..|s|] == s;
  }

  lemma AscendingSnoc(s: seq<string>, x: string)
    requires Ascending(s) && s != [] && Less(s[|s| - 1], x)
    ensures Ascending(s + [x])
  {
    forall i | 0 <= i < |s| ensures Less(s[i], x) {
      if i < |s| - 1 {
        LessTransitive(s[i], s[|s| - 1], x);
      }
    }
  }

  /** Drops every element that repeats the one before it. */
  method SortedUnique(s: seq<string>) returns (r: seq<string>)
    requires Sorted(s)
    ensures Ascending(r) && Elems(r) == Elems(s)
  {
    r := [];
    var last := "";
    for i := 0 to |s|
      invariant Ascending(r) && Elems(r) == Elems(s[..i])
      invariant if i == 0 then r == [] else r != [] && r[|r| - 1] == last == s[i - 1]
    {
      ElemsTake(s, i);
      if i == 0 || last != s[i] {
        if i > 0 {
          LessTotal(last, s[i]);
          AscendingSnoc(r, s[i]);
        }
        ElemsSnoc(r, s[i]);
        r := r + [s[i]];
        last := s[i];
      }
    }
    assert s[..|s|] == s;
  }

  lemma AscendingNoDup(s: seq<string>)
    requires Ascending(s)
    ensures NoDup(s)
  {
    forall i, j | 0 <= i < j < |s| ensures s[i] != s[j] {
      LessTotal(s[i], s[j]);
    }
  }

  /** The library's Unique: the same elements, each once, in order. */
  method Unique(s: seq<string>) returns (r: seq<string>)
    ensures NoDup(r) && Ascending(r)
    ensures Elems(r) == Elems(s)
  {
    var sorted := Sort(s);
    assert forall x :: x in sorted <==> x in multiset(sorted);
    assert forall x :: x in s <==> x in multiset(s);
    r := SortedUnique(sorted);
    AscendingNoDup(r);
  }

  lemma EmptyElems<T>(s: seq<T>)
    ensures Elems(s) == {} <==> s == []
  {
    assert s != [] ==> s[0] in Elems(s);
  }

  lemma WithoutLast(s: seq<string>)
    requires Ascending(s) && s != []
    ensures var last, init := s[|s| - 1], s[..|s| - 1];
            && Ascending(init) && Elems(init) == Elems(s) - {last}
            && (forall x :: x in Elems(s) ==> x == last || Less(x, last))
  {
    var last, init := s[|s| - 1], s[..|s| - 1];
    AscendingNoDup(s);
    assert s == init + [last];
    ElemsSnoc(init, last);
    assert last !in init;
  }

  /** So the result depends on the set of the elements only. */
  lemma {:induction false} AscendingIsCanonical(a: seq<string>, b: seq<string>)
    requires Ascending(a) && Ascending(b) && Elems(a) == Elems(b)
    ensures a == b
  {
    EmptyElems(a);
    EmptyElems(b);
    if a != [] {
      var x, y := a[|a| - 1], b[|b| - 1];
      WithoutLast(a);
      WithoutLast(b);
      assert x in Elems(b) && y in Elems(a);
      LessTotal(x, y);
      AscendingIsCanonical(a[..|a| - 1], b[..|b| - 1]);
      assert a == a[..|a| - 1] + [x] && b == b[..|b| - 1] + [x];
    }
  }
}
