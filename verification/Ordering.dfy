/**
 The byte-wise order on text and the stable sort that the sources use on lists
 of records, together with the fact that a strict key leaves sorting no choice.
 */
module Ordering {
  import opened Sequences

  /** Byte-wise lexicographic comparison. */
  predicate TextLess(a: string, b: string) {
    b != [] && (a == [] || a[0] < b[0] || (a[0] == b[0] && TextLess(a[1..], b[1..])))
  }

  predicate TextLe(a: string, b: string) {
    a == b || TextLess(a, b)
  }

  lemma {:induction false} TextLessTransitive(a: string, b: string, c: string)
    requires TextLess(a, b) && TextLess(b, c)
    ensures TextLess(a, c)
  {
    if a != [] && a[0] == b[0] && b[0] == c[0] {
      TextLessTransitive(a[1..], b[1..], c[1..]);
    }
  }

  lemma {:induction false} TextLessTotal(a: string, b: string)
    ensures a == b || TextLess(a, b) || TextLess(b, a)
    ensures !(TextLess(a, b) && TextLess(b, a))
    ensures a == b ==> !TextLess(a, b)
  {
    if a != [] && b != [] && a[0] == b[0] {
      TextLessTotal(a[1..], b[1..]);
      assert a == [a[0]] + a[1..] && b == [b[0]] + b[1..];
    }
  }

  /** The texts agree up to `k`, and there the first one ends or has the smaller byte. */
  predicate PartAt(a: string, b: string, k: nat) {
    && k <= |a| && k < |b|
    && (forall i :: 0 <= i < k ==> a[i] == b[i])
    && (k == |a| || a[k] < b[k])
  }

  /** The byte-wise order. */
  ghost predicate Precedes(a: string, b: string) {
    exists k: nat :: PartAt(a, b, k)
  }

  lemma PartNext(a: string, b: string, k: nat)
    requires a != [] && b != [] && a[0] == b[0]
    ensures PartAt(a, b, k + 1) <==> PartAt(a[1..], b[1..], k)
  {
    if PartAt(a, b, k + 1) {
      assert forall i :: 0 <= i < k ==> a[1..][i] == a[i + 1] && b[1..][i] == b[i + 1];
    }
    if PartAt(a[1..], b[1..], k) {
      assert forall i :: 0 < i <= k ==> a[i] == a[1..][i - 1] && b[i] == b[1..][i - 1];
    }
  }

  lemma PrecedesNext(a: string, b: string)
    requires a != [] && b != [] && a[0] == b[0]
    ensures Precedes(a, b) <==> Precedes(a[1..], b[1..])
  {
    if Precedes(a, b) {
      var k: nat :| PartAt(a, b, k);
      assert k > 0;
      PartNext(a, b, k - 1);
    }
    if Precedes(a[1..], b[1..]) {
      var k: nat :| PartAt(a[1..], b[1..], k);
      PartNext(a, b, k);
    }
  }

  lemma {:induction false} TextLessExactly(a: string, b: string)
    ensures TextLess(a, b) <==> Precedes(a, b)
  {
    if a == [] || b == [] {
      assert PartAt(a, b, 0) <==> a == [] && b != [];
    } else if a[0] == b[0] {
      PrecedesNext(a, b);
      TextLessExactly(a[1..], b[1..]);
    } else {
      assert PartAt(a, b, 0) <==> a[0] < b[0];
    }
  }

  ghost predicate TotalPreorder<T(!new)>(le: (T, T) -> bool) {
    && (forall x, y :: le(x, y) || le(y, x))
    && (forall x, y, z :: le(x, y) && le(y, z) ==> le(x, z))
  }

  ghost predicate SortedBy<T>(s: seq<T>, le: (T, T) -> bool) {
    forall i, j :: 0 <= i < j < |s| ==> le(s[i], s[j])
  }

  /** Distinct elements of `s` are strictly ordered by `le`. */
  ghost predicate StrictOn<T>(s: seq<T>, le: (T, T) -> bool) {
    forall i, j :: 0 <= i < |s| && 0 <= j < |s| && le(s[i], s[j]) && le(s[j], s[i]) ==> s[i] == s[j]
  }

  function Insert<T>(x: T, s: seq<T>, le: (T, T) -> bool): (r: seq<T>)
    ensures multiset(r) == multiset(s) + multiset{x}
    ensures |r| == |s| + 1
  {
    if s == [] || le(x, s[0]) then [x] + s
    else
      assert s == [s[0]] + s[1..];
      [s[0]] + Insert(x, s[1..], le)
  }

  /** Stable sort: an element never overtakes an earlier one it is tied with. */
  function Sort<T>(s: seq<T>, le: (T, T) -> bool): (r: seq<T>)
    ensures multiset(r) == multiset(s)
    ensures |r| == |s|
  {
    if s == [] then []
    else
      assert s == [s[0]] + s[1..];
      Insert(s[0], Sort(s[1..], le), le)
  }

  lemma {:induction false} InsertSorted<T(!new)>(x: T, s: seq<T>, le: (T, T) -> bool)
    requires TotalPreorder(le) && SortedBy(s, le)
    ensures SortedBy(Insert(x, s, le), le)
  {
    if s != [] && !le(x, s[0]) {
      InsertSorted(x, s[1..], le);
      var rest := Insert(x, s[1..], le);
      forall y | y in rest ensures le(s[0], y) {
        assert y in multiset(rest);
        assert y in multiset(s[1..]) || y == x;
      }
    }
  }

  lemma {:induction false} SortSorted<T(!new)>(s: seq<T>, le: (T, T) -> bool)
    requires TotalPreorder(le)
    ensures SortedBy(Sort(s, le), le)
    ensures forall x :: x in Sort(s, le) <==> x in s
  {
    forall x ensures x in Sort(s, le) <==> x in s {
      assert x in multiset(Sort(s, le)) <==> x in multiset(s);
    }
    if s == [] {
    } else {
      SortSorted(s[1..], le);
      InsertSorted(s[0], Sort(s[1..], le), le);
    }
  }

  /** The first elements of two sorted arrangements of one bag are tied. */
  lemma SortedHead<T(!new)>(a: seq<T>, b: seq<T>, le: (T, T) -> bool)
    requires SortedBy(a, le) && SortedBy(b, le)
    requires multiset(a) == multiset(b) && a != [] && b != []
    ensures a[0] == b[0] || (le(a[0], b[0]) && le(b[0], a[0]) && b[0] in a)
  {
    assert a[0] in multiset(b) && b[0] in multiset(a);
    var i :| 0 <= i < |b| && b[i] == a[0];
    var j :| 0 <= j < |a| && a[j] == b[0];
  }

  /** A strict key leaves exactly one sorted arrangement of a bag of elements. */
  lemma {:induction false} SortedUnique<T(!new)>(a: seq<T>, b: seq<T>, le: (T, T) -> bool)
    requires SortedBy(a, le) && SortedBy(b, le) && StrictOn(a, le)
    requires multiset(a) == multiset(b)
    ensures a == b
  {
    assert |multiset(a)| == |a| && |multiset(b)| == |b|;
    if a == [] {
    } else {
      SortedHead(a, b, le);
      assert a[0] == b[0];
      assert a == [a[0]] + a[1..] && b == [b[0]] + b[1..];
      assert multiset(a) - multiset{a[0]} == multiset(a[1..]);
      assert multiset(b) - multiset{b[0]} == multiset(b[1..]);
      TailStrict(a, le);
      SortedUnique(a[1..], b[1..], le);
    }
  }

  lemma TailStrict<T>(a: seq<T>, le: (T, T) -> bool)
    requires a != [] && StrictOn(a, le)
    ensures StrictOn(a[1..], le)
  {
    forall i, j | 0 <= i < |a[1..]| && 0 <= j < |a[1..]| && le(a[1..][i], a[1..][j]) && le(a[1..][j], a[1..][i])
      ensures a[1..][i] == a[1..][j]
    {
      assert a[1..][i] == a[i + 1] && a[1..][j] == a[j + 1];
    }
  }

  /** The first entries of a sorted list and the others. */
  lemma FirstOfSorted<T(!new)>(s: seq<T>, le: (T, T) -> bool, n: nat)
    requires SortedBy(s, le)
    ensures var first, rest := Take(s, n), s[|Take(s, n)|..];
            && first + rest == s
            && SortedBy(first, le)
            && forall x, y :: x in first && y in rest ==> le(x, y)
  {
    var first, rest := Take(s, n), s[|Take(s, n)|..];
    forall x, y | x in first && y in rest ensures le(x, y) {
      var i :| 0 <= i < |first| && first[i] == x;
      var j :| 0 <= j < |rest| && rest[j] == y;
      assert s[i] == x && s[|first| + j] == y;
    }
  }

  // ---------- ties ----------

  function Tied<T>(le: (T, T) -> bool, x: T): T -> bool {
    y => le(x, y) && le(y, x)
  }

  lemma {:induction false} InsertStable<T(!new)>(x: T, s: seq<T>, le: (T, T) -> bool, among: T -> bool)
    requires forall y, z :: among(y) && among(z) ==> le(y, z)
    ensures Filter(Insert(x, s, le), among) == Filter([x], among) + Filter(s, among)
  {
    if s == [] || le(x, s[0]) {
      FilterConcat([x], s, among);
    } else {
      InsertStable(x, s[1..], le, among);
      FilterConcat([s[0]], Insert(x, s[1..], le), among);
      assert s == [s[0]] + s[1..];
      FilterConcat([s[0]], s[1..], among);
      assert Filter([x], among) == [] || Filter([s[0]], among) == [];
      SwapFront(Filter([x], among), Filter([s[0]], among), Filter(s[1..], among));
    }
  }

  lemma SwapFront<T>(a: seq<T>, b: seq<T>, rest: seq<T>)
    requires a == [] || b == []
    ensures b + (a + rest) == a + (b + rest)
  {
  }

  /** Sorting keeps the order among elements that are tied with each other. */
  lemma {:induction false} SortStable<T(!new)>(s: seq<T>, le: (T, T) -> bool, among: T -> bool)
    requires forall y, z :: among(y) && among(z) ==> le(y, z)
    ensures Filter(Sort(s, le), among) == Filter(s, among)
  {
    if s == [] {
    } else {
      SortStable(s[1..], le, among);
      InsertStable(s[0], Sort(s[1..], le), le, among);
      assert s == [s[0]] + s[1..];
      FilterConcat([s[0]], s[1..], among);
    }
  }

  ghost predicate SameTies<T(!new)>(a: seq<T>, b: seq<T>, le: (T, T) -> bool) {
    forall x :: x in a ==> Filter(a, Tied(le, x)) == Filter(b, Tied(le, x))
  }

  /** Tied first elements are the first of their group. */
  lemma SameHead<T(!new)>(a: seq<T>, b: seq<T>, le: (T, T) -> bool)
    requires a != [] && b != [] && SameTies(a, b, le)
    requires le(a[0], a[0]) && le(a[0], b[0]) && le(b[0], a[0])
    ensures a[0] == b[0]
  {
    assert Filter(a, Tied(le, a[0]))[0] == a[0] && Filter(b, Tied(le, a[0]))[0] == b[0];
  }

  lemma SameTails<T(!new)>(a: seq<T>, b: seq<T>, le: (T, T) -> bool)
    requires a != [] && b != [] && a[0] == b[0] && SameTies(a, b, le)
    ensures SameTies(a[1..], b[1..], le)
  {
    forall x | x in a[1..] ensures Filter(a[1..], Tied(le, x)) == Filter(b[1..], Tied(le, x)) {
      assert x in a;
      var p, q := Filter(a[1..], Tied(le, x)), Filter(b[1..], Tied(le, x));
      assert ([a[0]] + p)[1..] == p && ([a[0]] + q)[1..] == q;
    }
  }

  lemma TailBag<T>(s: seq<T>)
    requires s != []
    ensures multiset(s[1..]) == multiset(s) - multiset{s[0]}
  {
    assert s == [s[0]] + s[1..];
  }

  /** Two sorted arrangements that agree on every group of ties are the same. */
  lemma {:induction false} SortedSameTies<T(!new)>(a: seq<T>, b: seq<T>, le: (T, T) -> bool)
    requires TotalPreorder(le) && SortedBy(a, le) && SortedBy(b, le)
    requires multiset(a) == multiset(b) && SameTies(a, b, le)
    ensures a == b
  {
    assert |multiset(a)| == |a| && |multiset(b)| == |b|;
    if a == [] {
    } else {
      SortedHead(a, b, le);
      SameHead(a, b, le);
      SameTails(a, b, le);
      TailBag(a);
      TailBag(b);
      SortedSameTies(a[1..], b[1..], le);
    }
  }

  /** Two lists of the same elements sort alike exactly when they agree on the order of ties. */
  lemma SortedAlikeExactly<T(!new)>(a: seq<T>, b: seq<T>, le: (T, T) -> bool)
    requires TotalPreorder(le) && multiset(a) == multiset(b)
    ensures Sort(a, le) == Sort(b, le) <==> SameTies(a, b, le)
  {
    SortSorted(a, le);
    SortSorted(b, le);
    forall x ensures Filter(Sort(a, le), Tied(le, x)) == Filter(a, Tied(le, x))
             ensures Filter(Sort(b, le), Tied(le, x)) == Filter(b, Tied(le, x)) {
      SortStable(a, le, Tied(le, x));
      SortStable(b, le, Tied(le, x));
    }
    if SameTies(a, b, le) {
      SortedSameTies(Sort(a, le), Sort(b, le), le);
    }
  }

  // ---------- runs of equals ----------

  /** Keeps `x` unless it is the same as the element kept last. */
  function DedupNext<T>(kept: seq<T>, x: T, same: (T, T) -> bool): seq<T> {
    if kept != [] && same(kept[|kept| - 1], x) then kept else kept + [x]
  }

  function DedupBy<T>(s: seq<T>, same: (T, T) -> bool): seq<T> {
    if s == [] then [] else DedupNext(DedupBy(s[..|s| - 1], same), s[|s| - 1], same)
  }

  /** `same` is an equivalence whose classes are intervals of `le`. */
  ghost predicate Grouping<T(!new)>(le: (T, T) -> bool, same: (T, T) -> bool) {
    && (forall x :: le(x, x) && same(x, x))
    && (forall x, y, z :: le(x, y) && le(y, z) && same(x, z) ==> same(x, y))
  }

  ghost predicate PairwiseDifferent<T>(s: seq<T>, same: (T, T) -> bool) {
    forall i, j :: 0 <= i < j < |s| ==> !same(s[i], s[j])
  }

  ghost predicate Covered<T>(s: seq<T>, r: seq<T>, le: (T, T) -> bool, same: (T, T) -> bool) {
    forall x :: x in s ==> exists y :: y in r && same(y, x) && le(y, x)
  }

  lemma DedupStep<T(!new)>(kept: seq<T>, x: T, le: (T, T) -> bool, same: (T, T) -> bool)
    requires Grouping(le, same) && SortedBy(kept + [x], le) && PairwiseDifferent(kept, same)
    requires kept != [] && !same(kept[|kept| - 1], x)
    ensures PairwiseDifferent(kept + [x], same)
  {
    var s, n := kept + [x], |kept|;
    forall i | 0 <= i < n ensures !same(s[i], s[n]) {
      assert le(s[i], s[n - 1]) by {
        assert i < n - 1 ==> le(s[i], s[n - 1]);
      }
      assert le(s[n - 1], s[n]);
      assert i < n - 1 ==> !same(kept[i], kept[n - 1]);
    }
    forall i, j | 0 <= i < j < |s| ensures !same(s[i], s[j]) {
      if j < n {
        assert !same(kept[i], kept[j]);
      }
    }
  }

  /** `r` has one element of every class of the sorted list `s`, the least of its class. */
  ghost predicate Deduplicated<T>(s: seq<T>, r: seq<T>, le: (T, T) -> bool, same: (T, T) -> bool) {
    && (forall x :: x in r ==> x in s)
    && SortedBy(r, le)
    && PairwiseDifferent(r, same)
    && Covered(s, r, le, same)
  }

  lemma CoverNext<T(!new)>(s: seq<T>, kept: seq<T>, x: T, le: (T, T) -> bool, same: (T, T) -> bool)
    requires Covered(s, kept, le, same) && le(x, x) && same(x, x)
    requires forall y :: y in kept ==> le(y, x)
    ensures Covered(s + [x], DedupNext(kept, x, same), le, same)
  {
    var r := DedupNext(kept, x, same);
    forall y | y in s + [x] ensures exists z :: z in r && same(z, y) && le(z, y) {
      if y in s {
        var z :| z in kept && same(z, y) && le(z, y);
        assert z in r;
      } else {
        assert r[|r| - 1] in r;
      }
    }
  }

  lemma DedupNextKeeps<T(!new)>(s: seq<T>, kept: seq<T>, x: T, le: (T, T) -> bool, same: (T, T) -> bool)
    requires Grouping(le, same) && Deduplicated(s, kept, le, same) && forall y :: y in s ==> le(y, x)
    ensures Deduplicated(s + [x], DedupNext(kept, x, same), le, same)
  {
    CoverNext(s, kept, x, le, same);
    if kept != [] && !same(kept[|kept| - 1], x) {
      DedupStep(kept, x, le, same);
    }
  }

  lemma LastIsGreatest<T(!new)>(s: seq<T>, le: (T, T) -> bool)
    requires SortedBy(s, le) && s != []
    ensures SortedBy(s[..|s| - 1], le)
    ensures var init, x := s[..|s| - 1], s[|s| - 1]; forall y :: y in init ==> le(y, x)
  {
  }

  /** What is left is in order. */
  lemma {:induction false} DedupStaysSorted<T(!new)>(s: seq<T>, le: (T, T) -> bool, same: (T, T) -> bool)
    requires SortedBy(s, le)
    ensures SortedBy(DedupBy(s, same), le) && forall x :: x in DedupBy(s, same) ==> x in s
  {
    if s != [] {
      var n := |s| - 1;
      DedupStaysSorted(s[..n], le, same);
      LastKeepsOrder(DedupBy(s[..n], same), s, le);
    }
  }

  lemma LastKeepsOrder<T>(kept: seq<T>, s: seq<T>, le: (T, T) -> bool)
    requires s != [] && SortedBy(s, le) && SortedBy(kept, le) && forall x :: x in kept ==> x in s[..|s| - 1]
    ensures SortedBy(kept + [s[|s| - 1]], le)
  {
    var n := |s| - 1;
    forall i | 0 <= i < |kept| ensures le(kept[i], s[n]) {
      assert kept[i] in kept && kept[i] in s[..n];
      var k :| 0 <= k < n && s[..n][k] == kept[i];
    }
  }

  lemma {:induction false} DedupSorted<T(!new)>(s: seq<T>, le: (T, T) -> bool, same: (T, T) -> bool)
    requires Grouping(le, same) && SortedBy(s, le)
    ensures Deduplicated(s, DedupBy(s, same), le, same)
  {
    if s == [] {
    } else {
      var init, x := s[..|s| - 1], s[|s| - 1];
      DedupSorted(init, le, same);
      LastIsGreatest(s, le);
      DedupNextKeeps(init, DedupBy(init, same), x, le, same);
      assert s == init + [x];
    }
  }
}
