/** A stable sort under a comparator given as "may stay in front of", as a function on
    sequences and as an in-place insertion sort on an array proved to agree with it. */
module StableSort {
  import opened Seqs

  /** Where a stable insertion puts `x` into `s`: after the last element that may stay in
      front of it, with every element after that position moving behind `x`. */
  function InsertPos<T>(before: (T, T) -> bool, s: seq<T>, x: T): (p: nat)
    ensures p <= |s|
    ensures p > 0 ==> before(s[p - 1], x)
    ensures forall m :: p <= m < |s| ==> !before(s[m], x)
  {
    if |s| == 0 || before(s[|s| - 1], x) then |s|
    else InsertPos(before, s[..|s| - 1], x)
  }

  /** The insertion position is the only position with those two properties. */
  lemma InsertPosUnique<T>(before: (T, T) -> bool, s: seq<T>, x: T, j: nat)
    requires j <= |s|
    requires j > 0 ==> before(s[j - 1], x)
    requires forall m :: j <= m < |s| ==> !before(s[m], x)
    ensures InsertPos(before, s, x) == j
  {
  }

  /** `s` with `x` inserted at its insertion position. */
  function InsertLast<T>(before: (T, T) -> bool, s: seq<T>, x: T): (r: seq<T>)
    ensures multiset(r) == multiset(s) + multiset{x}
    ensures |r| == |s| + 1
  {
    var p := InsertPos(before, s, x);
    assert s == s[..p] + s[p..];
    s[..p] + [x] + s[p..]
  }

  /** The stable sort: each element in turn is inserted into the sorted prefix. */
  function SortBy<T>(before: (T, T) -> bool, s: seq<T>): (r: seq<T>)
    ensures multiset(r) == multiset(s)
    ensures |r| == |s|
  {
    if |s| == 0 then []
    else
      assert s == s[..|s| - 1] + [s[|s| - 1]];
      InsertLast(before, SortBy(before, s[..|s| - 1]), s[|s| - 1])
  }

  /** Sorting one element further is one insertion further. */
  lemma SortByStep<T>(before: (T, T) -> bool, s: seq<T>, i: nat)
    requires i < |s|
    ensures SortBy(before, s[..i + 1]) == InsertLast(before, SortBy(before, s[..i]), s[i])
  {
    assert s[..i + 1][..i] == s[..i];
  }

  ghost predicate Sorted<T>(before: (T, T) -> bool, s: seq<T>) {
    forall i, j :: 0 <= i < j < |s| ==> before(s[i], s[j])
  }

  /** On the elements of `dom` the comparator is a total preorder: any two compare, and
      the order is transitive. */
  ghost predicate ConsistentOn<T>(before: (T, T) -> bool, dom: seq<T>) {
    && (forall a, b :: a in dom && b in dom ==> before(a, b) || before(b, a))
    && (forall a, b, c :: (a in dom && b in dom && c in dom && before(a, b) && before(b, c)) ==>
                            before(a, c))
  }

  /** Inserting into a sorted list at the insertion position keeps it sorted. */
  lemma InsertLastSorted<T>(before: (T, T) -> bool, s: seq<T>, x: T, dom: seq<T>)
    requires ConsistentOn(before, dom)
    requires x in dom && forall i :: 0 <= i < |s| ==> s[i] in dom
    requires Sorted(before, s)
    ensures Sorted(before, InsertLast(before, s, x))
  {
    var p := InsertPos(before, s, x);
    forall i | 0 <= i < p ensures before(s[i], x) {
      assert i < p - 1 ==> before(s[i], s[p - 1]);
    }
    forall m | p <= m < |s| ensures before(x, s[m]) {
      assert !before(s[m], x);
    }
    SortedAround(before, s, x, p);
  }

  /** An element that may stay behind everything before position `p` and in front of
      everything from `p` on keeps a sorted list sorted when put at `p`. */
  lemma SortedAround<T>(before: (T, T) -> bool, s: seq<T>, x: T, p: nat)
    requires p <= |s| && Sorted(before, s)
    requires forall i :: 0 <= i < p ==> before(s[i], x)
    requires forall m :: p <= m < |s| ==> before(x, s[m])
    ensures Sorted(before, s[..p] + [x] + s[p..])
  {
    var r := s[..p] + [x] + s[p..];
    forall i, j | 0 <= i < j < |r| ensures before(r[i], r[j]) {
      if j < p {
        assert r[i] == s[i] && r[j] == s[j];
      } else if i > p {
        assert r[i] == s[i - 1] && r[j] == s[j - 1];
      } else if i == p {
        assert r[i] == x && r[j] == s[j - 1];
      } else if j == p {
        assert r[i] == s[i] && r[j] == x;
      } else {
        assert r[i] == s[i] && r[j] == s[j - 1];
      }
    }
  }

  lemma {:induction false} SortBySortedIn<T>(before: (T, T) -> bool, s: seq<T>, dom: seq<T>)
    requires ConsistentOn(before, dom)
    requires forall i :: 0 <= i < |s| ==> s[i] in dom
    ensures Sorted(before, SortBy(before, s))
  {
    if |s| > 0 {
      var init := s[..|s| - 1];
      SortBySortedIn(before, init, dom);
      var sorted := SortBy(before, init);
      forall i | 0 <= i < |sorted| ensures sorted[i] in dom {
        assert sorted[i] in multiset(init);
      }
      InsertLastSorted(before, sorted, s[|s| - 1], dom);
    }
  }

  /** When the comparator is consistent on the list, the sort puts it in order. */
  lemma SortBySorted<T>(before: (T, T) -> bool, s: seq<T>)
    requires ConsistentOn(before, s)
    ensures Sorted(before, SortBy(before, s))
  {
    SortBySortedIn(before, s, s);
  }

  lemma SortedPrefix<T>(before: (T, T) -> bool, s: seq<T>)
    requires Sorted(before, s) && |s| > 0
    ensures Sorted(before, s[..|s| - 1])
    ensures |s| > 1 ==> before(s[|s| - 2], s[|s| - 1])
  {
  }

  /** An element that may stay behind the last one is appended. */
  lemma InsertAtEnd<T>(before: (T, T) -> bool, s: seq<T>, x: T)
    requires |s| > 0 ==> before(s[|s| - 1], x)
    ensures InsertLast(before, s, x) == s + [x]
  {
    assert InsertPos(before, s, x) == |s|;
  }

  /** Sorting a list that is already in order changes nothing. */
  lemma {:induction false} SortBySortedIsIdentity<T>(before: (T, T) -> bool, s: seq<T>)
    requires Sorted(before, s)
    ensures SortBy(before, s) == s
  {
    if |s| > 0 {
      var init := s[..|s| - 1];
      var x := s[|s| - 1];
      SortedPrefix(before, s);
      calc {
        SortBy(before, s);
        InsertLast(before, SortBy(before, init), x);
      == { SortBySortedIsIdentity(before, init); }
        InsertLast(before, init, x);
      == { InsertAtEnd(before, init, x); }
        init + [x];
        s;
      }
    }
  }

  /** An inserted element goes behind every element it may stay behind, so when it may
      stay behind every element of the class `tied` that it belongs to, the class keeps
      its order. */
  lemma InsertLastTies<T(!new)>(before: (T, T) -> bool, t: seq<T>, x: T, tied: T -> bool)
    requires tied(x) ==> forall m :: 0 <= m < |t| && tied(t[m]) ==> before(t[m], x)
    ensures FilterBy(InsertLast(before, t, x), tied)
         == FilterBy(t, tied) + (if tied(x) then [x] else [])
  {
    var p := InsertPos(before, t, x);
    FilterAround(t, x, p, tied);
    FilterBySingle(x, tied);
    var f, b := FilterBy(t[..p], tied), FilterBy(t[p..], tied);
    if tied(x) {
      TiesInFront(before, t, x, tied);
      DropsFrom(t, p, tied);
      DropEmpty(f, [x], b);
    } else {
      DropEmpty(f, [], b);
    }
  }

  /** Behind the insertion position there is nothing `x` may stay behind, so nothing of
      its class. */
  lemma TiesInFront<T>(before: (T, T) -> bool, t: seq<T>, x: T, tied: T -> bool)
    requires tied(x) && forall m :: 0 <= m < |t| && tied(t[m]) ==> before(t[m], x)
    ensures forall m :: InsertPos(before, t, x) <= m < |t| ==> !tied(t[m])
  {
  }

  /** A suffix none of whose elements passes is filtered away. */
  lemma DropsFrom<T(!new)>(t: seq<T>, p: nat, tied: T -> bool)
    requires p <= |t| && forall m :: p <= m < |t| ==> !tied(t[m])
    ensures FilterBy(t[p..], tied) == []
  {
    var back := t[p..];
    forall m | 0 <= m < |back| ensures !tied(back[m]) {
      assert back[m] == t[p + m];
    }
    FilterByDropsAll(back, tied);
  }

  lemma DropEmpty<T>(f: seq<T>, m: seq<T>, b: seq<T>)
    ensures m == [] ==> f + m + b == f + b
    ensures b == [] ==> f + m + b == f + m && f + b == f
  {
  }

  /** What a filter keeps of `s` with `x` put at position `p`. */
  lemma FilterAround<T(!new)>(t: seq<T>, x: T, p: nat, tied: T -> bool)
    requires p <= |t|
    ensures FilterBy(t[..p] + [x] + t[p..], tied)
         == FilterBy(t[..p], tied) + FilterBy([x], tied) + FilterBy(t[p..], tied)
    ensures FilterBy(t, tied) == FilterBy(t[..p], tied) + FilterBy(t[p..], tied)
  {
    var front, back := t[..p], t[p..];
    assert t == front + back;
    FilterByAppend(front, back, tied);
    FilterByAppend(front + [x], back, tied);
    FilterByAppend(front, [x], tied);
  }

  /** A class of elements any two of which may stay in front of each other comes out of
      the sort in the order it went in. */
  lemma {:induction false} SortByKeepsTiesIn<T(!new)>(before: (T, T) -> bool, s: seq<T>, tied: T -> bool, dom: seq<T>)
    requires forall a, b :: a in dom && b in dom && tied(a) && tied(b) ==> before(a, b)
    requires forall i :: 0 <= i < |s| ==> s[i] in dom
    ensures FilterBy(SortBy(before, s), tied) == FilterBy(s, tied)
  {
    if |s| > 0 {
      var init := s[..|s| - 1];
      var x := s[|s| - 1];
      assert s == init + [x];
      SortByKeepsTiesIn(before, init, tied, dom);
      SortedTiesInFront(before, init, x, tied, dom);
      InsertLastTies(before, SortBy(before, init), x, tied);
      FilterByAppend(init, [x], tied);
      FilterBySingle(x, tied);
    }
  }

  /** The sorted prefix holds only elements of `dom`, so the last element may stay behind
      every one of its class there. */
  lemma SortedTiesInFront<T>(before: (T, T) -> bool, init: seq<T>, x: T, tied: T -> bool, dom: seq<T>)
    requires forall a, b :: a in dom && b in dom && tied(a) && tied(b) ==> before(a, b)
    requires x in dom && forall i :: 0 <= i < |init| ==> init[i] in dom
    ensures var sorted := SortBy(before, init);
            tied(x) ==> forall m :: 0 <= m < |sorted| && tied(sorted[m]) ==> before(sorted[m], x)
  {
    var sorted := SortBy(before, init);
    forall m | 0 <= m < |sorted| && tied(sorted[m]) && tied(x) ensures before(sorted[m], x) {
      assert sorted[m] in multiset(init);
    }
  }

  /** The elements that compare equal to `k`: each may stay in front of the other. */
  function TiedWith<T>(before: (T, T) -> bool, k: T): T -> bool {
    (e: T) => before(e, k) && before(k, e)
  }

  /** Stability: when the comparator is consistent on the list, the elements that compare
      equal to any one of them come out of the sort in the order they went in. */
  lemma SortByStable<T(!new)>(before: (T, T) -> bool, s: seq<T>, k: T)
    requires ConsistentOn(before, s) && k in s
    ensures FilterBy(SortBy(before, s), TiedWith(before, k)) == FilterBy(s, TiedWith(before, k))
  {
    var tied := TiedWith(before, k);
    forall a, b | a in s && b in s && tied(a) && tied(b) ensures before(a, b) {
      assert before(a, k) && before(k, b);
    }
    SortByKeepsTiesIn(before, s, tied, s);
  }

  /** One step of the insertion sort: `a[i]` moves into the prefix `a[..i]` at its insertion
      position, the elements behind it shifting one place right. */
  method InsertInPlace<T>(a: array<T>, i: nat, before: (T, T) -> bool)
    requires i < a.Length
    modifies a
    ensures a[..i + 1] == InsertLast(before, old(a[..i]), old(a[i]))
    ensures a[i + 1..] == old(a[i + 1..])
  {
    ghost var prefix := a[..i];
    var x := a[i];
    var j := i;
    while j > 0 && !before(a[j - 1], x)
      invariant 0 <= j <= i
      invariant a[..j] == prefix[..j]
      invariant a[j + 1..i + 1] == prefix[j..]
      invariant a[i + 1..] == old(a[i + 1..])
      invariant forall m :: j <= m < i ==> !before(prefix[m], x)
    {
      a[j] := a[j - 1];
      j := j - 1;
    }
    a[j] := x;
    InsertPosUnique(before, prefix, x, j);
    assert a[..i + 1] == prefix[..j] + [x] + prefix[j..];
  }

  /** The in-place insertion sort: the array ends up as `SortBy` of its old contents. */
  method SortInPlace<T>(a: array<T>, before: (T, T) -> bool)
    modifies a
    ensures a[..] == SortBy(before, old(a[..]))
  {
    ghost var s0 := a[..];
    var i := 0;
    while i < a.Length
      invariant 0 <= i <= a.Length
      invariant a[..i] == SortBy(before, s0[..i])
      invariant a[i..] == s0[i..]
    {
      assert a[i] == s0[i] by {
        assert a[i..][0] == a[i] && s0[i..][0] == s0[i];
      }
      assert a[i + 1..] == s0[i + 1..] by {
        assert a[i + 1..] == a[i..][1..] && s0[i + 1..] == s0[i..][1..];
      }
      InsertInPlace(a, i, before);
      SortByStep(before, s0, i);
      i := i + 1;
    }
    assert s0[..a.Length] == s0;
  }
}
