/** The two array combinators the components use everywhere, `Array.prototype.filter` and
    `Array.prototype.map`, as functions on sequences, with the facts the other modules need. */
module Seqs {

  /** `s.filter(p)`: the elements of `s` satisfying `p`, in their original order. */
  function FilterBy<T(!new)>(s: seq<T>, p: T -> bool): (r: seq<T>)
    ensures |r| <= |s|
    ensures forall i :: 0 <= i < |r| ==> p(r[i])
    ensures forall x :: multiset(r)[x] == if p(x) then multiset(s)[x] else 0
  {
    if |s| == 0 then []
    else
      assert s == [s[0]] + s[1..];
      (if p(s[0]) then [s[0]] else []) + FilterBy(s[1..], p)
  }

  /** `s.map(f)`. */
  function MapSeq<T, U>(s: seq<T>, f: T -> U): (r: seq<U>)
    ensures |r| == |s|
    ensures forall i :: 0 <= i < |s| ==> r[i] == f(s[i])
  {
    if |s| == 0 then [] else [f(s[0])] + MapSeq(s[1..], f)
  }

  /** Filtering with a predicate that every element satisfies returns the sequence itself. */
  lemma {:induction false} FilterByKeepsAll<T(!new)>(s: seq<T>, p: T -> bool)
    requires forall i :: 0 <= i < |s| ==> p(s[i])
    ensures FilterBy(s, p) == s
  {
    if |s| > 0 {
      FilterByKeepsAll(s[1..], p);
    }
  }

  /** Filtering with a predicate that no element satisfies returns the empty sequence. */
  lemma {:induction false} FilterByDropsAll<T(!new)>(s: seq<T>, p: T -> bool)
    requires forall i :: 0 <= i < |s| ==> !p(s[i])
    ensures FilterBy(s, p) == []
  {
    if |s| > 0 {
      FilterByDropsAll(s[1..], p);
    }
  }

  /** A one-element sequence is kept whole or dropped. */
  lemma FilterBySingle<T(!new)>(x: T, p: T -> bool)
    ensures FilterBy([x], p) == if p(x) then [x] else []
  {
    assert [x][1..] == [];
  }

  /** Filtering a concatenation filters each part, in order. */
  lemma {:induction false} FilterByAppend<T(!new)>(a: seq<T>, b: seq<T>, p: T -> bool)
    ensures FilterBy(a + b, p) == FilterBy(a, p) + FilterBy(b, p)
  {
    if |a| == 0 {
      assert a + b == b;
    } else {
      assert (a + b)[0] == a[0];
      assert (a + b)[1..] == a[1..] + b;
      FilterByAppend(a[1..], b, p);
    }
  }

  /** Two successive filters are one filter by the conjunction, order included. */
  lemma {:induction false} FilterByCompose<T(!new)>(s: seq<T>, p: T -> bool, q: T -> bool, pq: T -> bool)
    requires forall x :: pq(x) == (p(x) && q(x))
    ensures FilterBy(FilterBy(s, p), q) == FilterBy(s, pq)
  {
    if |s| > 0 {
      FilterByCompose(s[1..], p, q, pq);
      var rest := FilterBy(s[1..], p);
      if p(s[0]) {
        assert FilterBy(s, p) == [s[0]] + rest;
        assert ([s[0]] + rest)[1..] == rest;
      } else {
        assert FilterBy(s, p) == rest;
      }
    }
  }

  /** Filtering with two predicates that agree on every element gives the same result. */
  lemma {:induction false} FilterByCongruent<T(!new)>(s: seq<T>, p: T -> bool, q: T -> bool)
    requires forall i :: 0 <= i < |s| ==> p(s[i]) == q(s[i])
    ensures FilterBy(s, p) == FilterBy(s, q)
  {
    if |s| > 0 {
      FilterByCongruent(s[1..], p, q);
    }
  }

  /** A filter keeps at most as many elements as a weaker filter. */
  lemma {:induction false} FilterByMonotone<T(!new)>(s: seq<T>, p: T -> bool, q: T -> bool)
    requires forall i :: 0 <= i < |s| ==> p(s[i]) ==> q(s[i])
    ensures |FilterBy(s, p)| <= |FilterBy(s, q)|
  {
    if |s| > 0 {
      FilterByMonotone(s[1..], p, q);
    }
  }

  /** The first element counts once if it passes, and the rest is filtered on its own. */
  lemma FilterByCons<T(!new)>(s: seq<T>, p: T -> bool)
    requires |s| > 0
    ensures |FilterBy(s, p)| == (if p(s[0]) then 1 else 0) + |FilterBy(s[1..], p)|
  {
  }

  /** Two filters that never both hold keep at most the whole sequence between them. */
  lemma {:induction false} FilterByDisjoint<T(!new)>(s: seq<T>, p: T -> bool, q: T -> bool)
    requires forall x :: !(p(x) && q(x))
    ensures |FilterBy(s, p)| + |FilterBy(s, q)| <= |s|
  {
    if |s| > 0 {
      FilterByDisjoint(s[1..], p, q);
    }
  }

  /** What a filter keeps depends only on the multiset of elements, not on their order. */
  lemma FilterByPermutation<T(!new)>(a: seq<T>, b: seq<T>, p: T -> bool)
    requires multiset(a) == multiset(b)
    ensures multiset(FilterBy(a, p)) == multiset(FilterBy(b, p))
    ensures |FilterBy(a, p)| == |FilterBy(b, p)|
  {
    assert multiset(FilterBy(a, p)) == multiset(FilterBy(b, p));
    assert |multiset(FilterBy(a, p))| == |FilterBy(a, p)|;
    assert |multiset(FilterBy(b, p))| == |FilterBy(b, p)|;
  }

  /** Two sequences whose elements pass their filters at the same positions keep equally
      many. */
  lemma {:induction false} FilterByAligned<T(!new), U(!new)>(a: seq<T>, b: seq<U>, p: T -> bool, q: U -> bool)
    requires |a| == |b| && forall i :: 0 <= i < |a| ==> p(a[i]) == q(b[i])
    ensures |FilterBy(a, p)| == |FilterBy(b, q)|
  {
    if |a| > 0 {
      assert forall i :: 0 <= i < |a[1..]| ==> a[1..][i] == a[i + 1] && b[1..][i] == b[i + 1];
      FilterByAligned(a[1..], b[1..], p, q);
    }
  }

  /** A fresh array holding `s`: what a `setState` with a new list allocates. */
  method ArrayOf<T>(s: seq<T>) returns (a: array<T>)
    ensures fresh(a) && a[..] == s
  {
    a := new T[|s|](i requires 0 <= i < |s| => s[i]);
  }
}
