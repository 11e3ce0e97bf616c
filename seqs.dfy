/** Order-preserving selection over sequences: the `Array.prototype.filter` the pages use. */
module Seqs {

  /** The elements of `s` that satisfy `p`, in their original order. */
  function Filter<T>(s: seq<T>, p: T -> bool): (r: seq<T>)
    ensures |r| <= |s|
    ensures forall i :: 0 <= i < |r| ==> r[i] in s && p(r[i])
    ensures forall i :: 0 <= i < |s| && p(s[i]) ==> s[i] in r
  {
    if s == [] then []
    else (if p(s[0]) then [s[0]] else []) + Filter(s[1..], p)
  }

  /** Filtering distributes over concatenation: the kept elements keep their relative order. */
  lemma {:induction false} FilterAppend<T>(a: seq<T>, b: seq<T>, p: T -> bool)
    ensures Filter(a + b, p) == Filter(a, p) + Filter(b, p)
  {
    if a == [] {
      assert a + b == b;
    } else {
      assert (a + b)[1..] == a[1..] + b;
      FilterAppend(a[1..], b, p);
    }
  }

  /** Nothing is dropped and nothing is duplicated: the filter keeps every occurrence of every kept value. */
  lemma {:induction false} FilterMultiset<T>(s: seq<T>, p: T -> bool, x: T)
    ensures multiset(Filter(s, p))[x] == if p(x) then multiset(s)[x] else 0
  {
    if s != [] {
      FilterMultiset(s[1..], p, x);
      assert s == [s[0]] + s[1..];
    }
  }

  /** A filter whose predicate holds of no element keeps nothing. */
  lemma {:induction false} NoMatch<T>(s: seq<T>, p: T -> bool)
    requires forall k :: 0 <= k < |s| ==> !p(s[k])
    ensures Filter(s, p) == []
  {
    if s != [] {
      NoMatch(s[1..], p);
    }
  }

  /** When exactly one element satisfies `p`, the filter is that element alone. */
  lemma {:induction false} SelectsOne<T>(s: seq<T>, p: T -> bool, i: nat)
    requires i < |s| && p(s[i])
    requires forall k :: 0 <= k < |s| && p(s[k]) ==> k == i
    ensures Filter(s, p) == [s[i]]
  {
    if i == 0 {
      NoMatch(s[1..], p);
    } else {
      SelectsOne(s[1..], p, i - 1);
    }
  }

  /** For every position, exactly one match there means the filter is that element alone. */
  lemma SelectsUnique<T>(s: seq<T>, p: T -> bool)
    ensures forall i :: 0 <= i < |s| && p(s[i]) && (forall k :: 0 <= k < |s| && p(s[k]) ==> k == i) ==>
      Filter(s, p) == [s[i]]
  {
    forall i | 0 <= i < |s| && p(s[i]) && (forall k :: 0 <= k < |s| && p(s[k]) ==> k == i) {
      SelectsOne(s, p, i);
    }
  }

  /** `s.map(f)`. */
  function Map<A, B>(s: seq<A>, f: A -> B): (r: seq<B>)
    ensures |r| == |s|
    ensures forall k :: 0 <= k < |s| ==> r[k] == f(s[k])
  {
    seq(|s|, k requires 0 <= k < |s| => f(s[k]))
  }

  /** Mapping distributes over concatenation. */
  lemma MapAppend<A, B>(a: seq<A>, b: seq<A>, f: A -> B)
    ensures Map(a + b, f) == Map(a, f) + Map(b, f)
  {
  }

  /** Filtering after mapping is mapping after filtering by the composed predicate `g`. */
  lemma {:induction false} FilterMap<A, B>(s: seq<A>, f: A -> B, q: B -> bool, g: A -> bool)
    requires forall x :: g(x) == q(f(x))
    ensures Filter(Map(s, f), q) == Map(Filter(s, g), f)
  {
    if s != [] {
      var m := Map(s, f);
      assert m[1..] == Map(s[1..], f);
      assert Filter(m, q) == (if q(f(s[0])) then [f(s[0])] else []) + Filter(Map(s[1..], f), q);
      FilterMap(s[1..], f, q, g);
      var head := if g(s[0]) then [s[0]] else [];
      assert Filter(s, g) == head + Filter(s[1..], g);
      MapAppend(head, Filter(s[1..], g), f);
      assert Map(head, f) == if q(f(s[0])) then [f(s[0])] else [];
    }
  }

  /** Two successive filters, by `p` and then by `q`, are one filter by their conjunction `pq`. */
  lemma {:induction false} FilterFilter<T>(s: seq<T>, p: T -> bool, q: T -> bool, pq: T -> bool)
    requires forall x :: pq(x) == (p(x) && q(x))
    ensures Filter(Filter(s, p), q) == Filter(s, pq)
  {
    if s != [] {
      FilterFilter(s[1..], p, q, pq);
      var rest := Filter(s[1..], p);
      if p(s[0]) {
        assert Filter(s, p) == [s[0]] + rest;
        assert ([s[0]] + rest)[1..] == rest;
      } else {
        assert Filter(s, p) == rest;
      }
    }
  }
}
