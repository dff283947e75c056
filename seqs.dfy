/** `Array.prototype.filter` on sequences, and what "order-preserving subsequence" means. */
module Seqs {

  /** `s.filter(p)`: the elements of `s` that satisfy `p`, in their original order. */
  function Filter<T>(s: seq<T>, p: T -> bool): (r: seq<T>)
    ensures |r| <= |s|
    ensures forall i :: 0 <= i < |r| ==> p(r[i]) && r[i] in s
    ensures forall i :: 0 <= i < |s| && p(s[i]) ==> s[i] in r
  {
    if s == [] then []
    else if p(s[0]) then [s[0]] + Filter(s[1..], p)
    else Filter(s[1..], p)
  }

  /** The index of the first element of `s` that satisfies `p`, or `|s|` when none does
      (the search `findOne` and `findById` perform over the collection's natural order). */
  function FirstMatch<T>(s: seq<T>, p: T -> bool): (k: nat)
    ensures k <= |s|
    ensures k < |s| ==> p(s[k])
    ensures forall j :: 0 <= j < k ==> !p(s[j])
  {
    if s == [] then 0
    else if p(s[0]) then 0
    else 1 + FirstMatch(s[1..], p)
  }

  /** Two sequences whose elements agree position by position on two predicates have their
      first match at the same index. */
  lemma {:induction false} FirstMatchAgrees<T, U>(s: seq<T>, p: T -> bool, t: seq<U>, q: U -> bool)
    requires |s| == |t|
    requires forall i :: 0 <= i < |s| ==> p(s[i]) == q(t[i])
    ensures FirstMatch(s, p) == FirstMatch(t, q)
  {
    if s != [] && !p(s[0]) {
      assert forall i :: 0 <= i < |s| - 1 ==> s[1..][i] == s[i + 1] && t[1..][i] == t[i + 1];
      FirstMatchAgrees(s[1..], p, t[1..], q);
    }
  }

  /** No two elements of `s` have the same key. */
  ghost predicate UniqueKeys<T, K>(s: seq<T>, key: T -> K) {
    forall i, j :: 0 <= i < j < |s| ==> key(s[i]) != key(s[j])
  }

  /** `m` maps each position of `a` to a position of `b` holding the same element,
      and keeps the positions in increasing order. */
  ghost predicate Embeds<T>(m: seq<nat>, a: seq<T>, b: seq<T>) {
    && |m| == |a|
    && (forall i :: 0 <= i < |m| ==> m[i] < |b| && a[i] == b[m[i]])
    && (forall i, j :: 0 <= i < j < |m| ==> m[i] < m[j])
  }

  /** `a` is `b` with some elements left out and the rest kept in order. */
  ghost predicate IsSubsequence<T>(a: seq<T>, b: seq<T>) {
    exists m :: Embeds(m, a, b)
  }

  /** Every position moved one place to the right. */
  function Shift(m: seq<nat>): (r: seq<nat>)
    ensures |r| == |m| && forall i :: 0 <= i < |m| ==> r[i] == m[i] + 1
  {
    seq(|m|, i requires 0 <= i < |m| => m[i] + 1)
  }

  /** An embedding into the tail of `s` is, shifted, an embedding into `s` that avoids
      position 0. */
  lemma ShiftEmbeds<T>(m: seq<nat>, a: seq<T>, s: seq<T>)
    requires s != [] && Embeds(m, a, s[1..])
    ensures Embeds(Shift(m), a, s)
    ensures Embeds([0] + Shift(m), [s[0]] + a, s)
  {
    var m' := Shift(m);
    forall i | 0 <= i < |m'| ensures m'[i] < |s| && a[i] == s[m'[i]] {
      assert a[i] == s[1..][m[i]];
    }
    var n := [0] + m';
    var b := [s[0]] + a;
    forall i | 0 <= i < |n| ensures n[i] < |s| && b[i] == s[n[i]] {
      if i > 0 { assert n[i] == m'[i - 1] && b[i] == a[i - 1]; }
    }
  }

  /** The positions `Filter` keeps embed its result in its input. */
  lemma {:induction false} FilterEmbeds<T>(s: seq<T>, p: T -> bool) returns (m: seq<nat>)
    ensures Embeds(m, Filter(s, p), s)
  {
    if s == [] {
      m := [];
    } else {
      var m' := FilterEmbeds(s[1..], p);
      ShiftEmbeds(m', Filter(s[1..], p), s);
      if p(s[0]) {
        m := [0] + Shift(m');
      } else {
        m := Shift(m');
      }
    }
  }

  /** A filter result is an order-preserving subsequence of its input. */
  lemma FilterIsSubsequence<T>(s: seq<T>, p: T -> bool)
    ensures IsSubsequence(Filter(s, p), s)
  {
    var m := FilterEmbeds(s, p);
  }

  /** Filtering with a predicate that holds everywhere returns the input unchanged. */
  lemma {:induction false} FilterKeepsAll<T>(s: seq<T>, p: T -> bool)
    requires forall i :: 0 <= i < |s| ==> p(s[i])
    ensures Filter(s, p) == s
  {
    if s != [] {
      FilterKeepsAll(s[1..], p);
    }
  }

  /** Filtering with a predicate that holds nowhere returns the empty sequence. */
  lemma {:induction false} FilterKeepsNone<T>(s: seq<T>, p: T -> bool)
    requires forall i :: 0 <= i < |s| ==> !p(s[i])
    ensures Filter(s, p) == []
  {
    if s != [] {
      FilterKeepsNone(s[1..], p);
    }
  }

  /** Two predicates that agree on the elements of `s` filter it alike. */
  lemma {:induction false} FilterCongruent<T>(s: seq<T>, p: T -> bool, q: T -> bool)
    requires forall i :: 0 <= i < |s| ==> p(s[i]) == q(s[i])
    ensures Filter(s, p) == Filter(s, q)
  {
    if s != [] {
      FilterCongruent(s[1..], p, q);
    }
  }

  /** Filtering by `p` and then by `q` is filtering once by their conjunction `pq`. */
  lemma {:induction false} FilterTwice<T>(s: seq<T>, p: T -> bool, q: T -> bool, pq: T -> bool)
    requires forall i :: 0 <= i < |s| ==> pq(s[i]) == (p(s[i]) && q(s[i]))
    ensures Filter(Filter(s, p), q) == Filter(s, pq)
  {
    if s != [] {
      FilterTwice(s[1..], p, q, pq);
    }
  }

  /** A predicate and its negation split a sequence: together the two filter results hold
      every element exactly as often as the input does. */
  lemma FilterSplits<T>(s: seq<T>, p: T -> bool, q: T -> bool)
    requires forall i :: 0 <= i < |s| ==> q(s[i]) == !p(s[i])
    ensures multiset(Filter(s, p)) + multiset(Filter(s, q)) == multiset(s)
  {
    forall x ensures multiset(Filter(s, p))[x] + multiset(Filter(s, q))[x] == multiset(s)[x] {
      FilterSplitsCount(s, p, q, x);
    }
  }

  /** `Filter` keeps every element that satisfies `p` as often as the input holds it. */
  lemma FilterKeepsCounts<T>(s: seq<T>, p: T -> bool)
    ensures forall x :: p(x) ==> multiset(Filter(s, p))[x] == multiset(s)[x]
  {
    forall x | p(x) ensures multiset(Filter(s, p))[x] == multiset(s)[x] {
      FilterKeepsCount(s, p, x);
    }
  }

  /** `FilterKeepsCounts` for one element. */
  lemma {:induction false} FilterKeepsCount<T>(s: seq<T>, p: T -> bool, x: T)
    requires p(x)
    ensures multiset(Filter(s, p))[x] == multiset(s)[x]
  {
    if s != [] {
      var t := s[1..];
      FilterKeepsCount(t, p, x);
      assert s == [s[0]] + t;
      CountCons(s[0], t, x);
      if p(s[0]) {
        assert Filter(s, p) == [s[0]] + Filter(t, p);
        CountCons(s[0], Filter(t, p), x);
      } else {
        assert s[0] != x && Filter(s, p) == Filter(t, p);
      }
    }
  }

  /** `FilterSplits` for one element: its occurrences in the two filter results add up to its
      occurrences in the input. An element of `s` satisfies exactly one of `p` and `q`, so one
      filter keeps all its occurrences and the other none; any other element is in neither. */
  lemma FilterSplitsCount<T>(s: seq<T>, p: T -> bool, q: T -> bool, x: T)
    requires forall i :: 0 <= i < |s| ==> q(s[i]) == !p(s[i])
    ensures multiset(Filter(s, p))[x] + multiset(Filter(s, q))[x] == multiset(s)[x]
  {
    if x in s {
      var i :| 0 <= i < |s| && s[i] == x;
      if p(x) {
        FilterKeepsCount(s, p, x);
        assert x !in Filter(s, q);
      } else {
        FilterKeepsCount(s, q, x);
        assert x !in Filter(s, p);
      }
    } else {
      assert x !in Filter(s, p) && x !in Filter(s, q);
    }
  }

  /** Prepending `a` adds one occurrence of `a` and none of any other element. */
  lemma CountCons<T>(a: T, t: seq<T>, x: T)
    ensures multiset([a] + t)[x] == (if a == x then 1 else 0) + multiset(t)[x]
  {
    assert multiset([a] + t) == multiset{a} + multiset(t);
  }
}
