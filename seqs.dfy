/**
 * `Array.prototype.filter` and the `.filter(p).length` counts built on it.
 */
module Seqs {

  /** `s.filter(p)`. */
  function Filter<T>(s: seq<T>, p: T -> bool): (r: seq<T>)
    ensures |r| <= |s|
    ensures forall x :: x in r ==> x in s && p(x)
    ensures forall x :: x in s && p(x) ==> x in r
    decreases |s|
  {
    if s == [] then []
    else (if p(s[0]) then [s[0]] else []) + Filter(s[1..], p)
  }

  /** `idx` picks the elements of `r` out of `s` at strictly increasing positions. */
  ghost predicate Embeds<T>(idx: seq<nat>, r: seq<T>, s: seq<T>) {
    && |idx| == |r|
    && (forall i :: 0 <= i < |idx| ==> idx[i] < |s| && r[i] == s[idx[i]])
    && (forall i, j :: 0 <= i < j < |idx| ==> idx[i] < idx[j])
  }

  /** `r` is `s` with some elements left out, the rest in their original order. */
  ghost predicate IsSubsequence<T>(r: seq<T>, s: seq<T>) {
    exists idx :: Embeds(idx, r, s)
  }

  /** The positions of `s` that Filter keeps, in increasing order. */
  lemma {:induction false} FilterEmbedding<T>(s: seq<T>, p: T -> bool) returns (idx: seq<nat>)
    ensures Embeds(idx, Filter(s, p), s)
    decreases |s|
  {
    if s == [] {
      idx := [];
    } else {
      var tail := FilterEmbedding(s[1..], p);
      var shifted := Shift(tail);
      ShiftEmbeds(tail, Filter(s[1..], p), s);
      var r := Filter(s, p);
      var rt := Filter(s[1..], p);
      if p(s[0]) {
        idx := [0] + shifted;
        assert r == [s[0]] + rt;
        PrependEmbeds(shifted, rt, s);
      } else {
        idx := shifted;
        assert r == rt;
      }
    }
  }

  function Shift(idx: seq<nat>): (r: seq<nat>)
    ensures |r| == |idx| && forall i :: 0 <= i < |idx| ==> r[i] == idx[i] + 1
  {
    seq(|idx|, i requires 0 <= i < |idx| => idx[i] + 1)
  }

  lemma ShiftEmbeds<T>(idx: seq<nat>, r: seq<T>, s: seq<T>)
    requires |s| > 0 && Embeds(idx, r, s[1..])
    ensures Embeds(Shift(idx), r, s)
  {
  }

  lemma PrependEmbeds<T>(idx: seq<nat>, r: seq<T>, s: seq<T>)
    requires |s| > 0 && Embeds(idx, r, s)
    requires forall i :: 0 <= i < |idx| ==> idx[i] > 0
    ensures Embeds([0] + idx, [s[0]] + r, s)
  {
  }

  /** The result of a filter is an order-preserving subsequence of its input. */
  lemma FilterIsSubsequence<T>(s: seq<T>, p: T -> bool)
    ensures IsSubsequence(Filter(s, p), s)
  {
    var idx := FilterEmbedding(s, p);
  }

  /** Filtering distributes over concatenation. */
  lemma {:induction false} FilterAppend<T>(s: seq<T>, t: seq<T>, p: T -> bool)
    ensures Filter(s + t, p) == Filter(s, p) + Filter(t, p)
    decreases |s|
  {
    if s != [] {
      var st := s + t;
      var head := if p(s[0]) then [s[0]] else [];
      assert st[0] == s[0] && st[1..] == s[1..] + t;
      FilterAppend(s[1..], t, p);
      calc {
        Filter(st, p);
        head + Filter(s[1..] + t, p);
        head + (Filter(s[1..], p) + Filter(t, p));
        { AppendAssociative(head, Filter(s[1..], p), Filter(t, p)); }
        (head + Filter(s[1..], p)) + Filter(t, p);
      }
    } else {
      assert s + t == t;
    }
  }

  lemma AppendAssociative<T>(a: seq<T>, b: seq<T>, c: seq<T>)
    ensures a + (b + c) == (a + b) + c
  {
  }

  /** `order` lists every key of `keys` exactly once, as a query snapshot
      lists the documents of a collection. */
  predicate ListsEachOnce<K(!new)>(order: seq<K>, keys: set<K>) {
    && (forall i, j :: 0 <= i < j < |order| ==> order[i] != order[j])
    && (forall k :: k in keys ==> k in order)
    && (forall k :: k in order ==> k in keys)
  }

  /** Such a listing is exactly as long as the set of keys. */
  lemma {:induction false} ListsEachOnceSize<K(!new)>(order: seq<K>, keys: set<K>)
    requires ListsEachOnce(order, keys)
    ensures |order| == |keys|
    decreases |order|
  {
    if order != [] {
      var n := |order| - 1;
      var last, init := order[n], order[..n];
      forall k
        ensures k in keys - {last} <==> k in init
      {
        if k in init {
          var i :| 0 <= i < n && init[i] == k;
          assert order[i] == k && i < n;
        }
        if k in order && k != last {
          var i :| 0 <= i < |order| && order[i] == k;
          assert i < n && init[i] == k;
        }
      }
      ListsEachOnceSize(init, keys - {last});
    }
  }

  /** A predicate every element satisfies keeps the whole sequence. */
  lemma {:induction false} FilterKeepsAll<T>(s: seq<T>, p: T -> bool)
    requires forall x :: x in s ==> p(x)
    ensures Filter(s, p) == s
    decreases |s|
  {
    if s != [] {
      FilterKeepsAll(s[1..], p);
    }
  }

  /** A predicate no element satisfies keeps nothing. */
  lemma {:induction false} FilterKeepsNone<T>(s: seq<T>, p: T -> bool)
    requires forall x :: x in s ==> !p(x)
    ensures Filter(s, p) == []
    decreases |s|
  {
    if s != [] {
      FilterKeepsNone(s[1..], p);
    }
  }

  /** Filters by two predicates that agree on every element are equal. */
  lemma {:induction false} FilterSame<T>(s: seq<T>, p: T -> bool, q: T -> bool)
    requires forall x :: x in s ==> p(x) == q(x)
    ensures Filter(s, p) == Filter(s, q)
    decreases |s|
  {
    if s != [] {
      FilterSame(s[1..], p, q);
    }
  }

  /** Counts of two predicates that never hold together add up to the count
      of their disjunction `pq`. */
  lemma {:induction false} CountDisjoint<T>(s: seq<T>, p: T -> bool, q: T -> bool, pq: T -> bool)
    requires forall x :: x in s ==> !(p(x) && q(x))
    requires forall x :: x in s ==> pq(x) == (p(x) || q(x))
    ensures |Filter(s, p)| + |Filter(s, q)| == |Filter(s, pq)|
    decreases |s|
  {
    if s != [] {
      CountDisjoint(s[1..], p, q, pq);
    }
  }

  /** The elements that satisfy `p` and those that satisfy its negation `np`
      together make up the whole sequence. */
  lemma {:induction false} CountComplement<T>(s: seq<T>, p: T -> bool, np: T -> bool)
    requires forall x :: x in s ==> np(x) == !p(x)
    ensures |Filter(s, p)| + |Filter(s, np)| == |s|
    decreases |s|
  {
    if s != [] {
      CountComplement(s[1..], p, np);
    }
  }

  /** A weaker predicate counts at least as many elements. */
  lemma {:induction false} CountMonotone<T>(s: seq<T>, p: T -> bool, q: T -> bool)
    requires forall x :: x in s ==> p(x) ==> q(x)
    ensures |Filter(s, p)| <= |Filter(s, q)|
    decreases |s|
  {
    if s != [] {
      CountMonotone(s[1..], p, q);
    }
  }
}
