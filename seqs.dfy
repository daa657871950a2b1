/** Generic sequence operations shared by the client and the server model:
    JavaScript's `Array.prototype.filter` and `map`, and the facts about them
    that the page-order properties rest on. */
module Seqs {

  /** `s.filter(keep)`: the elements of `s` that satisfy `keep`, in order. */
  function Filter<T(!new)>(s: seq<T>, keep: T -> bool): (r: seq<T>)
    ensures |r| <= |s|
    ensures forall x :: x in r <==> x in s && keep(x)
  {
    if s == [] then []
    else (if keep(s[0]) then [s[0]] else []) + Filter(s[1..], keep)
  }

  /** `idx` lists positions of `s`, strictly increasing, and `r` is what `s`
      holds at those positions: `r` is `s` with some elements dropped and the
      rest in their original relative order. */
  ghost predicate Embeds<T>(r: seq<T>, s: seq<T>, idx: seq<nat>) {
    && |idx| == |r|
    && (forall k :: 0 <= k < |idx| ==> idx[k] < |s| && r[k] == s[idx[k]])
    && (forall k, l :: 0 <= k < l < |idx| ==> idx[k] < idx[l])
  }

  /** Filtering keeps exactly the positions whose element satisfies `keep`,
      in increasing order: survivors keep their relative order. */
  lemma {:induction false} FilterKeepsOrder<T(!new)>(s: seq<T>, keep: T -> bool) returns (idx: seq<nat>)
    ensures Embeds(Filter(s, keep), s, idx)
    ensures forall j :: 0 <= j < |s| ==> (keep(s[j]) <==> j in idx)
  {
    if s == [] {
      idx := [];
    } else {
      var rest := FilterKeepsOrder(s[1..], keep);
      EmbedsShifted(Filter(s[1..], keep), s, rest);
      if keep(s[0]) {
        assert Filter(s, keep) == [s[0]] + Filter(s[1..], keep);
        EmbedsCons(Filter(s[1..], keep), s, Shifted(rest));
        idx := [0] + Shifted(rest);
      } else {
        assert Filter(s, keep) == Filter(s[1..], keep);
        idx := Shifted(rest);
      }
      forall j | 0 <= j < |s|
        ensures keep(s[j]) <==> j in idx
      {
        if j > 0 {
          assert s[j] == s[1..][j - 1];
        }
      }
    }
  }

  /** Position 0 can be put in front of an embedding that avoids it. */
  lemma {:induction false} EmbedsCons<T>(r: seq<T>, s: seq<T>, idx: seq<nat>)
    requires |s| > 0 && Embeds(r, s, idx)
    requires forall k :: 0 <= k < |idx| ==> idx[k] > 0
    ensures Embeds([s[0]] + r, s, [0] + idx)
  {
  }

  /** Every position in `idx` moved one place to the right. */
  function Shifted(idx: seq<nat>): (r: seq<nat>)
    ensures |r| == |idx|
    ensures forall k :: 0 <= k < |idx| ==> r[k] == idx[k] + 1
  {
    seq(|idx|, k requires 0 <= k < |idx| => idx[k] + 1)
  }

  /** An embedding into the tail of `s` is an embedding into `s` once shifted,
      and it never uses position 0. */
  lemma {:induction false} EmbedsShifted<T>(r: seq<T>, s: seq<T>, idx: seq<nat>)
    requires |s| > 0 && Embeds(r, s[1..], idx)
    ensures Embeds(r, s, Shifted(idx))
    ensures forall k :: 0 <= k < |idx| ==> Shifted(idx)[k] > 0
    ensures forall j :: 1 <= j < |s| ==> (j in Shifted(idx) <==> j - 1 in idx)
  {
    var sh := Shifted(idx);
    forall j | 1 <= j < |s|
      ensures j in sh <==> j - 1 in idx
    {
      if j - 1 in idx {
        var k :| 0 <= k < |idx| && idx[k] == j - 1;
        assert sh[k] == j;
      }
    }
  }

  /** Filtering with `keep` and with its negation splits `s` into two parts
      that together hold every element exactly as often as `s` does. */
  lemma {:induction false} FilterPartition<T(!new)>(s: seq<T>, keep: T -> bool, drop: T -> bool)
    requires forall x :: drop(x) == !keep(x)
    ensures multiset(Filter(s, keep)) + multiset(Filter(s, drop)) == multiset(s)
  {
    if s != [] {
      var x, rest := s[0], s[1..];
      FilterPartition(rest, keep, drop);
      assert s == [x] + rest;
      assert Filter(s, keep) == (if keep(x) then [x] else []) + Filter(rest, keep);
      assert Filter(s, drop) == (if drop(x) then [x] else []) + Filter(rest, drop);
      assert multiset(if keep(x) then [x] else []) + multiset(if drop(x) then [x] else []) == multiset{x};
    }
  }

  /** `s.map(f)`. */
  function MapSeq<T, U>(f: T -> U, s: seq<T>): (r: seq<U>)
    ensures |r| == |s|
    ensures forall k :: 0 <= k < |s| ==> r[k] == f(s[k])
  {
    seq(|s|, k requires 0 <= k < |s| => f(s[k]))
  }

  /** Mapping a permutation gives a permutation of the mapped sequence. */
  lemma {:induction false} MapPreservesPermutation<T, U>(f: T -> U, xs: seq<T>, ys: seq<T>)
    requires multiset(xs) == multiset(ys)
    ensures multiset(MapSeq(f, xs)) == multiset(MapSeq(f, ys))
  {
    if xs == [] {
      assert |ys| == |multiset(ys)| == 0;
    } else {
      var x := xs[0];
      assert x in multiset(ys);
      var i :| 0 <= i < |ys| && ys[i] == x;
      var xs', ys' := xs[1..], ys[..i] + ys[i + 1..];
      assert xs == [x] + xs';
      assert multiset(xs') == multiset(xs) - multiset{x};
      MultisetRemoveAt(ys, i);
      MapPreservesPermutation(f, xs', ys');
      assert xs[..0] + xs[1..] == xs';
      MapRemoveAt(f, xs, 0);
      MapRemoveAt(f, ys, i);
      assert multiset(MapSeq(f, xs)) == multiset(MapSeq(f, xs')) + multiset{f(x)};
      assert multiset(MapSeq(f, ys)) == multiset(MapSeq(f, ys')) + multiset{f(x)};
    }
  }

  /** Dropping position `i` drops one occurrence of `s[i]`. */
  lemma {:induction false} MultisetRemoveAt<T>(s: seq<T>, i: nat)
    requires i < |s|
    ensures multiset(s[..i] + s[i + 1..]) == multiset(s) - multiset{s[i]}
  {
    assert s == s[..i] + [s[i]] + s[i + 1..];
  }

  /** The same, seen through `MapSeq`. */
  lemma {:induction false} MapRemoveAt<T, U>(f: T -> U, s: seq<T>, i: nat)
    requires i < |s|
    ensures multiset(MapSeq(f, s)) == multiset(MapSeq(f, s[..i] + s[i + 1..])) + multiset{f(s[i])}
  {
    var m := MapSeq(f, s);
    assert MapSeq(f, s[..i] + s[i + 1..]) == m[..i] + m[i + 1..];
    MultisetRemoveAt(m, i);
  }

  /** No element occurs twice. */
  predicate NoDuplicates<T(==)>(s: seq<T>) {
    forall i, j :: 0 <= i < j < |s| ==> s[i] != s[j]
  }
}
