/**
  Sequence facts the parser and the classifier share: mapping a function
  over a sequence, and what a permutation does to a mapped sequence.
 */
module Sequences {

  /** `f` applied to every element, in order. */
  function MapSeq<A, B>(f: A -> B, s: seq<A>): (r: seq<B>)
    ensures |r| == |s| && forall i :: 0 <= i < |s| ==> r[i] == f(s[i])
  {
    if s == [] then [] else [f(s[0])] + MapSeq(f, s[1..])
  }

  /** Mapping a permutation gives a permutation. */
  lemma {:induction false} MapPermutes<A, B>(f: A -> B, xs: seq<A>, ys: seq<A>)
    requires multiset(xs) == multiset(ys)
    ensures multiset(MapSeq(f, xs)) == multiset(MapSeq(f, ys))
    decreases |xs|
  {
    if xs != [] {
      var k := FindHead(xs, ys);
      var rest := ys[..k] + ys[k + 1..];
      MapPermutes(f, xs[1..], rest);
      MapSplit(f, ys, k);
      MapSplit(f, xs, 0);
      assert xs[..0] + xs[1..] == xs[1..];
      assert MapSeq(f, xs)[..0] + MapSeq(f, xs)[1..] == MapSeq(f, xs[1..]);
    }
  }

  /** Where the first element of `xs` sits in its permutation `ys`, and what
      is left of both once it is taken out. */
  lemma FindHead<A>(xs: seq<A>, ys: seq<A>) returns (k: nat)
    requires xs != [] && multiset(xs) == multiset(ys)
    ensures k < |ys| && ys[k] == xs[0]
    ensures multiset(xs[1..]) == multiset(ys[..k] + ys[k + 1..])
  {
    assert xs[0] in multiset(ys);
    k :| 0 <= k < |ys| && ys[k] == xs[0];
    SplitAt(ys, k);
    SplitAt(xs, 0);
    assert xs[..0] + xs[1..] == xs[1..];
    Cancel(multiset(xs[1..]), multiset(ys[..k] + ys[k + 1..]), xs[0]);
  }

  /** The same split, after mapping. */
  lemma MapSplit<A, B>(f: A -> B, s: seq<A>, k: nat)
    requires k < |s|
    ensures MapSeq(f, s)[..k] + MapSeq(f, s)[k + 1..] == MapSeq(f, s[..k] + s[k + 1..])
    ensures multiset(MapSeq(f, s)) == multiset(MapSeq(f, s[..k] + s[k + 1..])) + multiset{f(s[k])}
  {
    var m := MapSeq(f, s);
    var rest := s[..k] + s[k + 1..];
    var left, right := m[..k] + m[k + 1..], MapSeq(f, rest);
    forall i | 0 <= i < |right| ensures left[i] == right[i] {
      if i < k {
        assert rest[i] == s[i];
      } else {
        assert rest[i] == s[i + 1];
      }
    }
    assert left == right;
    SplitAt(m, k);
  }

  lemma SplitAt<A>(s: seq<A>, k: nat)
    requires k < |s|
    ensures s == s[..k] + [s[k]] + s[k + 1..]
    ensures multiset(s) == multiset(s[..k] + s[k + 1..]) + multiset{s[k]}
  {
    assert s == s[..k] + ([s[k]] + s[k + 1..]);
  }

  lemma Cancel<T>(m1: multiset<T>, m2: multiset<T>, x: T)
    requires m1 + multiset{x} == m2 + multiset{x}
    ensures m1 == m2
  {
    assert forall y :: m1[y] == (m1 + multiset{x})[y] - multiset{x}[y];
    assert forall y :: m2[y] == (m2 + multiset{x})[y] - multiset{x}[y];
  }

  /** Numbers in ascending order. */
  predicate Ascending(s: seq<int>) {
    forall i, j :: 0 <= i < j < |s| ==> s[i] <= s[j]
  }

  /** A multiset of numbers has one ascending arrangement. */
  lemma {:induction false} AscendingUnique(xs: seq<int>, ys: seq<int>)
    requires Ascending(xs) && Ascending(ys)
    requires multiset(xs) == multiset(ys)
    ensures xs == ys
    decreases |xs|
  {
    assert |xs| == |multiset(xs)| == |ys|;
    if xs != [] {
      SmallestFirst(xs, ys);
      DropHead(xs, ys);
      AscendingUnique(xs[1..], ys[1..]);
      assert xs == [xs[0]] + xs[1..];
      assert ys == [ys[0]] + ys[1..];
    }
  }

  lemma SmallestFirst(xs: seq<int>, ys: seq<int>)
    requires Ascending(xs) && Ascending(ys) && xs != [] && ys != []
    requires multiset(xs) == multiset(ys)
    ensures xs[0] == ys[0]
  {
    assert xs[0] in multiset(ys);
    assert ys[0] in multiset(xs);
    var i :| 0 <= i < |ys| && ys[i] == xs[0];
    var j :| 0 <= j < |xs| && xs[j] == ys[0];
    assert ys[0] <= ys[i] && xs[0] <= xs[j];
  }

  lemma DropHead<A>(xs: seq<A>, ys: seq<A>)
    requires xs != [] && ys != [] && xs[0] == ys[0]
    requires multiset(xs) == multiset(ys)
    ensures multiset(xs[1..]) == multiset(ys[1..])
  {
    assert xs == [xs[0]] + xs[1..];
    assert ys == [ys[0]] + ys[1..];
    assert multiset(xs) == multiset(xs[1..]) + multiset{xs[0]};
    assert multiset(ys) == multiset(ys[1..]) + multiset{xs[0]};
    Cancel(multiset(xs[1..]), multiset(ys[1..]), xs[0]);
  }
}
