/** Rearranged sequences. */
module Permutations {
  function Map<A, B>(f: A -> B, xs: seq<A>): (ys: seq<B>)
    ensures |ys| == |xs| && forall i | 0 <= i < |xs| :: ys[i] == f(xs[i])
  {
    seq(|xs|, i requires 0 <= i < |xs| => f(xs[i]))
  }

  lemma Without<T>(xs: seq<T>, k: nat)
    requires k < |xs|
    ensures multiset(xs) == multiset(xs[..k] + xs[k + 1..]) + multiset{xs[k]}
  {
    assert xs == xs[..k] + [xs[k]] + xs[k + 1..];
  }

  lemma MapWithout<A, B>(f: A -> B, xs: seq<A>, k: nat)
    requires k < |xs|
    ensures multiset(Map(f, xs)) == multiset(Map(f, Drop(xs, k))) + multiset{f(xs[k])}
  {
    Without(Map(f, xs), k);
    assert Map(f, Drop(xs, k)) == Map(f, xs)[..k] + Map(f, xs)[k + 1..];
  }

  function Drop<T>(xs: seq<T>, k: nat): seq<T>
    requires k < |xs|
  {
    xs[..k] + xs[k + 1..]
  }

  lemma DropKeepsPermutation<T>(a: seq<T>, b: seq<T>, k: nat)
    requires multiset(a) == multiset(b) && a != [] && k < |b| && b[k] == a[0]
    ensures multiset(Drop(a, 0)) == multiset(Drop(b, k))
  {
    Without(a, 0);
    Without(b, k);
    assert multiset(Drop(a, 0)) == multiset(a) - multiset{a[0]};
    assert multiset(Drop(b, k)) == multiset(b) - multiset{a[0]};
  }

  /** Rearranged elements have rearranged images. */
  lemma {:induction false} MapOfPermutation<A, B>(f: A -> B, a: seq<A>, b: seq<A>)
    requires multiset(a) == multiset(b)
    ensures multiset(Map(f, a)) == multiset(Map(f, b))
    decreases |a|
  {
    if a == [] {
      assert |multiset(a)| == |multiset(b)| == 0;
    } else {
      assert a[0] in multiset(b);
      var k :| 0 <= k < |b| && b[k] == a[0];
      DropKeepsPermutation(a, b, k);
      MapOfPermutation(f, Drop(a, 0), Drop(b, k));
      MapWithout(f, a, 0);
      MapWithout(f, b, k);
    }
  }

  /** The middle part of a rearrangement can be left out exactly when it is empty. */
  lemma Lossless<T>(all: seq<T>, a: seq<T>, b: seq<T>, c: seq<T>)
    requires multiset(all) == multiset(a) + multiset(b) + multiset(c)
    ensures multiset(all) == multiset(a) + multiset(c) <==> b == []
  {
    assert |multiset(all)| == |a| + |b| + |c|;
    assert |multiset(a) + multiset(c)| == |a| + |c|;
  }

  lemma OneMore<T>(xs: seq<T>, x: T)
    ensures multiset(xs + [x]) == multiset(xs) + multiset{x}
  {
  }

  lemma AddToEither<T>(all: seq<T>, a: seq<T>, b: seq<T>, x: T, toFirst: bool)
    requires multiset(all) == multiset(a) + multiset(b)
    ensures multiset(all + [x]) == multiset(if toFirst then a + [x] else a) + multiset(if toFirst then b else b + [x])
  {
  }
}
