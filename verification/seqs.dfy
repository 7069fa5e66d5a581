/** Generic sequence helpers: the per-element expansion that both the
    import filter and the tag fold are instances of, and the facts that
    make their results depend only on the multiset of their inputs. */
module Seqs {

  /** Concatenation of `f(x)` over the elements `x` of `s`, in order. */
  function FlatMap<A, B>(f: A -> seq<B>, s: seq<A>): seq<B>
  {
    if |s| == 0 then [] else f(s[0]) + FlatMap(f, s[1..])
  }

  /** `n` copies of `x`. */
  function Repeat<T>(x: T, n: nat): (r: seq<T>)
    ensures |r| == n
    ensures forall k :: 0 <= k < n ==> r[k] == x
  {
    if n == 0 then [] else [x] + Repeat(x, n - 1)
  }

  lemma {:induction false} FlatMapAppend<A, B>(f: A -> seq<B>, a: seq<A>, b: seq<A>)
    ensures FlatMap(f, a + b) == FlatMap(f, a) + FlatMap(f, b)
  {
    if |a| > 0 {
      assert (a + b)[1..] == a[1..] + b;
      FlatMapAppend(f, a[1..], b);
    } else {
      assert a + b == b;
    }
  }

  /** Reordering the input only reorders the output. */
  lemma {:induction false} FlatMapPermutation<A, B>(f: A -> seq<B>, a: seq<A>, b: seq<A>)
    requires multiset(a) == multiset(b)
    ensures multiset(FlatMap(f, a)) == multiset(FlatMap(f, b))
  {
    if |a| > 0 {
      var x := a[0];
      assert x in multiset(b);
      var i :| 0 <= i < |b| && b[i] == x;
      var rest := b[..i] + b[i + 1..];
      assert b == b[..i] + [x] + b[i + 1..];
      RemoveMatching(a, b, i);
      FlatMapPermutation(f, a[1..], rest);
      FlatMapAppend(f, b[..i] + [x], b[i + 1..]);
      FlatMapAppend(f, b[..i], [x]);
      FlatMapAppend(f, b[..i], b[i + 1..]);
      assert FlatMap(f, [x]) == f(x) + FlatMap(f, []);
    } else {
      assert |multiset(b)| == 0;
    }
  }

  /** Removing the head of `a` and a matching element of `b` keeps two
      permutations of each other. */
  lemma {:induction false} RemoveMatching<A>(a: seq<A>, b: seq<A>, i: nat)
    requires multiset(a) == multiset(b)
    requires |a| > 0 && i < |b| && b[i] == a[0]
    ensures multiset(a[1..]) == multiset(b[..i] + b[i + 1..])
  {
    var x := a[0];
    assert b == b[..i] + [x] + b[i + 1..];
    assert a == [x] + a[1..];
    assert multiset(b) == multiset(b[..i]) + multiset{x} + multiset(b[i + 1..]);
    assert multiset(a) == multiset{x} + multiset(a[1..]);
    assert multiset(b[..i] + b[i + 1..]) == multiset(b[..i]) + multiset(b[i + 1..]);
    assert multiset(a[1..]) == multiset(a) - multiset{x};
  }

  /** An output element comes from some input element, and conversely. */
  lemma {:induction false} FlatMapMember<A, B>(f: A -> seq<B>, s: seq<A>, y: B)
    ensures y in FlatMap(f, s) <==> exists k :: 0 <= k < |s| && y in f(s[k])
  {
    if |s| > 0 {
      FlatMapMember(f, s[1..], y);
      if y in FlatMap(f, s[1..]) {
        var k :| 0 <= k < |s[1..]| && y in f(s[1..][k]);
        assert y in f(s[k + 1]);
      }
      if exists k :: 0 <= k < |s| && y in f(s[k]) {
        var k :| 0 <= k < |s| && y in f(s[k]);
        if k > 0 {
          assert y in f(s[1..][k - 1]);
        }
      }
    }
  }

  /** When every element expands to exactly one item of `f` or `g`, the
      two outputs together are as long as the input. */
  lemma {:induction false} FlatMapSplitsInput<A, B, C>(f: A -> seq<B>, g: A -> seq<C>, s: seq<A>)
    requires forall x :: |f(x)| + |g(x)| == 1
    ensures |FlatMap(f, s)| + |FlatMap(g, s)| == |s|
  {
    if |s| > 0 {
      FlatMapSplitsInput(f, g, s[1..]);
    }
  }
}
