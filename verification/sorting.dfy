/** `sort.Strings` as a pure function: the result is the unique sorted
    permutation of its input, so how the sort is carried out (and whether
    it is stable) cannot be observed. */
module Sorting {
  import opened StringOrder

  /** Inserts `x` into sorted `s` before the first element not below it. */
  function Insert(x: string, s: seq<string>): (r: seq<string>)
    requires Sorted(s)
    ensures Sorted(r)
    ensures multiset(r) == multiset(s) + multiset{x}
    ensures forall y :: y in r <==> y == x || y in s
  {
    if |s| == 0 then [x]
    else if LessEq(x, s[0]) then
      assert forall j :: 0 <= j < |s| ==> LessEq(x, s[j]) by {
        forall j | 0 <= j < |s| {
          LessEqTransitive(x, s[0], s[j]);
        }
      }
      [x] + s
    else
      var rest := Insert(x, s[1..]);
      assert Less(s[0], x) by {
        LessTotal(x, s[0]);
      }
      assert forall j :: 0 <= j < |rest| ==> LessEq(s[0], rest[j]) by {
        forall j | 0 <= j < |rest|
          ensures LessEq(s[0], rest[j])
        {
          assert rest[j] in rest;
          if rest[j] != x {
            assert rest[j] in s[1..];
          }
        }
      }
      assert s == [s[0]] + s[1..];
      [s[0]] + rest
  }

  /** Sorts `s` into non-decreasing order, keeping every element. */
  function Sort(s: seq<string>): (r: seq<string>)
    ensures Sorted(r)
    ensures multiset(r) == multiset(s)
  {
    if |s| == 0 then []
    else
      assert s == [s[0]] + s[1..];
      Insert(s[0], Sort(s[1..]))
  }

  /** Two sorted sequences with the same multiset start with the same
      element. */
  lemma {:induction false} SortedSameHead(a: seq<string>, b: seq<string>)
    requires Sorted(a) && Sorted(b)
    requires |a| > 0 && |b| > 0
    requires multiset(a) == multiset(b)
    ensures a[0] == b[0]
  {
    assert a[0] in multiset(b) && b[0] in multiset(a);
    assert a[0] in b && b[0] in a;
    assert LessEq(a[0], b[0]) && LessEq(b[0], a[0]);
    LessEqAntisymmetric(a[0], b[0]);
  }

  lemma {:induction false} MultisetTail(a: seq<string>)
    requires |a| > 0
    ensures multiset(a[1..]) == multiset(a) - multiset{a[0]}
  {
    assert a == [a[0]] + a[1..];
    assert multiset(a) == multiset{a[0]} + multiset(a[1..]);
  }

  /** Two sorted sequences holding the same elements, counted with
      multiplicity, are equal. */
  lemma {:induction false} SortedUnique(a: seq<string>, b: seq<string>)
    requires Sorted(a) && Sorted(b)
    requires multiset(a) == multiset(b)
    ensures a == b
  {
    if |a| > 0 && |b| > 0 {
      SortedSameHead(a, b);
      MultisetTail(a);
      MultisetTail(b);
      SortedUnique(a[1..], b[1..]);
      assert a == [a[0]] + a[1..] && b == [b[0]] + b[1..];
    } else {
      assert |multiset(a)| == |a| && |multiset(b)| == |b|;
    }
  }

  /** Sorting depends only on the multiset of the input, never on its order. */
  lemma {:induction false} SortIgnoresOrder(a: seq<string>, b: seq<string>)
    requires multiset(a) == multiset(b)
    ensures Sort(a) == Sort(b)
  {
    SortedUnique(Sort(a), Sort(b));
  }

  /** A duplicate-free sequence holds each of its elements exactly once. */
  lemma {:induction false} DistinctMultiplicity(s: seq<string>, x: string)
    requires Distinct(s)
    ensures multiset(s)[x] == if x in s then 1 else 0
  {
    if |s| > 0 {
      assert s == [s[0]] + s[1..];
      assert Distinct(s[1..]);
      DistinctMultiplicity(s[1..], x);
      if x == s[0] {
        assert x !in s[1..];
      }
    }
  }

  /** An element at two positions occurs at least twice. */
  lemma {:induction false} Repeated(s: seq<string>, i: nat, j: nat)
    requires i < j < |s| && s[i] == s[j]
    ensures multiset(s)[s[i]] >= 2
  {
    assert s == s[..j] + [s[j]] + s[j + 1..];
    assert s[i] in s[..j];
  }

  /** Sorting a duplicate-free enumeration of a set gives its strictly
      sorted listing. */
  lemma {:induction false} SortDistinct(s: seq<string>)
    requires Distinct(s)
    ensures StrictlySorted(Sort(s))
    ensures forall x :: x in Sort(s) <==> x in s
  {
    var r := Sort(s);
    forall i, j | 0 <= i < j < |r|
      ensures r[i] != r[j]
    {
      if r[i] == r[j] {
        Repeated(r, i, j);
        DistinctMultiplicity(s, r[i]);
      }
    }
    assert forall x :: x in r <==> x in multiset(r);
    SortedDistinctIsStrict(r);
  }

  /** Go's map iteration order is unspecified: any two duplicate-free
      enumerations of the same key set sort to the same sequence. */
  lemma {:induction false} SortedKeysUnique(a: seq<string>, b: seq<string>)
    requires Distinct(a) && Distinct(b)
    requires forall x :: x in a <==> x in b
    ensures Sort(a) == Sort(b)
    ensures StrictlySorted(Sort(a))
  {
    forall x
      ensures multiset(a)[x] == multiset(b)[x]
    {
      DistinctMultiplicity(a, x);
      DistinctMultiplicity(b, x);
    }
    assert multiset(a) == multiset(b);
    SortIgnoresOrder(a, b);
    SortDistinct(a);
  }
}
