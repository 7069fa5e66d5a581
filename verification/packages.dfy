/** Building the package list (main.go:21-46): default the patterns, expand
    each with the external resolver, collect every listed path into a set,
    and sort the set. */
module Packages {
  import opened Wrappers
  import opened StringOrder
  import opened Sorting
  import opened GoStrings
  import opened MapKeys

  /** The external `go list -e -find <pattern>` command: its standard
      output, or None when the command fails. */
  type Resolver = string -> Option<string>

  /** The run stops at the first pattern the resolver cannot expand. */
  datatype ResolveError = ResolveError(pattern: string)

  /** The patterns actually resolved: `all` when none were given. */
  function Patterns(args: seq<string>): (r: seq<string>)
    ensures |r| > 0
    ensures |args| == 0 ==> r == ["all"]
    ensures |args| > 0 ==> r == args
  {
    if |args| == 0 then ["all"] else args
  }

  /** Every pattern expands successfully. */
  predicate AllResolve(resolve: Resolver, patterns: seq<string>)
  {
    forall k :: 0 <= k < |patterns| ==> resolve(patterns[k]).Some?
  }

  /** `pattern` is the first one in `patterns` that fails to expand. */
  ghost predicate FirstFailure(resolve: Resolver, patterns: seq<string>, pattern: string)
  {
    exists k :: 0 <= k < |patterns| && patterns[k] == pattern && resolve(pattern).None?
                && AllResolve(resolve, patterns[..k])
  }

  /** `path` is a line of the trimmed output of some pattern. */
  ghost predicate Listed(resolve: Resolver, patterns: seq<string>, path: string)
  {
    exists k :: 0 <= k < |patterns| && resolve(patterns[k]).Some?
                && path in Lines(resolve(patterns[k]).value)
  }

  /** The set-building loop (main.go:29-40), continuing from the paths
      already in `seen`: resolve each pattern in order, abort on the first
      failure, otherwise add every line of its trimmed output. */
  function Collect(resolve: Resolver, patterns: seq<string>, seen: seq<string>): (r: Result<seq<string>, ResolveError>)
    requires Distinct(seen)
    ensures r.Success? <==> AllResolve(resolve, patterns)
    ensures r.Failure? ==> FirstFailure(resolve, patterns, r.error.pattern)
    ensures r.Success? ==> Distinct(r.value)
    ensures r.Success? ==> forall p :: p in r.value <==> p in seen || Listed(resolve, patterns, p)
    decreases |patterns|
  {
    if |patterns| == 0 then Success(seen)
    else
      match resolve(patterns[0])
      case None =>
        assert AllResolve(resolve, patterns[..0]);
        Failure(ResolveError(patterns[0]))
      case Some(output) =>
        var r := Collect(resolve, patterns[1..], AddKeys(seen, Lines(output)));
        ResolvesAfterFirst(resolve, patterns);
        if r.Failure? then
          FirstFailureAfterFirst(resolve, patterns, r.error.pattern);
          r
        else
          ListedAfterFirst(resolve, patterns);
          r
  }

  /** When the first pattern resolves, all do iff the rest do. */
  lemma {:induction false} ResolvesAfterFirst(resolve: Resolver, patterns: seq<string>)
    requires |patterns| > 0 && resolve(patterns[0]).Some?
    ensures AllResolve(resolve, patterns) <==> AllResolve(resolve, patterns[1..])
  {
    if AllResolve(resolve, patterns[1..]) {
      forall k | 0 < k < |patterns|
        ensures resolve(patterns[k]).Some?
      {
        assert patterns[k] == patterns[1..][k - 1];
      }
    }
  }

  /** When the first pattern resolves, the first failure is the first
      failure of the rest. */
  lemma {:induction false} FirstFailureAfterFirst(resolve: Resolver, patterns: seq<string>, pattern: string)
    requires |patterns| > 0 && resolve(patterns[0]).Some?
    requires FirstFailure(resolve, patterns[1..], pattern)
    ensures FirstFailure(resolve, patterns, pattern)
  {
    var k :| 0 <= k < |patterns[1..]| && patterns[1..][k] == pattern
             && resolve(pattern).None? && AllResolve(resolve, patterns[1..][..k]);
    assert patterns[..k + 1] == [patterns[0]] + patterns[1..][..k];
    assert patterns[k + 1] == pattern;
  }

  /** The paths listed by all patterns are those of the first plus those of
      the rest. */
  lemma {:induction false} ListedAfterFirst(resolve: Resolver, patterns: seq<string>)
    requires |patterns| > 0 && resolve(patterns[0]).Some?
    ensures forall p :: Listed(resolve, patterns, p) <==>
              p in Lines(resolve(patterns[0]).value) || Listed(resolve, patterns[1..], p)
  {
    forall p
      ensures Listed(resolve, patterns, p) <==>
              p in Lines(resolve(patterns[0]).value) || Listed(resolve, patterns[1..], p)
    {
      if Listed(resolve, patterns[1..], p) {
        var k :| 0 <= k < |patterns[1..]| && resolve(patterns[1..][k]).Some?
                 && p in Lines(resolve(patterns[1..][k]).value);
        assert patterns[k + 1] == patterns[1..][k];
      }
      if Listed(resolve, patterns, p) {
        var k :| 0 <= k < |patterns| && resolve(patterns[k]).Some?
                 && p in Lines(resolve(patterns[k]).value);
        if k > 0 {
          assert patterns[k] == patterns[1..][k - 1];
        }
      }
    }
  }

  /** The sorted package list of main.go:21-46, or the first pattern that
      failed to expand. */
  function PackageList(resolve: Resolver, args: seq<string>): (r: Result<seq<string>, ResolveError>)
    ensures r.Success? <==> AllResolve(resolve, Patterns(args))
    ensures r.Failure? ==> FirstFailure(resolve, Patterns(args), r.error.pattern)
    ensures r.Success? ==> StrictlySorted(r.value)
    ensures r.Success? ==> forall p :: p in r.value <==> Listed(resolve, Patterns(args), p)
  {
    var paths :- Collect(resolve, Patterns(args), []);
    SortDistinct(paths);
    Success(Sort(paths))
  }

  /** No arguments behave exactly like the single argument `all`. */
  lemma {:induction false} EmptyArgsMeansAll(resolve: Resolver)
    ensures PackageList(resolve, []) == PackageList(resolve, ["all"])
  {
  }

  /** Repeating or reordering the patterns does not change the package
      list: two argument lists with the same set of patterns agree. */
  lemma {:induction false} PackageListDependsOnPatternSet(resolve: Resolver, a: seq<string>, b: seq<string>)
    requires |a| > 0 && |b| > 0
    requires forall x :: x in a <==> x in b
    ensures PackageList(resolve, a).Success? <==> PackageList(resolve, b).Success?
    ensures PackageList(resolve, a).Success? ==> PackageList(resolve, a) == PackageList(resolve, b)
  {
    assert AllResolve(resolve, a) <==> AllResolve(resolve, b) by {
      if AllResolve(resolve, a) {
        forall k | 0 <= k < |b|
          ensures resolve(b[k]).Some?
        {
          assert b[k] in a;
        }
      }
      if AllResolve(resolve, b) {
        forall k | 0 <= k < |a|
          ensures resolve(a[k]).Some?
        {
          assert a[k] in b;
        }
      }
    }
    forall p
      ensures Listed(resolve, a, p) <==> Listed(resolve, b, p)
    {
      if Listed(resolve, a, p) {
        var k :| 0 <= k < |a| && resolve(a[k]).Some? && p in Lines(resolve(a[k]).value);
        assert a[k] in b;
      }
      if Listed(resolve, b, p) {
        var k :| 0 <= k < |b| && resolve(b[k]).Some? && p in Lines(resolve(b[k]).value);
        assert b[k] in a;
      }
    }
    var ra, rb := PackageList(resolve, a), PackageList(resolve, b);
    if ra.Success? && rb.Success? {
      StrictlySortedUnique(ra.value, rb.value);
    }
  }
}
