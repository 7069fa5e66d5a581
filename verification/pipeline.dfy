/** One run of the tool (main.go:16-116) without its I/O: resolve the
    patterns into the package list, import every package, fold the
    successful imports into the tag index and report it. */
module Pipeline {
  import opened Wrappers
  import opened StringOrder
  import opened Sorting
  import opened Packages
  import opened Pool
  import opened Tags

  /** The report of a run whose workers finish the paths in the order of
      the package list; a resolver failure aborts before any import. */
  function Run(resolve: Resolver, imp: Importer, args: seq<string>): (r: Result<seq<Entry>, ResolveError>)
    ensures r.Success? <==> AllResolve(resolve, Patterns(args))
    ensures r.Failure? ==> FirstFailure(resolve, Patterns(args), r.error.pattern)
    ensures r.Success? ==> StrictlySorted(TagsOf(r.value))
  {
    var paths :- PackageList(resolve, args);
    Success(Report(Aggregate(ImportAll(imp, paths).delivered)))
  }

  /** The package list, as a permutation, is any duplicate-free
      enumeration of the listed paths. */
  lemma {:induction false} EnumerationIsPermutation(resolve: Resolver, args: seq<string>, dispatched: seq<string>)
    requires AllResolve(resolve, Patterns(args))
    requires Distinct(dispatched)
    requires forall p :: p in dispatched <==> Listed(resolve, Patterns(args), p)
    ensures PackageList(resolve, args).Success?
    ensures multiset(dispatched) == multiset(PackageList(resolve, args).value)
  {
    var paths := PackageList(resolve, args).value;
    StrictlySortedDistinct(paths);
    SortedKeysUnique(dispatched, paths);
    assert multiset(Sort(dispatched)) == multiset(Sort(paths));
  }

  /** Whatever order the workers take the listed paths in, each exactly
      once, and so whatever order the descriptors reach the aggregator in,
      the report is the one of the run in package-list order. */
  lemma {:induction false} RunIgnoresCompletionOrder(resolve: Resolver, imp: Importer, args: seq<string>, dispatched: seq<string>)
    requires AllResolve(resolve, Patterns(args))
    requires Distinct(dispatched)
    requires forall p :: p in dispatched <==> Listed(resolve, Patterns(args), p)
    ensures Run(resolve, imp, args) == Success(Report(Aggregate(ImportAll(imp, dispatched).delivered)))
  {
    EnumerationIsPermutation(resolve, args, dispatched);
    var paths := PackageList(resolve, args).value;
    AnyCompletionOrderIsPoolStream(imp, paths, dispatched);
    ReportIgnoresArrivalOrder(ImportAll(imp, dispatched).delivered, ImportAll(imp, paths).delivered);
  }

  /** A descriptor is received exactly when some listed path imports to it. */
  lemma {:induction false} ReceivedDescriptors(imp: Importer, paths: seq<string>, d: Package)
    ensures d in ImportAll(imp, paths).delivered <==> exists q :: q in paths && imp(q) == Success(d)
  {
    if exists q :: q in paths && imp(q) == Success(d) {
      var q :| q in paths && imp(q) == Success(d);
      var k :| 0 <= k < |paths| && paths[k] == q;
    }
  }

  /** A tag is reported exactly when some listed package imports and
      mentions it; a package whose import fails contributes nothing. */
  lemma {:induction false} RunReportsImportedTags(resolve: Resolver, imp: Importer, args: seq<string>, t: string)
    requires AllResolve(resolve, Patterns(args))
    ensures Run(resolve, imp, args).Success?
    ensures t in TagsOf(Run(resolve, imp, args).value) <==>
            exists q :: Listed(resolve, Patterns(args), q) && imp(q).Success? && t in imp(q).value.allTags
  {
    var paths := PackageList(resolve, args).value;
    var stream := ImportAll(imp, paths).delivered;
    ReportedTags(stream, t);
    if exists d :: d in stream && t in d.allTags {
      var d :| d in stream && t in d.allTags;
      ReceivedDescriptors(imp, paths, d);
    }
    if exists q :: Listed(resolve, Patterns(args), q) && imp(q).Success? && t in imp(q).value.allTags {
      var q :| Listed(resolve, Patterns(args), q) && imp(q).Success? && t in imp(q).value.allTags;
      ReceivedDescriptors(imp, paths, imp(q).value);
    }
  }

  /** Under each reported tag, a path is listed exactly when some listed
      package imports with that path and mentions the tag; a failed import
      removes nothing that another package contributes. */
  lemma {:induction false} RunReportsImportingPackages(resolve: Resolver, imp: Importer, args: seq<string>, p: string)
    requires AllResolve(resolve, Patterns(args))
    ensures Run(resolve, imp, args).Success?
    ensures var r := Run(resolve, imp, args).value;
            forall k :: 0 <= k < |r| ==>
              (p in r[k].paths <==>
               exists q :: Listed(resolve, Patterns(args), q) && imp(q).Success?
                           && imp(q).value.importPath == p && r[k].tag in imp(q).value.allTags)
  {
    var paths := PackageList(resolve, args).value;
    var stream := ImportAll(imp, paths).delivered;
    var r := Run(resolve, imp, args).value;
    ReportedPaths(stream, p);
    forall k | 0 <= k < |r|
      ensures p in r[k].paths <==>
              exists q :: Listed(resolve, Patterns(args), q) && imp(q).Success?
                          && imp(q).value.importPath == p && r[k].tag in imp(q).value.allTags
    {
      assert r[k] in r;
      ReceivedWithPathAndTag(imp, paths, r[k].tag, p);
    }
  }

  /** A received descriptor has import path `p` and mentions `tag` exactly
      when some dispatched path imports to such a package. */
  lemma {:induction false} ReceivedWithPathAndTag(imp: Importer, paths: seq<string>, tag: string, p: string)
    ensures (exists d :: d in ImportAll(imp, paths).delivered && d.importPath == p && tag in d.allTags) <==>
            exists q :: q in paths && imp(q).Success? && imp(q).value.importPath == p && tag in imp(q).value.allTags
  {
    var stream := ImportAll(imp, paths).delivered;
    if exists d :: d in stream && d.importPath == p && tag in d.allTags {
      var d :| d in stream && d.importPath == p && tag in d.allTags;
      ReceivedDescriptors(imp, paths, d);
    }
    if exists q :: q in paths && imp(q).Success? && imp(q).value.importPath == p && tag in imp(q).value.allTags {
      var q :| q in paths && imp(q).Success? && imp(q).value.importPath == p && tag in imp(q).value.allTags;
      ReceivedDescriptors(imp, paths, imp(q).value);
    }
  }
}
