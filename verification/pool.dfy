/** The import workers (main.go:57-89) stripped of concurrency. Each path
    of the package list is imported exactly once; a successful import is
    sent on to the aggregator, a failed one is logged and dropped. The
    order in which results arrive is whatever order the workers finish
    in, which is modelled as an arbitrary permutation of the paths. */
module Pool {
  import opened Wrappers
  import opened Seqs

  /** What the aggregator uses of an imported package: its import path
      and every build tag mentioned in any of its files. */
  datatype Package = Package(importPath: string, allTags: seq<string>)

  /** `context.Import(path, ".", 0)` with `UseAllFiles` set: the package,
      or an error message. */
  type Importer = string -> Result<Package, string>

  /** What one path contributes to the output channel (main.go:65-71). */
  function Delivery(imp: Importer, path: string): seq<Package>
  {
    match imp(path)
    case Success(p) => [p]
    case Failure(_) => []
  }

  /** The error line one path contributes to the log (main.go:66-68). */
  function Logged(imp: Importer, path: string): seq<string>
  {
    if imp(path).Failure? then [path] else []
  }

  /** Everything the workers produce when they take the paths in the
      order `dispatched`. */
  datatype PoolOutput = PoolOutput(delivered: seq<Package>, failed: seq<string>)

  function ImportAll(imp: Importer, dispatched: seq<string>): (r: PoolOutput)
    ensures |r.delivered| + |r.failed| == |dispatched|
    ensures forall d :: d in r.delivered <==>
              exists k :: 0 <= k < |dispatched| && imp(dispatched[k]) == Success(d)
    ensures forall p :: p in r.failed <==> p in dispatched && imp(p).Failure?
  {
    var deliver := (p: string) => Delivery(imp, p);
    var log := (p: string) => Logged(imp, p);
    var r := PoolOutput(FlatMap(deliver, dispatched), FlatMap(log, dispatched));
    FlatMapSplitsInput(deliver, log, dispatched);
    forall d
      ensures d in r.delivered <==>
              exists k :: 0 <= k < |dispatched| && imp(dispatched[k]) == Success(d)
    {
      FlatMapMember(deliver, dispatched, d);
    }
    forall p
      ensures p in r.failed <==> p in dispatched && imp(p).Failure?
    {
      FlatMapMember(log, dispatched, p);
    }
    r
  }

  /** `stream` is a possible input of the aggregator: the descriptors of
      the successful imports of `paths`, in some order. */
  ghost predicate IsPoolStream(imp: Importer, paths: seq<string>, stream: seq<Package>)
  {
    multiset(stream) == multiset(ImportAll(imp, paths).delivered)
  }

  /** Whatever order the workers finish the paths in, the aggregator sees
      the same descriptors, each as often as in the sequential run. */
  lemma {:induction false} AnyCompletionOrderIsPoolStream(imp: Importer, paths: seq<string>, dispatched: seq<string>)
    requires multiset(dispatched) == multiset(paths)
    ensures IsPoolStream(imp, paths, ImportAll(imp, dispatched).delivered)
    ensures multiset(ImportAll(imp, dispatched).failed) == multiset(ImportAll(imp, paths).failed)
  {
    FlatMapPermutation((p: string) => Delivery(imp, p), dispatched, paths);
    FlatMapPermutation((p: string) => Logged(imp, p), dispatched, paths);
  }

  /** Each descriptor is delivered once per path that imports to it:
      counted with multiplicity, it occurs as often as there are such
      paths. */
  lemma {:induction false} OneDescriptorPerSuccess(imp: Importer, paths: seq<string>, d: Package)
    ensures multiset(ImportAll(imp, paths).delivered)[d] ==
            |FlatMap((p: string) => if imp(p) == Success(d) then [p] else [], paths)|
  {
    var deliver := (p: string) => Delivery(imp, p);
    var hits := (p: string) => if imp(p) == Success(d) then [p] else [];
    if |paths| > 0 {
      OneDescriptorPerSuccess(imp, paths[1..], d);
      assert FlatMap(deliver, paths) == deliver(paths[0]) + FlatMap(deliver, paths[1..]);
      assert FlatMap(hits, paths) == hits(paths[0]) + FlatMap(hits, paths[1..]);
    }
  }
}
