# go-list-tags, modelled in Dafny

`go-list-tags` lists every build tag used by a set of Go packages and, for
each tag, the packages that mention it. Its single `main` function does
three things that carry its logic, and this project models each of them
as pure functions over sequences and maps, with proofs of what they
guarantee:

1. **Package list** (`Packages`, `GoStrings`, `MapKeys`, `Sorting`,
   `StringOrder`). No arguments mean the single pattern `all`. Each
   pattern is expanded by `go list -e -find`, and the trimmed output is
   split into lines. Every line goes into a set, and the set is sorted.
   The first pattern that fails to expand aborts the run.
2. **Import pool** (`Pool`, with `Seqs`). Each listed path is imported
   once. A successful import is passed on to the aggregator. A failed
   import is logged and dropped. The workers may finish in any order, so
   their output is modelled as the successful results of the paths taken
   in an arbitrary permutation.
3. **Tag index and report** (`Tags`). A left fold over the received
   package descriptors appends each import path to the bucket of every
   tag the package mentions. The report then lists the tags in increasing
   order, each with its bucket sorted.

`Pipeline.Run` chains the three steps. The central result is
`Pipeline.RunIgnoresCompletionOrder`: whatever order the concurrent
workers finish in, the report is the same. Its pieces are
`Pool.AnyCompletionOrderIsPoolStream` and `Tags.ReportIgnoresArrivalOrder`.

External collaborators become parameters:

- `Packages.Resolver` (`string -> Option<string>`) stands for running
  `go list -e -find <pattern>`. It returns the command's standard output,
  or `None` when the command fails.
- `Pool.Importer` (`string -> Result<Package, string>`) stands for
  `build.Default.Import(path, ".", 0)` with `UseAllFiles` set. It returns
  the package's import path and `AllTags`, or an error.

Strings are `seq<char>`, where a `char` is a Unicode scalar value. Go
orders strings by their UTF-8 bytes. Comparing scalar values
lexicographically gives the same order, so `StringOrder.Less` is Go's
`<` on strings, and therefore the order `sort.Strings` produces.
`GoStrings.IsSpace` follows Go's `unicode.IsSpace`: the Latin-1 spaces
plus the characters with the Unicode White_Space property.

Go leaves map iteration order unspecified. The key set of each map that
the program later enumerates (`packagesM`, `tagsM`) is kept as a
duplicate-free sequence in first-insertion order (`MapKeys`).
`Sorting.SortedKeysUnique` shows that sorting any duplicate-free
enumeration of the same keys gives the same sequence, so this choice
changes nothing.

The code sorts each bucket (main.go:111) but never removes duplicates
from it. `Tags.BucketDistinct` proves that a bucket is duplicate-free if
the received import paths are distinct and no package repeats a tag.
`Tags.BucketLength` proves that, if no package repeats a tag (go/build's
`AllTags` never does), a bucket's length is the number of received
descriptors that mention the tag. In general, `Tags.Aggregate` states that
each descriptor contributes its import path once per occurrence of the
tag in its tag list.

## Model

| member | source | states |
|---|---|---|
| Packages.Patterns | main.go:21-25 | no arguments give exactly the pattern list `["all"]`; otherwise the arguments are used unchanged |
| Packages.EmptyArgsMeansAll | main.go:21-25 | a run with no arguments produces the same package list (or failure) as a run with the single argument `all` |
| Packages.Collect | main.go:28-40 | succeeds iff every pattern resolves; on failure names the first pattern that failed; on success the collected paths are duplicate-free and are exactly the earlier paths plus every line of every pattern's trimmed output |
| Packages.PackageList | main.go:27-46 | succeeds iff every pattern resolves, otherwise reports the first failing pattern; the list is strictly increasing and holds a path iff it is a line of some pattern's trimmed output |
| Packages.PackageListDependsOnPatternSet | main.go:28-46 | any two non-empty argument lists with the same set of patterns (differing only by duplicates or order) give the same outcome and, on success, the same package list |
| GoStrings.TrimSpace | main.go:37 | the result neither starts nor ends with white space, and it is a contiguous slice of the input with only white space before and after it |
| GoStrings.TrimSpaceExact | main.go:37 | trimming white space around a core that neither starts nor ends with white space returns exactly that core |
| GoStrings.TrimSpaceIdempotent | main.go:37 | trimming an already trimmed string changes nothing |
| GoStrings.Split | main.go:37 | splitting on a separator gives at least one piece, no piece contains the separator, and joining the pieces with the separator restores the input |
| GoStrings.SplitJoin | main.go:37 | splitting a join of separator-free pieces gives back exactly those pieces |
| GoStrings.Lines | main.go:37 | an output's lines are non-empty in number, free of newlines, and join back to the trimmed output |
| GoStrings.BlankOutputListsEmptyPath | main.go:37 | an output of only white space lists exactly one path, the empty string |
| MapKeys.AddKey | main.go:38 | inserting a key keeps the key sequence duplicate-free and adds exactly that key |
| MapKeys.AddKeys | main.go:37-39 | inserting every line keeps the key sequence duplicate-free and its keys become the old keys plus the lines |
| Sorting.Sort | main.go:46 | the result is in non-decreasing order and is a permutation of the input |
| Sorting.SortedUnique | main.go:46 | two sorted sequences with the same elements, counted with multiplicity, are equal |
| Sorting.SortIgnoresOrder | main.go:46 | sorting two permutations of each other gives the same sequence |
| Sorting.SortedKeysUnique | main.go:42-46 | any two duplicate-free enumerations of the same key set sort to the same strictly increasing sequence |
| StringOrder.StrictlySortedUnique | main.go:42-46 | two strictly increasing sequences with the same elements are equal |
| Pool.ImportAll | main.go:64-71 | every dispatched path yields exactly one of a delivered descriptor or a logged failure; a descriptor is delivered iff some path imports to it; a path is logged iff its import fails |
| Pool.AnyCompletionOrderIsPoolStream | main.go:59-89 | if the workers finish the paths in any permutation of the package list, the aggregator receives the same descriptors with the same multiplicities, and the same paths fail |
| Pool.OneDescriptorPerSuccess | main.go:64-71 | each descriptor is delivered exactly as many times as there are paths whose import yields it |
| Tags.Append | main.go:95-97 | appending to the bucket of a tag adds the path at the end of that bucket, creates the key if missing, and leaves every other bucket unchanged |
| Tags.AddPackage | main.go:94-98 | after one package, each tag's bucket gains the package's path once per occurrence of the tag in its tags, and nothing else changes |
| Tags.Aggregate | main.go:92-99 | the folded index is well formed (keys listed once, no empty bucket), and every tag's bucket is the arrival-order concatenation of the descriptors' contributions to that tag |
| Tags.AggregateMembership | main.go:93-98 | a path is in a tag's bucket iff some received descriptor has that import path and mentions the tag |
| Tags.AggregateKeys | main.go:93-98 | a tag is a key of the index iff some received descriptor mentions it |
| Tags.BucketLength | main.go:94-97 | if no descriptor repeats a tag, a bucket's length is the number of received descriptors that mention the tag |
| Tags.BucketDistinct | main.go:94-97 | if received import paths are distinct and no descriptor repeats a tag, every bucket is duplicate-free |
| Tags.Report | main.go:101-111 | reported tags are strictly increasing and are exactly the index's keys; each reported bucket is sorted, non-empty and a permutation of the index's bucket |
| Tags.ReportedTags | main.go:101-105 | a tag is reported iff some received descriptor mentions it |
| Tags.ReportedPaths | main.go:108-113 | under every reported tag, a path is listed iff a received descriptor with that import path mentions the tag |
| Tags.ReportDependsOnBucketContents | main.go:101-111 | two well-formed indexes whose buckets hold the same paths with the same multiplicities produce the same report |
| Tags.ReportIgnoresArrivalOrder | main.go:92-111 | the report is identical for every permutation of the descriptor stream |
| Pipeline.Run | main.go:21-111 | a run succeeds iff every pattern resolves, otherwise it fails with the first failing pattern; on success the reported tags are strictly increasing |
| Pipeline.EnumerationIsPermutation | main.go:42-46 | when every pattern resolves, any duplicate-free sequence of exactly the listed paths is a permutation of the package list, so it is a possible order in which the paths reach the workers |
| Pipeline.RunIgnoresCompletionOrder | main.go:50-111 | if the workers take the listed paths in any order, each exactly once, the report equals the one of the run in package-list order |
| Pipeline.ReceivedDescriptors | main.go:64-71 | the aggregator receives a descriptor iff some listed path imports to it |
| Pipeline.RunReportsImportedTags | main.go:64-105 | when every pattern resolves, the run succeeds, and a tag is reported iff some path in a pattern's output imports successfully and mentions it |
| Pipeline.RunReportsImportingPackages | main.go:64-113 | when every pattern resolves, under every reported tag a path is listed iff some path in a pattern's output imports successfully to a package with that import path that mentions the tag, so a failed import removes nothing that other packages contribute |

## Left out

- Flag parsing, the log prefix and flags, the "assuming `all`" and "Expanded packages list" messages, the per-path progress lines and the `fmt` formatting of the report (main.go:17-19, 23, 48, 86, 107-114). They produce text only. The report's content and order are modelled by `Tags.Report`.
- Running `go list` and wiring its standard error (main.go:30-32). This is process I/O, replaced by the `Resolver` parameter. `log.Fatal` (main.go:34) becomes a `Failure` carrying the failing pattern rather than the command's error text.
- `go/build` importing with `UseAllFiles` (main.go:57-58, 65). This is a foreign library call, replaced by the `Importer` parameter. The log line for a failed import (main.go:67) is modelled as the path in `PoolOutput.failed`, without its message.
- Goroutines, the two buffered channels, `sync.WaitGroup` and `GOMAXPROCS` (main.go:50-89). Only their sequential meaning is modelled: each path is imported once and results arrive in any permutation. Channel capacities, blocking and the worker count have no effect on the result.
- Invalid UTF-8 in the `go list` output. Go's `TrimSpace` treats an invalid byte as a non-space rune. The model works on Unicode scalar values and cannot represent such bytes.
- `Pipeline.Run`: models the run whose workers finish in package-list order. Every other completion order is covered by `Pipeline.RunIgnoresCompletionOrder`, not by `Run` itself.
- Classifying tags into OS, architecture, release and other tags, and a variant that skips patterns that fail to resolve. Neither is in main.go, so there is no code to model.
