/** The tag index (main.go:92-111): a left fold over the descriptor stream
    that appends each package's import path to the bucket of every tag it
    mentions, followed by the report, which sorts the tags and each
    bucket. */
module Tags {
  import opened StringOrder
  import opened Sorting
  import opened MapKeys
  import opened Seqs
  import opened Pool

  /** `tagsM`: the buckets, plus the map's key set as a duplicate-free
      sequence (see MapKeys). */
  datatype TagIndex = TagIndex(tags: seq<string>, buckets: map<string, seq<string>>)

  /** The key sequence lists exactly the map's keys, and a key only ever
      exists because a path was appended to its bucket. */
  predicate WellFormed(idx: TagIndex)
  {
    && Distinct(idx.tags)
    && (forall t :: t in idx.buckets ==> t in idx.tags)
    && (forall t :: t in idx.tags ==> t in idx.buckets)
    && (forall t :: t in idx.buckets ==> |idx.buckets[t]| > 0)
  }

  /** `tagsM[tag]`: a missing key reads as the empty (nil) slice. */
  function Bucket(idx: TagIndex, tag: string): seq<string>
  {
    if tag in idx.buckets then idx.buckets[tag] else []
  }

  /** `s := tagsM[tag]; s = append(s, path); tagsM[tag] = s` (main.go:95-97). */
  function Append(idx: TagIndex, tag: string, path: string): (r: TagIndex)
    requires WellFormed(idx)
    ensures WellFormed(r)
    ensures Bucket(r, tag) == Bucket(idx, tag) + [path]
    ensures forall t :: t != tag ==> Bucket(r, t) == Bucket(idx, t)
  {
    TagIndex(AddKey(idx.tags, tag), idx.buckets[tag := Bucket(idx, tag) + [path]])
  }

  /** The inner loop over `p.AllTags` (main.go:94-98): `path` lands in the
      bucket of `t` once per occurrence of `t` in `tags`. */
  function AddPackage(idx: TagIndex, tags: seq<string>, path: string): (r: TagIndex)
    requires WellFormed(idx)
    ensures WellFormed(r)
    ensures forall t :: Bucket(r, t) == Bucket(idx, t) + Repeat(path, multiset(tags)[t])
    decreases |tags|
  {
    if |tags| == 0 then idx
    else
      var next := Append(idx, tags[0], path);
      var r := AddPackage(next, tags[1..], path);
      AddPackageStep(idx, next, r, tags, path);
      r
  }

  /** Splits the copies of `path` owed to `t` into those of the first tag
      and those of the rest. */
  lemma {:induction false} RepeatFirstTag(path: string, tags: seq<string>, t: string)
    requires |tags| > 0
    ensures Repeat(path, multiset(tags)[t]) ==
            (if t == tags[0] then [path] else []) + Repeat(path, multiset(tags[1..])[t])
  {
    assert tags == [tags[0]] + tags[1..];
    assert multiset(tags) == multiset{tags[0]} + multiset(tags[1..]);
  }

  lemma {:induction false} AddPackageStep(idx: TagIndex, next: TagIndex, r: TagIndex, tags: seq<string>, path: string)
    requires |tags| > 0
    requires Bucket(next, tags[0]) == Bucket(idx, tags[0]) + [path]
    requires forall t :: t != tags[0] ==> Bucket(next, t) == Bucket(idx, t)
    requires forall t :: Bucket(r, t) == Bucket(next, t) + Repeat(path, multiset(tags[1..])[t])
    ensures forall t :: Bucket(r, t) == Bucket(idx, t) + Repeat(path, multiset(tags)[t])
  {
    forall t
      ensures Bucket(r, t) == Bucket(idx, t) + Repeat(path, multiset(tags)[t])
    {
      RepeatFirstTag(path, tags, t);
    }
  }

  /** What one descriptor contributes to the bucket of `tag`. */
  function Contribution(tag: string): Package -> seq<string>
  {
    (d: Package) => Repeat(d.importPath, multiset(d.allTags)[tag])
  }

  /** The reference content of the bucket of `tag`: the contributions of the
      descriptors, in arrival order. */
  function Expected(stream: seq<Package>, tag: string): seq<string>
  {
    FlatMap(Contribution(tag), stream)
  }

  lemma {:induction false} ExpectedSnoc(stream: seq<Package>, last: Package, tag: string)
    ensures Expected(stream + [last], tag) ==
            Expected(stream, tag) + Repeat(last.importPath, multiset(last.allTags)[tag])
  {
    FlatMapAppend(Contribution(tag), stream, [last]);
    assert FlatMap(Contribution(tag), [last]) ==
           Contribution(tag)(last) + FlatMap(Contribution(tag), []);
  }

  /** The receive loop (main.go:92-99): a left fold of AddPackage over the
      descriptors in arrival order, starting from the empty map. Every
      bucket holds exactly its reference content. */
  function Aggregate(stream: seq<Package>): (r: TagIndex)
    ensures WellFormed(r)
    ensures forall t :: Bucket(r, t) == Expected(stream, t)
  {
    if |stream| == 0 then TagIndex([], map[])
    else
      var n := |stream| - 1;
      var last := stream[n];
      var prev := Aggregate(stream[..n]);
      var r := AddPackage(prev, last.allTags, last.importPath);
      assert stream == stream[..n] + [last];
      forall t
        ensures Bucket(r, t) == Expected(stream, t)
      {
        ExpectedSnoc(stream[..n], last, t);
      }
      r
  }

  /** A descriptor contributes `p` to the bucket of `t` iff its import
      path is `p` and it mentions `t`. */
  lemma {:induction false} ContributionMember(t: string, d: Package, p: string)
    ensures p in Contribution(t)(d) <==> p == d.importPath && t in d.allTags
  {
    if p == d.importPath && t in d.allTags {
      assert Contribution(t)(d)[0] == p;
    }
  }

  /** Path `p` is in the bucket of `t` exactly when some received descriptor
      has import path `p` and mentions `t`. */
  lemma {:induction false} AggregateMembership(stream: seq<Package>, t: string, p: string)
    ensures p in Bucket(Aggregate(stream), t) <==>
            exists d :: d in stream && d.importPath == p && t in d.allTags
  {
    FlatMapMember(Contribution(t), stream, p);
    if exists d :: d in stream && d.importPath == p && t in d.allTags {
      var d :| d in stream && d.importPath == p && t in d.allTags;
      var k :| 0 <= k < |stream| && stream[k] == d;
      ContributionMember(t, stream[k], p);
    }
    if p in Bucket(Aggregate(stream), t) {
      var k :| 0 <= k < |stream| && p in Contribution(t)(stream[k]);
      ContributionMember(t, stream[k], p);
    }
  }

  /** `t` is a key exactly when some received descriptor mentions it. */
  lemma {:induction false} AggregateKeys(stream: seq<Package>, t: string)
    ensures t in Aggregate(stream).buckets <==> exists d :: d in stream && t in d.allTags
  {
    var idx := Aggregate(stream);
    if exists d :: d in stream && t in d.allTags {
      var d :| d in stream && t in d.allTags;
      AggregateMembership(stream, t, d.importPath);
    }
    if t in idx.buckets {
      var q := idx.buckets[t][0];
      AggregateMembership(stream, t, q);
    }
  }

  /** The descriptors that mention `tag`. */
  function Holders(stream: seq<Package>, tag: string): seq<Package>
  {
    FlatMap((d: Package) => if tag in d.allTags then [d] else [], stream)
  }

  /** The paths of the received descriptors, in arrival order. */
  function ImportPaths(stream: seq<Package>): seq<string>
  {
    FlatMap((d: Package) => [d.importPath], stream)
  }

  /** Each descriptor's tags are free of repeats (as `AllTags` is). */
  predicate TagsDistinct(stream: seq<Package>)
  {
    forall k :: 0 <= k < |stream| ==> Distinct(stream[k].allTags)
  }

  /** The loop never de-duplicates a bucket; its length counts the
      descriptors mentioning the tag, provided no descriptor repeats a tag. */
  lemma {:induction false} BucketLength(stream: seq<Package>, tag: string)
    requires TagsDistinct(stream)
    ensures |Bucket(Aggregate(stream), tag)| == |Holders(stream, tag)|
  {
    ExpectedLength(stream, tag);
  }

  lemma {:induction false} ExpectedLength(stream: seq<Package>, tag: string)
    requires TagsDistinct(stream)
    ensures |Expected(stream, tag)| == |Holders(stream, tag)|
  {
    if |stream| > 0 {
      var d := stream[0];
      ExpectedLength(stream[1..], tag);
      Sorting.DistinctMultiplicity(d.allTags, tag);
    }
  }

  /** Buckets are duplicate-free when the received import paths are
      distinct and no descriptor repeats a tag. */
  lemma {:induction false} BucketDistinct(stream: seq<Package>, tag: string)
    requires TagsDistinct(stream)
    requires Distinct(ImportPaths(stream))
    ensures Distinct(Bucket(Aggregate(stream), tag))
  {
    ExpectedDistinct(stream, tag);
  }

  lemma {:induction false} ExpectedDistinct(stream: seq<Package>, tag: string)
    requires TagsDistinct(stream)
    requires Distinct(ImportPaths(stream))
    ensures Distinct(Expected(stream, tag))
  {
    if |stream| > 0 {
      var d := stream[0];
      var paths := ImportPaths(stream);
      assert paths == [d.importPath] + ImportPaths(stream[1..]);
      assert Distinct(ImportPaths(stream[1..])) by {
        forall i, j | 0 <= i < j < |ImportPaths(stream[1..])|
          ensures ImportPaths(stream[1..])[i] != ImportPaths(stream[1..])[j]
        {
          assert paths[i + 1] == ImportPaths(stream[1..])[i];
          assert paths[j + 1] == ImportPaths(stream[1..])[j];
        }
      }
      ExpectedDistinct(stream[1..], tag);
      Sorting.DistinctMultiplicity(d.allTags, tag);
      var head := Contribution(tag)(d);
      var rest := Expected(stream[1..], tag);
      forall q | q in rest
        ensures q != d.importPath
      {
        FlatMapMember(Contribution(tag), stream[1..], q);
        var k :| 0 <= k < |stream[1..]| && q in Contribution(tag)(stream[1..][k]);
        var c := Contribution(tag)(stream[1..][k]);
        var i :| 0 <= i < |c| && c[i] == q;
        assert q == stream[1..][k].importPath;
        FlatMapMember((e: Package) => [e.importPath], stream[1..], q);
        assert q in ((e: Package) => [e.importPath])(stream[1..][k]);
        assert q in ImportPaths(stream[1..]);
        var j :| 0 <= j < |ImportPaths(stream[1..])| && ImportPaths(stream[1..])[j] == q;
        assert paths[j + 1] == q;
        assert paths[0] == d.importPath;
        assert paths[0] != paths[j + 1];
      }
      assert Expected(stream, tag) == head + rest;
      assert |head| <= 1;
      DistinctConcat(head, rest);
    }
  }

  /** One line group of the report: a tag and its sorted bucket. */
  datatype Entry = Entry(tag: string, paths: seq<string>)

  /** The tags of a report, in report order. */
  function TagsOf(entries: seq<Entry>): (r: seq<string>)
    ensures |r| == |entries|
    ensures forall k :: 0 <= k < |r| ==> r[k] == entries[k].tag
  {
    if |entries| == 0 then [] else [entries[0].tag] + TagsOf(entries[1..])
  }

  /** Pairs each of `tags` with its sorted bucket (main.go:108-111). */
  function Entries(idx: TagIndex, tags: seq<string>): seq<Entry>
    requires forall k :: 0 <= k < |tags| ==> tags[k] in idx.buckets
  {
    seq(|tags|, k requires 0 <= k < |tags| => Entry(tags[k], Sort(idx.buckets[tags[k]])))
  }

  /** The report (main.go:101-115): the tags in increasing order, each with
      its bucket sorted. */
  function Report(idx: TagIndex): (r: seq<Entry>)
    requires WellFormed(idx)
    ensures StrictlySorted(TagsOf(r))
    ensures forall t :: t in TagsOf(r) <==> t in idx.buckets
    ensures forall k :: 0 <= k < |r| ==>
              && r[k].tag in idx.buckets
              && Sorted(r[k].paths)
              && |r[k].paths| > 0
              && multiset(r[k].paths) == multiset(idx.buckets[r[k].tag])
  {
    SortDistinct(idx.tags);
    ReportTags(idx, Sort(idx.tags));
    ReportBuckets(idx, Sort(idx.tags));
    Entries(idx, Sort(idx.tags))
  }

  lemma {:induction false} ReportTags(idx: TagIndex, tags: seq<string>)
    requires forall k :: 0 <= k < |tags| ==> tags[k] in idx.buckets
    ensures TagsOf(Entries(idx, tags)) == tags
  {
  }

  lemma {:induction false} ReportBuckets(idx: TagIndex, tags: seq<string>)
    requires WellFormed(idx)
    requires forall k :: 0 <= k < |tags| ==> tags[k] in idx.buckets
    ensures forall k :: 0 <= k < |tags| ==>
              && Entries(idx, tags)[k].tag in idx.buckets
              && Sorted(Entries(idx, tags)[k].paths)
              && |Entries(idx, tags)[k].paths| > 0
              && multiset(Entries(idx, tags)[k].paths) == multiset(idx.buckets[Entries(idx, tags)[k].tag])
  {
    var r := Entries(idx, tags);
    forall k | 0 <= k < |r|
      ensures |r[k].paths| > 0
    {
      assert |multiset(r[k].paths)| == |idx.buckets[tags[k]]|;
    }
  }

  /** The report only depends on which paths each bucket holds and how
      often, never on the order they were appended in. */
  lemma {:induction false} ReportDependsOnBucketContents(a: TagIndex, b: TagIndex)
    requires WellFormed(a) && WellFormed(b)
    requires forall t :: multiset(Bucket(a, t)) == multiset(Bucket(b, t))
    ensures Report(a) == Report(b)
  {
    forall t
      ensures t in a.tags <==> t in b.tags
    {
      assert |multiset(Bucket(a, t))| == |Bucket(a, t)|;
      assert |multiset(Bucket(b, t))| == |Bucket(b, t)|;
    }
    SortedKeysUnique(a.tags, b.tags);
    var tags := Sort(a.tags);
    forall k | 0 <= k < |tags|
      ensures tags[k] in a.buckets && tags[k] in b.buckets
      ensures Sort(a.buckets[tags[k]]) == Sort(b.buckets[tags[k]])
    {
      assert tags[k] in multiset(tags);
      assert Bucket(a, tags[k]) == a.buckets[tags[k]];
      assert Bucket(b, tags[k]) == b.buckets[tags[k]];
      SortIgnoresOrder(a.buckets[tags[k]], b.buckets[tags[k]]);
    }
    EntriesAgree(a, b, tags);
  }

  /** Indexes whose buckets sort alike give the same entries. */
  lemma {:induction false} EntriesAgree(a: TagIndex, b: TagIndex, tags: seq<string>)
    requires forall k :: 0 <= k < |tags| ==> tags[k] in a.buckets && tags[k] in b.buckets
    requires forall k :: 0 <= k < |tags| ==> Sort(a.buckets[tags[k]]) == Sort(b.buckets[tags[k]])
    ensures Entries(a, tags) == Entries(b, tags)
  {
    var ea, eb := Entries(a, tags), Entries(b, tags);
    forall k | 0 <= k < |ea|
      ensures ea[k] == eb[k]
    {
    }
  }

  /** A tag is reported exactly when a received descriptor mentions it. */
  lemma {:induction false} ReportedTags(stream: seq<Package>, t: string)
    ensures t in TagsOf(Report(Aggregate(stream))) <==> exists d :: d in stream && t in d.allTags
  {
    AggregateKeys(stream, t);
  }

  /** Under each reported tag, a path is listed exactly when a received
      descriptor with that import path mentions the tag. */
  lemma {:induction false} ReportedPaths(stream: seq<Package>, p: string)
    ensures var r := Report(Aggregate(stream));
            forall e :: e in r ==>
              (p in e.paths <==> exists d :: d in stream && d.importPath == p && e.tag in d.allTags)
  {
    var idx := Aggregate(stream);
    var r := Report(idx);
    forall e | e in r
      ensures p in e.paths <==> exists d :: d in stream && d.importPath == p && e.tag in d.allTags
    {
      ReportEntry(idx, e);
      AggregateMembership(stream, e.tag, p);
      assert p in e.paths <==> p in multiset(Bucket(idx, e.tag));
    }
  }

  /** A reported entry holds the bucket of its tag, reordered. */
  lemma {:induction false} ReportEntry(idx: TagIndex, e: Entry)
    requires WellFormed(idx) && e in Report(idx)
    ensures e.tag in idx.buckets && multiset(e.paths) == multiset(Bucket(idx, e.tag))
  {
    var k :| 0 <= k < |Report(idx)| && Report(idx)[k] == e;
  }

  /** The reported index is the same for every arrival order of the
      descriptors: this is what makes the unordered fan-in safe. */
  lemma {:induction false} ReportIgnoresArrivalOrder(s1: seq<Package>, s2: seq<Package>)
    requires multiset(s1) == multiset(s2)
    ensures Report(Aggregate(s1)) == Report(Aggregate(s2))
  {
    forall t
      ensures multiset(Bucket(Aggregate(s1), t)) == multiset(Bucket(Aggregate(s2), t))
    {
      FlatMapPermutation(Contribution(t), s1, s2);
    }
    ReportDependsOnBucketContents(Aggregate(s1), Aggregate(s2));
  }
}
