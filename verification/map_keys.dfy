/** The key set of a Go map, held as a duplicate-free sequence in
    first-insertion order. Go leaves the iteration order of a map
    unspecified; the code only ever sorts what it enumerates, and
    `Sorting.SortedKeysUnique` shows that the sorted result is the same for
    every enumeration order, so the insertion order is as good as any. */
module MapKeys {
  import opened StringOrder

  /** `m[x] = ...` on the key set: a new key is added once, an existing key
      changes nothing. */
  function AddKey(keys: seq<string>, x: string): (r: seq<string>)
    requires Distinct(keys)
    ensures Distinct(r)
    ensures forall y :: y in r <==> y in keys || y == x
  {
    if x in keys then keys else keys + [x]
  }

  /** Adds every element of `xs`, in order. */
  function AddKeys(keys: seq<string>, xs: seq<string>): (r: seq<string>)
    requires Distinct(keys)
    ensures Distinct(r)
    ensures forall y :: y in r <==> y in keys || y in xs
    decreases |xs|
  {
    if |xs| == 0 then keys
    else
      var r := AddKeys(AddKey(keys, xs[0]), xs[1..]);
      assert forall y :: y in xs <==> y == xs[0] || y in xs[1..];
      r
  }
}
