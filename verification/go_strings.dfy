/** The two string helpers the package-list step relies on:
    `strings.TrimSpace` and `strings.Split` with a one-character separator. */
module GoStrings {

  /** Go's `unicode.IsSpace`: the Latin-1 white space characters
      ('\t', '\n', '\v', '\f', '\r', ' ', U+0085, U+00A0) and, beyond
      Latin-1, the characters with the Unicode White_Space property. */
  predicate IsSpace(c: char)
  {
    || c == '\t' || c == '\n' || c == '\U{000B}' || c == '\U{000C}'
    || c == '\r' || c == ' ' || c == '\U{0085}' || c == '\U{00A0}'
    || c == '\U{1680}' || ('\U{2000}' <= c <= '\U{200A}')
    || c == '\U{2028}' || c == '\U{2029}' || c == '\U{202F}'
    || c == '\U{205F}' || c == '\U{3000}'
  }

  predicate AllSpace(s: string)
  {
    forall k :: 0 <= k < |s| ==> IsSpace(s[k])
  }

  /** Neither begins nor ends with white space. */
  predicate Trimmed(s: string)
  {
    |s| == 0 || (!IsSpace(s[0]) && !IsSpace(s[|s| - 1]))
  }

  /** Length of the longest all-space prefix. */
  function LeadingSpace(s: string): (n: nat)
    ensures n <= |s|
    ensures forall k :: 0 <= k < n ==> IsSpace(s[k])
    ensures n < |s| ==> !IsSpace(s[n])
  {
    if |s| > 0 && IsSpace(s[0]) then 1 + LeadingSpace(s[1..]) else 0
  }

  /** Length of the longest all-space suffix. */
  function TrailingSpace(s: string): (n: nat)
    ensures n <= |s|
    ensures forall k :: |s| - n <= k < |s| ==> IsSpace(s[k])
    ensures n < |s| ==> !IsSpace(s[|s| - n - 1])
  {
    if |s| > 0 && IsSpace(s[|s| - 1]) then 1 + TrailingSpace(s[..|s| - 1]) else 0
  }

  /** `strings.TrimSpace`: `s` with leading and trailing white space removed. */
  function TrimSpace(s: string): (r: string)
    ensures Trimmed(r)
    ensures exists i :: 0 <= i <= |s| - |r| && r == s[i..i + |r|]
                        && AllSpace(s[..i]) && AllSpace(s[i + |r|..])
  {
    var i := LeadingSpace(s);
    var t := s[i..];
    var n := TrailingSpace(t);
    var r := t[..|t| - n];
    assert r == s[i..i + |r|];
    assert AllSpace(s[..i]);
    assert s[i + |r|..] == t[|t| - n..];
    assert AllSpace(s[i + |r|..]);
    r
  }

  /** The first non-space index determines LeadingSpace. */
  lemma {:induction false} LeadingSpaceUnique(s: string, n: nat)
    requires n <= |s|
    requires forall k :: 0 <= k < n ==> IsSpace(s[k])
    requires n < |s| ==> !IsSpace(s[n])
    ensures LeadingSpace(s) == n
  {
  }

  /** The last non-space index determines TrailingSpace. */
  lemma {:induction false} TrailingSpaceUnique(s: string, n: nat)
    requires n <= |s|
    requires forall k :: |s| - n <= k < |s| ==> IsSpace(s[k])
    requires n < |s| ==> !IsSpace(s[|s| - n - 1])
    ensures TrailingSpace(s) == n
  {
  }

  /** TrimSpace removes exactly the white space around a trimmed core, and
      nothing else: this characterises its result independently of how it
      is computed. */
  lemma {:induction false} TrimSpaceExact(pre: string, m: string, suf: string)
    requires AllSpace(pre) && AllSpace(suf) && Trimmed(m)
    ensures TrimSpace(pre + m + suf) == m
  {
    var s := pre + m + suf;
    if |m| > 0 {
      assert s[..|pre|] == pre && s[|pre|] == m[0];
      LeadingSpaceUnique(s, |pre|);
      var t := s[|pre|..];
      assert t == m + suf;
      assert t[|t| - |suf|..] == suf && t[|t| - |suf| - 1] == m[|m| - 1];
      TrailingSpaceUnique(t, |suf|);
      assert t[..|t| - |suf|] == m;
    } else {
      assert s == pre + suf;
      assert s[..|s|] == s;
      LeadingSpaceUnique(s, |s|);
      assert s[|s|..] == "";
    }
  }

  /** Trimming twice is the same as trimming once. */
  lemma {:induction false} TrimSpaceIdempotent(s: string)
    ensures TrimSpace(TrimSpace(s)) == TrimSpace(s)
  {
    var r := TrimSpace(s);
    assert "" + r + "" == r;
    TrimSpaceExact("", r, "");
  }

  /** `strings.Join` with a one-character separator. */
  function Join(parts: seq<string>, sep: char): string
  {
    if |parts| == 0 then ""
    else if |parts| == 1 then parts[0]
    else parts[0] + [sep] + Join(parts[1..], sep)
  }

  /** `strings.Split(s, sep)` for a one-character separator: the pieces
      between separators, always at least one (the empty string splits
      into [""]). */
  function Split(s: string, sep: char): (r: seq<string>)
    ensures |r| > 0
    ensures forall k :: 0 <= k < |r| ==> sep !in r[k]
    ensures Join(r, sep) == s
  {
    if |s| == 0 then [""]
    else
      var rest := Split(s[1..], sep);
      if s[0] == sep then
        assert s == [sep] + s[1..];
        [""] + rest
      else
        var r := [[s[0]] + rest[0]] + rest[1..];
        assert r[1..] == rest[1..];
        assert s == [s[0]] + s[1..];
        r
  }

  predicate NoSeparator(parts: seq<string>, sep: char)
  {
    forall k :: 0 <= k < |parts| ==> sep !in parts[k]
  }

  /** Joining is injective on non-empty lists of separator-free pieces. */
  lemma {:induction false} JoinInjective(p: seq<string>, q: seq<string>, sep: char)
    requires |p| > 0 && |q| > 0
    requires NoSeparator(p, sep) && NoSeparator(q, sep)
    requires Join(p, sep) == Join(q, sep)
    ensures p == q
  {
    var s := Join(p, sep);
    assert |p| > 1 ==> s[|p[0]|] == sep && sep in s;
    assert |q| > 1 ==> s[|q[0]|] == sep && sep in s;
    if |p| > 1 && |q| > 1 {
      var a, b := p[0], q[0];
      assert forall k :: 0 <= k < |a| ==> s[k] == a[k];
      assert forall k :: 0 <= k < |b| ==> s[k] == b[k];
      assert s[|a|] == sep && s[|b|] == sep;
      assert a == s[..|a|] == b;
      assert Join(p[1..], sep) == s[|a| + 1..] == Join(q[1..], sep);
      JoinInjective(p[1..], q[1..], sep);
      assert p == [a] + p[1..] && q == [b] + q[1..];
    }
  }

  /** Splitting undoes joining separator-free pieces. */
  lemma {:induction false} SplitJoin(parts: seq<string>, sep: char)
    requires |parts| > 0 && NoSeparator(parts, sep)
    ensures Split(Join(parts, sep), sep) == parts
  {
    JoinInjective(Split(Join(parts, sep), sep), parts, sep);
  }

  /** The paths listed in one resolver output (main.go:37): the trimmed
      output split into lines. */
  function Lines(output: string): (r: seq<string>)
    ensures |r| > 0
    ensures forall k :: 0 <= k < |r| ==> '\n' !in r[k]
    ensures Join(r, '\n') == TrimSpace(output)
  {
    Split(TrimSpace(output), '\n')
  }

  /** Output that is empty or only white space still lists one path, the
      empty string. */
  lemma {:induction false} BlankOutputListsEmptyPath(output: string)
    requires AllSpace(output)
    ensures Lines(output) == [""]
  {
    assert output + "" + "" == output;
    TrimSpaceExact(output, "", "");
  }
}
