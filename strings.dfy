/**
 * The three JavaScript string operations the indexers apply to file names:
 * `endsWith`, `replace` with a string pattern (first occurrence only) and
 * `split` on one character.
 */
module Strings {
  import opened Wrappers

  /** `s.endsWith(suffix)`. */
  predicate EndsWith(s: string, suffix: string) {
    |suffix| <= |s| && s[|s| - |suffix|..] == suffix
  }

  /** `pat` occurs in `s` starting at index `i`. */
  predicate OccursAt(s: string, pat: string, i: nat) {
    i + |pat| <= |s| && s[i..i + |pat|] == pat
  }

  /** The first index at or after `from` where `pat` occurs, if any. */
  function IndexOfFrom(s: string, pat: string, from: nat): (r: Option<nat>)
    ensures r.Some? ==> from <= r.value && OccursAt(s, pat, r.value)
    ensures forall j: nat :: from <= j && (r.None? || j < r.value) ==> !OccursAt(s, pat, j)
    decreases |s| - from
  {
    if from + |pat| > |s| then None
    else if s[from..from + |pat|] == pat then Some(from)
    else
      assert |pat| > 0;
      IndexOfFrom(s, pat, from + 1)
  }

  /** `s.indexOf(pat)`: the first occurrence of `pat` in `s`. */
  function IndexOf(s: string, pat: string): (r: Option<nat>)
    ensures r.Some? ==> OccursAt(s, pat, r.value)
    ensures forall j: nat :: (r.None? || j < r.value) ==> !OccursAt(s, pat, j)
  {
    IndexOfFrom(s, pat, 0)
  }

  /**
   * `s.replace(pat, "")`: with a string pattern JavaScript replaces only the
   * FIRST occurrence, which need not be a suffix; without one, `s` is unchanged.
   */
  function RemoveFirst(s: string, pat: string): (r: string)
    ensures IndexOf(s, pat).None? ==> r == s
    ensures IndexOf(s, pat).Some? ==>
      var i := IndexOf(s, pat).value;
      && |r| == |s| - |pat|
      && i <= |r|
      && r[..i] + pat + r[i..] == s
  {
    match IndexOf(s, pat)
    case None => s
    case Some(i) => s[..i] + s[i + |pat|..]
  }

  /** A string that ends with `pat` contains it, so one occurrence is removed. */
  lemma RemoveFirstShortens(s: string, pat: string)
    requires EndsWith(s, pat)
    ensures IndexOf(s, pat).Some?
    ensures |RemoveFirst(s, pat)| == |s| - |pat|
  {
    assert OccursAt(s, pat, |s| - |pat|);
  }

  /** When the suffix is the only occurrence, removing the first occurrence strips the suffix. */
  lemma RemoveFirstStripsSuffix(s: string, pat: string)
    requires EndsWith(s, pat)
    requires forall j: nat :: j < |s| - |pat| ==> !OccursAt(s, pat, j)
    ensures RemoveFirst(s, pat) == s[..|s| - |pat|]
  {
    assert OccursAt(s, pat, |s| - |pat|);
    var i := IndexOf(s, pat).value;
    assert i == |s| - |pat|;
  }

  /** An occurrence whose first character appears nowhere earlier is the first occurrence. */
  lemma FirstOccurrence(s: string, pat: string, i: nat)
    requires OccursAt(s, pat, i) && pat != []
    requires pat[0] !in s[..i]
    ensures IndexOf(s, pat) == Some(i)
    ensures RemoveFirst(s, pat) == s[..i] + s[i + |pat|..]
  {
    forall j: nat | j < i ensures !OccursAt(s, pat, j) {
      assert s[..i][j] == s[j];
      assert s[j..j + |pat|][0] == s[j];
    }
  }

  /** When the first character of `pat` does not occur before the suffix, the suffix is the first occurrence. */
  lemma IndexOfOnlySuffix(s: string, pat: string)
    requires EndsWith(s, pat) && pat != []
    requires pat[0] !in s[..|s| - |pat|]
    ensures IndexOf(s, pat) == Some(|s| - |pat|)
    ensures RemoveFirst(s, pat) == s[..|s| - |pat|]
  {
    FirstOccurrence(s, pat, |s| - |pat|);
    assert s[|s|..] == [];
  }

  /** The number of occurrences of `c` in `s`. */
  function Count(s: string, c: char): nat {
    if s == [] then 0 else (if s[0] == c then 1 else 0) + Count(s[1..], c)
  }

  /** `parts.join(sep)` for a non-empty list of parts. */
  function Join(parts: seq<string>, sep: char): string
    requires |parts| >= 1
  {
    if |parts| == 1 then parts[0] else parts[0] + [sep] + Join(parts[1..], sep)
  }

  /**
   * `s.split(sep)`: the maximal pieces between separators, including the
   * empty ones, so `""` gives `[""]` and `"a_"` gives `["a", ""]`.
   */
  function Split(s: string, sep: char): (parts: seq<string>)
    ensures |parts| == Count(s, sep) + 1
    ensures forall k :: 0 <= k < |parts| ==> sep !in parts[k]
    ensures Join(parts, sep) == s
  {
    if s == [] then [""]
    else
      var rest := Split(s[1..], sep);
      if s[0] == sep then
        assert [sep] + Join(rest, sep) == s;
        [""] + rest
      else
        var parts := [[s[0]] + rest[0]] + rest[1..];
        assert Join(parts, sep) == [s[0]] + Join(rest, sep) by {
          if |rest| > 1 {
            assert parts[1..] == rest[1..];
          }
        }
        parts
  }

  /** Three parts joined: the parts with one separator between each two. */
  lemma JoinThree(a: string, b: string, c: string, sep: char)
    ensures Join([a, b, c], sep) == a + [sep] + b + [sep] + c
  {
    assert [a, b, c][1..] == [b, c];
    assert [b, c][1..] == [c];
    assert Join([b, c], sep) == b + [sep] + c;
  }

  /** Splitting what `Join` built recovers the parts, when no part holds the separator. */
  lemma {:induction false} SplitJoin(parts: seq<string>, sep: char)
    requires |parts| >= 1
    requires forall k :: 0 <= k < |parts| ==> sep !in parts[k]
    ensures Split(Join(parts, sep), sep) == parts
  {
    if |parts| == 1 {
      SplitPlain(parts[0], sep);
    } else {
      SplitJoin(parts[1..], sep);
      SplitAfterPlain(parts[0], Join(parts[1..], sep), sep);
    }
  }

  /** A string without the separator splits into itself. */
  lemma {:induction false} SplitPlain(s: string, sep: char)
    requires sep !in s
    ensures Split(s, sep) == [s]
  {
    if s != [] {
      SplitPlain(s[1..], sep);
    }
  }

  /** A separator-free prefix, then the separator, becomes the first part. */
  lemma {:induction false} SplitAfterPlain(p: string, rest: string, sep: char)
    requires sep !in p
    ensures Split(p + [sep] + rest, sep) == [p] + Split(rest, sep)
  {
    if p == [] {
      assert p + [sep] + rest == [sep] + rest;
      assert ([sep] + rest)[1..] == rest;
    } else {
      var s := p + [sep] + rest;
      SplitAfterPlain(p[1..], rest, sep);
      assert s[0] == p[0] && s[0] != sep;
      assert s[1..] == p[1..] + [sep] + rest;
      var r := Split(s[1..], sep);
      assert r == [p[1..]] + Split(rest, sep);
      assert [p[0]] + r[0] == p;
      assert Split(s, sep) == [[p[0]] + r[0]] + r[1..];
    }
  }
}
