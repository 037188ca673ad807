/** The parts of Go's `strings` package that the proxy relies on, modelled on
    `seq<char>`: prefix and suffix tests, `strings.Index`, `strings.Replace`
    with a count of one, `strings.Count` for a single character and
    `strings.Split` around a single-character separator. */
module GoStrings {

  datatype Option<T> = None | Some(value: T)

  /** `strings.HasPrefix(s, p)`. */
  predicate HasPrefix(s: string, p: string) {
    |p| <= |s| && s[..|p|] == p
  }

  /** `strings.HasSuffix(s, p)`: the empty string is a suffix of everything. */
  predicate HasSuffix(s: string, p: string) {
    |p| <= |s| && s[|s| - |p|..] == p
  }

  /** `pat` occurs in `s` starting at index `i`. */
  predicate OccursAt(s: string, pat: string, i: nat) {
    i + |pat| <= |s| && s[i..i + |pat|] == pat
  }

  /** `i` is the lowest index at which `pat` occurs in `s`. */
  predicate FirstOccurrence(s: string, pat: string, i: nat) {
    OccursAt(s, pat, i) && forall j: nat :: j < i ==> !OccursAt(s, pat, j)
  }

  /** The search behind `strings.Index`, started at index `from`. */
  function IndexFrom(s: string, pat: string, from: nat): (r: Option<nat>)
    requires from <= |s|
    ensures r.Some? ==> from <= r.value && OccursAt(s, pat, r.value)
    ensures r.Some? ==> forall j: nat :: from <= j < r.value ==> !OccursAt(s, pat, j)
    ensures r.None? ==> forall j: nat :: from <= j ==> !OccursAt(s, pat, j)
    decreases |s| - from
  {
    if |s| < from + |pat| then None
    else if s[from..from + |pat|] == pat then Some(from)
    else IndexFrom(s, pat, from + 1)
  }

  /** `strings.Index(s, pat)`, with `None` for Go's -1. */
  function Index(s: string, pat: string): (r: Option<nat>)
    ensures r.Some? <==> exists j: nat :: OccursAt(s, pat, j)
    ensures r.Some? ==> FirstOccurrence(s, pat, r.value)
  {
    IndexFrom(s, pat, 0)
  }

  /** `strings.Replace(s, pat, rep, 1)`: the first occurrence of `pat` is
      replaced by `rep`; without an occurrence `s` comes back unchanged.
      An empty `pat` occurs at index 0, so `rep` is then prepended. */
  function ReplaceFirst(s: string, pat: string, rep: string): (r: string)
    ensures (forall j: nat :: !OccursAt(s, pat, j)) ==> r == s
    ensures forall i: nat :: FirstOccurrence(s, pat, i) ==>
              r == s[..i] + rep + s[i + |pat|..]
  {
    match Index(s, pat)
    case None => s
    case Some(i) => s[..i] + rep + s[i + |pat|..]
  }

  /** The number of times `c` occurs in `s` (`strings.Count` on a one-character separator). */
  function Count(s: string, c: char): (n: nat)
    ensures n == 0 <==> c !in s
    ensures n <= |s|
  {
    if s == [] then 0
    else (if s[0] == c then 1 else 0) + Count(s[1..], c)
  }

  /** Joins `parts` with `sep` between consecutive parts (`strings.Join`). */
  function Join(parts: seq<string>, sep: char): string
    requires parts != []
  {
    if |parts| == 1 then parts[0] else parts[0] + [sep] + Join(parts[1..], sep)
  }

  /** `strings.Split(s, string(sep))`: the pieces of `s` between
      occurrences of `sep` (see SplitSpec). */
  function Split(s: string, sep: char): (parts: seq<string>)
  {
    if s == [] then [[]]
    else
      var rest := Split(s[1..], sep);
      if s[0] == sep then [[]] + rest
      else [[s[0]] + rest[0]] + rest[1..]
  }

  /** Split gives one more piece than there are separators, no piece holds
      the separator, and joining the pieces back gives the input. */
  lemma {:induction false} SplitSpec(s: string, sep: char)
    ensures |Split(s, sep)| == Count(s, sep) + 1
    ensures forall k :: 0 <= k < |Split(s, sep)| ==> sep !in Split(s, sep)[k]
    ensures Join(Split(s, sep), sep) == s
  {
    SplitCount(s, sep);
    SplitPieces(s, sep);
    SplitJoin(s, sep);
  }

  lemma {:induction false} SplitCount(s: string, sep: char)
    ensures |Split(s, sep)| == Count(s, sep) + 1
  {
    if s != [] {
      SplitCount(s[1..], sep);
    }
  }

  lemma {:induction false} SplitPieces(s: string, sep: char)
    ensures forall k :: 0 <= k < |Split(s, sep)| ==> sep !in Split(s, sep)[k]
  {
    if s != [] {
      SplitPieces(s[1..], sep);
      var rest := Split(s[1..], sep);
      var parts := Split(s, sep);
      if s[0] == sep {
        assert forall k :: 1 <= k < |parts| ==> parts[k] == rest[k - 1];
      } else {
        assert forall k :: 1 <= k < |parts| ==> parts[k] == rest[k];
        assert parts[0] == [s[0]] + rest[0];
      }
    }
  }

  lemma {:induction false} SplitJoin(s: string, sep: char)
    ensures Join(Split(s, sep), sep) == s
  {
    if s != [] {
      SplitJoin(s[1..], sep);
      var rest := Split(s[1..], sep);
      var parts := Split(s, sep);
      assert s == [s[0]] + s[1..];
      if s[0] == sep {
        assert parts[1..] == rest;
      } else if |rest| > 1 {
        assert parts[1..] == rest[1..];
        assert Join(rest, sep) == rest[0] + [sep] + Join(rest[1..], sep);
      }
    }
  }

  /** When the first character of `pat` does not occur in `p`, the first
      occurrence of `pat` in `p + pat + rest` is the one right after `p`. */
  lemma ReplaceFirstAfterPrefix(p: string, pat: string, rep: string, rest: string)
    requires pat != [] && pat[0] !in p
    ensures ReplaceFirst(p + pat + rest, pat, rep) == p + rep + rest
  {
    var s := p + pat + rest;
    assert s[|p|..|p| + |pat|] == pat;
    forall j: nat | j < |p| ensures !OccursAt(s, pat, j) {
      assert s[j] == p[j];
    }
    assert FirstOccurrence(s, pat, |p|);
    assert s[..|p|] == p && s[|p| + |pat|..] == rest;
  }
}
