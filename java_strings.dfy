/** The few `java.lang.String` operations the parser relies on, written out on
    `seq<char>`: `trim().isEmpty()`, `indexOf`, and `split` with a separator
    that contains no regular-expression metacharacter. */
module JavaStrings {
  import opened Collections

  /** No character of `s` is a space (U+0020). Java identifiers and qualified
      names never hold one, though they may hold the identifier-ignorable
      control characters below U+0020. */
  predicate IsToken(s: string)
  {
    forall i :: 0 <= i < |s| ==> s[i] != ' '
  }

  /** The characters that `String.trim()` drops from the front. */
  function TrimStart(s: string): (r: string)
    ensures |r| <= |s| && r == s[|s| - |r|..]
    ensures forall i :: 0 <= i < |s| - |r| ==> s[i] <= ' '
    ensures r == [] || ' ' < r[0]
    decreases |s|
  {
    if |s| > 0 && s[0] <= ' ' then TrimStart(s[1..]) else s
  }

  /** The characters that `String.trim()` drops from the back. */
  function TrimEnd(s: string): (r: string)
    ensures r <= s
    ensures forall i :: |r| <= i < |s| ==> s[i] <= ' '
    ensures r == [] || ' ' < r[|r| - 1]
    decreases |s|
  {
    if |s| > 0 && s[|s| - 1] <= ' ' then TrimEnd(s[..|s| - 1]) else s
  }

  /** `String.trim()`. */
  function Trim(s: string): (r: string)
    ensures |r| <= |s|
    ensures r == [] || (' ' < r[0] && ' ' < r[|r| - 1])
  {
    TrimEnd(TrimStart(s))
  }

  /** `s.trim().isEmpty()`. */
  predicate IsBlank(s: string)
  {
    |Trim(s)| == 0
  }

  /** A string is blank exactly when it has no character above U+0020. */
  lemma BlankIffNoVisibleChar(s: string)
    ensures IsBlank(s) <==> forall i :: 0 <= i < |s| ==> s[i] <= ' '
  {
    var t := TrimStart(s);
    assert t == [] || t[0] == s[|s| - |t|];
    var e := TrimEnd(t);
    assert forall i :: |s| - |t| <= i < |s| ==> s[i] == t[i - (|s| - |t|)];
  }

  /** `sep` occurs in `s` starting at index `i`. */
  predicate OccursAt(s: string, sep: string, i: nat)
  {
    i + |sep| <= |s| && s[i..i + |sep|] == sep
  }

  /** `s.indexOf(sep, from)`: the leftmost occurrence at or after `from`. */
  function IndexFrom(s: string, sep: string, from: nat): (r: Option<nat>)
    requires |sep| > 0 && from <= |s|
    ensures r.Some? ==> from <= r.value && OccursAt(s, sep, r.value)
    ensures r.Some? ==> forall k :: from <= k < r.value ==> !OccursAt(s, sep, k)
    ensures r.None? ==> forall k :: from <= k <= |s| ==> !OccursAt(s, sep, k)
    decreases |s| - from
  {
    if from + |sep| > |s| then None
    else if OccursAt(s, sep, from) then Some(from)
    else IndexFrom(s, sep, from + 1)
  }

  /** `s.indexOf(sep)`. */
  function IndexOf(s: string, sep: string): Option<nat>
    requires |sep| > 0
  {
    IndexFrom(s, sep, 0)
  }

  /** The pieces of `s` between the non-overlapping occurrences of `sep`, found
      left to right; empty pieces are kept. */
  function SplitAll(s: string, sep: string): (r: seq<string>)
    requires |sep| > 0
    ensures |r| >= 1
    ensures forall k :: 0 <= k < |r| ==> IndexOf(r[k], sep).None?
    decreases |s|
  {
    match IndexOf(s, sep)
    case None => [s]
    case Some(i) =>
      NoMatchBeforeFirst(s, sep, i);
      [s[..i]] + SplitAll(s[i + |sep|..], sep)
  }

  /** The text before the first occurrence of `sep` holds no occurrence. */
  lemma NoMatchBeforeFirst(s: string, sep: string, i: nat)
    requires |sep| > 0 && IndexOf(s, sep) == Some(i)
    ensures IndexOf(s[..i], sep).None?
  {
    var r := IndexFrom(s, sep, 0);
    forall k | 0 <= k <= i ensures !OccursAt(s[..i], sep, k) {
      if k + |sep| <= i {
        assert s[..i][k..k + |sep|] == s[k..k + |sep|];
        assert !OccursAt(s, sep, k);
      }
    }
    assert IndexFrom(s[..i], sep, 0).None?;
  }

  /** `String.join(sep, parts)`. */
  function Join(parts: seq<string>, sep: string): string
  {
    if |parts| == 0 then []
    else if |parts| == 1 then parts[0]
    else parts[0] + sep + Join(parts[1..], sep)
  }

  /** Splitting and joining again gives back the string. */
  lemma {:induction false} JoinSplitAll(s: string, sep: string)
    requires |sep| > 0
    ensures Join(SplitAll(s, sep), sep) == s
    decreases |s|
  {
    match IndexOf(s, sep)
    case None =>
    case Some(i) =>
      var rest := s[i + |sep|..];
      var pieces := SplitAll(rest, sep);
      JoinSplitAll(rest, sep);
      assert SplitAll(s, sep) == [s[..i]] + pieces;
      assert ([s[..i]] + pieces)[1..] == pieces;
      assert Join([s[..i]] + pieces, sep) == s[..i] + sep + Join(pieces, sep);
      assert s[i..i + |sep|] == sep;
      assert s == s[..i] + s[i..i + |sep|] + rest;
  }

  /** `parts` without its trailing empty strings. */
  function DropTrailingEmpty(parts: seq<string>): (r: seq<string>)
    ensures r <= parts
    ensures r == [] || r[|r| - 1] != []
    ensures forall k :: |r| <= k < |parts| ==> parts[k] == []
  {
    if |parts| > 0 && parts[|parts| - 1] == [] then DropTrailingEmpty(parts[..|parts| - 1])
    else parts
  }

  /** `s.split(sep)` for a separator without regular-expression metacharacters
      (limit 0): the whole string when `sep` does not occur, and otherwise the
      pieces with the trailing empty ones removed. */
  function JavaSplit(s: string, sep: string): (r: seq<string>)
    requires |sep| > 0
    ensures r <= SplitAll(s, sep)
    ensures forall k :: |r| <= k < |SplitAll(s, sep)| ==> SplitAll(s, sep)[k] == []
    ensures IndexOf(s, sep).None? ==> r == [s]
    ensures IndexOf(s, sep).Some? ==> r == [] || r[|r| - 1] != []
    ensures forall k :: 0 <= k < |r| ==> IndexOf(r[k], sep).None?
  {
    if IndexOf(s, sep).None? then [s] else DropTrailingEmpty(SplitAll(s, sep))
  }

  /** The text before the first '.', or all of `s` when it has none. */
  function FirstSegment(s: string): (r: string)
    ensures r <= s && '.' !in r
    ensures |r| < |s| ==> s[|r|] == '.'
  {
    if s == [] || s[0] == '.' then [] else [s[0]] + FirstSegment(s[1..])
  }

  /** `s.split("\\.")[0]` is the text before the first '.', whenever Java's
      `split` returns at least one piece. */
  lemma SplitOnDotFirstPiece(s: string)
    requires |JavaSplit(s, ".")| > 0
    ensures JavaSplit(s, ".")[0] == FirstSegment(s)
  {
    match IndexOf(s, ".")
    case None =>
      forall k | 0 <= k < |s| ensures s[k] != '.' {
        assert !OccursAt(s, ".", k);
        assert s[k..k + 1] == [s[k]];
      }
    case Some(i) =>
      assert s[i..i + 1] == [s[i]];
      assert SplitAll(s, ".")[0] == s[..i];
      forall k | 0 <= k < i ensures s[k] != '.' {
        assert !OccursAt(s, ".", k);
        assert s[k..k + 1] == [s[k]];
      }
  }
}
