/**
 * The .NET string operations the message cleanup relies on, over `seq<char>`:
 * `Trim`, ordinal `StartsWith`/`EndsWith` with a one-character argument,
 * `Substring(startIndex, length)` and `Replace(oldValue, newValue)`.
 */
module StringOps {
  import opened Wrappers

  /** The characters `Char.IsWhiteSpace` accepts, which `String.Trim()` removes. */
  predicate IsWhite(c: char) {
    ('\U{9}' <= c <= '\U{D}') || c == ' ' || c == '\U{85}' || c == '\U{A0}' || c == '\U{1680}'
    || ('\U{2000}' <= c <= '\U{200A}') || c == '\U{2028}' || c == '\U{2029}'
    || c == '\U{202F}' || c == '\U{205F}' || c == '\U{3000}'
  }

  /** `String.TrimStart()`: drops the leading white space. */
  function TrimStart(s: string): (r: string)
    ensures |r| <= |s| && r == s[|s| - |r|..]
    ensures r == [] || !IsWhite(r[0])
    ensures forall k :: 0 <= k < |s| - |r| ==> IsWhite(s[k])
  {
    if |s| > 0 && IsWhite(s[0]) then TrimStart(s[1..]) else s
  }

  /** `String.TrimEnd()`: drops the trailing white space. */
  function TrimEnd(s: string): (r: string)
    ensures |r| <= |s| && r == s[..|r|]
    ensures r == [] || !IsWhite(r[|r| - 1])
    ensures forall k :: |r| <= k < |s| ==> IsWhite(s[k])
  {
    if |s| > 0 && IsWhite(s[|s| - 1]) then TrimEnd(s[..|s| - 1]) else s
  }

  /**
   * `String.Trim()`: the longest slice of `s` that neither starts nor ends with
   * white space, obtained by dropping only white space on either side.
   */
  function Trim(s: string): (r: string)
    ensures |r| <= |s|
    ensures r == [] || (!IsWhite(r[0]) && !IsWhite(r[|r| - 1]))
    ensures var i := |s| - |TrimStart(s)|;
      i + |r| <= |s| && r == s[i..i + |r|]
      && (forall k :: 0 <= k < i ==> IsWhite(s[k]))
      && (forall k :: i + |r| <= k < |s| ==> IsWhite(s[k]))
  {
    TrimEnd(TrimStart(s))
  }

  /** A string that neither starts nor ends with white space is its own trim. */
  lemma TrimLeavesTrimmed(s: string)
    requires s == [] || (!IsWhite(s[0]) && !IsWhite(s[|s| - 1]))
    ensures Trim(s) == s
  {
  }

  /** Trimming twice is trimming once. */
  lemma TrimIdempotent(s: string)
    ensures Trim(Trim(s)) == Trim(s)
  {
    TrimLeavesTrimmed(Trim(s));
  }

  /** Ordinal `s.StartsWith(p)`. */
  predicate StartsWith(s: string, p: string): (b: bool)
    ensures b <==> |p| <= |s| && forall k :: 0 <= k < |p| ==> s[k] == p[k]
  {
    |p| <= |s| && s[..|p|] == p
  }

  /** Ordinal `s.EndsWith(p)`. */
  predicate EndsWith(s: string, p: string): (b: bool)
    ensures b <==> |p| <= |s| && forall k :: 0 <= k < |p| ==> s[|s| - |p| + k] == p[k]
  {
    |p| <= |s| && s[|s| - |p|..] == p
  }

  /**
   * `s.Substring(start, length)`; `None` where .NET throws
   * `ArgumentOutOfRangeException` (a negative argument, or a range past the end).
   */
  function Substring(s: string, start: int, length: int): (r: Option<string>)
    ensures r.Some? <==> 0 <= start && 0 <= length && start + length <= |s|
    ensures r.Some? ==> |r.value| == length
    ensures r.Some? ==> forall k :: 0 <= k < length ==> r.value[k] == s[start + k]
  {
    if 0 <= start && 0 <= length && start + length <= |s| then Some(s[start..start + length]) else None
  }

  /** `p` occurs in `s` starting at index `i`. */
  predicate OccursAt(s: string, p: string, i: int) {
    0 <= i && i + |p| <= |s| && s[i..i + |p|] == p
  }

  /** `p` occurs somewhere in `s`. */
  predicate Contains(s: string, p: string) {
    exists i | 0 <= i <= |s| - |p| :: OccursAt(s, p, i)
  }

  /**
   * `s.Replace(pat, rep)`: scanning left to right, every occurrence of `pat` that
   * does not overlap an earlier replaced one becomes `rep`; the replacement text
   * is not scanned again. .NET throws on an empty `pat`, which no caller passes.
   */
  function ReplaceAll(s: string, pat: string, rep: string): (r: string)
    requires pat != []
    ensures |rep| <= |pat| ==> |r| <= |s|
    ensures |pat| == 1 && pat[0] !in rep ==> pat[0] !in r
    decreases |s|
  {
    if |s| < |pat| then s
    else if s[..|pat|] == pat then rep + ReplaceAll(s[|pat|..], pat, rep)
    else [s[0]] + ReplaceAll(s[1..], pat, rep)
  }

  /** Replacing a pattern that does not occur changes nothing. */
  lemma {:induction false} ReplaceAllWithoutMatch(s: string, pat: string, rep: string)
    requires pat != [] && !Contains(s, pat)
    ensures ReplaceAll(s, pat, rep) == s
    decreases |s|
  {
    if |s| >= |pat| {
      assert s[0..|pat|] == s[..|pat|];
      assert !OccursAt(s, pat, 0);
      forall i | OccursAt(s[1..], pat, i) ensures false {
        assert s[i + 1..i + 1 + |pat|] == s[1..][i..i + |pat|];
        assert OccursAt(s, pat, i + 1);
      }
      ReplaceAllWithoutMatch(s[1..], pat, rep);
    }
  }

  /** A pattern whose first character is absent from `s` is not replaced. */
  lemma ReplaceAllWithoutFirstChar(s: string, pat: string, rep: string)
    requires pat != [] && pat[0] !in s
    ensures ReplaceAll(s, pat, rep) == s
  {
    assert !Contains(s, pat);
    ReplaceAllWithoutMatch(s, pat, rep);
  }

  /**
   * A prefix that does not contain the pattern's first character is copied,
   * and the scan carries on after it.
   */
  lemma {:induction false} ReplaceAllAfterPlainPrefix(t: string, s: string, pat: string, rep: string)
    requires pat != [] && pat[0] !in t
    ensures ReplaceAll(t + s, pat, rep) == t + ReplaceAll(s, pat, rep)
    decreases |t|
  {
    if t != [] {
      var u := t + s;
      assert u[0] == t[0];
      assert u[1..] == t[1..] + s;
      ReplaceAllAfterPlainPrefix(t[1..], s, pat, rep);
      if |u| >= |pat| {
        assert u[..|pat|][0] == t[0];
        assert ReplaceAll(u, pat, rep) == [t[0]] + ReplaceAll(t[1..] + s, pat, rep);
        assert t == [t[0]] + t[1..];
      } else {
        assert ReplaceAll(u, pat, rep) == u;
        assert ReplaceAll(s, pat, rep) == s;
      }
    } else {
      assert t + s == s;
    }
  }

  /** An occurrence at the front is replaced, and the scan carries on after it. */
  lemma ReplaceAllAfterMatch(s: string, pat: string, rep: string)
    requires pat != []
    ensures ReplaceAll(pat + s, pat, rep) == rep + ReplaceAll(s, pat, rep)
  {
    assert (pat + s)[..|pat|] == pat;
    assert (pat + s)[|pat|..] == s;
  }

  /** `s` with every `c` changed to `d`, position by position. */
  function MapChar(s: string, c: char, d: char): (r: string)
  {
    seq(|s|, k requires 0 <= k < |s| => if s[k] == c then d else s[k])
  }

  /** Replacing a one-character string by another is the character-wise map. */
  lemma {:induction false} ReplaceCharIsMap(s: string, c: char, d: char)
    ensures ReplaceAll(s, [c], [d]) == MapChar(s, c, d)
    decreases |s|
  {
    if |s| > 0 {
      ReplaceCharIsMap(s[1..], c, d);
      assert s[..1] == [s[0]];
      assert MapChar(s, c, d) == [if s[0] == c then d else s[0]] + MapChar(s[1..], c, d);
    }
  }
}
