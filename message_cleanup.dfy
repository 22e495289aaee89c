/**
 * The clean-up `OnMessageReceived` applies to the page's message before it is
 * parsed as JSON: trim, drop one wrapping pair of double quotes, turn every
 * backslash-escaped quote into a plain one, and turn single quotes into double
 * quotes. `None` stands for the exception thrown on a lone `"`.
 */
module MessageCleanup {
  import opened Wrappers
  import opened StringOps

  const QUOTE: string := "\""
  const ESCAPED_QUOTE: string := "\\\""
  const APOSTROPHE: string := "'"

  /**
   * `if (t.StartsWith("\"") && t.EndsWith("\"")) t = t.Substring(1, t.Length - 2)`.
   * A lone `"` both starts and ends with a quote, and `Substring(1, -1)` throws.
   */
  function StripWrappingQuotes(t: string): (r: Option<string>)
    ensures r.None? <==> t == QUOTE
    ensures 2 <= |t| && t[0] == '"' && t[|t| - 1] == '"' ==> r == Some(t[1..|t| - 1])
    ensures !(|t| >= 1 && t[0] == '"' && t[|t| - 1] == '"') ==> r == Some(t)
    ensures r.Some? ==> |r.value| <= |t|
  {
    if StartsWith(t, QUOTE) && EndsWith(t, QUOTE) then Substring(t, 1, |t| - 2) else Some(t)
  }

  /** `.Replace("\\\"", "\"").Replace("'", "\"")`: unescape quotes, then turn single quotes double. */
  function Unescape(unwrapped: string): (r: string)
    ensures '\'' !in r
    ensures |r| <= |unwrapped|
  {
    var unescaped := ReplaceAll(unwrapped, ESCAPED_QUOTE, QUOTE);
    assert |APOSTROPHE| == 1 && APOSTROPHE[0] == '\'' && '\'' !in QUOTE;
    ReplaceAll(unescaped, APOSTROPHE, QUOTE)
  }

  /** The whole clean-up chain; `None` when it throws. */
  function Clean(message: string): (r: Option<string>)
    ensures r.None? <==> Trim(message) == QUOTE
    ensures r.Some? ==> '\'' !in r.value
    ensures r.Some? ==> |r.value| <= |message|
  {
    var trimmed := Trim(message);
    match StripWrappingQuotes(trimmed)
    case None => None
    case Some(unwrapped) =>
      assert |unwrapped| <= |trimmed| <= |message|;
      Some(Unescape(unwrapped))
  }

  /** A message that needs no clean-up passes through unchanged. */
  lemma CleanKeepsCleanMessage(message: string)
    requires message == [] || (!IsWhite(message[0]) && !IsWhite(message[|message| - 1]))
    requires message == [] || message[0] != '"'
    requires '\\' !in message && '\'' !in message
    ensures Clean(message) == Some(message)
  {
    TrimLeavesTrimmed(message);
    ReplaceAllWithoutFirstChar(message, ESCAPED_QUOTE, QUOTE);
    ReplaceAllWithoutFirstChar(message, APOSTROPHE, QUOTE);
  }

  /** One plain segment followed by an escaped quote, replaced in one go. */
  lemma UnescapeStep(plain: string, rest: string)
    requires '\\' !in plain
    ensures ReplaceAll(plain + (ESCAPED_QUOTE + rest), ESCAPED_QUOTE, QUOTE)
         == plain + (QUOTE + ReplaceAll(rest, ESCAPED_QUOTE, QUOTE))
  {
    ReplaceAllAfterPlainPrefix(plain, ESCAPED_QUOTE + rest, ESCAPED_QUOTE, QUOTE);
    ReplaceAllAfterMatch(rest, ESCAPED_QUOTE, QUOTE);
  }

  /** `parts` written one after another with `sep` between neighbours. */
  function Join(parts: seq<string>, sep: string): string
    decreases |parts|
  {
    if |parts| == 0 then [] else if |parts| == 1 then parts[0] else parts[0] + (sep + Join(parts[1..], sep))
  }

  /**
   * Text made of backslash-free pieces separated by escaped quotes unescapes to
   * the same pieces separated by plain quotes.
   */
  lemma {:induction false} UnescapeJoin(parts: seq<string>)
    requires |parts| >= 1
    requires forall k :: 0 <= k < |parts| ==> '\\' !in parts[k]
    ensures ReplaceAll(Join(parts, ESCAPED_QUOTE), ESCAPED_QUOTE, QUOTE) == Join(parts, QUOTE)
    decreases |parts|
  {
    if |parts| == 1 {
      ReplaceAllWithoutFirstChar(parts[0], ESCAPED_QUOTE, QUOTE);
    } else {
      UnescapeJoin(parts[1..]);
      UnescapeStep(parts[0], Join(parts[1..], ESCAPED_QUOTE));
    }
  }

  /** A character in none of the pieces nor in the separator is not in their join. */
  lemma {:induction false} JoinAvoids(parts: seq<string>, sep: string, c: char)
    requires c !in sep
    requires forall k :: 0 <= k < |parts| ==> c !in parts[k]
    ensures c !in Join(parts, sep)
    decreases |parts|
  {
    if |parts| > 1 {
      JoinAvoids(parts[1..], sep, c);
    }
  }

  /**
   * A quoted message whose inner quotes are escaped cleans to the pieces joined
   * by plain quotes (pieces without backslashes or single quotes).
   */
  lemma CleanWrapped(message: string, parts: seq<string>)
    requires |parts| >= 1
    requires forall k :: 0 <= k < |parts| ==> '\\' !in parts[k] && '\'' !in parts[k]
    requires message == QUOTE + Join(parts, ESCAPED_QUOTE) + QUOTE
    ensures Clean(message) == Some(Join(parts, QUOTE))
  {
    TrimLeavesTrimmed(message);
    assert message[1..|message| - 1] == Join(parts, ESCAPED_QUOTE);
    UnescapeJoin(parts);
    JoinAvoids(parts, QUOTE, '\'');
    ReplaceAllWithoutFirstChar(Join(parts, QUOTE), APOSTROPHE, QUOTE);
  }

  /** `Join` of a piece in front of at least one more. */
  lemma JoinCons(x: string, rest: seq<string>, sep: string)
    requires |rest| >= 1
    ensures Join([x] + rest, sep) == x + (sep + Join(rest, sep))
  {
    assert ([x] + rest)[1..] == rest;
  }

  /** Joining seven pieces, spelled out. */
  lemma JoinSeven(parts: seq<string>, sep: string)
    requires |parts| == 7
    ensures Join(parts, sep) == parts[0] + (sep + (parts[1] + (sep + (parts[2] + (sep + (parts[3] + (sep + (parts[4] + (sep + (parts[5] + (sep + parts[6])))))))))))
  {
    assert parts[6..] == [parts[6]];
    JoinCons(parts[5], parts[6..], sep);
    assert parts[5..] == [parts[5]] + parts[6..];
    JoinCons(parts[4], parts[5..], sep);
    assert parts[4..] == [parts[4]] + parts[5..];
    JoinCons(parts[3], parts[4..], sep);
    assert parts[3..] == [parts[3]] + parts[4..];
    JoinCons(parts[2], parts[3..], sep);
    assert parts[2..] == [parts[2]] + parts[3..];
    JoinCons(parts[1], parts[2..], sep);
    assert parts[1..] == [parts[1]] + parts[2..];
    JoinCons(parts[0], parts[1..], sep);
    assert parts == [parts[0]] + parts[1..];
  }

  /*
   * In the lemmas below the separators and the pieces are parameters fixed by
   * the preconditions: this keeps the verifier from evaluating `Join` and
   * `Clean` symbol by symbol over the whole literal, which costs far more than
   * the proofs themselves.
   */

  lemma EscapedPayloadText(sep: string)
    requires sep == ESCAPED_QUOTE
    ensures "{" + (sep + ("type" + (sep + (":" + (sep + ("LOAD_MODEL" + (sep + ("," + (sep + ("id" + (sep + ":5}"))))))))))) == "{\\\"type\\\":\\\"LOAD_MODEL\\\",\\\"id\\\":5}"
  {
  }

  lemma PlainPayloadText(sep: string)
    requires sep == QUOTE
    ensures "{" + (sep + ("type" + (sep + (":" + (sep + ("LOAD_MODEL" + (sep + ("," + (sep + ("id" + (sep + ":5}"))))))))))) == "{\"type\":\"LOAD_MODEL\",\"id\":5}"
  {
  }

  /** Joined by escaped quotes, the pieces are the text between the wrapping quotes of the payload as sent. */
  lemma PayloadAsSent(parts: seq<string>, sep: string)
    requires parts == ["{", "type", ":", "LOAD_MODEL", ",", "id", ":5}"] && sep == ESCAPED_QUOTE
    ensures Join(parts, sep) == "{\\\"type\\\":\\\"LOAD_MODEL\\\",\\\"id\\\":5}"
  {
    JoinSeven(parts, sep);
    EscapedPayloadText(sep);
  }

  /** Joined by plain quotes, the pieces are the intended JSON. */
  lemma PayloadAsIntended(parts: seq<string>, sep: string)
    requires parts == ["{", "type", ":", "LOAD_MODEL", ",", "id", ":5}"] && sep == QUOTE
    ensures Join(parts, sep) == "{\"type\":\"LOAD_MODEL\",\"id\":5}"
  {
    JoinSeven(parts, sep);
    PlainPayloadText(sep);
  }

  /**
   * The payload as sent cleans to the payload as intended; with the two lemmas
   * above this is `"{\"type\":\"LOAD_MODEL\",\"id\":5}"` cleaning to
   * `{"type":"LOAD_MODEL","id":5}`. The pieces are a parameter so that the
   * proof goes through them rather than unfolding the clean-up over the literal.
   */
  lemma CleanWrappedPayload(parts: seq<string>)
    requires parts == ["{", "type", ":", "LOAD_MODEL", ",", "id", ":5}"]
    ensures Clean(QUOTE + Join(parts, ESCAPED_QUOTE) + QUOTE) == Some(Join(parts, QUOTE))
  {
    CleanWrapped(QUOTE + Join(parts, ESCAPED_QUOTE) + QUOTE, parts);
  }

  /** `CleanPayload`, with the pieces as a parameter. */
  lemma CleanPayloadFromPieces(message: string, parts: seq<string>)
    requires message == "\"{\\\"type\\\":\\\"LOAD_MODEL\\\",\\\"id\\\":5}\""
    requires parts == ["{", "type", ":", "LOAD_MODEL", ",", "id", ":5}"]
    ensures Clean(message) == Some("{\"type\":\"LOAD_MODEL\",\"id\":5}")
  {
    PayloadAsSent(parts, ESCAPED_QUOTE);
    PayloadAsIntended(parts, QUOTE);
    assert message == QUOTE + Join(parts, ESCAPED_QUOTE) + QUOTE;
    CleanWrappedPayload(parts);
  }

  /**
   * The page's payload `"{\"type\":\"LOAD_MODEL\",\"id\":5}"` cleans to
   * `{"type":"LOAD_MODEL","id":5}`.
   */
  lemma CleanPayload()
    ensures Clean("\"{\\\"type\\\":\\\"LOAD_MODEL\\\",\\\"id\\\":5}\"") == Some("{\"type\":\"LOAD_MODEL\",\"id\":5}")
  {
    CleanPayloadFromPieces("\"{\\\"type\\\":\\\"LOAD_MODEL\\\",\\\"id\\\":5}\"", ["{", "type", ":", "LOAD_MODEL", ",", "id", ":5}"]);
  }
}
