/** Label values in the Prometheus text format (`escape` in `metrics.rs`, `escapeLabelValue` in `metrics.js`). */
module Labels {
  import opened Prelude
  import opened Escaping

  const ESCAPE_BACKSLASH := Replacement('\\', "\\\\")
  const ESCAPE_QUOTE := Replacement('"', "\\\"")
  const ESCAPE_NEWLINE := Replacement('\n', "\\n")

  /** The API replaces quotes before line breaks. */
  function ApiEscape(value: string): string {
    ReplaceThrice(value, ESCAPE_BACKSLASH, ESCAPE_QUOTE, ESCAPE_NEWLINE)
  }

  /** The indexer replaces line breaks before quotes. */
  function IndexerEscape(value: string): string {
    ReplaceThrice(value, ESCAPE_BACKSLASH, ESCAPE_NEWLINE, ESCAPE_QUOTE)
  }

  function EscapeChar(c: char): string {
    if c == '\\' then "\\\\" else if c == '"' then "\\\"" else if c == '\n' then "\\n" else [c]
  }

  /** One pass over the value. */
  function Escape(value: string): string {
    Subst(value, EscapeChar)
  }

  /** Reading an escaped value up to its closing quote: the value, and what follows the quote. */
  function Unescape(text: string): Option<(string, string)> {
    if text == "" then None
    else if text[0] == '"' then Some(("", text[1..]))
    else if text[0] == '\\' then
      if |text| == 1 then None
      else
        var rest := Unescape(text[2..]);
        if rest.None? then None else Some(([if text[1] == 'n' then '\n' else text[1]] + rest.value.0, rest.value.1))
    else
      var rest := Unescape(text[1..]);
      if rest.None? then None else Some(([text[0]] + rest.value.0, rest.value.1))
  }

  lemma EscapeOne(x: char)
    ensures ReplaceThrice([x], ESCAPE_BACKSLASH, ESCAPE_QUOTE, ESCAPE_NEWLINE) == EscapeChar(x)
    ensures ReplaceThrice([x], ESCAPE_BACKSLASH, ESCAPE_NEWLINE, ESCAPE_QUOTE) == EscapeChar(x)
  {
    ReplaceOne(x, '\\', "\\\\");
    ReplaceOne(x, '"', "\\\"");
    ReplaceOne(x, '\n', "\\n");
    ReplacePair('\\', '\\', '"', "\\\"");
    ReplacePair('\\', '\\', '\n', "\\n");
    ReplacePair('\\', '"', '\n', "\\n");
    ReplacePair('\\', 'n', '"', "\\\"");
  }

  /** The two services escape alike, and in one pass. */
  lemma EscapesAgree(value: string)
    ensures ApiEscape(value) == IndexerEscape(value) == Escape(value)
  {
    forall x: char
      ensures ReplaceThrice([x], ESCAPE_BACKSLASH, ESCAPE_QUOTE, ESCAPE_NEWLINE) == EscapeChar(x)
      ensures ReplaceThrice([x], ESCAPE_BACKSLASH, ESCAPE_NEWLINE, ESCAPE_QUOTE) == EscapeChar(x)
    {
      EscapeOne(x);
    }
    ThreePassesAreOne(value, ESCAPE_BACKSLASH, ESCAPE_QUOTE, ESCAPE_NEWLINE, EscapeChar);
    ThreePassesAreOne(value, ESCAPE_BACKSLASH, ESCAPE_NEWLINE, ESCAPE_QUOTE, EscapeChar);
  }

  /** A scraper reads back exactly the value, whatever follows its closing quote. */
  lemma {:induction false} UnescapeEscaped(value: string, rest: string)
    ensures Unescape(Escape(value) + "\"" + rest) == Some((value, rest))
  {
    if value == "" {
      assert Escape(value) + "\"" + rest == "\"" + rest;
    } else {
      var c, tail := value[0], Escape(value[1..]) + "\"" + rest;
      UnescapeEscaped(value[1..], rest);
      var text := Escape(value) + "\"" + rest;
      assert text == EscapeChar(c) + tail;
      assert text[|EscapeChar(c)|..] == tail;
      assert [c] + value[1..] == value;
    }
  }

  /** The API's labels round-trip too. */
  lemma ApiLabelRoundTrip(value: string, rest: string)
    ensures Unescape(ApiEscape(value) + "\"" + rest) == Some((value, rest))
    ensures Unescape(IndexerEscape(value) + "\"" + rest) == Some((value, rest))
  {
    EscapesAgree(value);
    UnescapeEscaped(value, rest);
  }

  // ----- Series keys -----

  /** The key a series of the indexer is kept under: `name="value"`, separated by commas. */
  function LabelKey(names: seq<string>, values: seq<string>): string
    requires |names| == |values|
  {
    if names == [] then ""
    else
      names[0] + "=\"" + (IndexerEscape(values[0]) + "\"" +
      if |names| == 1 then "" else "," + LabelKey(names[1..], values[1..]))
  }

  /** Two label sets of one metric share a series exactly when they have the same values. */
  lemma {:induction false} SeriesKeyIsInjective(names: seq<string>, a: seq<string>, b: seq<string>)
    requires |names| == |a| == |b|
    ensures LabelKey(names, a) == LabelKey(names, b) <==> a == b
  {
    if names != [] && LabelKey(names, a) == LabelKey(names, b) {
      var head := names[0] + "=\"";
      var endA := if |names| == 1 then "" else "," + LabelKey(names[1..], a[1..]);
      var endB := if |names| == 1 then "" else "," + LabelKey(names[1..], b[1..]);
      var tailA, tailB := IndexerEscape(a[0]) + "\"" + endA, IndexerEscape(b[0]) + "\"" + endB;
      assert (head + tailA)[|head|..] == tailA && (head + tailB)[|head|..] == tailB;
      ApiLabelRoundTrip(a[0], endA);
      ApiLabelRoundTrip(b[0], endB);
      if |names| > 1 {
        assert endA[1..] == LabelKey(names[1..], a[1..]) && endB[1..] == LabelKey(names[1..], b[1..]);
        SeriesKeyIsInjective(names[1..], a[1..], b[1..]);
      }
      assert a == [a[0]] + a[1..] && b == [b[0]] + b[1..];
    }
  }

  lemma {:induction false} EscapedHasNoBreak(value: string)
    ensures '\n' !in Escape(value)
  {
    if value != "" {
      EscapedHasNoBreak(value[1..]);
    }
  }

  /** An escaped value stays on its line. */
  lemma EscapedIsOneLine(value: string)
    ensures '\n' !in ApiEscape(value) && '\n' !in IndexerEscape(value)
  {
    EscapesAgree(value);
    EscapedHasNoBreak(value);
  }
}
