/** Substring search through SQL patterns (`like_pattern` in `analytics-api/src/graphql.rs`). */
module LikePattern {
  import opened Escaping

  const BACKSLASH: char := '\\'

  const ESCAPE_BACKSLASH := Replacement('\\', "\\\\")
  const ESCAPE_PERCENT := Replacement('%', "\\%")
  const ESCAPE_UNDERSCORE := Replacement('_', "\\_")

  /** The three replacements, one after another, between two wildcards. */
  function Pattern(value: string): string {
    "%" + ReplaceThrice(value, ESCAPE_BACKSLASH, ESCAPE_PERCENT, ESCAPE_UNDERSCORE) + "%"
  }

  function EscapeChar(c: char): string {
    if c == '\\' || c == '%' || c == '_' then [BACKSLASH, c] else [c]
  }

  /** One pass, every metacharacter behind a backslash. */
  function Escape(s: string): string {
    Subst(s, EscapeChar)
  }

  /** The order of the replacements is right: no backslash put in by one of them is escaped by another. */
  lemma ReplacementsAreOnePass(value: string)
    ensures Pattern(value) == "%" + Escape(value) + "%"
  {
    forall x: char
      ensures ReplaceThrice([x], ESCAPE_BACKSLASH, ESCAPE_PERCENT, ESCAPE_UNDERSCORE) == EscapeChar(x)
    {
      EscapeOne(x);
    }
    ThreePassesAreOne(value, ESCAPE_BACKSLASH, ESCAPE_PERCENT, ESCAPE_UNDERSCORE, EscapeChar);
  }

  lemma EscapeOne(x: char)
    ensures ReplaceThrice([x], ESCAPE_BACKSLASH, ESCAPE_PERCENT, ESCAPE_UNDERSCORE) == EscapeChar(x)
  {
    ReplaceOne(x, '\\', "\\\\");
    if x == '\\' {
      ReplacePair('\\', '\\', '%', "\\%");
      ReplacePair('\\', '\\', '_', "\\_");
    } else if x == '%' {
      ReplaceOne('%', '%', "\\%");
      ReplacePair('\\', '%', '_', "\\_");
    } else {
      ReplaceOne(x, '%', "\\%");
      ReplaceOne(x, '_', "\\_");
    }
  }

  /**
   The LIKE operator of PostgreSQL with its default escape character; `fold` is what letters are compared by: the
   identity for LIKE, lower case for ILIKE. A pattern that ends in a lone backslash is an error there, and matches
   nothing here.
   */
  predicate Matches(s: string, pattern: string, fold: char -> char)
    decreases |pattern|, |s|
  {
    if pattern == "" then s == ""
    else if pattern[0] == '%' then
      Matches(s, pattern[1..], fold) || (s != "" && Matches(s[1..], pattern, fold))
    else if pattern[0] == '_' then s != "" && Matches(s[1..], pattern[1..], fold)
    else if pattern[0] == '\\' then
      |pattern| >= 2 && s != "" && fold(s[0]) == fold(pattern[1]) && Matches(s[1..], pattern[2..], fold)
    else s != "" && fold(s[0]) == fold(pattern[0]) && Matches(s[1..], pattern[1..], fold)
  }

  /** Equal texts, letter by letter. */
  predicate SameText(a: string, b: string, fold: char -> char) {
    |a| == |b| && forall i | 0 <= i < |a| :: fold(a[i]) == fold(b[i])
  }

  /** `value` occurs in `s` at position `i`. */
  predicate OccursAt(s: string, value: string, i: nat, fold: char -> char) {
    i + |value| <= |s| && SameText(s[i..i + |value|], value, fold)
  }

  /** The escaped value matches itself and nothing else. */
  lemma {:induction false} EscapedIsLiteral(s: string, value: string, rest: string, fold: char -> char)
    ensures Matches(s, Escape(value) + rest, fold) <==>
            OccursAt(s, value, 0, fold) && Matches(s[|value|..], rest, fold)
  {
    if value == "" {
      assert Escape(value) + rest == rest;
      assert s[0..] == s;
    } else {
      var c, later := value[0], Escape(value[1..]) + rest;
      assert Escape(value) + rest == EscapeChar(c) + later;
      assert Matches(s, Escape(value) + rest, fold) <==>
             s != "" && fold(s[0]) == fold(c) && Matches(s[1..], later, fold) by {
        LiteralStep(s, c, later, fold);
      }
      if s != "" {
        EscapedIsLiteral(s[1..], value[1..], rest, fold);
        OccursStep(s, value, fold);
        assert |value| <= |s| ==> s[1..][|value[1..]|..] == s[|value|..];
      }
    }
  }

  lemma LiteralStep(s: string, c: char, later: string, fold: char -> char)
    ensures Matches(s, EscapeChar(c) + later, fold) <==> s != "" && fold(s[0]) == fold(c) && Matches(s[1..], later, fold)
  {
    var pattern := EscapeChar(c) + later;
    if |EscapeChar(c)| == 2 {
      assert pattern[0] == '\\' && pattern[1] == c && pattern[2..] == later;
    } else {
      assert pattern[0] == c && pattern[1..] == later;
    }
  }

  lemma OccursStep(s: string, value: string, fold: char -> char)
    requires s != "" && value != ""
    ensures OccursAt(s, value, 0, fold) <==> fold(s[0]) == fold(value[0]) && OccursAt(s[1..], value[1..], 0, fold)
  {
    if |value| <= |s| {
      assert s[1..][0..|value| - 1] == s[1..|value|];
      forall i | 0 <= i < |value| ensures s[0..|value|][i] == s[i] {
      }
      if OccursAt(s, value, 0, fold) {
        forall i | 0 <= i < |value| - 1 ensures fold(s[1..][0..|value| - 1][i]) == fold(value[1..][i]) {
          assert s[0..|value|][i + 1] == s[1..][0..|value| - 1][i];
        }
        assert s[0..|value|][0] == s[0];
      }
    }
  }

  /** A leading wildcard skips any number of characters. */
  lemma {:induction false} WildcardSkips(s: string, rest: string, fold: char -> char)
    ensures Matches(s, "%" + rest, fold) <==> exists i | 0 <= i <= |s| :: Matches(s[i..], rest, fold)
  {
    assert ("%" + rest)[1..] == rest;
    assert s[0..] == s;
    if s != "" {
      WildcardSkips(s[1..], rest, fold);
      forall i | 0 <= i <= |s| - 1 ensures s[1..][i..] == s[i + 1..] {
      }
      if i :| 0 <= i <= |s| && Matches(s[i..], rest, fold) && i > 0 {
        assert s[1..][i - 1..] == s[i..];
      }
    }
  }

  lemma {:induction false} WildcardMatchesAll(s: string, fold: char -> char)
    ensures Matches(s, "%", fold)
  {
    if s != "" {
      WildcardMatchesAll(s[1..], fold);
    } else {
      assert "%"[1..] == "";
    }
  }

  /** The pattern for a value matches exactly the texts the value occurs in. */
  lemma PatternFindsSubstrings(s: string, value: string, fold: char -> char)
    ensures Matches(s, Pattern(value), fold) <==> exists i: nat | i <= |s| :: OccursAt(s, value, i, fold)
  {
    ReplacementsAreOnePass(value);
    var rest := Escape(value) + "%";
    assert Pattern(value) == "%" + rest;
    WildcardSkips(s, rest, fold);
    forall i: nat | i <= |s| ensures Matches(s[i..], rest, fold) <==> OccursAt(s, value, i, fold) {
      EscapedIsLiteral(s[i..], value, "%", fold);
      if i + |value| <= |s| {
        WildcardMatchesAll(s[i..][|value|..], fold);
        assert s[i..][0..|value|] == s[i..i + |value|];
      }
    }
  }
}
