/** Replacing characters by strings: several replacements one after another against one pass over the text. */
module Escaping {

  /** Every character replaced by what `f` gives for it. */
  function Subst(s: string, f: char -> string): string {
    if s == "" then "" else f(s[0]) + Subst(s[1..], f)
  }

  /** Every occurrence of one character replaced. */
  function Replace(s: string, c: char, text: string): string {
    if s == "" then "" else (if s[0] == c then text else [s[0]]) + Replace(s[1..], c, text)
  }

  lemma {:induction false} ReplaceAppend(a: string, b: string, c: char, text: string)
    ensures Replace(a + b, c, text) == Replace(a, c, text) + Replace(b, c, text)
  {
    if a == "" {
      assert a + b == b;
    } else {
      assert (a + b)[1..] == a[1..] + b;
      ReplaceAppend(a[1..], b, c, text);
    }
  }

  lemma ReplaceOne(x: char, c: char, text: string)
    ensures Replace([x], c, text) == if x == c then text else [x]
  {
    assert [x][1..] == "";
  }

  lemma ReplacePair(x: char, y: char, c: char, text: string)
    ensures Replace([x, y], c, text) == (if x == c then text else [x]) + (if y == c then text else [y])
  {
    ReplaceOne(y, c, text);
    assert [x, y][1..] == [y];
  }

  datatype Replacement = Replacement(c: char, text: string)

  /** Three replacements over the whole text, one after another. */
  function ReplaceThrice(s: string, r: Replacement, r': Replacement, r'': Replacement): string {
    Replace(Replace(Replace(s, r.c, r.text), r'.c, r'.text), r''.c, r''.text)
  }

  /** If that is what `f` does to every single character, it is one pass with `f`. */
  lemma {:induction false} ThreePassesAreOne(
    s: string, r: Replacement, r': Replacement, r'': Replacement, f: char -> string)
    requires forall x: char :: ReplaceThrice([x], r, r', r'') == f(x)
    ensures ReplaceThrice(s, r, r', r'') == Subst(s, f)
  {
    if s != "" {
      var head, tail := [s[0]], s[1..];
      assert s == head + tail;
      ReplaceAppend(head, tail, r.c, r.text);
      ReplaceAppend(Replace(head, r.c, r.text), Replace(tail, r.c, r.text), r'.c, r'.text);
      ReplaceAppend(Replace(Replace(head, r.c, r.text), r'.c, r'.text),
                    Replace(Replace(tail, r.c, r.text), r'.c, r'.text), r''.c, r''.text);
      ThreePassesAreOne(tail, r, r', r'', f);
      assert ReplaceThrice(head, r, r', r'') == f(s[0]);
    }
  }
}
