/** Which requests share a cached response (`cache_key` in `analytics-api/src/limits.rs`). */
module CacheKeys {
  import opened Prelude
  import opened Hexadecimal
  import opened Texts

  /** Texts are strings of bytes. */
  type Byte = c: char | c as int < 256

  type Text = seq<Byte>

  datatype Pair = Pair(name: Text, value: Text)

  // ----- Sorting the pairs -----

  predicate TextLe(a: Text, b: Text) {
    a == [] || (b != [] && (a[0] < b[0] || (a[0] == b[0] && TextLe(a[1..], b[1..]))))
  }

  predicate PairLe(p: Pair, q: Pair) {
    if p.name != q.name then TextLe(p.name, q.name) else TextLe(p.value, q.value)
  }

  lemma {:induction false} TextOrder(a: Text, b: Text)
    ensures TextLe(a, b) || TextLe(b, a)
    ensures TextLe(a, b) && TextLe(b, a) ==> a == b
  {
    if a != [] && b != [] {
      TextOrder(a[1..], b[1..]);
      assert a == [a[0]] + a[1..] && b == [b[0]] + b[1..];
    }
  }

  lemma {:induction false} TextLeTransitive(a: Text, b: Text, c: Text)
    requires TextLe(a, b) && TextLe(b, c)
    ensures TextLe(a, c)
  {
    if a != [] && a[0] == b[0] == c[0] {
      TextLeTransitive(a[1..], b[1..], c[1..]);
    }
  }

  lemma PairOrder(p: Pair, q: Pair)
    ensures PairLe(p, q) || PairLe(q, p)
    ensures PairLe(p, q) && PairLe(q, p) ==> p == q
  {
    TextOrder(p.name, q.name);
    TextOrder(p.value, q.value);
  }

  lemma PairLeTransitive(p: Pair, q: Pair, r: Pair)
    requires PairLe(p, q) && PairLe(q, r)
    ensures PairLe(p, r)
  {
    if p.name == q.name == r.name {
      TextLeTransitive(p.value, q.value, r.value);
    } else {
      TextOrder(p.name, q.name);
      TextOrder(q.name, r.name);
      TextOrder(p.name, p.name);
      TextOrder(q.name, q.name);
      TextLeTransitive(p.name, q.name, r.name);
      if p.name == r.name {
        assert false;
      }
    }
  }

  ghost predicate Ordered(pairs: seq<Pair>) {
    forall i, j | 0 <= i < j < |pairs| :: PairLe(pairs[i], pairs[j])
  }

  function Insert(pairs: seq<Pair>, p: Pair): seq<Pair> {
    if pairs == [] || PairLe(p, pairs[0]) then [p] + pairs else [pairs[0]] + Insert(pairs[1..], p)
  }

  function Sort(pairs: seq<Pair>): seq<Pair> {
    if pairs == [] then [] else Insert(Sort(pairs[1..]), pairs[0])
  }

  lemma {:induction false} InsertSorts(pairs: seq<Pair>, p: Pair)
    requires Ordered(pairs)
    ensures Ordered(Insert(pairs, p)) && multiset(Insert(pairs, p)) == multiset(pairs) + multiset{p}
  {
    if pairs == [] {
    } else if PairLe(p, pairs[0]) {
      forall j | 0 <= j < |pairs| ensures PairLe(p, pairs[j]) {
        if j > 0 {
          PairLeTransitive(p, pairs[0], pairs[j]);
        }
      }
    } else {
      var rest := pairs[1..];
      assert pairs == [pairs[0]] + rest;
      InsertSorts(rest, p);
      PairOrder(p, pairs[0]);
      forall q | q in Insert(rest, p) ensures PairLe(pairs[0], q) {
        assert q in multiset(Insert(rest, p));
      }
    }
  }

  lemma {:induction false} SortSorts(pairs: seq<Pair>)
    ensures Ordered(Sort(pairs)) && multiset(Sort(pairs)) == multiset(pairs)
  {
    if pairs != [] {
      SortSorts(pairs[1..]);
      InsertSorts(Sort(pairs[1..]), pairs[0]);
      assert pairs == [pairs[0]] + pairs[1..];
    }
  }

  /** Only one arrangement of the same pairs is in order. */
  lemma {:induction false} OrderIsUnique(a: seq<Pair>, b: seq<Pair>)
    requires Ordered(a) && Ordered(b) && multiset(a) == multiset(b)
    ensures a == b
  {
    assert |multiset(a)| == |multiset(b)|;
    if a != [] {
      assert a[0] in multiset(b) && b[0] in multiset(a);
      PairOrder(a[0], b[0]);
      PairOrder(a[0], a[0]);
      FirstIsLeast(a, b[0]);
      FirstIsLeast(b, a[0]);
      SameRest(a, b);
      OrderIsUnique(a[1..], b[1..]);
      assert a == [a[0]] + a[1..] && b == [b[0]] + b[1..];
    }
  }

  lemma SameRest(a: seq<Pair>, b: seq<Pair>)
    requires a != [] && b != [] && a[0] == b[0] && multiset(a) == multiset(b)
    ensures multiset(a[1..]) == multiset(b[1..])
  {
    assert a == [a[0]] + a[1..] && b == [b[0]] + b[1..];
    assert multiset(a[1..]) == multiset(a) - multiset{a[0]};
    assert multiset(b[1..]) == multiset(b) - multiset{b[0]};
  }

  lemma FirstIsLeast(a: seq<Pair>, p: Pair)
    requires Ordered(a) && p in multiset(a)
    ensures PairLe(a[0], p)
  {
    var k :| 0 <= k < |a| && a[k] == p;
    if k == 0 {
      PairOrder(p, p);
    }
  }

  // ----- Form encoding -----

  /** Letters, digits and four marks stand for themselves. */
  predicate Unreserved(c: Byte) {
    'a' <= c <= 'z' || 'A' <= c <= 'Z' || '0' <= c <= '9' || c in {'*', '-', '.', '_'}
  }

  function EncodeByte(c: Byte): Text {
    if Unreserved(c) then [c]
    else if c == ' ' then ['+']
    else ['%', UpperHex(c as int / 16), UpperHex(c as int % 16)]
  }

  function EncodeText(t: Text): Text {
    if t == [] then [] else EncodeByte(t[0]) + EncodeText(t[1..])
  }

  function EncodePair(p: Pair): Text {
    EncodeText(p.name) + ['='] + EncodeText(p.value)
  }

  function EncodePairs(pairs: seq<Pair>): Text {
    if pairs == [] then []
    else if |pairs| == 1 then EncodePair(pairs[0])
    else EncodePair(pairs[0]) + ['&'] + EncodePairs(pairs[1..])
  }

  /** A plus is a space, a percent sign with two hexadecimal digits a byte; all else stands for itself. */
  function DecodeText(t: Text): Text {
    if t == [] then []
    else if t[0] == '+' then [' '] + DecodeText(t[1..])
    else if t[0] == '%' && |t| >= 3 && HexValue(t[1]).Some? && HexValue(t[2]).Some? then
      [(16 * HexValue(t[1]).value + HexValue(t[2]).value) as char] + DecodeText(t[3..])
    else [t[0]] + DecodeText(t[1..])
  }

  function ParsePair(piece: Text): Pair {
    var s: Split<Byte> := SplitAt<Byte>(piece, '=');
    Pair(DecodeText(s.before), DecodeText(s.rest.Or([])))
  }

  /** The pairs of a query; empty pieces are skipped. */
  function ParseQuery(query: Text): seq<Pair>
    decreases |query|
  {
    if query == [] then []
    else
      var s: Split<Byte> := SplitAt<Byte>(query, '&');
      (if s.before == [] then [] else [ParsePair(s.before)]) + if s.rest.Some? then ParseQuery(s.rest.value) else []
  }

  lemma {:induction false} EncodedHasNoMarks(t: Text)
    ensures '&' !in EncodeText(t) && '=' !in EncodeText(t)
  {
    if t != [] {
      EncodedHasNoMarks(t[1..]);
    }
  }

  lemma {:induction false} DecodeEncoded(t: Text)
    ensures DecodeText(EncodeText(t)) == t
  {
    if t != [] {
      var c, rest := t[0], EncodeText(t[1..]);
      DecodeEncoded(t[1..]);
      var whole := EncodeByte(c) + rest;
      assert whole[|EncodeByte(c)|..] == rest;
      assert [c] + t[1..] == t;
      if !Unreserved(c) && c != ' ' {
        assert whole[0] == '%' && whole[1] == UpperHex(c as int / 16) && whole[2] == UpperHex(c as int % 16);
        assert (16 * (c as int / 16) + c as int % 16) as char == c;
      }
    }
  }

  lemma ParseEncodedPair(p: Pair)
    ensures EncodePair(p) != [] && '&' !in EncodePair(p) && ParsePair(EncodePair(p)) == p
  {
    EncodedHasNoMarks(p.name);
    EncodedHasNoMarks(p.value);
    SplitFinds<Byte>(EncodeText(p.name), '=', EncodeText(p.value));
    DecodeEncoded(p.name);
    DecodeEncoded(p.value);
  }

  /** What is encoded is read back, pair for pair. */
  lemma {:induction false} QueryRoundTrip(pairs: seq<Pair>)
    ensures ParseQuery(EncodePairs(pairs)) == pairs
  {
    if pairs != [] {
      ParseEncodedPair(pairs[0]);
      SplitFinds<Byte>(EncodePair(pairs[0]), '&', EncodePairs(pairs[1..]));
      QueryRoundTrip(pairs[1..]);
      assert pairs == [pairs[0]] + pairs[1..];
    }
  }

  /** Reading a pair: what follows the first equals sign is the value, nothing if there is none. */
  lemma PairIsRead(name: Text, value: Text)
    requires '=' !in name
    ensures ParsePair(name + ['='] + value) == Pair(DecodeText(name), DecodeText(value))
    ensures ParsePair(name) == Pair(DecodeText(name), [])
  {
    SplitFinds<Byte>(name, '=', value);
  }

  /** Reading a query: pieces are read one by one, and empty ones skipped. */
  lemma PieceIsRead(piece: Text, rest: Text)
    requires '&' !in piece
    ensures ParseQuery(piece + ['&'] + rest) == (if piece == [] then [] else [ParsePair(piece)]) + ParseQuery(rest)
    ensures piece != [] ==> ParseQuery(piece) == [ParsePair(piece)]
  {
    SplitFinds<Byte>(piece, '&', rest);
  }

  /** Texts by example: a plus is a space, digits after a percent sign a byte, and without them it stays. */
  lemma DecodesByExample()
    ensures DecodeText("a") == "a" && DecodeText("b") == "b" && DecodeText("1") == "1" && DecodeText("2") == "2"
    ensures DecodeText("1=2") == "1=2" && DecodeText("a+b") == "a b" && DecodeText("%2b") == "+"
    ensures DecodeText("%zz") == "%zz"
  {
    assert "a"[1..] == "" && "b"[1..] == "" && "1"[1..] == "" && "2"[1..] == "";
    assert "1=2"[1..] == "=2" && "=2"[1..] == "2";
    assert "a+b"[1..] == "+b" && "+b"[1..] == "b";
    assert "%2b"[3..] == "" && HexValue('2') == Some(2) && HexValue('b') == Some(11);
    assert "%zz"[1..] == "zz" && "zz"[1..] == "z" && "z"[1..] == "" && HexValue('z') == None;
  }

  // ----- Cache keys -----

  /** The pairs of a request; without a query there are none. */
  function PairsOf(query: Option<Text>): seq<Pair> {
    if query.Some? then ParseQuery(query.value) else []
  }

  function CacheKey(path: Text, query: Option<Text>): Text {
    path + ['?'] + EncodePairs(Sort(PairsOf(query)))
  }

  /** The pairs of a query that was written from some are those; without a query there are none. */
  lemma PairsAreRead(pairs: seq<Pair>)
    ensures PairsOf(Some(EncodePairs(pairs))) == pairs && PairsOf(None) == []
  {
    QueryRoundTrip(pairs);
  }

  /** Two requests share a cached response exactly when they name the same path and the same pairs, in any order. */
  lemma KeyIdentifiesRequest(path: Text, query: Option<Text>, path': Text, query': Option<Text>)
    requires '?' !in path && '?' !in path'
    ensures CacheKey(path, query) == CacheKey(path', query') <==>
            path == path' && multiset(PairsOf(query)) == multiset(PairsOf(query'))
  {
    var pairs, pairs' := PairsOf(query), PairsOf(query');
    SortSorts(pairs);
    SortSorts(pairs');
    SplitFinds<Byte>(path, '?', EncodePairs(Sort(pairs)));
    SplitFinds<Byte>(path', '?', EncodePairs(Sort(pairs')));
    QueryRoundTrip(Sort(pairs));
    QueryRoundTrip(Sort(pairs'));
    if multiset(pairs) == multiset(pairs') {
      OrderIsUnique(Sort(pairs), Sort(pairs'));
    }
  }

  ghost predicate DistinctNames(pairs: seq<Pair>) {
    forall i, j | 0 <= i < j < |pairs| :: pairs[i].name != pairs[j].name
  }

  /** The parameters as a map from name to value. */
  function Parameters(pairs: seq<Pair>): map<Text, Text> {
    if pairs == [] then map[] else Parameters(pairs[1..])[pairs[0].name := pairs[0].value]
  }

  lemma FirstNameIsNew(pairs: seq<Pair>)
    requires pairs != [] && DistinctNames(pairs)
    ensures forall q | q in pairs[1..] :: q.name != pairs[0].name
    ensures DistinctNames(pairs[1..])
  {
    var rest := pairs[1..];
    forall q | q in rest ensures q.name != pairs[0].name {
      var k :| 0 <= k < |rest| && rest[k] == q;
      assert pairs[k + 1] == q;
    }
  }

  lemma {:induction false} ParametersMeaning(pairs: seq<Pair>, p: Pair)
    requires DistinctNames(pairs)
    ensures p in pairs <==> p.name in Parameters(pairs) && Parameters(pairs)[p.name] == p.value
    ensures p.name in Parameters(pairs) <==> exists q :: q in pairs && q.name == p.name
  {
    if pairs != [] {
      var rest := pairs[1..];
      assert pairs == [pairs[0]] + rest;
      FirstNameIsNew(pairs);
      ParametersMeaning(rest, p);
    }
  }

  lemma {:induction false} DistinctAreOnce(pairs: seq<Pair>, p: Pair)
    requires DistinctNames(pairs)
    ensures multiset(pairs)[p] == if p in pairs then 1 else 0
  {
    if pairs != [] {
      var rest := pairs[1..];
      assert pairs == [pairs[0]] + rest;
      FirstNameIsNew(pairs);
      DistinctAreOnce(rest, p);
    }
  }

  /** When no name occurs twice, that means the same path and the same parameter map. */
  lemma KeyIdentifiesParameters(path: Text, query: Option<Text>, path': Text, query': Option<Text>)
    requires '?' !in path && '?' !in path'
    requires DistinctNames(PairsOf(query)) && DistinctNames(PairsOf(query'))
    ensures CacheKey(path, query) == CacheKey(path', query') <==>
            path == path' && Parameters(PairsOf(query)) == Parameters(PairsOf(query'))
  {
    KeyIdentifiesRequest(path, query, path', query');
    SamePairsSameMap(PairsOf(query), PairsOf(query'));
  }

  lemma SamePairsSameMap(pairs: seq<Pair>, pairs': seq<Pair>)
    requires DistinctNames(pairs) && DistinctNames(pairs')
    ensures multiset(pairs) == multiset(pairs') <==> Parameters(pairs) == Parameters(pairs')
  {
    var m, m' := Parameters(pairs), Parameters(pairs');
    if m == m' {
      forall p: Pair ensures multiset(pairs)[p] == multiset(pairs')[p] {
        ParametersMeaning(pairs, p);
        ParametersMeaning(pairs', p);
        DistinctAreOnce(pairs, p);
        DistinctAreOnce(pairs', p);
      }
    }
    if multiset(pairs) == multiset(pairs') {
      SameNames(pairs, pairs');
      SameNames(pairs', pairs);
    }
  }

  lemma SameNames(pairs: seq<Pair>, pairs': seq<Pair>)
    requires DistinctNames(pairs) && DistinctNames(pairs') && multiset(pairs) == multiset(pairs')
    ensures forall name | name in Parameters(pairs) ::
              name in Parameters(pairs') && Parameters(pairs)[name] == Parameters(pairs')[name]
  {
    forall name | name in Parameters(pairs)
      ensures name in Parameters(pairs') && Parameters(pairs)[name] == Parameters(pairs')[name]
    {
      var p := Pair(name, Parameters(pairs)[name]);
      ParametersMeaning(pairs, p);
      assert p in multiset(pairs) && p in multiset(pairs');
      ParametersMeaning(pairs', p);
    }
  }
}
