/** Webhook signatures (`signPayload` and `verifySignature` in `indexer/src/webhooks.js`). */
module Signatures {
  import opened Prelude
  import opened Decimal
  import opened Hexadecimal
  import opened Texts

  type Bytes = seq<Byte>
  type Byte = n: nat | n < 256

  const MAX_SAFE_INTEGER: int := 9_007_199_254_740_991

  predicate IsSafe(n: int) {
    -MAX_SAFE_INTEGER <= n <= MAX_SAFE_INTEGER
  }

  /** The HMAC, from secret and message to digest, and the reading of a text as a safe whole number, if it is one. */
  datatype Primitives = Primitives(mac: (string, string) -> Bytes, number: string -> Option<int>) {
    /** Of the printed numbers, the safe ones are read back. */
    ghost predicate ReadsNumbers() {
      forall n: int :: number(PrintInt(n)) == if IsSafe(n) then Some(n) else None
    }
  }

  datatype Verdict = Valid | MalformedHeader | OutsideTolerance | Mismatch

  function HexText(bytes: Bytes): string {
    if bytes == [] then "" else [LowerHex(bytes[0] / 16), LowerHex(bytes[0] % 16)] + HexText(bytes[1..])
  }

  /** Hexadecimal digits to bytes, up to the first pair that is none. */
  function HexBytes(text: string): Bytes {
    if |text| < 2 || HexValue(text[0]).None? || HexValue(text[1]).None? then []
    else [16 * HexValue(text[0]).value + HexValue(text[1]).value] + HexBytes(text[2..])
  }

  /** What is authenticated: the timestamp, a dot and the raw body. */
  function Message(timestamp: int, body: string): string {
    PrintInt(timestamp) + "." + body
  }

  function Signature(mac: Bytes): string {
    "v1=" + HexText(mac)
  }

  function SignPayload(p: Primitives, secret: string, body: string, timestamp: int): string {
    "t=" + PrintInt(timestamp) + "," + Signature(p.mac(secret, Message(timestamp, body)))
  }

  // ----- Verification -----

  predicate IsSpace(c: char) {
    c == ' ' || c == '\t' || c == '\n' || c == '\r'
  }

  function TrimLeft(s: string): string {
    if s != "" && IsSpace(s[0]) then TrimLeft(s[1..]) else s
  }

  function Trim(s: string): string {
    var left := TrimLeft(s);
    TrimRight(left)
  }

  function TrimRight(s: string): string {
    if s != "" && IsSpace(s[|s| - 1]) then TrimRight(s[..|s| - 1]) else s
  }

  /** A part of the header: its key, and what lies between its first and second equals sign. */
  datatype Part = Part(key: string, value: Option<string>)

  function ParsePart(piece: string): Part {
    var fields := Pieces(Trim(piece), '=');
    Part(fields[0], if |fields| > 1 then Some(fields[1]) else None)
  }

  function ParseParts(pieces: seq<string>): seq<Part> {
    if pieces == [] then [] else [ParsePart(pieces[0])] + ParseParts(pieces[1..])
  }

  function ParseHeader(header: string): seq<Part> {
    ParseParts(Pieces(header, ','))
  }

  /** The text of the first timestamp; a timestamp without a value and no timestamp at all are not a number. */
  function TimestampText(parts: seq<Part>): Option<string> {
    if parts == [] then None
    else if parts[0].key == "t" then parts[0].value
    else TimestampText(parts[1..])
  }

  function Candidates(parts: seq<Part>): seq<string> {
    if parts == [] then []
    else (if parts[0].key == "v1" then [parts[0].value.Or("")] else []) + Candidates(parts[1..])
  }

  function Distance(a: int, b: int): nat {
    if a < b then b - a else a - b
  }

  function Verify(p: Primitives, secret: string, header: string, body: string, tolerance: int, now: int): Verdict {
    var parts := ParseHeader(header);
    var text := TimestampText(parts);
    var timestamp := if text.None? then None else p.number(text.value);
    if timestamp.None? || Candidates(parts) == [] then MalformedHeader
    else if Distance(now, timestamp.value) > tolerance then OutsideTolerance
    else
      var expected := p.mac(secret, Message(timestamp.value, body));
      if exists k | 0 <= k < |Candidates(parts)| :: HexBytes(Candidates(parts)[k]) == expected then Valid else Mismatch
  }

  // ----- Any header -----

  predicate AllSpace(s: string) {
    forall i | 0 <= i < |s| :: s[i] in {' ', '\t', '\n', '\r'}
  }

  lemma {:induction false} TrimLeftSkips(space: string, piece: string)
    requires AllSpace(space)
    ensures TrimLeft(space + piece) == TrimLeft(piece)
  {
    if space == "" {
      assert space + piece == piece;
    } else {
      assert (space + piece)[1..] == space[1..] + piece;
      TrimLeftSkips(space[1..], piece);
    }
  }

  lemma {:induction false} TrimRightSkips(piece: string, space: string)
    requires AllSpace(space)
    ensures TrimRight(piece + space) == TrimRight(piece)
  {
    if space == "" {
      assert piece + space == piece;
    } else {
      assert (piece + space)[..|piece + space| - 1] == piece + space[..|space| - 1];
      TrimRightSkips(piece, space[..|space| - 1]);
    }
  }

  /** Blanks around a part of the header do not matter. */
  lemma PartIgnoresBlanks(before: string, piece: string, after: string)
    requires AllSpace(before) && AllSpace(after) && piece != "" && !AllSpace([piece[0]])
    ensures ParsePart(before + piece + after) == ParsePart(piece)
  {
    assert before + piece + after == before + (piece + after);
    TrimLeftSkips(before, piece + after);
    assert TrimLeft(piece + after) == piece + after && TrimLeft(piece) == piece by {
      assert [piece[0]][0] == piece[0];
    }
    TrimRightSkips(piece, after);
  }

  /** The header's first timestamp is piece `i`. */
  ghost predicate IsTimestamp(pieces: seq<string>, i: nat, text: string) {
    && i < |pieces| && ParsePart(pieces[i]) == Part("t", Some(text))
    && forall h | 0 <= h < i :: ParsePart(pieces[h]).key != "t"
  }

  /** Piece `j` is a signature that decodes to `mac`. */
  ghost predicate Carries(pieces: seq<string>, j: nat, mac: Bytes) {
    j < |pieces| && ParsePart(pieces[j]).key == "v1" && HexBytes(ParsePart(pieces[j]).value.Or("")) == mac
  }

  lemma {:induction false} TimestampMeaning(pieces: seq<string>, text: string)
    ensures TimestampText(ParseParts(pieces)) == Some(text) <==> exists i: nat :: IsTimestamp(pieces, i, text)
  {
    hide ParsePart;
    if pieces != [] {
      TimestampMeaning(pieces[1..], text);
      assert ParseParts(pieces)[1..] == ParseParts(pieces[1..]);
      if ParsePart(pieces[0]).key == "t" {
        assert ParsePart(pieces[0]).value == Some(text) ==> IsTimestamp(pieces, 0, text);
      } else {
        TimestampFurtherOn(pieces, text);
      }
    }
  }

  lemma TimestampFurtherOn(pieces: seq<string>, text: string)
    requires pieces != [] && ParsePart(pieces[0]).key != "t"
    ensures (exists i: nat :: IsTimestamp(pieces, i, text)) <==> (exists i: nat :: IsTimestamp(pieces[1..], i, text))
  {
    hide ParsePart;
    if i: nat :| IsTimestamp(pieces[1..], i, text) {
      assert forall h | 0 < h <= i :: pieces[h] == pieces[1..][h - 1];
      assert IsTimestamp(pieces, i + 1, text);
    }
    if i: nat :| IsTimestamp(pieces, i, text) {
      assert forall h | 0 <= h < i :: pieces[1..][h] == pieces[h + 1];
      assert IsTimestamp(pieces[1..], i - 1, text);
    }
  }

  ghost predicate HasCandidate(parts: seq<Part>, mac: Bytes) {
    exists k | 0 <= k < |Candidates(parts)| :: HexBytes(Candidates(parts)[k]) == mac
  }

  lemma {:induction false} CandidateMeaning(pieces: seq<string>, mac: Bytes)
    ensures HasCandidate(ParseParts(pieces), mac) <==> exists j: nat :: Carries(pieces, j, mac)
  {
    hide ParsePart, HexBytes;
    if pieces != [] {
      var part := ParsePart(pieces[0]);
      CandidateMeaning(pieces[1..], mac);
      FirstCandidate(part, ParseParts(pieces[1..]), mac);
      assert ParseParts(pieces) == [part] + ParseParts(pieces[1..]);
      if j: nat :| Carries(pieces[1..], j, mac) {
        assert Carries(pieces, j + 1, mac);
      }
      if j: nat :| Carries(pieces, j, mac) {
        assert j > 0 ==> Carries(pieces[1..], j - 1, mac);
      }
      assert part.key == "v1" && HexBytes(part.value.Or("")) == mac ==> Carries(pieces, 0, mac);
    }
  }

  lemma FirstCandidate(part: Part, rest: seq<Part>, mac: Bytes)
    ensures HasCandidate([part] + rest, mac) <==>
            (part.key == "v1" && HexBytes(part.value.Or("")) == mac) || HasCandidate(rest, mac)
  {
    hide HexBytes;
    var all, later := Candidates([part] + rest), Candidates(rest);
    assert ([part] + rest)[1..] == rest;
    assert all == (if part.key == "v1" then [part.value.Or("")] else []) + later;
    var d := |all| - |later|;
    assert forall k | 0 <= k < |later| :: all[d + k] == later[k];
    if k :| 0 <= k < |all| && HexBytes(all[k]) == mac {
      assert k >= d ==> HexBytes(later[k - d]) == mac;
    }
    if k :| 0 <= k < |later| && HexBytes(later[k]) == mac {
      assert HexBytes(all[d + k]) == mac;
    }
    if part.key == "v1" {
      assert all[0] == part.value.Or("");
    }
  }

  /** The pieces name a time within tolerance and carry the HMAC of that time and the body. */
  ghost predicate Authentic(
    p: Primitives, secret: string, pieces: seq<string>, body: string, tolerance: int, now: int,
    i: nat, j: nat, text: string, time: int)
  {
    && IsTimestamp(pieces, i, text) && p.number(text) == Some(time) && -tolerance <= now - time <= tolerance
    && Carries(pieces, j, p.mac(secret, Message(time, body)))
  }

  lemma AuthenticIsValid(
    p: Primitives, secret: string, header: string, pieces: seq<string>, body: string, tolerance: int, now: int,
    i: nat, j: nat, text: string, time: int)
    requires pieces == Pieces(header, ',') && Authentic(p, secret, pieces, body, tolerance, now, i, j, text, time)
    ensures Verify(p, secret, header, body, tolerance, now) == Valid
  {
    var mac := p.mac(secret, Message(time, body));
    TimestampMeaning(pieces, text);
    CandidateMeaning(pieces, mac);
    hide IsTimestamp, Carries, Candidates, TimestampText, ParseParts, HexBytes, Message;
    assert HasCandidate(ParseHeader(header), mac);
  }

  lemma ValidIsAuthentic(
    p: Primitives, secret: string, header: string, pieces: seq<string>, body: string, tolerance: int, now: int)
    returns (i: nat, j: nat, text: string, time: int)
    requires pieces == Pieces(header, ',') && Verify(p, secret, header, body, tolerance, now) == Valid
    ensures Authentic(p, secret, pieces, body, tolerance, now, i, j, text, time)
  {
    text := TimestampText(ParseHeader(header)).value;
    time := p.number(text).value;
    var mac := p.mac(secret, Message(time, body));
    TimestampMeaning(pieces, text);
    CandidateMeaning(pieces, mac);
    hide IsTimestamp, Carries, Candidates, TimestampText, ParseParts, HexBytes, Message;
    assert HasCandidate(ParseHeader(header), mac);
    i :| IsTimestamp(pieces, i, text);
    j :| Carries(pieces, j, mac);
  }

  ghost predicate CarriesProof(
    p: Primitives, secret: string, pieces: seq<string>, body: string, tolerance: int, now: int)
  {
    exists i: nat, j: nat, text: string, time: int ::
      Authentic(p, secret, pieces, body, tolerance, now, i, j, text, time)
  }

  /**
   Whatever the header, it is accepted if and only if its first timestamp reads as a time within the tolerance and one
   of its signatures decodes to the HMAC of that time and the body.
   */
  lemma ValidExactly(p: Primitives, secret: string, header: string, body: string, tolerance: int, now: int)
    ensures Verify(p, secret, header, body, tolerance, now) == Valid <==>
            CarriesProof(p, secret, Pieces(header, ','), body, tolerance, now)
  {
    hide Verify, Authentic;
    var pieces := Pieces(header, ',');
    if Verify(p, secret, header, body, tolerance, now) == Valid {
      var i, j, text, time := ValidIsAuthentic(p, secret, header, pieces, body, tolerance, now);
    }
    if CarriesProof(p, secret, pieces, body, tolerance, now) {
      var i: nat, j: nat, text: string, time: int :|
        Authentic(p, secret, pieces, body, tolerance, now, i, j, text, time);
      AuthenticIsValid(p, secret, header, pieces, body, tolerance, now, i, j, text, time);
    }
  }

  // ----- Headers with any number of signatures -----

  /** A header as a sender that is changing its secret writes it: one timestamp and a signature for each secret. */
  function Header(timestamp: int, macs: seq<Bytes>): string {
    "t=" + PrintInt(timestamp) + SignaturesText(macs)
  }

  function SignaturesText(macs: seq<Bytes>): string {
    if macs == [] then "" else "," + (Signature(macs[0]) + SignaturesText(macs[1..]))
  }

  lemma {:induction false} HexBytesOfText(bytes: Bytes)
    ensures HexBytes(HexText(bytes)) == bytes
  {
    if bytes != [] {
      HexBytesOfText(bytes[1..]);
      assert HexText(bytes)[2..] == HexText(bytes[1..]);
      assert bytes == [bytes[0]] + bytes[1..];
    }
  }

  predicate IsPlain(c: char) {
    c != ',' && c != '=' && !IsSpace(c)
  }

  predicate Plain(s: string) {
    forall i | 0 <= i < |s| :: IsPlain(s[i])
  }

  lemma {:induction false} HexIsPlain(bytes: Bytes)
    ensures Plain(HexText(bytes))
  {
    if bytes != [] {
      HexIsPlain(bytes[1..]);
      HexDigitIsPlain(bytes[0] / 16);
      HexDigitIsPlain(bytes[0] % 16);
    }
  }

  lemma HexDigitIsPlain(n: nat)
    requires n < 16
    ensures IsPlain(LowerHex(n))
  {
  }

  lemma PrintIsPlain(n: int)
    ensures Plain(PrintInt(n))
  {
  }

  /** A key and a plain value are read back as written. */
  lemma PartIsRead(key: string, value: string)
    requires key != "" && Plain(key) && Plain(value)
    ensures ParsePart(key + "=" + value) == Part(key, Some(value))
    ensures ',' !in key + "=" + value
  {
    var piece := key + "=" + value;
    assert !IsSpace(piece[0]) && !IsSpace(piece[|piece| - 1]);
    assert Trim(piece) == piece;
    hide Trim;
    TwoFields(key, value);
  }

  lemma TwoFields(key: string, value: string)
    requires Plain(key) && Plain(value)
    ensures Pieces(key + "=" + value, '=') == [key, value]
  {
    assert key + "=" + value == key + ['='] + value;
    SplitFinds(key, '=', value);
    SplitFinds(value, '=', "");
    assert Pieces(value, '=') == [value];
  }

  function PartsOf(macs: seq<Bytes>): seq<Part> {
    if macs == [] then [] else [Part("v1", Some(HexText(macs[0])))] + PartsOf(macs[1..])
  }

  lemma {:induction false} SignaturesAreRead(first: string, macs: seq<Bytes>)
    requires ',' !in first
    ensures ParseParts(Pieces(first + SignaturesText(macs), ',')) == [ParsePart(first)] + PartsOf(macs)
    decreases |macs|
  {
    if macs == [] {
      assert first + SignaturesText(macs) == first;
      SplitFinds(first, ',', "");
    } else {
      var later := Signature(macs[0]) + SignaturesText(macs[1..]);
      SignatureIsRead(macs[0]);
      SignaturesAreRead(Signature(macs[0]), macs[1..]);
      hide *;
      NextPiece(first, macs, later);
      PartsStep(macs);
    }
  }

  lemma SignatureIsRead(mac: Bytes)
    ensures ParsePart(Signature(mac)) == Part("v1", Some(HexText(mac))) && ',' !in Signature(mac)
  {
    HexIsPlain(mac);
    PartIsRead("v1", HexText(mac));
    assert Signature(mac) == "v1" + "=" + HexText(mac);
  }

  lemma NextPiece(first: string, macs: seq<Bytes>, later: string)
    requires ',' !in first && macs != [] && later == Signature(macs[0]) + SignaturesText(macs[1..])
    ensures ParseParts(Pieces(first + SignaturesText(macs), ',')) == [ParsePart(first)] + ParseParts(Pieces(later, ','))
  {
    hide ParsePart, Signature;
    assert first + SignaturesText(macs) == first + [','] + later;
    SplitFinds(first, ',', later);
    assert ([first] + Pieces(later, ','))[1..] == Pieces(later, ',');
  }

  lemma PartsStep(macs: seq<Bytes>)
    requires macs != []
    ensures PartsOf(macs) == [Part("v1", Some(HexText(macs[0])))] + PartsOf(macs[1..])
  {
  }

  lemma {:induction false} CandidatesOfParts(macs: seq<Bytes>)
    ensures |Candidates(PartsOf(macs))| == |macs|
    ensures forall k | 0 <= k < |macs| :: HexBytes(Candidates(PartsOf(macs))[k]) == macs[k]
  {
    if macs != [] {
      CandidatesOfParts(macs[1..]);
      HexBytesOfText(macs[0]);
      assert PartsOf(macs)[1..] == PartsOf(macs[1..]);
      forall k | 0 <= k < |macs| ensures HexBytes(Candidates(PartsOf(macs))[k]) == macs[k] {
        assert k > 0 ==> Candidates(PartsOf(macs))[k] == Candidates(PartsOf(macs[1..]))[k - 1];
      }
    }
  }

  lemma HeaderIsRead(timestamp: int, macs: seq<Bytes>)
    ensures
      var parts := ParseHeader(Header(timestamp, macs));
      && TimestampText(parts) == Some(PrintInt(timestamp))
      && |Candidates(parts)| == |macs|
      && forall k | 0 <= k < |macs| :: HexBytes(Candidates(parts)[k]) == macs[k]
  {
    var first := "t" + "=" + PrintInt(timestamp);
    PrintIsPlain(timestamp);
    PartIsRead("t", PrintInt(timestamp));
    assert Header(timestamp, macs) == first + SignaturesText(macs);
    SignaturesAreRead(first, macs);
    CandidatesOfParts(macs);
    hide Pieces, ParsePart, HexBytes, Header, SignaturesText, PartsOf;
    TimestampComesFirst(Part("t", Some(PrintInt(timestamp))), PartsOf(macs));
  }

  lemma TimestampComesFirst(part: Part, rest: seq<Part>)
    requires part.key == "t"
    ensures TimestampText([part] + rest) == part.value && Candidates([part] + rest) == Candidates(rest)
  {
    assert ([part] + rest)[1..] == rest;
  }

  /** A header is accepted exactly when its timestamp is within tolerance and one of its signatures is the right one. */
  lemma VerifyExactly(
    p: Primitives, secret: string, timestamp: int, macs: seq<Bytes>, body: string, tolerance: int, now: int)
    requires p.ReadsNumbers()
    ensures
      var verdict := Verify(p, secret, Header(timestamp, macs), body, tolerance, now);
      && (verdict == MalformedHeader <==> macs == [] || !IsSafe(timestamp))
      && (verdict == OutsideTolerance <==>
            macs != [] && IsSafe(timestamp) && !(-tolerance <= now - timestamp <= tolerance))
      && (verdict == Valid <==>
            && IsSafe(timestamp) && -tolerance <= now - timestamp <= tolerance
            && p.mac(secret, Message(timestamp, body)) in macs)
  {
    HeaderIsRead(timestamp, macs);
    var expected := p.mac(secret, Message(timestamp, body));
    var candidates := Candidates(ParseHeader(Header(timestamp, macs)));
    if expected in macs {
      var k :| 0 <= k < |macs| && macs[k] == expected;
      assert HexBytes(candidates[k]) == expected;
    }
  }

  /** Whoever knows the secret verifies what was signed with it, within the tolerance and not outside it. */
  lemma SignedIsAccepted(p: Primitives, secret: string, body: string, timestamp: int, tolerance: int, now: int)
    requires p.ReadsNumbers()
    ensures
      Verify(p, secret, SignPayload(p, secret, body, timestamp), body, tolerance, now) ==
        if !IsSafe(timestamp) then MalformedHeader
        else if -tolerance <= now - timestamp <= tolerance then Valid
        else OutsideTolerance
  {
    var mac := p.mac(secret, Message(timestamp, body));
    assert SignaturesText([mac]) == "," + (Signature(mac) + "");
    assert SignPayload(p, secret, body, timestamp) == Header(timestamp, [mac]);
    VerifyExactly(p, secret, timestamp, [mac], body, tolerance, now);
  }

  /** Timestamp and body can be told apart in what is authenticated. */
  lemma MessageIsInjective(timestamp: int, body: string, timestamp': int, body': string)
    ensures Message(timestamp, body) == Message(timestamp', body') <==> timestamp == timestamp' && body == body'
  {
    FirstMarkSplits(PrintInt(timestamp), body, PrintInt(timestamp'), body', '.');
    if PrintInt(timestamp) == PrintInt(timestamp') {
      assert (timestamp < 0) == (PrintInt(timestamp)[0] == '-');
      assert (timestamp' < 0) == (PrintInt(timestamp')[0] == '-');
      if timestamp < 0 {
        assert PrintInt(timestamp)[1..] == Print(-timestamp) && PrintInt(timestamp')[1..] == Print(-timestamp');
        PrintIsInjective(-timestamp, -timestamp');
      } else {
        PrintIsInjective(timestamp, timestamp');
      }
    }
  }

  /** A signature moved to another body or time is accepted only if two different messages have one HMAC. */
  lemma ReplayNeedsCollision(
    p: Primitives, secret: string, body: string, timestamp: int, body': string, timestamp': int, tolerance: int, now: int)
    requires p.ReadsNumbers() && (body != body' || timestamp != timestamp')
    ensures
      var header := Header(timestamp', [p.mac(secret, Message(timestamp, body))]);
      Verify(p, secret, header, body', tolerance, now) == Valid ==>
        && Message(timestamp, body) != Message(timestamp', body')
        && p.mac(secret, Message(timestamp, body)) == p.mac(secret, Message(timestamp', body'))
  {
    MessageIsInjective(timestamp, body, timestamp', body');
    VerifyExactly(p, secret, timestamp', [p.mac(secret, Message(timestamp, body))], body', tolerance, now);
  }
}
