/** Cursors and pages of the GraphQL API (`analytics-api/src/graphql.rs`). */
module Pagination {
  import opened Prelude
  import opened Decimal
  import opened Hexadecimal

  const DEFAULT_PAGE_SIZE: int := 20
  const MAX_PAGE_SIZE: int := 100

  datatype PageError = InvalidCursor | PageSizeExceeded

  // ----- The cursor codec -----

  const PREFIX := "offset:"

  predicate IsAscii(s: string) {
    forall i | 0 <= i < |s| :: s[i] < 128 as char
  }

  /** Every byte of an ASCII text as two lower-case hexadecimal digits. */
  function Hex(s: string): (r: string)
    requires IsAscii(s)
    ensures |r| == 2 * |s|
  {
    if s == "" then "" else [LowerHex(s[0] as int / 16), LowerHex(s[0] as int % 16)] + Hex(s[1..])
  }

  /** One byte from two characters; a plus sign before a single digit is accepted too. */
  function ByteOf(high: char, low: char): (b: Option<nat>)
    ensures b.Some? ==> b.value < 256
  {
    if HexValue(low).None? then None
    else if high == '+' then HexValue(low)
    else if HexValue(high).None? then None
    else Some(16 * HexValue(high).value + HexValue(low).value)
  }

  /** The text behind the digits, if it is ASCII; no other text can be a cursor. */
  function Unhex(s: string): Option<string>
    requires |s| % 2 == 0
  {
    if s == "" then Some("")
    else
      var byte, rest := ByteOf(s[0], s[1]), Unhex(s[2..]);
      if byte.None? || byte.value >= 128 || rest.None? then None else Some([byte.value as char] + rest.value)
  }

  function StripPrefix(s: string): Option<string> {
    if PREFIX <= s then Some(s[|PREFIX|..]) else None
  }

  function EncodeCursor(offset: int): string {
    CursorTextIsAscii(offset);
    Hex(PREFIX + PrintInt(offset))
  }

  function DecodeCursor(cursor: string): (r: Result<int, PageError>)
    ensures r.Ok? ==> 0 <= r.value <= I64_MAX
    ensures r.Err? ==> r.error == InvalidCursor
  {
    if |cursor| % 2 != 0 || !IsAscii(cursor) then Err(InvalidCursor)
    else
      var text := Unhex(cursor);
      if text.None? || StripPrefix(text.value).None? then Err(InvalidCursor)
      else
        var offset := ParseI64(StripPrefix(text.value).value);
        if offset.None? || offset.value < 0 then Err(InvalidCursor) else Ok(offset.value)
  }

  lemma CursorTextIsAscii(offset: int)
    ensures IsAscii(PREFIX + PrintInt(offset))
  {
    assert IsAscii(PREFIX);
  }

  lemma {:induction false} UnhexHex(s: string)
    requires IsAscii(s)
    ensures IsAscii(Hex(s)) && Unhex(Hex(s)) == Some(s)
  {
    if s != "" {
      var c := s[0] as int;
      UnhexHex(s[1..]);
      assert Hex(s)[2..] == Hex(s[1..]);
      assert ByteOf(Hex(s)[0], Hex(s)[1]) == Some(c);
      assert c as char == s[0];
      assert [s[0]] + s[1..] == s;
      forall i | 0 <= i < |Hex(s)| ensures Hex(s)[i] < 128 as char {
        assert i >= 2 ==> Hex(s)[i] == Hex(s[1..])[i - 2];
      }
    }
  }

  /** Among signed 64-bit offsets, exactly the non-negative ones survive the round trip; the others are refused. */
  lemma CursorRoundTrip(offset: int)
    requires I64_MIN <= offset <= I64_MAX
    ensures DecodeCursor(EncodeCursor(offset)) == Ok(offset) <==> offset >= 0
    ensures offset < 0 ==> DecodeCursor(EncodeCursor(offset)) == Err(InvalidCursor)
  {
    CursorTextIsAscii(offset);
    UnhexHex(PREFIX + PrintInt(offset));
    ParsePrinted(offset);
    PrefixIsStripped(PrintInt(offset));
    hide Hex, Unhex, PrintInt, ParseI64, StripPrefix, IsAscii;
  }

  lemma PrefixIsStripped(s: string)
    ensures StripPrefix(PREFIX + s) == Some(s)
  {
  }

  // ----- Pages -----

  datatype PageRequest = PageRequest(limit: nat, offset: nat)

  function RequestPage(first: Option<int>, after: Option<string>): Result<PageRequest, PageError> {
    var size := first.Or(DEFAULT_PAGE_SIZE);
    if !(1 <= size <= MAX_PAGE_SIZE) then Err(PageSizeExceeded)
    else
      var offset := if after.Some? then DecodeCursor(after.value) else Ok(0);
      if offset.Err? then Err(offset.error) else Ok(PageRequest(size, offset.value))
  }

  datatype Connection<T> = Connection(nodes: seq<T>, hasNextPage: bool, endCursor: Option<string>)

  /** The rows a query with `LIMIT limit + 1 OFFSET offset` returns. */
  function Fetch<T>(list: seq<T>, page: PageRequest): seq<T> {
    if page.offset >= |list| then [] else list[page.offset..Min(|list|, page.offset + page.limit + 1)]
  }

  function Connect<T>(rows: seq<T>, page: PageRequest): Connection<T> {
    var nodes := if |rows| > page.limit then rows[..page.limit] else rows;
    Connection(nodes, |rows| > page.limit,
               if nodes != [] then Some(EncodeCursor(page.offset + |nodes|)) else None)
  }

  /** One page of `list`. */
  function Page<T>(list: seq<T>, first: Option<int>, after: Option<string>): Result<Connection<T>, PageError> {
    var request := RequestPage(first, after);
    if request.Err? then Err(request.error) else Ok(Connect(Fetch(list, request.value), request.value))
  }

  /** A size outside 1 to 100 is refused, whatever the cursor; with a size that is allowed, so is a bad cursor. */
  lemma PageErrors<T>(list: seq<T>, first: Option<int>, after: Option<string>)
    ensures Page(list, first, after) == Err(PageSizeExceeded) <==> first.Some? && (first.value < 1 || first.value > 100)
    ensures Page(list, first, after) == Err(InvalidCursor) <==>
            (first.None? || 1 <= first.value <= 100) && after.Some? && DecodeCursor(after.value).Err?
  {
    hide DecodeCursor, Connect, Fetch;
  }

  /** Without a size a page is one of twenty. */
  lemma DefaultSize<T>(list: seq<T>, after: Option<string>)
    ensures Page(list, None, after) == Page(list, Some(20), after)
  {
  }

  /** What is no cursor: an odd number of digits, other characters, another prefix, no number, a negative one. */
  lemma CursorsByExample()
    ensures DecodeCursor("6") == Err(InvalidCursor) && DecodeCursor("zz") == Err(InvalidCursor)
    ensures DecodeCursor("") == Err(InvalidCursor) && ByteOf('+', '5') == Some(5) && ByteOf('6', 'F') == Some(0x6f)
    ensures forall s: string | IsAscii(s) && !(PREFIX <= s) :: DecodeCursor(Hex(s)) == Err(InvalidCursor)
    ensures forall s: string | IsAscii(s) && ParseI64(s).None? :: DecodeCursor(Hex(PREFIX + s)) == Err(InvalidCursor)
  {
    assert ByteOf('z', 'z') == None;
    assert "zz"[2..] == "";
    forall s: string | IsAscii(s) && !(PREFIX <= s) ensures DecodeCursor(Hex(s)) == Err(InvalidCursor) {
      UnhexHex(s);
    }
    forall s: string | IsAscii(s) && ParseI64(s).None? ensures DecodeCursor(Hex(PREFIX + s)) == Err(InvalidCursor) {
      assert IsAscii(PREFIX + s);
      UnhexHex(PREFIX + s);
      PrefixIsStripped(s);
    }
  }

  predicate SizesAllowed(sizes: seq<Option<int>>) {
    forall k | 0 <= k < |sizes| :: 1 <= sizes[k].Or(DEFAULT_PAGE_SIZE) <= MAX_PAGE_SIZE
  }

  /** A page starting at `offset`: what it holds, whether it says there is more, and where its cursor leads. */
  lemma PageAt<T>(list: seq<T>, first: Option<int>, after: Option<string>, offset: nat)
    requires |list| <= I64_MAX && offset <= |list| && 1 <= first.Or(DEFAULT_PAGE_SIZE) <= MAX_PAGE_SIZE
    requires if after.Some? then DecodeCursor(after.value) == Ok(offset) else offset == 0
    ensures
      var end := Min(|list|, offset + first.Or(DEFAULT_PAGE_SIZE));
      var page := Page(list, first, after);
      && page.Ok? && page.value.nodes == list[offset..end]
      && (page.value.hasNextPage <==> end < |list|)
      && (page.value.endCursor.Some? <==> offset < |list|)
      && (offset < |list| ==> DecodeCursor(page.value.endCursor.value) == Ok(end))
  {
    hide DecodeCursor, EncodeCursor;
    var end := Min(|list|, offset + first.Or(DEFAULT_PAGE_SIZE));
    if offset < |list| {
      CursorRoundTrip(end);
    }
  }

  datatype Walk<T> = Walk(nodes: seq<T>, pages: nat, finished: bool)

  /** Read pages, the k-th of the k-th size asked for, following `endCursor` while there is a next page. */
  function FollowPages<T>(list: seq<T>, sizes: seq<Option<int>>, after: Option<string>): Walk<T> {
    if sizes == [] then Walk([], 0, false)
    else
      var page := Page(list, sizes[0], after);
      if page.Err? then Walk([], 0, false)
      else if !page.value.hasNextPage then Walk(page.value.nodes, 1, true)
      else
        var rest := FollowPages(list, sizes[1..], page.value.endCursor);
        Walk(page.value.nodes + rest.nodes, 1 + rest.pages, rest.finished)
  }

  lemma {:induction false} FollowFrom<T>(list: seq<T>, sizes: seq<Option<int>>, after: Option<string>, offset: nat)
    requires |list| <= I64_MAX && offset <= |list| && SizesAllowed(sizes)
    requires if after.Some? then DecodeCursor(after.value) == Ok(offset) else offset == 0
    ensures
      var walk := FollowPages(list, sizes, after);
      && offset + |walk.nodes| <= |list| && walk.nodes == list[offset..offset + |walk.nodes|]
      && (walk.finished ==> offset + |walk.nodes| == |list|)
      && (!walk.finished ==> |walk.nodes| >= walk.pages == |sizes|)
  {
    hide Page, DecodeCursor;
    if sizes != [] {
      PageAt(list, sizes[0], after, offset);
      var page := Page(list, sizes[0], after).value;
      if page.hasNextPage {
        FollowFrom(list, sizes[1..], page.endCursor, offset + |page.nodes|);
        SlicesMeet(list, offset, offset + |page.nodes|,
                   offset + |page.nodes| + |FollowPages(list, sizes[1..], page.endCursor).nodes|);
      }
    }
  }

  lemma SlicesMeet<T>(list: seq<T>, a: nat, b: nat, c: nat)
    requires a <= b <= c <= |list|
    ensures list[a..b] + list[b..c] == list[a..c]
  {
  }

  /**
   Following `endCursor` while there is a next page visits the whole list, in order and each row once, whatever
   page sizes are asked for; and it ends after at most one page per row.
   */
  lemma PagesTileTheList<T>(list: seq<T>, sizes: seq<Option<int>>)
    requires |list| <= I64_MAX && SizesAllowed(sizes)
    ensures
      var walk := FollowPages(list, sizes, None);
      && walk.nodes <= list
      && (walk.finished ==> walk.nodes == list)
      && (|sizes| > |list| ==> walk.finished)
  {
    FollowFrom(list, sizes, None, 0);
    var walk := FollowPages(list, sizes, None);
    assert list[0..|walk.nodes|] == list[..|walk.nodes|];
    assert list[..|list|] == list;
  }

  /** Following the pages from any cursor the API could have handed out gives the rest of the list. */
  lemma PagesFromCursor<T>(list: seq<T>, sizes: seq<Option<int>>, offset: nat)
    requires |list| <= I64_MAX && SizesAllowed(sizes) && offset <= |list| && |sizes| > |list| - offset
    ensures FollowPages(list, sizes, Some(EncodeCursor(offset))).nodes == list[offset..]
  {
    CursorRoundTrip(offset);
    FollowFrom(list, sizes, Some(EncodeCursor(offset)), offset);
    var walk := FollowPages(list, sizes, Some(EncodeCursor(offset)));
    assert walk.finished;
    assert list[offset..|list|] == list[offset..];
  }
}
