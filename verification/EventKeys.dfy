/** The identity of a chain event (`eventDedupeKey` in `indexer/src/events.js`). */
module EventKeys {
  import opened Prelude
  import opened Decimal
  import opened Texts

  /** What the key is made from: `explicitIndex` is the text of `eventIndex` or `index`, whichever is given. */
  datatype ChainPosition = ChainPosition(ledger: nat, txHash: Option<string>, id: string, explicitIndex: Option<string>)

  function Transaction(event: ChainPosition): string {
    event.txHash.Or("unknown")
  }

  /** What follows the last dash; nothing if there is none. */
  function Suffix(id: string): string {
    if id == "" then ""
    else if id[|id| - 1] == '-' then ""
    else if '-' in id[..|id| - 1] then Suffix(id[..|id| - 1]) + [id[|id| - 1]]
    else ""
  }

  predicate HasNumericSuffix(id: string) {
    Suffix(id) != "" && AllDigits(Suffix(id))
  }

  function IndexText(event: ChainPosition): string {
    if event.explicitIndex.Some? then event.explicitIndex.value
    else if HasNumericSuffix(event.id) then Print(Value(Suffix(event.id)))
    else event.id
  }

  function DedupeKey(event: ChainPosition): string {
    Print(event.ledger) + ":" + Transaction(event) + ":" + IndexText(event)
  }

  lemma DigitsHoldNoColon(s: string)
    requires AllDigits(s)
    ensures ':' !in s
  {
  }

  /** For transactions named without a colon, equal keys mean equal ledger, transaction and index, and conversely. */
  lemma KeyIsInjective(a: ChainPosition, b: ChainPosition)
    requires ':' !in Transaction(a) && ':' !in Transaction(b)
    ensures DedupeKey(a) == DedupeKey(b) <==>
            a.ledger == b.ledger && Transaction(a) == Transaction(b) && IndexText(a) == IndexText(b)
  {
    var restA, restB := Transaction(a) + ":" + IndexText(a), Transaction(b) + ":" + IndexText(b);
    DigitsHoldNoColon(Print(a.ledger));
    DigitsHoldNoColon(Print(b.ledger));
    assert DedupeKey(a) == Print(a.ledger) + ":" + restA && DedupeKey(b) == Print(b.ledger) + ":" + restB;
    FirstMarkSplits(Print(a.ledger), restA, Print(b.ledger), restB, ':');
    FirstMarkSplits(Transaction(a), IndexText(a), Transaction(b), IndexText(b), ':');
    PrintIsInjective(a.ledger, b.ledger);
  }

  /** The events of one transaction that carry no index of their own. */
  predicate SameTransaction(a: ChainPosition, b: ChainPosition) {
    && a.ledger == b.ledger && Transaction(a) == Transaction(b) && ':' !in Transaction(a)
    && a.explicitIndex.None? && b.explicitIndex.None?
  }

  /** `plain` has no numeric suffix and is itself the number another id ends in. */
  predicate NamesSuffixOf(plain: string, id: string) {
    !HasNumericSuffix(plain) && HasNumericSuffix(id) && AllDigits(plain) && plain == Print(Value(Suffix(id)))
  }

  /**
   When two events of a transaction without an index of their own share a key: their ids are the same, end in the
   same number, or one is the bare number that the other ends in.
   */
  lemma WhenIdsCollide(a: ChainPosition, b: ChainPosition)
    requires SameTransaction(a, b)
    ensures DedupeKey(a) == DedupeKey(b) <==>
            || a.id == b.id
            || (HasNumericSuffix(a.id) && HasNumericSuffix(b.id) && Value(Suffix(a.id)) == Value(Suffix(b.id)))
            || NamesSuffixOf(a.id, b.id) || NamesSuffixOf(b.id, a.id)
  {
    KeyIsInjective(a, b);
    if HasNumericSuffix(a.id) && HasNumericSuffix(b.id) {
      PrintIsInjective(Value(Suffix(a.id)), Value(Suffix(b.id)));
    }
  }

  /** An id used verbatim can share its key with another event of the transaction. */
  lemma VerbatimIdsCanCollide()
    ensures
      var plain := ChainPosition(5, Some("tx"), "1", None);
      var dashed := ChainPosition(5, Some("tx"), "0005-1", None);
      plain.id != dashed.id && DedupeKey(plain) == DedupeKey(dashed)
  {
    var plain := ChainPosition(5, Some("tx"), "1", None);
    var dashed := ChainPosition(5, Some("tx"), "0005-1", None);
    assert plain.id != dashed.id by {
      assert |plain.id| != |dashed.id|;
    }
    SuffixesOfExample();
    OnePrints();
    hide Suffix, Print, Value;
    assert IndexText(plain) == "1" && IndexText(dashed) == "1";
  }

  lemma SuffixesOfExample()
    ensures Suffix("0005-1") == "1" && Suffix("1") == ""
  {
    assert "0005-1"[..5] == "0005-";
    assert Suffix("0005-") == "";
    assert "1"[..0] == "";
  }

  lemma OnePrints()
    ensures Print(Value("1")) == "1"
  {
    assert Print(1) == "1";
    ValueOfPrint(1);
  }

  /** An index the RPC gives itself decides, whatever the id. */
  lemma ExplicitIndexDecides(a: ChainPosition, b: ChainPosition)
    requires ':' !in Transaction(a) && ':' !in Transaction(b) && a.explicitIndex.Some? && b.explicitIndex.Some?
    ensures DedupeKey(a) == DedupeKey(b) <==>
            a.ledger == b.ledger && Transaction(a) == Transaction(b) && a.explicitIndex == b.explicitIndex
  {
    KeyIsInjective(a, b);
  }

  /** An explicit index and the number an id ends in give the same key. */
  lemma ExplicitMatchesSuffix(ledger: nat, txHash: Option<string>, id: string, id': string)
    requires HasNumericSuffix(id)
    ensures DedupeKey(ChainPosition(ledger, txHash, id, None))
            == DedupeKey(ChainPosition(ledger, txHash, id', Some(Print(Value(Suffix(id))))))
  {
  }

  lemma IndexesByExample(txHash: Option<string>)
    ensures IndexText(ChainPosition(4, txHash, "0005-1", None)) == "1"
    ensures IndexText(ChainPosition(4, txHash, "0005-1", Some("2"))) == "2"
    ensures IndexText(ChainPosition(4, txHash, "abc", None)) == "abc"
  {
    SuffixesOfExample();
    OnePrints();
    assert Suffix("abc") == "" by {
      assert "abc"[2] == 'c' && '-' !in "abc"[..2];
    }
    hide Suffix, Print, Value;
  }

  lemma FourPrints()
    ensures Print(4) == "4"
  {
  }

  lemma KeyOfParts(id: string, explicitIndex: Option<string>)
    ensures
      var e := ChainPosition(4, Some("tx"), id, explicitIndex);
      DedupeKey(e) == "4:tx:" + IndexText(e)
    ensures
      var e := ChainPosition(4, None, id, explicitIndex);
      DedupeKey(e) == "4:unknown:" + IndexText(e)
  {
    FourPrints();
    hide Print, IndexText;
    assert "4" + ":" + "tx" + ":" == "4:tx:" && "4" + ":" + "unknown" + ":" == "4:unknown:";
  }

  /** Keys by example: the id's last part without leading zeros; an explicit index; an opaque id; no transaction. */
  lemma KeysByExample()
    ensures DedupeKey(ChainPosition(4, Some("tx"), "0005-1", None)) == "4:tx:1"
    ensures DedupeKey(ChainPosition(4, Some("tx"), "0005-1", Some("2"))) == "4:tx:2"
    ensures DedupeKey(ChainPosition(4, Some("tx"), "abc", None)) == "4:tx:abc"
    ensures DedupeKey(ChainPosition(4, None, "abc", None)) == "4:unknown:abc"
  {
    hide Print, IndexText, DedupeKey, Transaction;
    KeyOfParts("0005-1", None);
    KeyOfParts("0005-1", Some("2"));
    KeyOfParts("abc", None);
    IndexesByExample(Some("tx"));
    IndexesByExample(None);
  }
}
