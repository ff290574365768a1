/** When a ledger may be indexed, and when the chain head has moved backwards (`indexer/src/finality.js`). */
module Finality {
  import opened Prelude

  const DEFAULT_FINALITY_LAG: nat := 2

  /** The newest ledger with at least `lag` ledgers closed on top of it, or 0. */
  function FinalLedgerFor(latest: nat, lag: nat): (final: nat)
    ensures final <= latest
    ensures 0 < final ==> final + lag == latest
    ensures final == 0 ==> latest <= lag
  {
    Max(0, latest - lag)
  }

  datatype Rollback = Rollback(fromLedger: nat, toLedger: nat, rewindTo: nat)

  function DetectReorg(previous: nat, latest: nat, lag: nat): (rollback: Option<Rollback>)
    ensures rollback.Some? <==> latest < previous
    ensures rollback.Some? ==> rollback.value.rewindTo <= rollback.value.toLedger < rollback.value.fromLedger
  {
    if previous == 0 || latest >= previous then None
    else Some(Rollback(previous, latest, FinalLedgerFor(latest, lag)))
  }

  /** A higher head never takes finality away from a ledger. */
  lemma FinalityIsMonotone(low: nat, high: nat, lag: nat)
    requires low <= high
    ensures FinalLedgerFor(low, lag) <= FinalLedgerFor(high, lag) <= high
  {
  }
}
