/** Accepted shares: the receipts that accounting, rewards and the coordinator exchange. */
module Shares {
  datatype Status = Pending | Deferred | Verified | NearMiss | Invalid | Stale

  /** A share's durable record. `number` is its journal sequence: the arrival order. */
  datatype Receipt = Receipt(
    number: nat, account: string, height: int, target: nat, feePpm: nat, status: Status)

  /** Neither verified nor rejected yet. */
  predicate Waiting(s: Status)
  {
    s == Pending || s == Deferred
  }
}
