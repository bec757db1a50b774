/** The ledger as the submission drivers see it: an append-only sequence of
    confirmed writes, and an oracle that decides the fate of each write. */
module Ledger {

  /** How one write ends: confirmed, with the block time the ledger assigned to it,
      or with an exception raised while sending the transaction or while waiting
      for its receipt. */
  datatype Attempt = Confirmed(blockTime: nat) | SendFailed | ReceiptFailed

  /** A stored record: the call's payload and the time the ledger stamped on it. */
  datatype Entry<C> = Entry(blockTime: nat, call: C)

  function TimeOf(a: Attempt): nat {
    if a.Confirmed? then a.blockTime else 0
  }

  /** One submission as the drivers' send helpers perform it: send the transaction,
      wait for its receipt, and report success only once the receipt is in hand.
      Returns the reported success and the ledger afterwards. */
  function Submit<C>(ledger: seq<Entry<C>>, call: C, a: Attempt): (r: (bool, seq<Entry<C>>))
    ensures r.0 <==> a.Confirmed?
    ensures |ledger| <= |r.1| && r.1[..|ledger|] == ledger
    ensures |r.1| == |ledger| + (if r.0 then 1 else 0)
    ensures r.0 ==> r.1[|ledger|] == Entry(a.blockTime, call)
  {
    match a
    case Confirmed(t) => (true, ledger + [Entry(t, call)])
    case SendFailed => (false, ledger)
    case ReceiptFailed => (false, ledger)
  }
}
