/** The fail-fast submission loop both drivers share: calls are issued one at a
    time in order, a counter grows on each confirmed write, and the run stops at
    the first write that is not confirmed. */
module FailFast {
  import opened Ledger

  /** How a driver run ends. */
  datatype Exit = Completed | SubmissionFailed | OwnerRejected

  /** What a driver run leaves behind: how it ended, the number of planned writes,
      the success counter, the calls it issued in order, and the ledger afterwards. */
  datatype Report<C> = Report(exit: Exit, total: nat, stored: nat, issued: seq<C>, ledger: seq<Entry<C>>)

  /** The number of leading attempts that are confirmed, capped at n: the index of
      the first failing attempt, or n when none of the first n fails. */
  function FirstFailure(fate: nat -> Attempt, n: nat): (k: nat)
    ensures k <= n
    ensures forall j :: 0 <= j < k ==> fate(j).Confirmed?
    ensures k < n ==> !fate(k).Confirmed?
  {
    if n == 0 then 0
    else
      var k := FirstFailure(fate, n - 1);
      if k < n - 1 || !fate(n - 1).Confirmed? then k else n
  }

  /** The ledger entries written by the first k calls when all of them are confirmed. */
  function Confirmations<C>(calls: seq<C>, fate: nat -> Attempt, k: nat): (es: seq<Entry<C>>)
    requires k <= |calls|
    ensures |es| == k
    ensures forall j :: 0 <= j < k ==> es[j] == Entry(TimeOf(fate(j)), calls[j])
  {
    if k == 0 then [] else Confirmations(calls, fate, k - 1) + [Entry(TimeOf(fate(k - 1)), calls[k - 1])]
  }

  /** The reference outcome of a run: nothing at all when the owner check fails;
      otherwise every call up to and including the first failing one is issued,
      the counter holds the number of confirmed calls, and the ledger gains
      exactly their entries, in call order. */
  function Expected<C>(ownerOk: bool, calls: seq<C>, fate: nat -> Attempt, ledger0: seq<Entry<C>>): (r: Report<C>)
    ensures !ownerOk ==> r.exit == OwnerRejected && r.stored == 0 && r.issued == [] && r.ledger == ledger0
    ensures ownerOk ==> r.exit != OwnerRejected && r.total == |calls|
    ensures r.stored <= |r.issued| <= |calls| && r.issued == calls[..|r.issued|]
    ensures ownerOk ==> (r.exit == Completed <==> forall j :: 0 <= j < |calls| ==> fate(j).Confirmed?)
    ensures r.exit == Completed ==> r.stored == |calls| && r.issued == calls
    ensures r.exit == SubmissionFailed ==> |r.issued| == r.stored + 1 && !fate(r.stored).Confirmed?
    ensures forall j :: 0 <= j < r.stored ==> fate(j).Confirmed?
    ensures |r.ledger| == |ledger0| + r.stored && r.ledger[..|ledger0|] == ledger0
    ensures forall j :: 0 <= j < r.stored ==> r.ledger[|ledger0| + j] == Entry(TimeOf(fate(j)), calls[j])
  {
    if !ownerOk then Report(OwnerRejected, 0, 0, [], ledger0)
    else
      var k := FirstFailure(fate, |calls|);
      if k < |calls| then Report(SubmissionFailed, |calls|, k, calls[..k + 1], ledger0 + Confirmations(calls, fate, k))
      else Report(Completed, |calls|, k, calls, ledger0 + Confirmations(calls, fate, k))
  }

  /** A run whose first k calls were confirmed and whose call k failed ends as the
      reference outcome's failed run at k. */
  lemma ExpectedFailedAt<C>(calls: seq<C>, fate: nat -> Attempt, ledger0: seq<Entry<C>>, k: nat)
    requires k < |calls|
    requires forall j :: 0 <= j < k ==> fate(j).Confirmed?
    requires !fate(k).Confirmed?
    ensures Expected(true, calls, fate, ledger0)
         == Report(SubmissionFailed, |calls|, k, calls[..k + 1], ledger0 + Confirmations(calls, fate, k))
  {
    assert FirstFailure(fate, |calls|) == k;
  }

  /** A run whose calls were all confirmed ends as the reference outcome's completed run. */
  lemma ExpectedCompleted<C>(calls: seq<C>, fate: nat -> Attempt, ledger0: seq<Entry<C>>)
    requires forall j :: 0 <= j < |calls| ==> fate(j).Confirmed?
    ensures Expected(true, calls, fate, ledger0)
         == Report(Completed, |calls|, |calls|, calls, ledger0 + Confirmations(calls, fate, |calls|))
  {
    assert FirstFailure(fate, |calls|) == |calls|;
  }

  /** When every call is confirmed, a run from an empty ledger leaves exactly the
      confirmations of all calls: call k as entry k, stamped with its block time. */
  lemma CompletedLedger<C>(calls: seq<C>, fate: nat -> Attempt)
    requires forall j :: 0 <= j < |calls| ==> fate(j).Confirmed?
    ensures Expected(true, calls, fate, []).ledger == Confirmations(calls, fate, |calls|)
  {
    ExpectedCompleted(calls, fate, []);
    assert [] + Confirmations(calls, fate, |calls|) == Confirmations(calls, fate, |calls|);
  }

  /** The loop as a state machine: the next call to issue, the success counter,
      the halted flag and the ledger. */
  datatype Machine<C> = Machine(next: nat, stored: nat, halted: bool, ledger: seq<Entry<C>>)

  function Start<C>(ledger0: seq<Entry<C>>): Machine<C> {
    Machine(0, 0, false, ledger0)
  }

  /** One iteration: a halted or finished machine stays put; otherwise the next call
      is submitted, the counter grows only on success, and a failure halts. */
  function Step<C>(calls: seq<C>, fate: nat -> Attempt, m: Machine<C>): (m': Machine<C>)
    requires m.next <= |calls|
    ensures m'.next <= |calls|
  {
    if m.halted || m.next == |calls| then m
    else
      var (ok, ledger) := Submit(m.ledger, calls[m.next], fate(m.next));
      Machine(m.next + 1, m.stored + (if ok then 1 else 0), !ok, ledger)
  }

  /** What holds of the machine at every step of a run that started on ledger0. */
  ghost predicate Inv<C>(calls: seq<C>, fate: nat -> Attempt, ledger0: seq<Entry<C>>, m: Machine<C>) {
    && m.next <= |calls|
    && m.stored <= m.next
    && m.stored == (if m.halted then m.next - 1 else m.next)
    && (forall j :: 0 <= j < m.stored ==> fate(j).Confirmed?)
    && (m.halted ==> !fate(m.stored).Confirmed?)
    && m.ledger == ledger0 + Confirmations(calls, fate, m.stored)
  }

  /** The invariant holds initially and every step keeps it; the counter never
      decreases, and a halted machine never issues another call. */
  lemma StepKeepsInv<C>(calls: seq<C>, fate: nat -> Attempt, ledger0: seq<Entry<C>>, m: Machine<C>)
    requires Inv(calls, fate, ledger0, m)
    ensures Inv(calls, fate, ledger0, Start(ledger0))
    ensures Inv(calls, fate, ledger0, Step(calls, fate, m))
    ensures m.stored <= Step(calls, fate, m).stored <= m.stored + 1
    ensures m.halted ==> Step(calls, fate, m) == m
  {
    assert Inv(calls, fate, ledger0, Start(ledger0)) by {
      assert ledger0 + Confirmations(calls, fate, 0) == ledger0;
    }
    var m' := Step(calls, fate, m);
    if !m.halted && m.next < |calls| && fate(m.next).Confirmed? {
      assert m'.ledger == ledger0 + Confirmations(calls, fate, m'.stored) by {
        var e := Entry(TimeOf(fate(m.next)), calls[m.next]);
        var before := Confirmations(calls, fate, m.stored);
        assert m'.ledger == m.ledger + [e];
        assert Confirmations(calls, fate, m'.stored) == before + [e];
        assert ledger0 + (before + [e]) == (ledger0 + before) + [e];
      }
    }
  }

  /** A machine that halted on a failed write has produced the reference outcome's
      failed run. */
  lemma HaltedMeetsExpected<C>(calls: seq<C>, fate: nat -> Attempt, ledger0: seq<Entry<C>>, m: Machine<C>)
    requires Inv(calls, fate, ledger0, m) && m.halted
    ensures Expected(true, calls, fate, ledger0)
         == Report(SubmissionFailed, |calls|, m.stored, calls[..m.next], m.ledger)
  {
    ExpectedFailedAt(calls, fate, ledger0, m.stored);
  }

  /** A machine that issued every call without halting has produced the reference
      outcome's completed run. */
  lemma FinishedMeetsExpected<C>(calls: seq<C>, fate: nat -> Attempt, ledger0: seq<Entry<C>>, m: Machine<C>)
    requires Inv(calls, fate, ledger0, m) && !m.halted && m.next == |calls|
    ensures Expected(true, calls, fate, ledger0)
         == Report(Completed, |calls|, m.stored, calls, m.ledger)
  {
    ExpectedCompleted(calls, fate, ledger0);
  }

  /** Steps the machine until it halts or has issued every call. */
  function Run<C>(calls: seq<C>, fate: nat -> Attempt, m: Machine<C>): (m': Machine<C>)
    requires m.next <= |calls|
    ensures m'.next <= |calls|
    ensures m'.halted || m'.next == |calls|
    decreases |calls| - m.next
  {
    if m.halted || m.next == |calls| then m else Run(calls, fate, Step(calls, fate, m))
  }

  /** Running the machine from any reachable state ends where the reference outcome
      says: the same counter, halting exactly on a failed submission, the same
      issued calls and the same ledger. */
  lemma {:induction false} RunMeetsExpected<C>(calls: seq<C>, fate: nat -> Attempt, ledger0: seq<Entry<C>>, m: Machine<C>)
    requires Inv(calls, fate, ledger0, m)
    ensures var f := Run(calls, fate, m); var r := Expected(true, calls, fate, ledger0);
      && f.stored == r.stored
      && (f.halted <==> r.exit == SubmissionFailed)
      && calls[..f.next] == r.issued
      && f.ledger == r.ledger
    decreases |calls| - m.next
  {
    if m.halted || m.next == |calls| {
      var k := FirstFailure(fate, |calls|);
      assert k == m.stored;
      if !m.halted {
        assert calls[..m.next] == calls;
      }
    } else {
      StepKeepsInv(calls, fate, ledger0, m);
      RunMeetsExpected(calls, fate, ledger0, Step(calls, fate, m));
    }
  }

  /** The flat fail-fast loop: one write per call, in order, until a write fails. */
  method SubmitAll<C>(calls: seq<C>, fate: nat -> Attempt, ledger0: seq<Entry<C>>) returns (r: Report<C>)
    ensures r == Expected(true, calls, fate, ledger0)
  {
    var m := Start(ledger0);
    StepKeepsInv(calls, fate, ledger0, m);
    var i := 0;
    while i < |calls|
      invariant i <= |calls|
      invariant Inv(calls, fate, ledger0, m) && !m.halted
      invariant m.next == i
    {
      StepKeepsInv(calls, fate, ledger0, m);
      m := Step(calls, fate, m);
      if m.halted {
        HaltedMeetsExpected(calls, fate, ledger0, m);
        return Report(SubmissionFailed, |calls|, m.stored, calls[..m.next], m.ledger);
      }
      i := i + 1;
    }
    FinishedMeetsExpected(calls, fate, ledger0, m);
    return Report(Completed, |calls|, m.stored, calls, m.ledger);
  }
}
