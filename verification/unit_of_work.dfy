/** `PgUnitOfWork::run_in_transaction` (infra/src/tx/mod.rs): begin, run the work, then commit on
    success or roll back on failure. The database is a snapshot: whatever the work wrote is
    discarded whenever the transaction does not end in a successful commit. */
module UnitOfWork {
  import opened Common
  import opened Tables

  /** The failures of the three transaction statements (`Some(reason)` when one fails). */
  datatype TxFaults = TxFaults(begin: Fault, commit: Fault, rollback: Fault)

  const NoTxFaults: TxFaults := TxFaults(None, None, None)

  const BeginFailed: string := "Failed to start transaction!"
  const CommitFailed: string := "Failed to commit transaction!"
  const RollbackFailed: string := "Failed to rollback after transaction failure!"

  /** Run `work` on the state `s` inside one transaction. */
  function RunInTransaction<S, T>(s: S, work: S -> Outcome<S, T>, faults: TxFaults): (o: Outcome<S, T>)
    // atomicity: a failed transaction leaves no trace
    ensures o.result.Err? ==> o.state == s
    // a successful one is exactly the work's outcome
    ensures o.result.Ok? ==> faults.begin.None? && faults.commit.None? && o == work(s)
    ensures faults.begin.Some? ==> o == Outcome(s, Err(WithPrivate(InternalKind, BeginFailed, faults.begin.value)))
    ensures faults.begin.None? && work(s).result.Ok? ==>
      (if faults.commit.None? then o == work(s)
       else o.result == Err(WithPrivate(InternalKind, CommitFailed, faults.commit.value)))
    ensures faults.begin.None? && work(s).result.Err? ==>
      o.result == (if faults.rollback.None? then work(s).result
                   else Err(WithPrivate(InternalKind, RollbackFailed, faults.rollback.value)))
  {
    if faults.begin.Some? then Outcome(s, Err(WithPrivate(InternalKind, BeginFailed, faults.begin.value)))
    else
      var done := work(s);
      match done.result
      case Ok(_) =>
        if faults.commit.Some? then Outcome(s, Err(WithPrivate(InternalKind, CommitFailed, faults.commit.value)))
        else done
      case Err(e) =>
        if faults.rollback.Some? then Outcome(s, Err(WithPrivate(InternalKind, RollbackFailed, faults.rollback.value)))
        else Outcome(s, Err(e))
  }

  /** When `begin` fails the work is never run: two different pieces of work give the same
      outcome. */
  lemma BeginFailureSkipsWork<S, T>(s: S, w1: S -> Outcome<S, T>, w2: S -> Outcome<S, T>, faults: TxFaults)
    requires faults.begin.Some?
    ensures RunInTransaction(s, w1, faults) == RunInTransaction(s, w2, faults)
  {
  }

  /** Without infrastructure failures the transaction keeps the work's result and publishes its
      writes exactly when that result is `Ok`. */
  lemma FaultFreeTransaction<S, T>(s: S, work: S -> Outcome<S, T>)
    ensures RunInTransaction(s, work, NoTxFaults).result == work(s).result
    ensures RunInTransaction(s, work, NoTxFaults).state == (if work(s).result.Ok? then work(s).state else s)
  {
  }

  /** Every error the transaction reports is either the work's own error or an `Internal` error
      of the transaction machinery. */
  lemma TransactionErrorsAreAccountedFor<S, T>(s: S, work: S -> Outcome<S, T>, faults: TxFaults)
    ensures RunInTransaction(s, work, faults).result.Err? ==>
      RunInTransaction(s, work, faults).result == work(s).result ||
      (KindOf(RunInTransaction(s, work, faults).result.error) == InternalKind &&
       RunInTransaction(s, work, faults).result.error.base.publicInfo in {BeginFailed, CommitFailed, RollbackFailed})
  {
  }
}
