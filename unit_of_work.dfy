/**
 * UnitOfWork (Repositories/UnitOfWork.cs): a form repository over one
 * DbContext, a nullable current transaction driven by begin, commit and
 * rollback, and a dispose-once flag.
 *
 * The connection allows one pending local transaction at a time. The
 * repository's commands are never enlisted in it, so while it is pending
 * they throw (`DbContext.InTransaction`): a rollback has no rows of theirs to
 * undo.
 */
module UnitOfWorks {
  import opened Wrappers
  import opened Store
  import opened FormRepositories

  /** Why a transaction operation throws. */
  datatype TransactionError =
    | ParallelTransactionsNotSupported  // the connection already has a pending local transaction
    | TransactionCompleted              // the transaction is no longer pending on the connection
    | OpenFailed                        // the database could not be reached to open the connection
    | BeginFailed                       // the database failed to begin the transaction
    | CompletionFailed                  // the database failed to commit or roll back

  class UnitOfWork {
    const db: DbContext
    const forms: FormRepository
    /** The serial number of the current transaction; None when there is none. */
    var transaction: Option<nat>
    var disposed: bool

    /** Until disposal, the current transaction is the one pending on the connection. */
    predicate TracksConnection()
      reads this, db
    {
      !disposed ==> transaction == db.pendingTransaction
    }

    /** Forms is created once, over the same DbContext the unit of work holds. */
    constructor (db: DbContext)
      ensures this.db == db && fresh(forms) && forms.db == db && forms.calls == []
      ensures transaction == None && !disposed
      ensures TracksConnection() <==> !db.InTransaction()
    {
      this.db := db;
      forms := new FormRepository(db);
      transaction := None;
      disposed := false;
    }

    /**
     * Opens the connection if it is not open, then begins a transaction and
     * makes it the current one. `openFails` and `beginFails` stand for a
     * failure of the database to open the connection or to begin the
     * transaction. The connection also refuses a second pending transaction.
     * Whenever the call throws, the current transaction stays as it was.
     */
    method BeginTransactionAsync(openFails: bool, beginFails: bool) returns (r: Outcome<TransactionError>)
      modifies this, db
      ensures db.tables == old(db.tables) && db.connectionDisposed == old(db.connectionDisposed)
      ensures disposed == old(disposed)
      ensures r.Fail? ==>
                && transaction == old(transaction)
                && db.pendingTransaction == old(db.pendingTransaction)
                && db.transactionsBegun == old(db.transactionsBegun)
                && db.transactionLog == old(db.transactionLog)
      ensures !old(db.connectionOpen) && openFails ==> r == Fail(OpenFailed) && unchanged(this, db)
      ensures old(db.connectionOpen) || !openFails ==>
                && db.connectionOpen
                && (old(db.InTransaction()) ==> r == Fail(ParallelTransactionsNotSupported))
                && (!old(db.InTransaction()) && beginFails ==> r == Fail(BeginFailed))
      ensures r == Pass <==> (old(db.connectionOpen) || !openFails) && !old(db.InTransaction()) && !beginFails
      ensures r == Pass ==>
                && transaction == Some(old(db.transactionsBegun))
                && db.pendingTransaction == transaction
                && db.transactionsBegun == old(db.transactionsBegun) + 1
                && db.transactionLog == old(db.transactionLog) + [Began(old(db.transactionsBegun))]
      ensures old(TracksConnection()) ==> TracksConnection()
      ensures old(TracksConnection()) && !disposed && old(transaction).Some? ==> r.Fail?
    {
      if !db.connectionOpen {
        if openFails {
          return Fail(OpenFailed);
        }
        db.connectionOpen := true;
      }
      if db.InTransaction() {
        return Fail(ParallelTransactionsNotSupported);
      }
      if beginFails {
        return Fail(BeginFailed);
      }
      var tx := db.transactionsBegun;
      db.transactionsBegun := tx + 1;
      db.pendingTransaction := Some(tx);
      db.transactionLog := db.transactionLog + [Began(tx)];
      transaction := Some(tx);
      r := Pass;
    }

    /**
     * Commits the current transaction and clears it; without one, does
     * nothing. When the commit throws (`fails`, or a transaction no longer
     * pending) the current transaction stays set.
     */
    method CommitTransactionAsync(fails: bool) returns (r: Outcome<TransactionError>)
      modifies this, db
      ensures old(transaction).None? ==> r == Pass && unchanged(this, db)
      ensures old(transaction).Some? && old(db.pendingTransaction) != old(transaction) ==>
                r == Fail(TransactionCompleted) && unchanged(this, db)
      ensures old(transaction).Some? && old(db.pendingTransaction) == old(transaction) && fails ==>
                r == Fail(CompletionFailed) && unchanged(this, db)
      ensures old(transaction).Some? && old(db.pendingTransaction) == old(transaction) && !fails ==>
                && r == Pass
                && transaction == None && db.pendingTransaction == None
                && db.transactionLog == old(db.transactionLog) + [Committed(old(transaction).value)]
                && db.tables == old(db.tables)
                && db.connectionOpen == old(db.connectionOpen)
                && db.connectionDisposed == old(db.connectionDisposed)
                && db.transactionsBegun == old(db.transactionsBegun)
                && disposed == old(disposed)
      ensures old(TracksConnection()) ==> TracksConnection()
    {
      if transaction.None? {
        return Pass;
      }
      if db.pendingTransaction != transaction {
        return Fail(TransactionCompleted);
      }
      if fails {
        return Fail(CompletionFailed);
      }
      db.transactionLog := db.transactionLog + [Committed(transaction.value)];
      db.pendingTransaction := None;
      transaction := None;
      r := Pass;
    }

    /**
     * Rolls back the current transaction and clears it; without one, does
     * nothing. When the rollback throws the current transaction stays set.
     * No table changes: no repository row can have been written under it.
     */
    method RollbackTransactionAsync(fails: bool) returns (r: Outcome<TransactionError>)
      modifies this, db
      ensures old(transaction).None? ==> r == Pass && unchanged(this, db)
      ensures old(transaction).Some? && old(db.pendingTransaction) != old(transaction) ==>
                r == Fail(TransactionCompleted) && unchanged(this, db)
      ensures old(transaction).Some? && old(db.pendingTransaction) == old(transaction) && fails ==>
                r == Fail(CompletionFailed) && unchanged(this, db)
      ensures old(transaction).Some? && old(db.pendingTransaction) == old(transaction) && !fails ==>
                && r == Pass
                && transaction == None && db.pendingTransaction == None
                && db.transactionLog == old(db.transactionLog) + [RolledBack(old(transaction).value)]
                && db.tables == old(db.tables)
                && db.connectionOpen == old(db.connectionOpen)
                && db.connectionDisposed == old(db.connectionDisposed)
                && db.transactionsBegun == old(db.transactionsBegun)
                && disposed == old(disposed)
      ensures old(TracksConnection()) ==> TracksConnection()
    {
      if transaction.None? {
        return Pass;
      }
      if db.pendingTransaction != transaction {
        return Fail(TransactionCompleted);
      }
      if fails {
        return Fail(CompletionFailed);
      }
      db.transactionLog := db.transactionLog + [RolledBack(transaction.value)];
      db.pendingTransaction := None;
      transaction := None;
      r := Pass;
    }

    /** There is no change tracker to flush: always reports success. */
    method SaveChangesAsync() returns (r: bool)
      ensures r
    {
      r := true;
    }

    /**
     * The first call disposes the current transaction (rolling it back when
     * it is still pending) and closes and disposes the connection, which
     * leaves no transaction pending; every later call does nothing. The
     * transaction field itself is not cleared.
     */
    method Dispose()
      modifies this, db
      ensures disposed
      ensures old(disposed) ==> unchanged(this, db)
      ensures !old(disposed) ==>
                && !db.connectionOpen && db.connectionDisposed
                && db.pendingTransaction == None
                && transaction == old(transaction)
                && db.transactionLog
                   == old(db.transactionLog)
                      + (if old(transaction).Some? && old(db.pendingTransaction) == old(transaction)
                         then [Disposed(old(transaction).value)] else [])
                && db.tables == old(db.tables)
                && db.transactionsBegun == old(db.transactionsBegun)
    {
      if !disposed {
        if transaction.Some? && db.pendingTransaction == transaction {
          db.transactionLog := db.transactionLog + [Disposed(transaction.value)];
        }
        db.connectionOpen := false;
        db.connectionDisposed := true;
        db.pendingTransaction := None;
        disposed := true;
      }
    }
  }
}
