/**
 * The unit of work: one database context, at most one open database
 * transaction, lazily created repositories, and the translation of save
 * failures into the application's own errors.
 *
 * The calls it makes into the data-access library (begin, commit, rollback,
 * release of a transaction, release of the context, the underlying save) are
 * recorded in `log`, in the order they are made; whether such a call throws
 * is an input to the method that makes it.
 */
module UnitOfWorks {
  import opened Wrappers
  import opened Time
  import opened DataContext

  /** The ten entity kinds the unit of work hands out a repository for. */
  datatype EntityKind =
    | Users | Portfolios | Assets | PortfolioPositions | Transactions
    | PriceAlerts | Watchlists | WatchlistItems | MarketDataCaches | AuditLogs

  /** A library call that threw, passed on to the caller unchanged. */
  datatype LibraryFault = SaveFault(failure: SaveFailure) | BeginFault | CommitFault | RollbackFault

  datatype Error =
    | InvalidOperation(message: string)   // thrown by the unit of work itself
    | Library(fault: LibraryFault)        // rethrown from the library as it came

  /** How an operation with no result ended. */
  datatype Outcome = Done | Failed(error: Error)

  /** A database transaction handle, numbered in the order they were begun. */
  type TxHandle = nat

  datatype Event =
    | TxBeginCalled(h: TxHandle)
    | ContextSaved
    | TxCommitCalled(h: TxHandle)
    | TxRollbackCalled(h: TxHandle)
    | TxReleased(h: TxHandle)
    | ContextReleased

  /** No transaction handle is released twice in `log`. */
  ghost predicate ReleasedAtMostOnce(log: seq<Event>) {
    forall i, j :: 0 <= i < j < |log| && log[i].TxReleased? && log[j].TxReleased? ==> log[i].h != log[j].h
  }

  /** `log` holds no release of handle `h`. */
  ghost predicate NotReleased(log: seq<Event>, h: TxHandle) {
    forall i :: 0 <= i < |log| && log[i].TxReleased? ==> log[i].h != h
  }

  /** Every handle `log` releases was begun before handle `n`. */
  ghost predicate ReleasedBelow(log: seq<Event>, n: nat) {
    forall i :: 0 <= i < |log| && log[i].TxReleased? ==> log[i].h < n
  }

  /**
   * Appending events that release nothing but (possibly) one handle not yet
   * released keeps every handle released at most once, and that handle is
   * then released.
   */
  lemma {:induction false} ReleaseOnce(log: seq<Event>, more: seq<Event>, h: TxHandle, n: nat)
    requires ReleasedAtMostOnce(log) && NotReleased(log, h) && ReleasedBelow(log, n) && h < n
    requires forall k :: 0 <= k < |more| && more[k].TxReleased? ==> more[k].h == h
    requires forall k, l :: 0 <= k < l < |more| && more[k].TxReleased? ==> !more[l].TxReleased?
    ensures ReleasedAtMostOnce(log + more) && ReleasedBelow(log + more, n)
    ensures (exists k :: 0 <= k < |more| && more[k].TxReleased?) ==> !NotReleased(log + more, h)
    ensures (forall k :: 0 <= k < |more| ==> !more[k].TxReleased?) ==> NotReleased(log + more, h)
  {
    var all := log + more;
    forall i, j | 0 <= i < j < |all| && all[i].TxReleased? && all[j].TxReleased?
      ensures all[i].h != all[j].h
    {
      if j < |log| {
        assert all[i] == log[i] && all[j] == log[j];
      } else if i < |log| {
        assert all[i] == log[i] && all[j] == more[j - |log|];
      }
    }
    forall i | 0 <= i < |all| && all[i].TxReleased? ensures all[i].h < n {
      if i < |log| {
        assert all[i] == log[i];
      } else {
        assert all[i] == more[i - |log|];
      }
    }
    if exists k :: 0 <= k < |more| && more[k].TxReleased? {
      var k :| 0 <= k < |more| && more[k].TxReleased?;
      assert all[|log| + k] == more[k];
    }
    if forall k :: 0 <= k < |more| ==> !more[k].TxReleased? {
      forall i | 0 <= i < |all| && all[i].TxReleased? ensures all[i].h != h {
        if i < |log| {
          assert all[i] == log[i];
        }
      }
    }
  }

  const ConcurrencyMessage := "A concurrency error occurred while saving changes. The record may have been modified by another user."
  const SaveErrorMessage := "An error occurred while saving changes to the database."
  const AlreadyInProgressMessage := "A transaction is already in progress."
  const NoTransactionMessage := "No transaction is currently in progress."

  /**
   * The unit of work's own save: a concurrency conflict becomes the
   * concurrency error; any other update failure becomes the generic save
   * error; anything else passes through. The conflict is tested first, so
   * it keeps its own message although it is also an update failure.
   */
  function TranslateSave(res: Result<nat, SaveFailure>): (r: Result<nat, Error>)
    ensures res.Ok? <==> r.Ok?
    ensures res.Ok? ==> r.value == res.value
    ensures res.Err? && IsUpdateException(res.error) <==> r.Err? && r.error.InvalidOperation?
    ensures res == Err(ConcurrencyConflict) <==> r == Err(InvalidOperation(ConcurrencyMessage))
    ensures res == Err(UpdateFailure) <==> r == Err(InvalidOperation(SaveErrorMessage))
    ensures res.Err? && !IsUpdateException(res.error) ==> r == Err(Library(SaveFault(res.error)))
  {
    match res
    case Ok(rows) => Ok(rows)
    case Err(f) =>
      if f.ConcurrencyConflict? then Err(InvalidOperation(ConcurrencyMessage))
      else if IsUpdateException(f) then Err(InvalidOperation(SaveErrorMessage))
      else Err(Library(SaveFault(f)))
  }

  /** A generic repository over the context, for one entity kind. */
  class Repository {
    const kind: EntityKind
    const context: IPSDbContext

    constructor (kind: EntityKind, context: IPSDbContext)
      ensures this.kind == kind && this.context == context
    {
      this.kind := kind;
      this.context := context;
    }
  }

  class UnitOfWork {
    const context: IPSDbContext
    var transaction: Option<TxHandle>
    var disposed: bool
    /** The repositories created so far, one per kind asked for. */
    var repositories: map<EntityKind, Repository>
    var log: seq<Event>
    /** Handles begun so far; the next one gets this number. */
    var begun: nat

    ghost predicate Valid()
      reads this
    {
      && (forall k :: k in repositories ==> repositories[k].kind == k && repositories[k].context == context)
      && (transaction.Some? ==> transaction.value < begun)
      && ReleasedAtMostOnce(log) && ReleasedBelow(log, begun)
      && (transaction.Some? ==> NotReleased(log, transaction.value))
    }

    constructor (context: IPSDbContext)
      ensures Valid()
      ensures this.context == context
      ensures transaction.None? && !disposed && repositories == map[] && log == [] && begun == 0
    {
      this.context := context;
      transaction := None;
      disposed := false;
      repositories := map[];
      log := [];
      begun := 0;
    }

    /**
     * The repository getters: the first access for a kind creates its
     * repository over this context and keeps it; every later access returns
     * that same instance.
     */
    method GetRepository(kind: EntityKind) returns (r: Repository)
      requires Valid()
      modifies this
      ensures Valid()
      ensures r.kind == kind && r.context == context
      ensures repositories == old(repositories)[kind := r]
      ensures kind in old(repositories) ==> r == old(repositories)[kind]
      ensures kind !in old(repositories) ==> fresh(r)
      ensures transaction == old(transaction) && disposed == old(disposed)
      ensures log == old(log) && begun == old(begun)
    {
      if kind in repositories {
        r := repositories[kind];
      } else {
        r := new Repository(kind, context);
        repositories := repositories[kind := r];
      }
    }

    /** Saves through the context and translates what the save throws. */
    method SaveChanges(clock: nat -> DateTime, baseResult: Result<nat, SaveFailure>) returns (r: Result<nat, Error>)
      requires Valid()
      modifies this, context.entries
      ensures Valid()
      ensures r == TranslateSave(baseResult)
      ensures context.entries[..] == StampAll(old(context.entries[..]), clock)
      ensures log == old(log) + [ContextSaved]
      ensures transaction == old(transaction) && disposed == old(disposed)
      ensures repositories == old(repositories) && begun == old(begun)
    {
      var saved := context.SaveChangesAsync(clock, baseResult);
      log := log + [ContextSaved];
      r := TranslateSave(saved);
    }

    /**
     * Opens a database transaction; refused while one is open, in which case
     * nothing changes. If the library throws, no transaction is open.
     */
    method BeginTransaction(beginThrows: bool) returns (o: Outcome)
      requires Valid()
      modifies this
      ensures Valid()
      ensures old(transaction).Some? ==> o == Failed(InvalidOperation(AlreadyInProgressMessage)) && unchanged(this)
      ensures old(transaction).None? && beginThrows ==>
        o == Failed(Library(BeginFault)) && transaction.None? && log == old(log) + [TxBeginCalled(old(begun))]
      ensures old(transaction).None? && !beginThrows ==>
        o == Done && transaction == Some(old(begun)) && log == old(log) + [TxBeginCalled(old(begun))]
      ensures old(transaction).None? ==> begun == old(begun) + 1
      ensures disposed == old(disposed) && repositories == old(repositories)
    {
      if transaction.Some? {
        return Failed(InvalidOperation(AlreadyInProgressMessage));
      }
      log := log + [TxBeginCalled(begun)];
      var h := begun;
      begun := begun + 1;
      if beginThrows {
        return Failed(Library(BeginFault));
      }
      transaction := Some(h);
      o := Done;
    }

    /**
     * Rolls back the open transaction; refused when none is open, in which
     * case nothing changes. Whether or not the rollback throws, the handle is
     * released once and no transaction is open afterwards.
     */
    method RollbackTransaction(rollbackThrows: bool) returns (o: Outcome)
      requires Valid()
      modifies this
      ensures Valid()
      ensures old(transaction).None? ==> o == Failed(InvalidOperation(NoTransactionMessage)) && unchanged(this)
      ensures old(transaction).Some? ==>
        && transaction.None?
        && log == old(log) + [TxRollbackCalled(old(transaction).value), TxReleased(old(transaction).value)]
        && o == (if rollbackThrows then Failed(Library(RollbackFault)) else Done)
      ensures disposed == old(disposed) && repositories == old(repositories) && begun == old(begun)
    {
      if transaction.None? {
        return Failed(InvalidOperation(NoTransactionMessage));
      }
      var h := transaction.value;
      // try: the rollback itself
      log := log + [TxRollbackCalled(h)];
      o := if rollbackThrows then Failed(Library(RollbackFault)) else Done;
      // finally: release the handle if it is still held
      if transaction.Some? {
        ReleaseOnce(log, [TxReleased(h)], h, begun);
        log := log + [TxReleased(h)];
        transaction := None;
      }
    }

    /**
     * Saves through the context (without translating its errors) and commits.
     * If either throws, the transaction is rolled back before the error is
     * passed on; an exception from that rollback replaces the first one. On
     * every path the handle is released exactly once and no transaction is
     * open afterwards. Refused, changing nothing, when no transaction is open.
     */
    method CommitTransaction(clock: nat -> DateTime, baseResult: Result<nat, SaveFailure>, commitThrows: bool, rollbackThrows: bool)
      returns (o: Outcome)
      requires Valid()
      modifies this, context.entries
      ensures Valid()
      ensures old(transaction).None? ==>
        && o == Failed(InvalidOperation(NoTransactionMessage))
        && unchanged(this) && context.entries[..] == old(context.entries[..])
      ensures old(transaction).Some? ==> transaction.None?
      ensures old(transaction).Some? ==> context.entries[..] == StampAll(old(context.entries[..]), clock)
      ensures old(transaction).Some? && baseResult.Ok? && !commitThrows ==>
        var h := old(transaction).value;
        o == Done && log == old(log) + [ContextSaved, TxCommitCalled(h), TxReleased(h)]
      ensures old(transaction).Some? && baseResult.Err? ==>
        var h := old(transaction).value;
        && log == old(log) + [ContextSaved, TxRollbackCalled(h), TxReleased(h)]
        && o == Failed(Library(if rollbackThrows then RollbackFault else SaveFault(baseResult.error)))
      ensures old(transaction).Some? && baseResult.Ok? && commitThrows ==>
        var h := old(transaction).value;
        && log == old(log) + [ContextSaved, TxCommitCalled(h), TxRollbackCalled(h), TxReleased(h)]
        && o == Failed(Library(if rollbackThrows then RollbackFault else CommitFault))
      ensures disposed == old(disposed) && repositories == old(repositories) && begun == old(begun)
    {
      if transaction.None? {
        return Failed(InvalidOperation(NoTransactionMessage));
      }
      var h := transaction.value;
      // try: save, then commit
      var fault: Option<LibraryFault> := None;
      var saved := context.SaveChangesAsync(clock, baseResult);
      log := log + [ContextSaved];
      if saved.Err? {
        fault := Some(SaveFault(saved.error));
      } else {
        log := log + [TxCommitCalled(h)];
        if commitThrows {
          fault := Some(CommitFault);
        }
      }
      o := Done;
      if fault.Some? {
        // catch: roll back, then rethrow (unless the rollback threw instead)
        var rolledBack := RollbackTransaction(rollbackThrows);
        o := if rolledBack.Failed? then rolledBack else Failed(Library(fault.value));
      }
      // finally: release the handle if the rollback has not already done so
      if transaction.Some? {
        ReleaseOnce(log, [TxReleased(h)], h, begun);
        log := log + [TxReleased(h)];
        transaction := None;
      }
    }

    /**
     * Releases resources once. With `disposing`, an open transaction is
     * released and forgotten, then the context is released; without it
     * (the finalizer's path) nothing is released. Either way the unit of work
     * is marked disposed, and later calls change nothing.
     */
    method DisposeCore(disposing: bool)
      requires Valid()
      modifies this
      ensures Valid()
      ensures old(disposed) ==> unchanged(this)
      ensures disposed
      ensures !old(disposed) && disposing ==>
        && transaction.None?
        && log == old(log) + (if old(transaction).Some? then [TxReleased(old(transaction).value)] else []) + [ContextReleased]
      ensures !old(disposed) && !disposing ==> log == old(log) && transaction == old(transaction)
      ensures repositories == old(repositories) && begun == old(begun)
    {
      if !disposed {
        if disposing {
          if transaction.Some? {
            ReleaseOnce(log, [TxReleased(transaction.value)], transaction.value, begun);
            log := log + [TxReleased(transaction.value)];
            transaction := None;
          }
          log := log + [ContextReleased];
        }
        disposed := true;
      }
    }

    /** `Dispose()`: the disposing path; a second call changes nothing. */
    method Dispose()
      requires Valid()
      modifies this
      ensures Valid() && disposed
      ensures old(disposed) ==> unchanged(this)
      ensures !old(disposed) ==> transaction.None?
      ensures !old(disposed) ==>
        log == old(log) + (if old(transaction).Some? then [TxReleased(old(transaction).value)] else []) + [ContextReleased]
      ensures repositories == old(repositories) && begun == old(begun)
    {
      DisposeCore(true);
    }

    /** The finalizer's body: the non-disposing path, which releases nothing. */
    method Finalize()
      requires Valid()
      modifies this
      ensures Valid() && disposed
      ensures log == old(log) && transaction == old(transaction)
      ensures repositories == old(repositories) && begun == old(begun)
    {
      DisposeCore(false);
    }
  }
}
