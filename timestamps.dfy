/**
 * The database context's save path: before every save the change tracker's
 * entries are walked once, and entries being inserted or updated get their
 * `CreatedAt`/`UpdatedAt` properties stamped from the clock.
 */
module DataContext {
  import opened Wrappers
  import opened Time

  /** The change tracker's states for an entity. */
  datatype EntityState = Detached | Unchanged | Deleted | Modified | Added

  /**
   * One change-tracker entry. `createdAt`/`updatedAt` are `None` where the
   * pass's `!= null` guard on the property lookup fails, and `otherValues`
   * holds every other property's current value. (The data-access library
   * throws, rather than answering null, for a property the entity type does
   * not declare; that exception is not modelled.)
   */
  datatype Entry = Entry(
    state: EntityState,
    otherValues: map<string, string>,
    createdAt: Option<DateTime>,
    updatedAt: Option<DateTime>)

  /**
   * How the underlying save ended: rows written, or the kind of exception it
   * threw. A concurrency conflict is itself a kind of update failure.
   */
  datatype SaveFailure = ConcurrencyConflict | UpdateFailure | OtherFailure

  predicate IsUpdateException(f: SaveFailure) {
    f.ConcurrencyConflict? || f.UpdateFailure?
  }

  /** How many times the pass reads the clock for one entry. */
  function ClockReadsFor(e: Entry): (n: nat)
    ensures n <= 2
    ensures e.state != Added && e.state != Modified ==> n == 0
  {
    match e.state
    case Modified => if e.updatedAt.Some? then 1 else 0
    case Added => (if e.createdAt.Some? then 1 else 0) + (if e.updatedAt.Some? then 1 else 0)
    case _ => 0
  }

  /** Clock reads the pass makes for all of `es`. */
  function ClockReads(es: seq<Entry>): nat {
    if es == [] then 0 else ClockReads(es[..|es| - 1]) + ClockReadsFor(es[|es| - 1])
  }

  /**
   * One entry after the pass, when the clock's readings so far number `n`:
   * the n-th reading of the clock is `clock(n)`. A Modified entry gets a new
   * `UpdatedAt`; an Added entry gets a new `CreatedAt` and then a new
   * `UpdatedAt`, from two separate readings. A property whose lookup the
   * null guard rejects is skipped.
   */
  function StampEntry(e: Entry, clock: nat -> DateTime, n: nat): (r: Entry)
    ensures r.state == e.state && r.otherValues == e.otherValues
    ensures r.createdAt.Some? == e.createdAt.Some? && r.updatedAt.Some? == e.updatedAt.Some?
    ensures e.state != Added && e.state != Modified ==> r == e
    ensures e.state == Modified ==> r.createdAt == e.createdAt
    ensures e.state == Modified && e.updatedAt.Some? ==> r.updatedAt == Some(clock(n))
    ensures e.state == Added && e.createdAt.Some? ==> r.createdAt == Some(clock(n))
    ensures e.state == Added && e.updatedAt.Some? ==>
      r.updatedAt == Some(clock(n + ClockReadsFor(e) - 1))
  {
    match e.state
    case Modified =>
      if e.updatedAt.Some? then e.(updatedAt := Some(clock(n))) else e
    case Added =>
      var created := if e.createdAt.Some? then Some(clock(n)) else None;
      var m := if e.createdAt.Some? then n + 1 else n;
      var updated := if e.updatedAt.Some? then Some(clock(m)) else None;
      e.(createdAt := created, updatedAt := updated)
    case _ => e
  }

  /** All entries after the pass: each is stamped with the readings that follow its predecessors'. */
  function StampAll(es: seq<Entry>, clock: nat -> DateTime): (r: seq<Entry>)
    ensures |r| == |es|
  {
    if es == [] then []
    else
      var init := es[..|es| - 1];
      StampAll(init, clock) + [StampEntry(es[|es| - 1], clock, ClockReads(init))]
  }

  /** Entry i after the pass is entry i stamped with the readings taken after those of entries 0..i-1. */
  lemma {:induction false} StampAllAt(es: seq<Entry>, clock: nat -> DateTime, i: nat)
    requires i < |es|
    ensures StampAll(es, clock)[i] == StampEntry(es[i], clock, ClockReads(es[..i]))
  {
    var init := es[..|es| - 1];
    if i < |es| - 1 {
      StampAllAt(init, clock, i);
      assert init[..i] == es[..i];
    } else {
      assert init == es[..i];
    }
  }

  /**
   * What the pass does to each entry: it changes no state and no property
   * other than the two timestamps, never stamps one the null guard rejects,
   * leaves entries that are neither Added nor Modified as they were, keeps a
   * Modified entry's `CreatedAt`, and takes every new value from the clock.
   */
  lemma TimestampPassEffects(es: seq<Entry>, clock: nat -> DateTime, i: nat)
    requires i < |es|
    ensures var r := StampAll(es, clock)[i];
      && r.state == es[i].state
      && r.otherValues == es[i].otherValues
      && r.createdAt.Some? == es[i].createdAt.Some?
      && r.updatedAt.Some? == es[i].updatedAt.Some?
      && (es[i].state != Added && es[i].state != Modified ==> r == es[i])
      && (es[i].state == Modified ==> r.createdAt == es[i].createdAt)
      && (es[i].state == Modified && es[i].updatedAt.Some? ==> r.updatedAt == Some(clock(ClockReads(es[..i]))))
      && (es[i].state == Added && es[i].createdAt.Some? ==> r.createdAt == Some(clock(ClockReads(es[..i]))))
      && (es[i].state == Added && es[i].updatedAt.Some? ==> r.updatedAt == Some(clock(ClockReads(es[..i + 1]) - 1)))
  {
    StampAllAt(es, clock, i);
    assert es[..i + 1][..i] == es[..i];
  }

  /** The clock readings of one pass are taken in entry order: entry i's come after entry j's for j < i. */
  lemma {:induction false} ClockReadsMonotone(es: seq<Entry>, j: nat, i: nat)
    requires j <= i <= |es|
    ensures ClockReads(es[..j]) <= ClockReads(es[..i])
    decreases i - j
  {
    if j < i {
      ClockReadsMonotone(es, j, i - 1);
      assert es[..i][..i - 1] == es[..i - 1];
    }
  }

  /** The database context, holding the change tracker's entries. */
  class IPSDbContext {
    const entries: array<Entry>

    constructor (entries: array<Entry>)
      ensures this.entries == entries
    {
      this.entries := entries;
    }

    /**
     * The timestamp pass: visits the entries in order, reading the clock once
     * per timestamp it writes.
     */
    method UpdateTimestamps(clock: nat -> DateTime)
      modifies entries
      ensures entries[..] == StampAll(old(entries[..]), clock)
    {
      ghost var before := entries[..];
      var readings: nat := 0;
      for i := 0 to entries.Length
        invariant entries[..i] == StampAll(before[..i], clock)
        invariant entries[i..] == before[i..]
        invariant readings == ClockReads(before[..i])
      {
        var entry := entries[i];
        assert entry == before[i];
        assert before[..i + 1][..i] == before[..i];
        if entry.state == Modified {
          if entry.updatedAt.Some? {
            entry := entry.(updatedAt := Some(clock(readings)));
            readings := readings + 1;
          }
        }
        if entry.state == Added {
          if entry.createdAt.Some? {
            entry := entry.(createdAt := Some(clock(readings)));
            readings := readings + 1;
          }
          if entry.updatedAt.Some? {
            entry := entry.(updatedAt := Some(clock(readings)));
            readings := readings + 1;
          }
        }
        entries[i] := entry;
        assert entries[..i + 1] == entries[..i] + [entry];
      }
      assert before[..entries.Length] == before;
    }

    /**
     * `SaveChanges`: the timestamp pass runs first, then the underlying save,
     * whose result `baseResult` is passed back unchanged. The stamps stay in
     * the entries even when the underlying save fails.
     */
    method SaveChanges(clock: nat -> DateTime, baseResult: Result<nat, SaveFailure>) returns (r: Result<nat, SaveFailure>)
      modifies entries
      ensures entries[..] == StampAll(old(entries[..]), clock)
      ensures r == baseResult
    {
      UpdateTimestamps(clock);
      r := baseResult;
    }

    /** `SaveChangesAsync`: the same sequence as `SaveChanges`, awaited. */
    method SaveChangesAsync(clock: nat -> DateTime, baseResult: Result<nat, SaveFailure>) returns (r: Result<nat, SaveFailure>)
      modifies entries
      ensures entries[..] == StampAll(old(entries[..]), clock)
      ensures r == baseResult
    {
      UpdateTimestamps(clock);
      r := baseResult;
    }
  }
}
