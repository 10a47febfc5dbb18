/**
 * Where a projection starts: the migration creates its two tables empty and fills neither
 * (migration/versions/000000000002_resolved_posting_projection.py).
 */
module ProjectionStarts {
  import opened Frame
  import opened Resolution
  import opened Tables
  import opened Recomputing
  import opened Projection
  import opened Drains
  import opened ProjectionRuns

  /** As the migration leaves it, over whatever ledger there is: no row stored, no marker queued, nothing open. */
  ghost predicate Installed(s: State) {
    Committed(s.tables) && s.dirty == {} && s.stored == map[] && s.works == map[] && s.drain.Idle?
  }

  lemma InstalledIsQuiet(s: State)
    requires Installed(s)
    ensures Quiet(s) && Protocol(s)
  {
    QuietIsProtocol(s);
  }

  ghost predicate NoRowsOf(stored: StoredRows, t: TransactionId) {
    forall id :: id in stored ==> stored[id].row.transaction != t
  }

  lemma NothingHolds(rows: seq<DisplayRow>, stored: StoredRows, t: TransactionId)
    requires AllOf(rows, t) && NoRowsOf(stored, t)
    ensures FreshFor(rows, stored, t) <==> rows == []
  {
    if rows != [] {
      assert rows[0] in rows && !Holds(stored, rows[0]);
    }
  }

  lemma NoRowsAreFresh(tb: Tables, stored: StoredRows, t: TransactionId)
    requires Committed(tb) && NoRowsOf(stored, t)
    ensures Fresh(tb, stored, t) <==> ResolveBatch(tb, {t}) == []
  {
    RowsAreOwn(tb, t);
    NothingHolds(ResolveBatch(tb, {t}), stored, t);
  }

  /** Right after the migration the cache is right if and only if no transaction resolves to a row at all. */
  lemma InstalledIsRight(s: State)
    requires Installed(s)
    ensures Invariant(s) <==> forall t :: ResolveBatch(s.tables, {t}) == []
  {
    forall t ensures Fresh(s.tables, s.stored, t) <==> ResolveBatch(s.tables, {t}) == [] {
      NoRowsAreFresh(s.tables, s.stored, t);
    }
  }

  /** A read drains the queue, and an empty queue leaves it nothing to claim. */
  lemma NothingToClaim(s: State, order: seq<TransactionId>)
    requires Installed(s)
    ensures !Legal(s, Claim(order))
  {
    if order != [] {
      assert order[0] in Claimed(order);
    }
  }

  // ---------- until a trigger names it ----------

  ghost predicate NamesIn(events: seq<Event>, j: nat, t: TransactionId) {
    j < |events| && events[j].Mark? && t in events[j].ts
  }

  /** Some unit of work's trigger has named the transaction. */
  ghost predicate NamedBefore(events: seq<Event>, i: nat, t: TransactionId) {
    exists j: nat :: j < i && NamesIn(events, j, t)
  }

  ghost predicate DrainsIn(states: seq<State>, events: seq<Event>, j: nat, t: TransactionId) {
    j < |states| && j < |events| && events[j].CommitDrain? && t in Held(states[j].drain)
  }

  /** Some drain that held the transaction's marker has committed. */
  ghost predicate DrainedBefore(states: seq<State>, events: seq<Event>, i: nat, t: TransactionId) {
    exists j: nat :: j < i && DrainsIn(states, events, j, t)
  }

  ghost predicate RebuiltBefore(events: seq<Event>, i: nat) {
    exists j: nat :: j < i && j < |events| && events[j].Rebuild?
  }

  /** Nobody has inserted a marker for the transaction. */
  ghost predicate Unmarked(s: State, t: TransactionId) {
    t !in s.dirty && forall w :: w in s.works ==> t !in s.works[w].inserted
  }

  lemma UnmarkedStep(s: State, e: Event, t: TransactionId)
    requires Committed(s.tables) && Legal(s, e) && Unmarked(s, t)
    ensures Unmarked(Next(s, e), t) || (e.Mark? && t in e.ts)
  {
  }

  lemma {:induction false} UnmarkedUntilNamed(states: seq<State>, events: seq<Event>, i: nat, t: TransactionId)
    requires Run(states, events) && Installed(states[0]) && i < |states|
    ensures Unmarked(states[i], t) || NamedBefore(events, i, t)
  {
    if i > 0 {
      var j := i - 1;
      UnmarkedUntilNamed(states, events, j, t);
      assert StepAt(states, events, j);
      if Unmarked(states[j], t) {
        UnmarkedStep(states[j], events[j], t);
        assert NamesIn(events, j, t) || Unmarked(states[i], t);
      }
    }
  }

  /** No drain takes a marker that no trigger has inserted. */
  lemma DrainedIsNamed(states: seq<State>, events: seq<Event>, i: nat, t: TransactionId)
    requires Run(states, events) && Installed(states[0]) && DrainedBefore(states, events, i, t)
    ensures NamedBefore(events, i, t)
  {
    var j: nat :| j < i && DrainsIn(states, events, j, t);
    InstalledIsQuiet(states[0]);
    RunKeepsProtocol(states, events, j);
    UnmarkedUntilNamed(states, events, j, t);
    var k: nat :| k < j && NamesIn(events, k, t);
  }

  lemma DrainAddsNone(s: State, t: TransactionId)
    requires Protocol(s) && AllDone(s.drain) && t !in Held(s.drain) && NoRowsOf(s.stored, t)
    ensures NoRowsOf(s.drain.rows, t)
  {
    assert t !in s.drain.order[..s.drain.done];
    assert DrainKeptAt(s.stored, s.drain, t);
  }

  lemma NoRowsStep(s: State, e: Event, t: TransactionId)
    requires Protocol(s) && Legal(s, e) && NoRowsOf(s.stored, t)
    ensures NoRowsOf(Next(s, e).stored, t) || e.Rebuild? || (e.CommitDrain? && t in Held(s.drain))
  {
    if e.CommitDrain? && t !in Held(s.drain) {
      DrainAddsNone(s, t);
    }
  }

  lemma NoRowsInStep(states: seq<State>, events: seq<Event>, j: nat, t: TransactionId)
    requires Run(states, events) && Installed(states[0]) && j < |events| && NoRowsOf(states[j].stored, t)
    ensures NoRowsOf(states[j + 1].stored, t) || events[j].Rebuild? || DrainsIn(states, events, j, t)
  {
    assert StepAt(states, events, j);
    InstalledIsQuiet(states[0]);
    RunKeepsProtocol(states, events, j);
    NoRowsStep(states[j], events[j], t);
  }

  lemma {:induction false} NoRowsUntilDrained(states: seq<State>, events: seq<Event>, i: nat, t: TransactionId)
    requires Run(states, events) && Installed(states[0]) && i < |states|
    ensures NoRowsOf(states[i].stored, t) || RebuiltBefore(events, i) || DrainedBefore(states, events, i, t)
  {
    if i > 0 {
      var j := i - 1;
      assert states[j + 1] == states[i];
      NoRowsUntilDrained(states, events, j, t);
      if NoRowsOf(states[j].stored, t) {
        NoRowsInStep(states, events, j, t);
      }
    }
  }

  /**
   * Until some trigger has named a transaction and some drain has then taken its marker, or a rebuild has run, nothing
   * is stored for it: it is fresh if and only if it resolves to no row. No number of reads changes that.
   */
  lemma UnfilledUntilDrained(states: seq<State>, events: seq<Event>, i: nat, t: TransactionId)
    requires Run(states, events) && Installed(states[0]) && i < |states| && !RebuiltBefore(events, i)
    requires !NamedBefore(events, i, t) || !DrainedBefore(states, events, i, t)
    ensures Committed(states[i].tables) && NoRowsOf(states[i].stored, t)
    ensures Fresh(states[i].tables, states[i].stored, t) <==> ResolveBatch(states[i].tables, {t}) == []
  {
    if DrainedBefore(states, events, i, t) {
      DrainedIsNamed(states, events, i, t);
    }
    NoRowsUntilDrained(states, events, i, t);
    InstalledIsQuiet(states[0]);
    RunKeepsProtocol(states, events, i);
    NoRowsAreFresh(states[i].tables, states[i].stored, t);
  }

  /** So the invariant is broken for as long as some transaction that resolves to a row has not been named. */
  lemma UnnamedBreaksInvariant(states: seq<State>, events: seq<Event>, i: nat, t: TransactionId)
    requires Run(states, events) && Installed(states[0]) && i < |states| && !RebuiltBefore(events, i)
    requires !NamedBefore(events, i, t) && Committed(states[i].tables) && ResolveBatch(states[i].tables, {t}) != []
    ensures !Invariant(states[i])
  {
    UnfilledUntilDrained(states, events, i, t);
    UnmarkedUntilNamed(states, events, i, t);
    assert t !in states[i].dirty;
  }

  // ---------- an empty database ----------

  /** No row in any table. */
  const NOTHING :=
    Tables(map[], map[], {}, map[], {}, {}, map[], map[], {}, map[], {}, map[], {}, map[], map[], map[], map[])

  /** A database migrated before anything was recorded. */
  const BLANK := State(NOTHING, {}, map[], map[], 0, Idle)

  /** The one ordinary start at which the cache is right. */
  lemma BlankIsRight()
    ensures Installed(BLANK) && Invariant(BLANK)
  {
    forall t ensures Fresh(NOTHING, map[], t) {
      AbsentIsFresh(NOTHING, t);
    }
  }
}
