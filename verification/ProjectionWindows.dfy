/**
 * The two ways a run of interleaved units of work and drains can strand a transaction, and that there is no third
 * (accounting/db/projection.py, accounting/repositories/projection.py).
 */
module ProjectionWindows {
  import opened Frame
  import opened Tables
  import opened Footprint
  import opened Recomputing
  import opened TornReads
  import opened Projection
  import opened Drains
  import opened ProjectionRuns
  import Rebase
  import Slices

  // ---------- the two windows ----------

  /** The markers a step takes out of the queue for recomputing. */
  function Takes(s: State, e: Event): set<TransactionId> {
    match e
    case Claim(order) => Claimed(order)
    case Rebuild(_) => s.dirty
    case _ => {}
  }

  /** A marker is taken while a unit of work is open whose trigger had found it already committed. */
  ghost predicate TakesFound(s: State, e: Event, w: nat, t: TransactionId) {
    t in Takes(s, e) && w in s.works && t in s.works[w].found
  }

  ghost predicate TakenIn(states: seq<State>, events: seq<Event>, j: nat, w: nat, t: TransactionId) {
    j < |states| && j < |events| && TakesFound(states[j], events[j], w, t)
  }

  ghost predicate ClaimedUnderneath(states: seq<State>, events: seq<Event>, i: nat, w: nat, t: TransactionId) {
    exists j: nat :: j < i && TakenIn(states, events, j, w, t)
  }

  /** Another unit of work commits a change to a transaction's slice while this one is open. */
  ghost predicate ChangesBeside(s: State, next: State, e: Event, w: nat, t: TransactionId) {
    e.Commit? && e.w != w && w in s.works && InputsOf(s.tables, t) != InputsOf(next.tables, t)
  }

  ghost predicate ChangedIn(states: seq<State>, events: seq<Event>, j: nat, w: nat, t: TransactionId) {
    j + 1 < |states| && j < |events| && ChangesBeside(states[j], states[j + 1], events[j], w, t)
  }

  ghost predicate ChangedUnderneath(states: seq<State>, events: seq<Event>, i: nat, w: nat, t: TransactionId) {
    exists j: nat :: j < i && ChangedIn(states, events, j, w, t)
  }

  /** What a transaction's resolution reads is not the same before and after. */
  ghost predicate Touches(a: Tables, b: Tables, t: TransactionId) {
    WholeOf(a, t) != WholeOf(b, t)
  }

  /** A commit touches a transaction that was claimed or changed underneath it. */
  ghost predicate SlipsIn(states: seq<State>, events: seq<Event>, j: nat, t: TransactionId) {
    && j < |events| && j + 1 < |states| && events[j].Commit?
    && Touches(states[j].tables, states[j + 1].tables, t)
    && (ClaimedUnderneath(states, events, j, events[j].w, t) || ChangedUnderneath(states, events, j, events[j].w, t))
  }

  /** No drain has begun to read after step `j` and before step `i`. */
  ghost predicate NoReadSince(events: seq<Event>, j: nat, i: nat) {
    forall k :: j < k < i && k < |events| ==> !events[k].ReadOverlays?
  }

  ghost predicate SlipSinceRead(states: seq<State>, events: seq<Event>, i: nat, j: nat, t: TransactionId) {
    j < i && SlipsIn(states, events, j, t) && NoReadSince(events, j, i)
  }

  /** A commit slipped the transaction through one of the windows, and no drain has begun to read since. */
  ghost predicate Slipped(states: seq<State>, events: seq<Event>, i: nat, t: TransactionId) {
    exists j: nat :: SlipSinceRead(states, events, i, j, t)
  }

  lemma ClaimedNext(states: seq<State>, events: seq<Event>, i: nat, w: nat, t: TransactionId)
    ensures ClaimedUnderneath(states, events, i + 1, w, t)
      <==> ClaimedUnderneath(states, events, i, w, t) || TakenIn(states, events, i, w, t)
  {
  }

  lemma ChangedNext(states: seq<State>, events: seq<Event>, i: nat, w: nat, t: TransactionId)
    ensures ChangedUnderneath(states, events, i + 1, w, t)
      <==> ChangedUnderneath(states, events, i, w, t) || ChangedIn(states, events, i, w, t)
  {
  }

  lemma SlippedStays(states: seq<State>, events: seq<Event>, i: nat, t: TransactionId)
    requires Slipped(states, events, i, t) && i < |events| && !events[i].ReadOverlays?
    ensures Slipped(states, events, i + 1, t)
  {
    var j: nat :| SlipSinceRead(states, events, i, j, t);
    assert SlipSinceRead(states, events, i + 1, j, t);
  }

  lemma SlippedNow(states: seq<State>, events: seq<Event>, i: nat, t: TransactionId)
    requires SlipsIn(states, events, i, t)
    ensures Slipped(states, events, i + 1, t)
  {
    assert SlipSinceRead(states, events, i + 1, i, t);
  }

  // ---------- a marker found committed ----------

  /** A found marker is still in the queue and unclaimed. */
  ghost predicate StillQueued(s: State, w: nat, t: TransactionId) {
    w in s.works && t in s.works[w].found ==> t in s.dirty && t !in Held(s.drain)
  }

  lemma FoundStep(s: State, e: Event, w: nat, t: TransactionId)
    requires Committed(s.tables) && Legal(s, e) && StillQueued(s, w, t)
    ensures StillQueued(Next(s, e), w, t) || TakesFound(s, e, w, t)
  {
    if e.Mark? && e.w == w && t in e.ts {
      assert !Waits(s, w, t);
    }
  }

  lemma {:induction false} FoundThenTaken(states: seq<State>, events: seq<Event>, i: nat, w: nat, t: TransactionId)
    requires Run(states, events) && Quiet(states[0]) && i < |states|
    ensures StillQueued(states[i], w, t) || ClaimedUnderneath(states, events, i, w, t)
  {
    if i > 0 {
      FoundThenTaken(states, events, i - 1, w, t);
      ClaimedNext(states, events, i - 1, w, t);
      FoundInStep(states, events, i - 1, w, t);
    }
  }

  lemma FoundInStep(states: seq<State>, events: seq<Event>, i: nat, w: nat, t: TransactionId)
    requires Run(states, events) && i < |events|
    ensures StillQueued(states[i], w, t) ==> StillQueued(states[i + 1], w, t) || TakenIn(states, events, i, w, t)
  {
    assert StepAt(states, events, i);
    if StillQueued(states[i], w, t) {
      FoundStep(states[i], events[i], w, t);
    }
  }

  // ---------- a transaction no trigger named ----------

  function Named(work: Work): set<TransactionId> {
    work.owed + work.found + work.inserted
  }

  /** A transaction an open unit of work has not named reads in its view as it is committed. */
  ghost predicate ReadsAsCommitted(s: State, w: nat, t: TransactionId) {
    w in s.works && t !in Named(s.works[w]) ==> InputsOf(s.tables, t) == InputsOf(s.works[w].view, t)
  }

  lemma StatementNames(work: Work, after: Tables, t: TransactionId)
    requires KeysHold()(work.view) && KeysHold()(after) && work.owed == {} && t !in Named(Statement(work, after))
    ensures t !in Named(work) && InputsOf(work.view, t) == InputsOf(after, t)
  {
    SilentStatement(work.view, after, t);
  }

  lemma ExecuteReads(s: State, v: nat, after: Tables, w: nat, t: TransactionId)
    requires WorksKept(s) && v in s.works && s.works[v].owed == {} && KeysHold()(after) && ReadsAsCommitted(s, w, t)
    ensures ReadsAsCommitted(Executed(s, v, after), w, t)
  {
    if v == w && t !in Named(Statement(s.works[w], after)) {
      assert WorkKept(s, w);
      StatementNames(s.works[w], after, t);
    }
  }

  lemma MarkedNames(work: Work, dirty: set<TransactionId>, ts: set<TransactionId>)
    requires ts <= work.owed
    ensures Named(Marked(work, dirty, ts)) == Named(work)
  {
  }

  lemma MarkReads(s: State, v: nat, ts: set<TransactionId>, w: nat, t: TransactionId)
    requires v in s.works && ts <= s.works[v].owed && ReadsAsCommitted(s, w, t)
    ensures ReadsAsCommitted(MarkedIn(s, v, ts), w, t)
  {
    MarkedNames(s.works[v], s.dirty, ts);
  }

  lemma CommitReads(s: State, v: nat, w: nat, t: TransactionId)
    requires WorksKept(s) && KeysHold()(s.tables) && v in s.works && ReadsAsCommitted(s, w, t)
    ensures ReadsAsCommitted(CommittedWork(s, v), w, t) || ChangesBeside(s, CommittedWork(s, v), Commit(v), w, t)
  {
    var next := CommittedWork(s, v);
    if w in next.works && t !in Named(next.works[w]) && InputsOf(s.tables, t) == InputsOf(s.works[v].view, t) {
      assert WorkKept(s, w) && WorkKept(s, v);
      Rebase.UntouchedByEither(s.works[v].view, s.tables, s.works[w].view, t);
    }
  }

  /** Neither the tables nor this unit of work change, if it is still open. */
  lemma OtherReads(s: State, e: Event, w: nat, t: TransactionId)
    requires Committed(s.tables) && Legal(s, e) && ReadsAsCommitted(s, w, t)
    requires !e.Execute? && !e.Mark? && !e.Commit?
    ensures ReadsAsCommitted(Next(s, e), w, t)
  {
  }

  lemma ReadsStep(s: State, e: Event, w: nat, t: TransactionId)
    requires WorksKept(s) && Committed(s.tables) && Legal(s, e) && ReadsAsCommitted(s, w, t)
    ensures ReadsAsCommitted(Next(s, e), w, t) || ChangesBeside(s, Next(s, e), e, w, t)
  {
    if e.Execute? {
      ExecuteReads(s, e.w, e.after, w, t);
    } else if e.Mark? {
      MarkReads(s, e.w, e.ts, w, t);
    } else if e.Commit? {
      CommitReads(s, e.w, w, t);
    } else {
      OtherReads(s, e, w, t);
    }
  }

  lemma ReadsInStep(states: seq<State>, events: seq<Event>, i: nat, w: nat, t: TransactionId)
    requires Run(states, events) && i < |events| && WorksKept(states[i])
    ensures ReadsAsCommitted(states[i], w, t)
      ==> ReadsAsCommitted(states[i + 1], w, t) || ChangedIn(states, events, i, w, t)
  {
    assert StepAt(states, events, i);
    if ReadsAsCommitted(states[i], w, t) {
      ReadsStep(states[i], events[i], w, t);
    }
  }

  lemma UnnamedInStep(states: seq<State>, events: seq<Event>, i: nat, w: nat, t: TransactionId)
    requires Run(states, events) && Quiet(states[0]) && i < |events|
    ensures ReadsAsCommitted(states[i], w, t) || ChangedUnderneath(states, events, i, w, t)
      ==> ReadsAsCommitted(states[i + 1], w, t) || ChangedUnderneath(states, events, i + 1, w, t)
  {
    ChangedNext(states, events, i, w, t);
    RunKeepsProtocol(states, events, i);
    ReadsInStep(states, events, i, w, t);
  }

  /** What no trigger of an open unit of work named reads as committed, unless it was changed underneath it. */
  lemma {:induction false} UnnamedReadsAsCommitted(states: seq<State>, events: seq<Event>, i: nat, w: nat,
                                                   t: TransactionId)
    requires Run(states, events) && Quiet(states[0]) && i < |states|
    ensures ReadsAsCommitted(states[i], w, t) || ChangedUnderneath(states, events, i, w, t)
  {
    if i > 0 {
      var j := i - 1;
      assert states[j + 1] == states[i];
      UnnamedReadsAsCommitted(states, events, j, w, t);
      UnnamedInStep(states, events, j, w, t);
    }
  }

  // ---------- no third way ----------

  lemma LinksKept(a: Tables, b: Tables, t: TransactionId)
    requires ForeignKeys(a) && ForeignKeys(b) && InputsOf(a, t) == InputsOf(b, t)
    ensures LinksOf(a, t) == LinksOf(b, t)
  {
    if t !in a.transactions {
      forall l ensures (l, t) !in a.linkMembers && (l, t) !in b.linkMembers {
        assert (l, t) in a.linkMembers ==> (l, t).1 in a.transactions;
        assert (l, t) in b.linkMembers ==> (l, t).1 in b.transactions;
      }
    }
  }

  lemma SameReadsSameWhole(a: Tables, b: Tables, t: TransactionId)
    requires InputsOf(a, t) == InputsOf(b, t) && LinksOf(a, t) == LinksOf(b, t) && Slices.SamePartners(a, b, t)
    ensures WholeOf(a, t) == WholeOf(b, t)
  {
    var x, y := WholeOf(a, t).members, WholeOf(b, t).members;
    forall l ensures (l in x <==> l in y) && (l in x ==> x[l] == y[l]) {
    }
  }

  lemma SilentCommitTouchesNothing(a: Tables, b: Tables, t: TransactionId)
    requires Committed(a) && Committed(b) && PairsKept(a, b) && InputsOf(a, t) == InputsOf(b, t)
    ensures !Touches(a, b, t)
  {
    LinksKept(a, b, t);
    PartnersKept(a, b, t);
    SameReadsSameWhole(a, b, t);
  }

  /** A commit that neither names a transaction nor had it changed underneath does not touch it. */
  lemma UnnamedStays(s: State, w: nat, t: TransactionId)
    requires Committed(s.tables) && Legal(s, Commit(w)) && t !in Named(s.works[w]) && ReadsAsCommitted(s, w, t)
    ensures !Touches(s.tables, s.works[w].view, t)
  {
    SilentCommitTouchesNothing(s.tables, s.works[w].view, t);
  }

  /** The commit touches a transaction whose marker it does not bring, or brings to no avail since a drain holds it. */
  ghost predicate TouchesUnmarked(s: State, e: Event, t: TransactionId) {
    && e.Commit? && e.w in s.works && t !in s.works[e.w].inserted
    && (t !in s.dirty || t in Held(s.drain))
    && Touches(s.tables, s.works[e.w].view, t)
  }

  lemma UnmarkedTouchSlips(states: seq<State>, events: seq<Event>, i: nat, t: TransactionId)
    requires Run(states, events) && Quiet(states[0]) && i < |events| && TouchesUnmarked(states[i], events[i], t)
    ensures SlipsIn(states, events, i, t)
  {
    var s, w := states[i], events[i].w;
    assert StepAt(states, events, i);
    if t in s.works[w].found {
      FoundThenTaken(states, events, i, w, t);
    } else {
      UnnamedReadsAsCommitted(states, events, i, w, t);
      if ReadsAsCommitted(s, w, t) {
        UnnamedStays(s, w, t);
      }
    }
  }

  lemma MovedIsTouched(a: Tables, b: Tables, t: TransactionId)
    requires Moves(a, b, t)
    ensures Touches(a, b, t)
  {
    if !Touches(a, b, t) {
      WholeDetermines(a, b, t);
    }
  }

  // ---------- what a drain in progress has read ----------

  lemma CommitAndReads(s: State, w: nat, t: TransactionId)
    requires Protocol(s) && Legal(s, Commit(w)) && ReadsAreCurrent(s.drain, s.tables, t)
    ensures ReadsAreCurrent(s.drain, s.works[w].view, t) || TouchesUnmarked(s, Commit(w), t)
  {
    if s.drain.Draining? && t in s.drain.order {
      assert WorkKept(s, w);
      assert t in Held(s.drain);
    }
  }

  lemma FirstReads(drain: Drain, tb: Tables, stored: StoredRows, t: TransactionId)
    requires drain.Claiming?
    ensures ReadsAreCurrent(ReadOverlaysOf(drain, tb, stored), tb, t)
  {
  }

  lemma RowReads(drain: Drain, tb: Tables, t: TransactionId)
    requires drain.Draining? && ReadsAreCurrent(drain, tb, t)
    ensures ReadsAreCurrent(drain.(ledger := Some(tb)), tb, t)
  {
  }

  lemma BatchReads(drain: Drain, tb: Tables, t: TransactionId)
    requires ReadyToWrite(drain) && Committed(tb) && ReadsAreCurrent(drain, tb, t)
    ensures ReadsAreCurrent(BatchWritten(drain, tb), tb, t)
  {
  }

  lemma DrainReads(s: State, e: Event, t: TransactionId)
    requires Protocol(s) && Legal(s, e) && (e.ReadOverlays? || ReadsAreCurrent(s.drain, s.tables, t))
    requires e.ReadOverlays? || e.ReadRows? || e.WriteBatch?
    ensures ReadsAreCurrent(Next(s, e).drain, s.tables, t)
  {
    if e.ReadOverlays? {
      FirstReads(s.drain, s.tables, s.stored, t);
    } else if e.ReadRows? {
      RowReads(s.drain, s.tables, t);
    } else {
      BatchReads(s.drain, s.tables, t);
    }
  }

  lemma ReadStep(s: State, e: Event, t: TransactionId)
    requires Protocol(s) && Legal(s, e) && (ReadsAreCurrent(s.drain, s.tables, t) || e.ReadOverlays?)
    ensures ReadsAreCurrent(Next(s, e).drain, Next(s, e).tables, t) || TouchesUnmarked(s, e, t)
  {
    if e.Commit? {
      CommitAndReads(s, e.w, t);
    } else if e.ReadOverlays? || e.ReadRows? || e.WriteBatch? {
      DrainReads(s, e, t);
    }
  }

  lemma ReadInStep(states: seq<State>, events: seq<Event>, i: nat, t: TransactionId)
    requires Run(states, events) && Quiet(states[0]) && i < |events|
    requires ReadsAreCurrent(states[i].drain, states[i].tables, t) || events[i].ReadOverlays?
    ensures ReadsAreCurrent(states[i + 1].drain, states[i + 1].tables, t) || TouchesUnmarked(states[i], events[i], t)
  {
    assert StepAt(states, events, i);
    RunKeepsProtocol(states, events, i);
    ReadStep(states[i], events[i], t);
  }

  ghost predicate CurrentOrSlipped(states: seq<State>, events: seq<Event>, i: nat, t: TransactionId)
    requires i < |states|
  {
    ReadsAreCurrent(states[i].drain, states[i].tables, t) || Slipped(states, events, i, t)
  }

  lemma SlipInStep(states: seq<State>, events: seq<Event>, i: nat, t: TransactionId)
    requires Run(states, events) && Quiet(states[0]) && i < |events| && CurrentOrSlipped(states, events, i, t)
    ensures CurrentOrSlipped(states, events, i + 1, t)
  {
    if ReadsAreCurrent(states[i].drain, states[i].tables, t) || events[i].ReadOverlays? {
      ReadInStep(states, events, i, t);
      if TouchesUnmarked(states[i], events[i], t) {
        UnmarkedTouchSlips(states, events, i, t);
        SlippedNow(states, events, i, t);
      }
    } else {
      SlippedStays(states, events, i, t);
    }
  }

  ghost predicate Carries(good: nat -> bool, i: nat) {
    good(i) ==> good(i + 1)
  }

  lemma {:induction false} CarriedUpTo(good: nat -> bool, n: nat)
    requires good(0) && forall i: nat :: i < n ==> Carries(good, i)
    ensures good(n)
  {
    if n > 0 {
      CarriedUpTo(good, n - 1);
      assert Carries(good, n - 1);
    }
  }

  ghost function CurrentAt(states: seq<State>, events: seq<Event>, t: TransactionId): nat -> bool {
    (i: nat) => i < |states| ==> CurrentOrSlipped(states, events, i, t)
  }

  lemma CurrentCarries(states: seq<State>, events: seq<Event>, i: nat, t: TransactionId)
    requires Run(states, events) && Quiet(states[0]) && i < |events|
    ensures Carries(CurrentAt(states, events, t), i)
  {
    if CurrentAt(states, events, t)(i) {
      SlipInStep(states, events, i, t);
    }
  }

  /**
   * What an open drain has read of a transaction is current, unless a commit slipped it through since it began to read.
   */
  lemma DrainReadsCurrent(states: seq<State>, events: seq<Event>, i: nat, t: TransactionId)
    requires Run(states, events) && Quiet(states[0]) && i < |states|
    ensures CurrentOrSlipped(states, events, i, t)
  {
    var good := CurrentAt(states, events, t);
    forall j: nat | j < i ensures Carries(good, j) {
      CurrentCarries(states, events, j, t);
    }
    CarriedUpTo(good, i);
    assert good(i);
  }

  lemma CurrentIsNotLost(s: State, t: TransactionId)
    requires Protocol(s) && DrainLoses(s, t)
    ensures !ReadsAreCurrent(s.drain, s.tables, t)
  {
    if ReadsAreCurrent(s.drain, s.tables, t) {
      CurrentMatches(s.stored, s.drain, s.tables, t);
    }
  }

  /**
   * The slip behind a loss: the commit that strands the transaction, or one since the drain that takes its marker began
   * to read.
   */
  ghost predicate LostBy(states: seq<State>, events: seq<Event>, i: nat, j: nat, t: TransactionId) {
    && i < |states| && i < |events|
    && StrandedAt(states[i], events[i], t)
    && SlipsIn(states, events, j, t)
    && if events[i].Commit? then j == i else j < i && NoReadSince(events, j, i)
  }

  /** A transaction is stranded only by a slip of its own: there is no third way. */
  lemma StrandedOnlyBySlipping(states: seq<State>, events: seq<Event>, i: nat, t: TransactionId)
    requires Run(states, events) && Quiet(states[0]) && i < |events| && StrandedAt(states[i], events[i], t)
    ensures exists j: nat :: LostBy(states, events, i, j, t)
  {
    RunKeepsProtocol(states, events, i);
    if events[i].Commit? {
      MovedIsTouched(states[i].tables, states[i].works[events[i].w].view, t);
      UnmarkedTouchSlips(states, events, i, t);
      assert LostBy(states, events, i, i, t);
    } else {
      CurrentIsNotLost(states[i], t);
      DrainReadsCurrent(states, events, i, t);
      var j: nat :| SlipSinceRead(states, events, i, j, t);
      assert LostBy(states, events, i, j, t);
    }
  }

  // ---------- all runs ----------

  /** What holds at the start holds as long as nothing breaks it. */
  lemma {:induction false} UntilBroken(good: State -> bool, breaks: (State, Event) -> bool, states: seq<State>,
                                       events: seq<Event>, n: nat)
    requires |states| == |events| + 1 && n <= |events| && good(states[0])
    requires forall i {:trigger breaks(states[i], events[i])} :: 0 <= i < |events| && good(states[i]) ==>
      (good(states[i + 1]) <==> !breaks(states[i], events[i]))
    ensures (forall i :: 0 <= i <= n ==> good(states[i]))
      <==> (forall i :: 0 <= i < n ==> !breaks(states[i], events[i]))
  {
    if n > 0 {
      UntilBroken(good, breaks, states, events, n - 1);
      assert breaks(states[n - 1], events[n - 1]) || !breaks(states[n - 1], events[n - 1]);
    }
  }

  ghost function Stranding(): (State, Event) -> bool {
    (s: State, e: Event) => !StrandsNothing(s, e)
  }

  lemma InvariantInStep(states: seq<State>, events: seq<Event>, i: nat)
    requires Run(states, events) && Quiet(states[0]) && i < |events| && Holding()(states[i])
    ensures Holding()(states[i + 1]) <==> !Stranding()(states[i], events[i])
  {
    assert StepAt(states, events, i);
    RunKeepsProtocol(states, events, i);
    StepKeepsInvariant(states[i], events[i]);
  }

  lemma RunUntilBroken(states: seq<State>, events: seq<Event>)
    requires Run(states, events) && Quiet(states[0]) && Holding()(states[0])
    ensures ((forall i :: 0 <= i < |states| ==> Holding()(states[i]))
      <==> (forall i :: 0 <= i < |events| ==> !Stranding()(states[i], events[i])))
  {
    var good, breaks := Holding(), Stranding();
    forall i | 0 <= i < |events| && good(states[i])
      ensures good(states[i + 1]) <==> !breaks(states[i], events[i])
    {
      InvariantInStep(states, events, i);
    }
    UntilBroken(good, breaks, states, events, |events|);
  }

  /** From a start where it holds, the invariant holds in every state if and only if no step strands a transaction. */
  lemma InvariantUntilStranded(states: seq<State>, events: seq<Event>)
    requires Run(states, events) && Quiet(states[0]) && Invariant(states[0])
    ensures (forall i :: 0 <= i < |states| ==> Invariant(states[i]))
      <==> (forall i :: 0 <= i < |events| ==> StrandsNothing(states[i], events[i]))
  {
    RunUntilBroken(states, events);
    forall i | 0 <= i < |states| ensures Holding()(states[i]) <==> Invariant(states[i]) {
    }
    forall i | 0 <= i < |events| ensures Stranding()(states[i], events[i]) <==> !StrandsNothing(states[i], events[i]) {
    }
  }

  /** The step leaves some transaction stranded that slipped through one of the two windows on the way to it. */
  ghost predicate LosesAt(states: seq<State>, events: seq<Event>, i: nat) {
    exists t, j: nat :: LostBy(states, events, i, j, t)
  }

  lemma StrandsIsLoses(states: seq<State>, events: seq<Event>, i: nat)
    requires Run(states, events) && Quiet(states[0]) && i < |events|
    ensures StrandsNothing(states[i], events[i]) <==> !LosesAt(states, events, i)
  {
    if t :| StrandedAt(states[i], events[i], t) {
      StrandedOnlyBySlipping(states, events, i, t);
      var j: nat :| LostBy(states, events, i, j, t);
    }
  }

  /**
   * In every run, from any stored rows and any queue with nothing open, the invariant holds throughout if and only if
   * it holds at the start and no transaction slips through one of the two windows and is left stranded: touched by a
   * unit of work whose trigger had found its marker committed before a drain took it, or by one that another unit's
   * commit changed the transaction underneath.
   */
  lemma EveryRunExactly(states: seq<State>, events: seq<Event>)
    requires Run(states, events) && Quiet(states[0])
    ensures (forall i :: 0 <= i < |states| ==> Invariant(states[i]))
      <==> Invariant(states[0]) && (forall i :: 0 <= i < |events| ==> !LosesAt(states, events, i))
  {
    if Invariant(states[0]) {
      InvariantUntilStranded(states, events);
      forall i | 0 <= i < |events| ensures StrandsNothing(states[i], events[i]) <==> !LosesAt(states, events, i) {
        StrandsIsLoses(states, events, i);
      }
    }
  }

  /** No unit of work's commit touches a transaction that was claimed or changed underneath it. */
  ghost predicate NoSlip(states: seq<State>, events: seq<Event>) {
    forall j: nat, t :: !SlipsIn(states, events, j, t)
  }

  /** A run in which nothing slips keeps the invariant in every state, however many units of work are open at once. */
  lemma EveryRunKeepsInvariant(states: seq<State>, events: seq<Event>, i: nat)
    requires Run(states, events) && Quiet(states[0]) && Invariant(states[0]) && NoSlip(states, events) && i < |states|
    ensures Invariant(states[i])
  {
    EveryRunExactly(states, events);
    forall k | 0 <= k < |events| ensures !LosesAt(states, events, k) {
    }
  }
}
