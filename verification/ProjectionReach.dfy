/** Reaching states of the projection a step at a time, and what each window loses once it opens. */
module ProjectionReach {
  import opened Frame
  import opened Categorization
  import opened Linking
  import opened Resolution
  import opened Tables
  import opened Footprint
  import opened Recomputing
  import opened Projection
  import opened Drains
  import opened ProjectionRuns
  import opened ProjectionStarts
  import Agreement
  import Rebase
  import ResolvedIds
  import Slices

  // ---------- what plain postings resolve to ----------

  /** Nothing but categories and links lies over the raw postings. */
  ghost predicate Plain(tb: Tables) {
    && tb.rules == map[] && tb.splits == {} && tb.overrides == map[] && tb.suggestions == map[] && tb.merges == map[]
  }

  function RawOf(tb: Tables, p: string): Row
    requires ForeignKeys(tb) && p in tb.postings
  {
    var rec := tb.postings[p];
    RawRow(p, rec, tb.transactions[rec.transaction], TagsOf(tb, p))
  }

  lemma {:induction false} LoadsRow(tb: Tables, keys: seq<string>, p: string)
    requires ForeignKeys(tb) && p in keys && forall k :: k in keys ==> k in tb.postings
    ensures RawOf(tb, p) in RowsAt(tb, keys)
  {
    if p == keys[0] {
      assert RowsAt(tb, keys)[0] == RawOf(tb, p);
    } else {
      LoadsRow(tb, keys[1..], p);
    }
  }

  lemma Loads(tb: Tables, ts: set<TransactionId>, p: string)
    requires ForeignKeys(tb) && p in PostingKeys(tb, ts)
    ensures RawOf(tb, p) in LoadLedger(tb, ts)
  {
    SortedPostingKeysKnown(tb, ts);
    SortedKeysMembers(PostingKeys(tb, ts), p);
    LoadsRow(tb, SortedKeys(PostingKeys(tb, ts)), p);
    SortMembers(RowsAt(tb, SortedKeys(PostingKeys(tb, ts))), RawOf(tb, p));
  }

  lemma PlainOverlays(tb: Tables)
    requires Plain(tb)
    ensures LoadRules(tb) == [] && LoadSplits(tb) == map[] && LoadMerges(tb) == []
    ensures forall postings: set<string> :: LoadOverrides(tb, postings) == map[]
  {
    assert TransferRuleKeys(tb) == {};
    forall postings: set<string> ensures LoadOverrides(tb, postings) == map[] {
      assert OverriddenIds(tb, postings) == {} by {
        forall p ensures !HasOverride(tb, p) {
          assert PendingTable(tb, p) == map[];
        }
      }
    }
  }

  lemma NoRuleMatches(rows: seq<Row>, accounts: map<string, AccountKind>, t: TransactionId)
    ensures SafeRule(rows, [], accounts, t) == None
  {
  }

  lemma {:induction false} Unchanged(f: Row -> seq<Row>, rows: seq<Row>)
    requires forall row :: row in rows ==> f(row) == [row]
    ensures Expand(f, rows) == rows
  {
    if rows != [] {
      assert rows[0] in rows;
      Unchanged(f, rows[1..]);
    }
  }

  lemma NoRules(rows: seq<Row>, accounts: map<string, AccountKind>)
    requires forall row :: row in rows ==> row.link.None?
    ensures ApplyRules(rows, [], accounts) == Sort(rows)
  {
    var f := CounterpartyStage(rows, [], accounts);
    forall row | row in rows ensures f(row) == [row] {
      NoRuleMatches(rows, accounts, row.transaction);
    }
    Unchanged(f, rows);
  }

  lemma RedirectedMembers(rows: seq<Row>, redirects: Redirects, row: Row)
    requires row in rows
    ensures RedirectRow(row, redirects) in ApplyCategoryRedirects(rows, redirects)
  {
    if redirects != map[] {
      assert RedirectRow(row, redirects) in RedirectStage(redirects)(row);
      ExpandMembers(RedirectStage(redirects), rows, RedirectRow(row, redirects));
    } else {
      assert RedirectRow(row, redirects) == row;
    }
  }

  lemma RedirectedUnlinked(rows: seq<Row>, redirects: Redirects)
    requires forall row :: row in rows ==> row.link.None?
    ensures forall row :: row in ApplyCategoryRedirects(rows, redirects) ==> row.link.None?
  {
    forall row | row in ApplyCategoryRedirects(rows, redirects) ensures row.link.None? {
      if row !in rows {
        ExpandMembers(RedirectStage(redirects), rows, row);
      }
    }
  }

  function Shown(row: Row, context: Context): Row {
    RedirectRow(row, context.redirects).(link := LinkFor(context.links, row.transaction))
  }

  lemma PlainResolves(raw: seq<Row>, context: Context, row: Row)
    requires forall r :: r in raw ==> r.link.None?
    requires context.rules == [] && context.splits == map[] && context.merges == [] && row in raw
    ensures Shown(row, context) in Resolve(raw, context, map[])
  {
    Agreement.ResolveUnfolds(raw, context, map[]);
    var r0 := ApplyCategoryRedirects(raw, context.redirects);
    RedirectedMembers(raw, context.redirects, row);
    RedirectedUnlinked(raw, context.redirects);
    NoRules(r0, context.accounts);
    SortMembers(r0, RedirectRow(row, context.redirects));
    var i :| 0 <= i < |Sort(r0)| && Sort(r0)[i] == RedirectRow(row, context.redirects);
    LinkingOnlyMarks(Sort(r0), context.links);
    assert ApplyTransferLinks(Sort(r0), context.links)[i] == Shown(row, context);
  }

  /** The row a posting resolves to in a plain ledger. */
  function RowOf(tb: Tables, p: string): Row
    requires Committed(tb) && p in tb.postings
  {
    Shown(RawOf(tb, p), LoadContext(tb))
  }

  lemma RawRowsUnlinked(tb: Tables, ts: set<TransactionId>)
    requires ForeignKeys(tb)
    ensures forall row :: row in LoadLedger(tb, ts) ==> row.link.None?
  {
    forall row | row in LoadLedger(tb, ts) ensures row.link.None? {
      Slices.LedgerMembers(tb, ts, row);
    }
  }

  /** Each posting of a transaction is one of the rows it resolves to. */
  lemma PostingIsShown(tb: Tables, t: TransactionId, p: string)
    requires Committed(tb) && Plain(tb) && p in PostingKeys(tb, {t})
    ensures exists d :: d in ResolveBatch(tb, {t}) && d.row == RowOf(tb, p)
  {
    var raw, c := LoadLedger(tb, {t}), LoadContext(tb);
    Loads(tb, {t}, p);
    RawRowsUnlinked(tb, {t});
    PlainOverlays(tb);
    PlainResolves(raw, c, RawOf(tb, p));
    var resolved := Resolve(raw, c, map[]);
    var i :| 0 <= i < |resolved| && resolved[i] == RowOf(tb, p);
    ResolvedIds.DisplayAllRows(resolved, resolved, raw, c, map[]);
    assert DisplayAll(resolved, resolved, raw, c, map[])[i] in ResolveBatch(tb, {t});
  }

  lemma SameIdSameRow(rows: seq<DisplayRow>, d: DisplayRow, e: DisplayRow)
    requires ResolvedIds.DistinctDisplayIds(rows) && d in rows && e in rows && d.row.posting == e.row.posting
    ensures d == e
  {
    var i :| 0 <= i < |rows| && rows[i] == d;
    var j :| 0 <= j < |rows| && rows[j] == e;
  }

  /** Two ledgers that show one posting of a transaction differently move it. */
  lemma OtherRowMoves(a: Tables, b: Tables, t: TransactionId, p: string)
    requires Committed(a) && Plain(a) && p in PostingKeys(a, {t})
    requires Committed(b) && Plain(b) && p in PostingKeys(b, {t})
    requires RowOf(a, p) != RowOf(b, p)
    ensures Moves(a, b, t)
  {
    PostingIsShown(a, t, p);
    PostingIsShown(b, t, p);
    var d :| d in ResolveBatch(a, {t}) && d.row == RowOf(a, p);
    var e :| e in ResolveBatch(b, {t}) && e.row == RowOf(b, p);
    ResolvedIds.BatchIds(b, {t});
    if d in ResolveBatch(b, {t}) {
      SameIdSameRow(ResolveBatch(b, {t}), d, e);
    }
  }

  // ---------- runs, a step at a time ----------

  ghost predicate Leads(states: seq<State>, events: seq<Event>, first: State, last: State) {
    Run(states, events) && states[0] == first && states[|states| - 1] == last
  }

  /** Some run leads from one state to the other. */
  ghost predicate Reaches(first: State, last: State) {
    exists states, events :: Leads(states, events, first, last)
  }

  lemma ReachesItself(s: State)
    ensures Reaches(s, s)
  {
    assert Leads([s], [], s, s);
  }

  lemma StepCarries(states: seq<State>, events: seq<Event>, longer: seq<State>, more: seq<Event>, i: nat)
    requires i < |events| && |states| == |events| + 1 && StepAt(states, events, i)
    requires states <= longer && events <= more
    ensures StepAt(longer, more, i)
  {
    assert longer[i] == states[i] && longer[i + 1] == states[i + 1] && more[i] == events[i];
  }

  lemma RunSnoc(states: seq<State>, events: seq<Event>, e: Event, next: State)
    requires Run(states, events) && StepAt([states[|states| - 1], next], [e], 0)
    ensures Run(states + [next], events + [e])
  {
    var longer, more := states + [next], events + [e];
    forall i | 0 <= i < |more| ensures StepAt(longer, more, i) {
      if i < |events| {
        assert StepAt(states, events, i);
        StepCarries(states, events, longer, more, i);
      }
    }
  }

  lemma ReachStep(first: State, s: State, e: Event)
    requires Reaches(first, s) && Committed(s.tables) && Legal(s, e)
    ensures Reaches(first, Next(s, e))
  {
    var states, events :| Leads(states, events, first, s);
    var next := Next(s, e);
    assert StepAt([s, next], [e], 0);
    RunSnoc(states, events, e, next);
    assert Leads(states + [next], events + [e], first, next);
  }

  // ---------- whole drains and single units of work ----------

  lemma {:induction false} Enumerable(ts: set<TransactionId>)
    ensures exists order :: Enumerates(order, ts)
  {
    if ts == {} {
      assert Enumerates([], ts);
    } else {
      var t :| t in ts;
      Enumerable(ts - {t});
      var rest :| Enumerates(rest, ts - {t});
      assert forall i :: 0 <= i < |rest| ==> rest[i] in Claimed(rest);
      assert Claimed([t] + rest) == {t} + Claimed(rest);
      assert Enumerates([t] + rest, ts);
    }
  }

  /** With no rows stored there is nothing to collide with. */
  lemma EmptyProjectionDrains(tb: Tables, order: seq<TransactionId>)
    requires Committed(tb) && tb.transactions.Keys <= Claimed(order) && Distinct(order)
    ensures Recompute(Pipeline(tb), map[], order).Some?
  {
    forall t | t !in order ensures FreshFor(Pipeline(tb)({t}), map[], t) {
      assert t !in Claimed(order);
      AbsentIsFresh(tb, t);
    }
    PipelineIsCoherent(tb);
    RecomputeRefused(Pipeline(tb), map[], order);
  }

  /** What a unit of work moves, one of its triggers named. */
  lemma MovedIsEnqueued(a: Tables, b: Tables, t: TransactionId)
    requires Committed(a) && Committed(b) && PairsKept(a, b) && Moves(a, b, t)
    ensures t in Triggers()(a, b)
  {
    if t !in Triggers()(a, b) {
      SilentStatement(a, b, t);
      PartnersKept(a, b, t);
      Slices.SliceDetermines(a, b, t);
    }
  }

  lemma ReachBegin(first: State, s: State)
    requires Reaches(first, s) && Committed(s.tables)
    ensures Reaches(first, Began(s))
  {
    ReachStep(first, s, Begin);
  }

  lemma ReachExecute(first: State, s: State, w: nat, after: Tables)
    requires Reaches(first, s) && Committed(s.tables)
    requires w in s.works && s.works[w].owed == {} && KeysHold()(after)
    ensures Reaches(first, Executed(s, w, after))
  {
    ReachStep(first, s, Execute(w, after));
  }

  lemma ReachMark(first: State, s: State, w: nat)
    requires Reaches(first, s) && Committed(s.tables) && s.drain.Idle? && w in s.works
    requires forall u :: u in s.works && u != w ==> s.works[u].inserted == {}
    ensures Reaches(first, MarkedIn(s, w, s.works[w].owed))
  {
    ReachStep(first, s, Mark(w, s.works[w].owed));
  }

  lemma ReachMarkAlone(first: State, s: State, w: nat)
    requires Reaches(first, s) && Committed(s.tables) && s.drain.Idle? && s.works.Keys == {w}
    ensures Reaches(first, MarkedIn(s, w, s.works[w].owed))
  {
    ReachMark(first, s, w);
  }

  lemma ReachCommit(first: State, s: State, w: nat)
    requires Reaches(first, s) && Committed(s.tables) && w in s.works && s.works[w].owed == {}
    requires Committed(s.works[w].view) && PairsKept(s.tables, s.works[w].view) && KeysHoldIn(Beside(s, w))
    ensures Reaches(first, CommittedWork(s, w))
  {
    ReachStep(first, s, Commit(w));
  }

  lemma ReachClaim(first: State, s: State, order: seq<TransactionId>)
    requires Reaches(first, s) && Committed(s.tables) && s.drain.Idle?
    requires order != [] && Distinct(order) && Claimed(order) <= s.dirty
    ensures Reaches(first, WithDrain(s, Claiming(order)))
  {
    ReachStep(first, s, Claim(order));
  }

  lemma ReachOverlays(first: State, s: State)
    requires Reaches(first, s) && Committed(s.tables) && s.drain.Claiming?
    ensures Reaches(first, WithDrain(s, ReadOverlaysOf(s.drain, s.tables, s.stored)))
  {
    ReachStep(first, s, ReadOverlays);
  }

  lemma ReachRows(first: State, s: State)
    requires Reaches(first, s) && Committed(s.tables)
    requires s.drain.Draining? && s.drain.done < |s.drain.order| && s.drain.ledger.None?
    ensures Reaches(first, WithDrain(s, s.drain.(ledger := Some(s.tables))))
  {
    ReachStep(first, s, ReadRows);
  }

  lemma ReachWrite(first: State, s: State)
    requires Reaches(first, s) && Committed(s.tables) && ReadyToWrite(s.drain)
    ensures Reaches(first, WithDrain(s, BatchWritten(s.drain, s.tables)))
  {
    ReachStep(first, s, WriteBatch);
  }

  /** The next batch, with nothing committed since the drain began to read. */
  lemma ReachBatch(first: State, s: State, drain: Drain)
    requires Reaches(first, WithDrain(s, drain)) && Committed(s.tables)
    requires drain.Draining? && drain.overlays == s.tables && drain.ledger.None? && drain.done < |drain.order|
    ensures Reaches(first, WithDrain(s, BatchWritten(drain.(ledger := Some(s.tables)), s.tables)))
  {
    ReachRows(first, WithDrain(s, drain));
    ReachWrite(first, WithDrain(s, drain.(ledger := Some(s.tables))));
  }

  lemma {:induction false} ReachBatches(first: State, s: State, drain: Drain, rows: StoredRows)
    returns (seen: map<TransactionId, Read>)
    requires Reaches(first, WithDrain(s, drain)) && Committed(s.tables)
    requires drain.Draining? && drain.overlays == s.tables && drain.ledger.None? && drain.done <= |drain.order|
    requires Recompute(Pipeline(s.tables), drain.rows, drain.order[drain.done..]) == Some(rows)
    ensures Reaches(first, WithDrain(s, Draining(drain.order, s.tables, |drain.order|, None, rows, seen)))
    decreases |drain.order| - drain.done
  {
    if drain.done == |drain.order| {
      assert drain == Draining(drain.order, s.tables, |drain.order|, None, rows, drain.seen);
      return drain.seen;
    }
    WholeBatch(drain, s.tables);
    BatchThenRest(Pipeline(s.tables), drain.rows, drain.order, drain.done);
    ReachBatch(first, s, drain);
    seen := ReachBatches(first, s, BatchWritten(drain.(ledger := Some(s.tables)), s.tables), rows);
  }

  lemma ReachDrained(first: State, s: State)
    requires Reaches(first, s) && Committed(s.tables) && AllDone(s.drain)
    ensures Reaches(first, Drained(s))
  {
    ReachStep(first, s, CommitDrain);
  }

  /** A whole drain with nothing in between, when no insert is refused. */
  lemma ReachDrain(first: State, s: State, order: seq<TransactionId>, rows: StoredRows)
    requires Reaches(first, s) && Committed(s.tables) && s.drain.Idle?
    requires order != [] && Distinct(order) && Claimed(order) <= s.dirty
    requires Recompute(Pipeline(s.tables), s.stored, order) == Some(rows)
    ensures Reaches(first, s.(dirty := s.dirty - Claimed(order), stored := rows))
  {
    ReachClaim(first, s, order);
    ReachOverlays(first, WithDrain(s, Claiming(order)));
    assert order[0..] == order;
    var seen := ReachBatches(first, s, Draining(order, s.tables, 0, None, s.stored, map[]), rows);
    var done := WithDrain(s, Draining(order, s.tables, |order|, None, rows, seen));
    ReachDrained(first, done);
    assert Drained(done) == s.(dirty := s.dirty - Claimed(order), stored := rows);
  }

  /** One open unit of work. */
  function WithOpen(s: State, work: Work): State {
    s.(works := map[s.minted := work], minted := s.minted + 1)
  }

  /** A unit of work begins and runs one statement, whose markers are all inserted or found. */
  lemma ReachOpen(first: State, s: State, after: Tables)
    requires Reaches(first, s) && Committed(s.tables) && s.works == map[] && s.drain.Idle? && KeysHold()(after)
    ensures Reaches(first, WithOpen(s, Ran(s.tables, s.dirty, Triggers()(s.tables, after), after)))
  {
    var w := s.minted;
    ReachBegin(first, s);
    assert Began(s) == WithOpen(s, Work(s.tables, {}, {}, {}));
    ReachExecute(first, Began(s), w, after);
    OpenRuns(s, Triggers()(s.tables, after), after);
    ReachMarkAlone(first, Executed(Began(s), w, after), w);
  }

  function Ran(tb: Tables, dirty: set<TransactionId>, owed: set<TransactionId>, after: Tables): Work {
    Work(after, {}, owed * dirty, owed - dirty)
  }

  lemma OpenRuns(s: State, owed: set<TransactionId>, after: Tables)
    requires s.works == map[]
    ensures var ran := WithWork(Began(s), s.minted, Work(after, owed, {}, {}));
      && ran.works.Keys == {s.minted}
      && MarkedIn(ran, s.minted, owed) == WithOpen(s, Ran(s.tables, s.dirty, owed, after))
  {
    var w := s.minted;
    var marked := Marked(Work(after, owed, {}, {}), s.dirty, owed);
    assert marked == Ran(s.tables, s.dirty, owed, after);
    assert Began(s).works == map[w := Work(s.tables, {}, {}, {})];
    var ran := WithWork(Began(s), w, Work(after, owed, {}, {}));
    assert ran.works == map[w := Work(after, owed, {}, {})];
    assert MarkedIn(ran, w, owed).works == map[w := marked];
  }

  function SavedWith(s: State, work: Work): State {
    s.(tables := work.view, dirty := s.dirty + work.inserted, works := map[], minted := s.minted + 1)
  }

  lemma AloneCommits(s: State, work: Work)
    ensures Beside(WithOpen(s, work), s.minted) == map[]
    ensures CommittedWork(WithOpen(s, work), s.minted) == SavedWith(s, work)
  {
    assert Beside(WithOpen(s, work), s.minted) == map[];
  }

  lemma ReachCommitAlone(first: State, s: State, work: Work)
    requires Reaches(first, WithOpen(s, work)) && Committed(s.tables) && work.owed == {}
    requires Committed(work.view) && PairsKept(s.tables, work.view)
    ensures Reaches(first, SavedWith(s, work))
  {
    AloneCommits(s, work);
    ReachCommit(first, WithOpen(s, work), s.minted);
  }

  // ---------- from an empty database ----------

  /** Another statement of the only unit of work, into an empty queue. */
  lemma ReachAgain(first: State, s: State, work: Work, after: Tables)
    requires Reaches(first, WithOpen(s, work)) && Committed(s.tables) && s.drain.Idle? && s.works == map[]
    requires s.dirty == {} && work.owed == {} && KeysHold()(after)
    ensures Reaches(first, WithOpen(s, Added(work, Triggers()(work.view, after), after)))
  {
    var owed := Triggers()(work.view, after);
    ReachExecute(first, WithOpen(s, work), s.minted, after);
    AgainRuns(s, work, owed, after);
    ReachMarkAlone(first, WithOpen(s, work.(view := after, owed := owed)), s.minted);
  }

  function Added(work: Work, owed: set<TransactionId>, after: Tables): Work {
    Work(after, {}, work.found, work.inserted + owed)
  }

  lemma AgainRuns(s: State, work: Work, owed: set<TransactionId>, after: Tables)
    requires s.dirty == {} && work.owed == {}
    ensures var w, next := s.minted, work.(view := after, owed := owed);
      && WithWork(WithOpen(s, work), w, next) == WithOpen(s, next)
      && WithOpen(s, next).works.Keys == {w}
      && MarkedIn(WithOpen(s, next), w, owed) == WithOpen(s, Added(work, owed, after))
  {
    var w, next := s.minted, work.(view := after, owed := owed);
    assert map[w := work][w := next] == map[w := next];
    assert Marked(next, {}, owed) == Added(work, owed, after);
    assert map[w := next][w := Added(work, owed, after)] == map[w := Added(work, owed, after)];
  }

  /** `a` committed and nothing drained yet. */
  function Seeded(a: Tables, dirty: set<TransactionId>): State {
    State(a, dirty, map[], map[], 1, Idle)
  }

  /** The markers of a unit of work that writes `a`, turns it into `b` and back. */
  function Queued(a: Tables, b: Tables): set<TransactionId> {
    Triggers()(NOTHING, a) + Triggers()(a, b) + Triggers()(b, a)
  }

  lemma ReachWrote(s: State, a: Tables)
    requires Committed(s.tables) && s.dirty == {} && s.works == map[] && s.drain.Idle? && KeysHold()(a)
    ensures Reaches(s, WithOpen(s, Work(a, {}, {}, Triggers()(s.tables, a))))
  {
    var wrote := Triggers()(s.tables, a);
    ReachesItself(s);
    ReachOpen(s, s, a);
    RanIntoNothing(s.tables, wrote, a);
  }

  lemma RanIntoNothing(tb: Tables, owed: set<TransactionId>, after: Tables)
    ensures Ran(tb, {}, owed, after) == Work(after, {}, {}, owed)
  {
  }

  lemma ReachMore(s: State, a: Tables, markers: set<TransactionId>, b: Tables)
    requires Committed(s.tables) && s.dirty == {} && s.works == map[] && s.drain.Idle? && KeysHold()(b)
    requires Reaches(s, WithOpen(s, Work(a, {}, {}, markers)))
    ensures Reaches(s, WithOpen(s, Work(b, {}, {}, markers + Triggers()(a, b))))
  {
    ReachAgain(s, s, Work(a, {}, {}, markers), b);
  }

  lemma BlankCommits(a: Tables, markers: set<TransactionId>)
    ensures PairsKept(NOTHING, a) && SavedWith(BLANK, Work(a, {}, {}, markers)) == Seeded(a, markers)
  {
    assert {} + markers == markers;
  }

  lemma ReachSeeded(a: Tables, b: Tables)
    requires Committed(a) && KeysHold()(b)
    ensures Reaches(BLANK, Seeded(a, Queued(a, b)))
  {
    BlankIsRight();
    CommittedKeys(a);
    ReachWrote(BLANK, a);
    ReachMore(BLANK, a, Triggers()(NOTHING, a), b);
    ReachMore(BLANK, b, Triggers()(NOTHING, a) + Triggers()(a, b), a);
    BlankCommits(a, Queued(a, b));
    ReachCommitAlone(BLANK, BLANK, Work(a, {}, {}, Queued(a, b)));
  }

  lemma CommittedKeys(tb: Tables)
    requires Committed(tb)
    ensures KeysHold()(tb)
  {
  }

  lemma WrittenIsQueued(a: Tables, t: TransactionId)
    requires t in a.transactions
    ensures t in Triggers()(NOTHING, a)
  {
    assert t in Changed(NOTHING.transactions, a.transactions);
  }

  lemma SeededQueue(a: Tables, b: Tables)
    ensures a.transactions.Keys + Triggers()(a, b) <= Queued(a, b)
  {
    forall t | t in a.transactions ensures t in Triggers()(NOTHING, a) {
      WrittenIsQueued(a, t);
    }
  }

  // ---------- a marker claimed underneath a unit of work ----------

  function WithRows(s: State, dirty: set<TransactionId>, rows: StoredRows): State {
    s.(dirty := dirty, stored := rows)
  }

  lemma DrainedOpen(s: State, work: Work, dirty: set<TransactionId>, rows: StoredRows)
    ensures WithRows(WithOpen(s, work), dirty, rows) == WithOpen(WithRows(s, dirty, rows), work)
  {
  }

  /** A drain claims, recomputes and commits under an open unit of work, which then commits. */
  lemma ReachUnderneath(first: State, s: State, work: Work, order: seq<TransactionId>, rows: StoredRows)
    requires Reaches(first, WithOpen(s, work)) && Committed(s.tables) && s.drain.Idle?
    requires order != [] && Distinct(order) && Claimed(order) <= s.dirty
    requires Recompute(Pipeline(s.tables), s.stored, order) == Some(rows)
    requires work.owed == {} && Committed(work.view) && PairsKept(s.tables, work.view)
    ensures Reaches(first, SavedWith(WithRows(s, s.dirty - Claimed(order), rows), work))
  {
    var left := s.dirty - Claimed(order);
    ReachDrain(first, WithOpen(s, work), order, rows);
    assert WithRows(WithOpen(s, work), left, rows) == WithOpen(s, work).(dirty := left, stored := rows);
    DrainedOpen(s, work, left, rows);
    ReachCommitAlone(first, WithRows(s, left, rows), work);
  }

  /** Every marker was found, so the commit brings none. */
  lemma LostEnd(a: Tables, b: Tables, owed: set<TransactionId>, dirty: set<TransactionId>, order: seq<TransactionId>,
                rows: StoredRows)
    requires Enumerates(order, dirty) && owed <= dirty
    ensures SavedWith(WithRows(Seeded(a, dirty), dirty - Claimed(order), rows), Ran(a, dirty, owed, b))
         == State(b, {}, rows, map[], 2, Idle)
  {
    assert dirty - Claimed(order) == {};
    assert owed - dirty == {};
  }

  lemma ReachLost(first: State, a: Tables, b: Tables, dirty: set<TransactionId>, order: seq<TransactionId>,
                  rows: StoredRows)
    requires Committed(a) && Committed(b) && PairsKept(a, b) && order != []
    requires Reaches(first, Seeded(a, dirty)) && Triggers()(a, b) <= dirty && Enumerates(order, dirty)
    requires Recompute(Pipeline(a), map[], order) == Some(rows)
    ensures Reaches(first, State(b, {}, rows, map[], 2, Idle))
  {
    var owed, s := Triggers()(a, b), Seeded(a, dirty);
    ReachOpen(first, s, b);
    ReachUnderneath(first, s, Ran(a, dirty, owed, b), order, rows);
    LostEnd(a, b, owed, dirty, order, rows);
  }

  /**
   * The first window loses any change at all: whatever a unit of work moves in whatever ledger, some run from an empty
   * database commits that ledger, lets a drain claim between the change's statement and its commit, and ends with the
   * moved transaction stale and the queue empty.
   */
  lemma ClaimUnderneathLoses(a: Tables, b: Tables, t: TransactionId) returns (middle: State, last: State)
    requires Committed(a) && Committed(b) && PairsKept(a, b) && Moves(a, b, t)
    ensures Reaches(BLANK, middle) && middle.tables == a && Reaches(middle, last) && Reaches(BLANK, last)
    ensures last.tables == b && last.dirty == {} && last.works == map[] && last.drain.Idle?
    ensures !Fresh(b, last.stored, t)
  {
    var dirty := Queued(a, b);
    SeededQueue(a, b);
    MovedIsEnqueued(a, b, t);
    Enumerable(dirty);
    var order :| Enumerates(order, dirty);
    assert t in Claimed(order);
    EmptyProjectionDrains(a, order);
    var rows := Recompute(Pipeline(a), map[], order).value;
    middle, last := Seeded(a, dirty), State(b, {}, rows, map[], 2, Idle);
    ReachSeeded(a, b);
    ReachesItself(middle);
    ReachLost(BLANK, a, b, dirty, order, rows);
    ReachLost(middle, a, b, dirty, order, rows);
    RecomputedFromNothing(a, order, t);
    StaysFreshUnlessMoved(a, b, rows, t);
  }

  // ---------- a transaction changed underneath a unit of work ----------

  /** Two open units of work, in a queue that held every marker of the first. */
  function TwoOpen(s: State, older: Work, newer: Work): State {
    s.(works := map[s.minted := older, s.minted + 1 := newer], minted := s.minted + 2)
  }

  lemma SecondRuns(s: State, older: Work, owed: set<TransactionId>, after: Tables)
    ensures Began(WithOpen(s, older)) == TwoOpen(s, older, Work(s.tables, {}, {}, {}))
    ensures WithWork(TwoOpen(s, older, Work(s.tables, {}, {}, {})), s.minted + 1, Work(after, owed, {}, {}))
      == TwoOpen(s, older, Work(after, owed, {}, {}))
    ensures MarkedIn(TwoOpen(s, older, Work(after, owed, {}, {})), s.minted + 1, owed)
      == TwoOpen(s, older, Ran(s.tables, s.dirty, owed, after))
  {
    var v, w, began := s.minted, s.minted + 1, Work(s.tables, {}, {}, {});
    var ran, marked := Work(after, owed, {}, {}), Ran(s.tables, s.dirty, owed, after);
    assert map[v := older][w := began] == map[v := older, w := began];
    assert Marked(ran, s.dirty, owed) == marked;
    assert map[v := older, w := began][w := ran] == map[v := older, w := ran];
    assert map[v := older, w := ran][w := marked] == map[v := older, w := marked];
  }

  lemma OthersInsertedNothing(s: State, older: Work, newer: Work)
    requires older.inserted == {}
    ensures var open, w := TwoOpen(s, older, newer), s.minted + 1;
      w in open.works && forall u :: u in open.works && u != w ==> open.works[u].inserted == {}
  {
  }

  lemma ReachSecond(first: State, s: State, older: Work)
    requires Reaches(first, WithOpen(s, older)) && Committed(s.tables)
    ensures Reaches(first, TwoOpen(s, older, Work(s.tables, {}, {}, {})))
  {
    SecondRuns(s, older, {}, s.tables);
    ReachBegin(first, WithOpen(s, older));
  }

  lemma ReachSecondRuns(first: State, s: State, older: Work, after: Tables)
    requires Reaches(first, TwoOpen(s, older, Work(s.tables, {}, {}, {}))) && Committed(s.tables) && KeysHold()(after)
    ensures Reaches(first, TwoOpen(s, older, Work(after, Triggers()(s.tables, after), {}, {})))
  {
    var began := TwoOpen(s, older, Work(s.tables, {}, {}, {}));
    SecondRuns(s, older, Triggers()(s.tables, after), after);
    ReachExecute(first, began, s.minted + 1, after);
  }

  lemma ReachSecondMarks(first: State, s: State, older: Work, owed: set<TransactionId>, after: Tables)
    requires Reaches(first, TwoOpen(s, older, Work(after, owed, {}, {}))) && Committed(s.tables)
    requires s.drain.Idle? && older.inserted == {}
    ensures Reaches(first, TwoOpen(s, older, Ran(s.tables, s.dirty, owed, after)))
  {
    SecondRuns(s, older, owed, after);
    OthersInsertedNothing(s, older, Work(after, owed, {}, {}));
    ReachMark(first, TwoOpen(s, older, Work(after, owed, {}, {})), s.minted + 1);
  }

  lemma ReachTwoOpen(first: State, s: State, older: Work, after: Tables)
    requires s.drain.Idle? && Committed(s.tables)
    requires Reaches(first, WithOpen(s, older)) && older.inserted == {} && KeysHold()(after)
    ensures Reaches(first, TwoOpen(s, older, Ran(s.tables, s.dirty, Triggers()(s.tables, after), after)))
  {
    ReachSecond(first, s, older);
    ReachSecondRuns(first, s, older, after);
    ReachSecondMarks(first, s, older, Triggers()(s.tables, after), after);
  }

  /** What is left once the newer unit of work has committed, with both changes in the older one's view. */
  function AfterNewer(s: State, older: Work, newer: Work, both: Tables): State {
    State(newer.view, s.dirty + newer.inserted, s.stored, map[s.minted := older.(view := both)], s.minted + 2, s.drain)
  }

  lemma MapIsOne<V>(m: map<nat, V>, k: nat, v: V)
    requires m.Keys == {k} && m[k] == v
    ensures m == map[k := v]
  {
  }

  lemma NewerCommits(s: State, older: Work, newer: Work)
    ensures var open, w := TwoOpen(s, older, newer), s.minted + 1;
      && open.tables == s.tables && w in open.works && open.works[w] == newer
      && var after := AfterNewer(s, older, newer, Rebase.Rebased(newer.view, s.tables, older.view));
      && Beside(open, w) == after.works && CommittedWork(open, w) == after
  {
    var open, w := TwoOpen(s, older, newer), s.minted + 1;
    var left := Beside(open, w);
    assert left.Keys == {s.minted} by {
      assert s.minted in open.works && w in open.works && open.works.Keys == {s.minted, w};
    }
    MapIsOne(left, s.minted, older.(view := Rebase.Rebased(newer.view, s.tables, older.view)));
  }

  lemma KeysHoldBeside(s: State, older: Work, newer: Work, both: Tables)
    requires KeysHold()(both)
    ensures KeysHoldIn(AfterNewer(s, older, newer, both).works)
  {
  }

  lemma ReachNext(first: State, open: State, w: nat, next: State)
    requires Reaches(first, open) && Committed(open.tables) && w in open.works && open.works[w].owed == {}
    requires Committed(open.works[w].view) && PairsKept(open.tables, open.works[w].view)
    requires CommittedWork(open, w) == next && KeysHoldIn(next.works)
    ensures Reaches(first, next)
  {
    ReachCommit(first, open, w);
  }

  lemma ReachAfterNewer(first: State, s: State, older: Work, newer: Work)
    requires Reaches(first, TwoOpen(s, older, newer)) && Committed(s.tables) && newer.owed == {}
    requires Committed(newer.view) && PairsKept(s.tables, newer.view)
    requires KeysHold()(Rebase.Rebased(newer.view, s.tables, older.view))
    ensures Reaches(first, AfterNewer(s, older, newer, Rebase.Rebased(newer.view, s.tables, older.view)))
  {
    var both := Rebase.Rebased(newer.view, s.tables, older.view);
    NewerCommits(s, older, newer);
    KeysHoldBeside(s, older, newer, both);
    ReachNext(first, TwoOpen(s, older, newer), s.minted + 1, AfterNewer(s, older, newer, both));
  }

  lemma LastCommits(s: State, w: nat, work: Work)
    requires work.inserted == {}
    ensures var open := s.(works := map[w := work]);
      Beside(open, w) == map[] && CommittedWork(open, w) == s.(tables := work.view, works := map[])
  {
    assert Beside(s.(works := map[w := work]), w) == map[];
    assert s.dirty + {} == s.dirty;
  }

  lemma ReachLastCommit(first: State, s: State, w: nat, work: Work)
    requires Reaches(first, s.(works := map[w := work])) && Committed(s.tables)
    requires work.owed == {} && work.inserted == {} && Committed(work.view) && PairsKept(s.tables, work.view)
    ensures Reaches(first, s.(tables := work.view, works := map[]))
  {
    LastCommits(s, w, work);
    ReachCommit(first, s.(works := map[w := work]), w);
  }

  /** One unit of work left open over an empty queue. */
  function LeftOpen(tb: Tables, rows: StoredRows, w: nat, work: Work): State {
    State(tb, {}, rows, map[w := work], w + 2, Idle)
  }

  lemma ReachDrainedUnder(first: State, s: State, older: Work, newer: Work, both: Tables, order: seq<TransactionId>,
                          rows: StoredRows)
    requires Reaches(first, AfterNewer(s, older, newer, both)) && Committed(newer.view) && s.drain.Idle?
    requires order != [] && Enumerates(order, s.dirty + newer.inserted)
    requires Recompute(Pipeline(newer.view), s.stored, order) == Some(rows)
    ensures Reaches(first, LeftOpen(newer.view, rows, s.minted, older.(view := both)))
  {
    var after, left := AfterNewer(s, older, newer, both), older.(view := both);
    ReachDrain(first, after, order, rows);
    assert after.dirty - Claimed(order) == {};
    assert after.(dirty := after.dirty - Claimed(order), stored := rows) == LeftOpen(newer.view, rows, s.minted, left);
  }

  /** Once the newer unit of work has committed: a whole drain, and then the older commit. */
  lemma ReachMissed(first: State, s: State, older: Work, newer: Work, both: Tables, order: seq<TransactionId>,
                    rows: StoredRows)
    requires Reaches(first, AfterNewer(s, older, newer, both)) && s.drain.Idle?
    requires older.owed == {} && older.inserted == {} && Committed(newer.view)
    requires Committed(both) && PairsKept(newer.view, both)
    requires order != [] && Enumerates(order, s.dirty + newer.inserted)
    requires Recompute(Pipeline(newer.view), s.stored, order) == Some(rows)
    ensures Reaches(first, State(both, {}, rows, map[], s.minted + 2, Idle))
  {
    ReachDrainedUnder(first, s, older, newer, both, order, rows);
    ReachLeft(first, newer.view, rows, s.minted, older.(view := both));
  }

  lemma ReachLeft(first: State, tb: Tables, rows: StoredRows, w: nat, left: Work)
    requires Reaches(first, LeftOpen(tb, rows, w, left)) && Committed(tb)
    requires left.owed == {} && left.inserted == {} && Committed(left.view) && PairsKept(tb, left.view)
    ensures Reaches(first, State(left.view, {}, rows, map[], w + 2, Idle))
  {
    ReachLastCommit(first, LeftOpen(tb, rows, w, left), w, left);
  }

  lemma NewTransactionsAreQueued(a: Tables, b: Tables)
    ensures b.transactions.Keys <= a.transactions.Keys + Triggers()(a, b)
  {
    forall t | t in b.transactions && t !in a.transactions ensures t in Triggers()(a, b) {
      assert t in Changed(a.transactions, b.transactions);
    }
  }

  lemma RecomputedFromNothing(tb: Tables, order: seq<TransactionId>, t: TransactionId)
    requires Committed(tb) && tb.transactions.Keys <= Claimed(order) && Distinct(order)
    ensures Recompute(Pipeline(tb), map[], order).Some?
    ensures Fresh(tb, Recompute(Pipeline(tb), map[], order).value, t)
  {
    EmptyProjectionDrains(tb, order);
    if t !in order {
      assert t !in Claimed(order);
      AbsentIsFresh(tb, t);
    }
    RecomputedIsFresh(tb, map[], order, t);
  }

  /**
   * The second window loses any change its triggers could not name: over whatever ledger, two units of work begin at
   * `a`, one writing `x` and one `y`; `y` commits and is drained before `x` commits on top of it.
   */
  lemma ChangeUnderneathLoses(a: Tables, x: Tables, y: Tables, t: TransactionId) returns (middle: State, last: State)
    requires Committed(a) && Committed(y) && PairsKept(a, y) && KeysHold()(x)
    requires var both := Rebase.Rebased(y, a, x); Committed(both) && PairsKept(y, both) && Moves(y, both, t)
    requires a.transactions.Keys + Triggers()(a, x) + Triggers()(a, y) != {}
    ensures Reaches(BLANK, middle) && middle.tables == a && Reaches(middle, last) && Reaches(BLANK, last)
    ensures last.tables == Rebase.Rebased(y, a, x) && last.dirty == {} && last.works == map[] && last.drain.Idle?
    ensures !Fresh(last.tables, last.stored, t)
  {
    var dirty := Queued(a, x);
    var all := dirty + Ran(a, dirty, Triggers()(a, y), y).inserted;
    SeededQueue(a, x);
    Enumerable(all);
    var order :| Enumerates(order, all);
    NewTransactionsAreQueued(a, y);
    assert order == [] ==> Claimed(order) == {};
    RecomputedFromNothing(y, order, t);
    var rows := Recompute(Pipeline(y), map[], order).value;
    middle, last := Seeded(a, dirty), State(Rebase.Rebased(y, a, x), {}, rows, map[], 3, Idle);
    ReachSeeded(a, x);
    ReachesItself(middle);
    ReachMissedFrom(BLANK, a, x, y, dirty, order, rows);
    ReachMissedFrom(middle, a, x, y, dirty, order, rows);
    StaysFreshUnlessMoved(y, last.tables, rows, t);
  }

  /** Both units of work open at `a`, and the newer one has committed. */
  lemma ReachNewer(first: State, a: Tables, x: Tables, y: Tables, dirty: set<TransactionId>)
    requires Committed(a) && Committed(y) && PairsKept(a, y) && KeysHold()(x)
    requires KeysHold()(Rebase.Rebased(y, a, x))
    requires Reaches(first, Seeded(a, dirty)) && Triggers()(a, x) <= dirty
    ensures var s, older := Seeded(a, dirty), Ran(a, dirty, Triggers()(a, x), x);
      && older.inserted == {}
      && Reaches(first, AfterNewer(s, older, Ran(a, dirty, Triggers()(a, y), y), Rebase.Rebased(y, a, x)))
  {
    var s := Seeded(a, dirty);
    var older, newer := Ran(a, dirty, Triggers()(a, x), x), Ran(a, dirty, Triggers()(a, y), y);
    CommittedKeys(y);
    ReachOpen(first, s, x);
    assert older.inserted == {};
    ReachTwoOpen(first, s, older, y);
    ReachAfterNewer(first, s, older, newer);
  }

  lemma ReachMissedFrom(first: State, a: Tables, x: Tables, y: Tables, dirty: set<TransactionId>,
                        order: seq<TransactionId>, rows: StoredRows)
    requires Committed(a) && Committed(y) && PairsKept(a, y) && KeysHold()(x)
    requires var both := Rebase.Rebased(y, a, x); Committed(both) && PairsKept(y, both)
    requires Reaches(first, Seeded(a, dirty)) && Triggers()(a, x) <= dirty
    requires order != [] && Enumerates(order, dirty + Ran(a, dirty, Triggers()(a, y), y).inserted)
    requires Recompute(Pipeline(y), map[], order) == Some(rows)
    ensures Reaches(first, State(Rebase.Rebased(y, a, x), {}, rows, map[], 3, Idle))
  {
    var both := Rebase.Rebased(y, a, x);
    CommittedKeys(both);
    ReachNewer(first, a, x, y, dirty);
    ReachMissed(first, Seeded(a, dirty), Ran(a, dirty, Triggers()(a, x), x), Ran(a, dirty, Triggers()(a, y), y), both,
                order, rows);
  }
}
