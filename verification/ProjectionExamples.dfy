/** Small ledgers in which each limit of the projection is met, by runs the code allows. */
module ProjectionExamples {
  import opened Frame
  import opened Categorization
  import opened Linking
  import opened Tables
  import opened Footprint
  import opened Recomputing
  import opened Projection
  import opened Drains
  import opened ProjectionRuns
  import opened ProjectionStarts
  import opened ProjectionReach
  import ProjectionStores
  import QuietWrites
  import Rebase
  import Slices

  /** A ledger with one account and nothing over its postings but categories and links. */
  function Bank(transactions: map<TransactionId, TransactionRec>, postings: map<string, PostingRec>,
                categories: map<string, CategoryRec>, links: map<string, LinkRec>,
                linkMembers: set<(string, TransactionId)>): Tables
  {
    Tables(transactions, postings, {}, map[], {}, {}, map[], map[], {}, map[], {}, links, linkMembers, map[],
           map["cash" := AccountRec("Cash", Checking)], categories, map[])
  }

  function Paid(t: TransactionId, amount: int, category: Option<string>): PostingRec {
    PostingRec(t, "cash", amount, "USD", category, None, None, map[])
  }

  const EVENT := TransactionRec(0, "paid")

  /** One transaction of two legs. */
  function OnePaid(t: TransactionId, amount: int, category: Option<string>,
                   categories: map<string, CategoryRec>): Tables
  {
    Bank(map[t := EVENT], map["p" := Paid(t, amount, category), "q" := Paid(t, -amount, None)], categories, map[], {})
  }

  lemma OnePaidIsPlain(t: TransactionId, amount: int, category: Option<string>, categories: map<string, CategoryRec>)
    requires KnownIf(category, categories) && forall c :: c in categories ==> categories[c].successor.None?
    ensures var tb := OnePaid(t, amount, category, categories);
      Committed(tb) && Plain(tb) && "p" in PostingKeys(tb, {t})
  {
  }

  // ---------- a ledger older than its projection ----------

  /** Recorded before the migration: the cache is wrong from the start, and no read has a marker to claim. */
  lemma UpgradeIsNotFilled()
    ensures var s := State(OnePaid(0, 5, None, map[]), {}, map[], map[], 0, Idle);
      && Installed(s) && Protocol(s) && !Invariant(s)
      && forall order :: !Legal(s, Claim(order))
  {
    var tb := OnePaid(0, 5, None, map[]);
    var s := State(tb, {}, map[], map[], 0, Idle);
    OnePaidIsPlain(0, 5, None, map[]);
    InstalledIsQuiet(s);
    PostingIsShown(tb, 0, "p");
    assert ResolveBatch(tb, {0}) != [];
    InstalledIsRight(s);
    forall order ensures !Legal(s, Claim(order)) {
      NothingToClaim(s, order);
    }
  }

  // ---------- a claim underneath ----------

  /** An amount edited while the transaction is queued, and a page read between the edit and its commit. */
  lemma EditIsLost() returns (middle: State, last: State)
    ensures Reaches(BLANK, middle) && Reaches(middle, last) && last.dirty == {} && last.works == map[]
      && last.drain.Idle?
    ensures 0 in last.tables.transactions && Committed(last.tables) && !Fresh(last.tables, last.stored, 0)
  {
    var a, b := OnePaid(0, 5, None, map[]), OnePaid(0, 7, None, map[]);
    OnePaidIsPlain(0, 5, None, map[]);
    OnePaidIsPlain(0, 7, None, map[]);
    assert RowOf(a, "p").amount == 5 && RowOf(b, "p").amount == 7;
    OtherRowMoves(a, b, 0, "p");
    middle, last := ClaimUnderneathLoses(a, b, 0);
  }

  // ---------- a change underneath ----------

  const LIVE := map["food" := CategoryRec("Food", false, None)]
  const RETIRED := map["food" := CategoryRec("Food", true, None)]

  function Empty(categories: map<string, CategoryRec>): Tables {
    Bank(map[], map[], categories, map[], {})
  }

  lemma EmptyIsCommitted(categories: map<string, CategoryRec>)
    requires forall c :: c in categories ==> categories[c].successor.None?
    ensures Committed(Empty(categories))
  {
  }

  lemma BothIn()
    ensures Rebase.Rebased(OnePaid(0, 5, Some("food"), LIVE), Empty(LIVE), Empty(RETIRED))
      == OnePaid(0, 5, Some("food"), RETIRED)
  {
    var y, a, x := OnePaid(0, 5, Some("food"), LIVE), Empty(LIVE), Empty(RETIRED);
    Rebase.CarryUntouched(y.transactions, a.transactions);
    Rebase.CarryUntouched(y.postings, a.postings);
    Rebase.CarryUntouched(y.accounts, a.accounts);
    assert Rebase.CarryMap(y.categories, a.categories, x.categories) == RETIRED;
  }

  lemma RetirementMoves()
    ensures var y, both := OnePaid(0, 5, Some("food"), LIVE), OnePaid(0, 5, Some("food"), RETIRED);
      Committed(y) && Committed(both) && Moves(y, both, 0)
  {
    var y, both := OnePaid(0, 5, Some("food"), LIVE), OnePaid(0, 5, Some("food"), RETIRED);
    OnePaidIsPlain(0, 5, Some("food"), LIVE);
    OnePaidIsPlain(0, 5, Some("food"), RETIRED);
    assert RowOf(y, "p").category == Some("food") && RowOf(both, "p").category == None;
    OtherRowMoves(y, both, 0, "p");
  }

  /** A category retired while an import files a posting under it: the retirement's trigger cannot see the posting. */
  lemma RetirementIsLost() returns (middle: State, last: State)
    ensures Reaches(BLANK, middle) && Reaches(middle, last) && last.dirty == {} && last.works == map[]
      && last.drain.Idle?
    ensures 0 in last.tables.transactions && Committed(last.tables) && !Fresh(last.tables, last.stored, 0)
  {
    var a, x, y := Empty(LIVE), Empty(RETIRED), OnePaid(0, 5, Some("food"), LIVE);
    EmptyIsCommitted(LIVE);
    EmptyIsCommitted(RETIRED);
    RetirementMoves();
    BothIn();
    NewTransactionsAreQueued(a, y);
    assert 0 in y.transactions.Keys;
    middle, last := ChangeUnderneathLoses(a, x, y, 0);
  }

  // ---------- another partner under a kept link ----------

  const THREE := map[0 := EVENT, 1 := EVENT, 2 := EVENT]

  /** Three transactions, the first linked to one of the others. */
  function Linked(partner: TransactionId): Tables {
    Bank(THREE, map["p" := Paid(0, 5, None), "q" := Paid(0, -5, None)], map[], map["l" := LinkRec(Manual, None)],
         {("l", 0), ("l", partner)})
  }

  lemma MembersAre(partner: TransactionId)
    ensures MembersOf(Linked(partner), "l") == {0, partner}
  {
    forall t ensures t in MembersOf(Linked(partner), "l") <==> t in {0, partner} {
      InSecondsAt(Linked(partner).linkMembers, "l", t);
    }
  }

  lemma LinkedKeysHold(partner: TransactionId)
    requires partner == 1 || partner == 2
    ensures ForeignKeys(Linked(partner))
  {
  }

  lemma LinkedIsCommitted(partner: TransactionId)
    requires partner == 1 || partner == 2
    ensures Committed(Linked(partner)) && Plain(Linked(partner)) && "p" in PostingKeys(Linked(partner), {0})
  {
    LinkedKeysHold(partner);
    MembersAre(partner);
    assert IsPair({0, partner});
    assert Linked(partner).postings["p"].transaction == 0;
  }

  lemma OthersChange()
    ensures 0 !in FromLinkMembers(Linked(1), Linked(2))
  {
    assert Linked(1).linkMembers == {("l", 0), ("l", 1)} && Linked(2).linkMembers == {("l", 0), ("l", 2)};
  }

  lemma RepairingNamesTheOthers()
    ensures 0 !in Triggers()(Linked(1), Linked(2))
  {
    QuietWrites.MembershipsEnqueue(Linked(1), Linked(2));
    OthersChange();
  }

  lemma PartnersDiffer()
    ensures "l" in LinksOf(Linked(1), 0) && "l" in LinksOf(Linked(2), 0)
    ensures !Slices.SamePartners(Linked(1), Linked(2), 0)
  {
    MembersAre(1);
    MembersAre(2);
    assert ("l", 0) in Linked(1).linkMembers && ("l", 0) in Linked(2).linkMembers;
    assert 1 in MembersOf(Linked(1), "l") && 1 !in MembersOf(Linked(2), "l");
  }

  /** Handing a kept link another partner leaves the first transaction unqueued and resolved differently. */
  lemma MovedPartnerIsNotQueued()
    ensures var a, b := Linked(1), Linked(2);
      && Committed(a) && Committed(b)
      && 0 !in Triggers()(a, b)
      && "l" in LinksOf(a, 0) && "l" in LinksOf(b, 0) && !Slices.SamePartners(a, b, 0)
      && ResolveBatch(a, {0}) != ResolveBatch(b, {0})
  {
    var a, b := Linked(1), Linked(2);
    LinkedIsCommitted(1);
    LinkedIsCommitted(2);
    RepairingNamesTheOthers();
    PartnersDiffer();
    PostingIsShown(a, 0, "p");
    StaleOnlyByMovedPartner(a, b, 0);
  }

  // ---------- a refused drain ----------

  function UpTo(n: nat): set<TransactionId> {
    if n == 0 then {} else UpTo(n - 1) + {n - 1}
  }

  lemma {:induction false} CountUpTo(n: nat)
    ensures |UpTo(n)| == n
    ensures forall t :: t in UpTo(n) ==> t < n
  {
    if n > 0 {
      CountUpTo(n - 1);
    }
  }

  lemma {:induction false} LargerSet(a: set<TransactionId>, b: set<TransactionId>)
    requires a <= b
    ensures |a| <= |b|
  {
    if a != {} {
      var t :| t in a;
      LargerSet(a - {t}, b - {t});
    }
  }

  /** Any queue can be claimed with one given marker first and another last. */
  lemma ClaimedBetween(ts: set<TransactionId>, t: TransactionId, u: TransactionId) returns (order: seq<TransactionId>)
    requires t in ts && u in ts && t != u
    ensures Enumerates(order, ts) && |order| == |ts| && |order| >= 2 && order[0] == t && order[|order| - 1] == u
  {
    var middle := EnumeratedBy(ts - {t, u});
    order := [t] + middle + [u];
    assert |ts - {t, u}| == |ts| - 2 by {
      assert ts - {t, u} == (ts - {t}) - {u};
    }
    assert forall i :: 0 <= i < |middle| ==> middle[i] in Claimed(middle);
    assert Claimed(order) == Claimed(middle) + {t, u};
  }

  lemma {:induction false} EnumeratedBy(ts: set<TransactionId>) returns (order: seq<TransactionId>)
    ensures Enumerates(order, ts) && |order| == |ts|
  {
    if ts == {} {
      order := [];
    } else {
      var t :| t in ts;
      var rest := EnumeratedBy(ts - {t});
      assert forall i :: 0 <= i < |rest| ==> rest[i] in Claimed(rest);
      assert Claimed([t] + rest) == {t} + Claimed(rest);
      order := [t] + rest;
    }
  }

  /**
   * A posting id that moved between two queued transactions is refused in some order once more than one batch is
   * queued.
   */
  lemma SomeOrderIsRefused(resolve: Resolver, stored: StoredRows, dirty: set<TransactionId>, t: TransactionId,
                           u: TransactionId)
    returns (order: seq<TransactionId>)
    requires t in dirty && u in dirty && t != u && Collides(resolve, stored, t, u)
    requires |dirty| > RECOMPUTE_BATCH_TRANSACTIONS
    ensures Enumerates(order, dirty) && CrossBatchMove(resolve, stored, order)
  {
    order := ClaimedBetween(dirty, t, u);
    BatchIndexShift(0, |order| - 1);
    assert MoveAt(resolve, stored, order, 0, |order| - 1);
  }

  function Events(n: nat): map<TransactionId, TransactionRec> {
    if n == 0 then map[] else Events(n - 1)[n := EVENT]
  }

  lemma {:induction false} EventsUpTo(n: nat)
    ensures UpTo(n + 1) == {0} + Events(n).Keys
  {
    if n > 0 {
      EventsUpTo(n - 1);
    }
  }

  /** An import of transactions, the first of which takes over the postings. */
  function Imported(n: nat): Tables {
    Bank(Events(n), map["p" := Paid(1, 5, None), "q" := Paid(1, -5, None)], map[], map[], {})
  }

  lemma ImportedIsCommitted(n: nat)
    requires 1 in Events(n)
    ensures Committed(Imported(n)) && Plain(Imported(n)) && "p" in PostingKeys(Imported(n), {1})
  {
  }

  /** The posting is still stored for the transaction that had it, and resolves for the one that has it now. */
  lemma TakenOver(a: Tables, b: Tables, stored: StoredRows, t: TransactionId, u: TransactionId, p: string)
    requires Committed(a) && Plain(a) && p in PostingKeys(a, {u}) && Fresh(a, stored, u)
    requires Committed(b) && Plain(b) && p in PostingKeys(b, {t})
    ensures Collides(Pipeline(b), stored, t, u)
  {
    PostingIsShown(a, u, p);
    PostingIsShown(b, t, p);
    var d :| d in ResolveBatch(a, {u}) && d.row == RowOf(a, p);
    var e :| e in ResolveBatch(b, {t}) && e.row == RowOf(b, p);
    assert Holds(stored, d);
    assert e in Pipeline(b)({t}) && e.row.posting == d.row.posting && d.row.transaction == u;
  }

  function Saved(s: State, after: Tables): State {
    s.(tables := after, dirty := s.dirty + Triggers()(s.tables, after), minted := s.minted + 1)
  }

  lemma RanSaves(s: State, owed: set<TransactionId>, after: Tables)
    requires s.works == map[]
    ensures SavedWith(s, Ran(s.tables, s.dirty, owed, after))
      == s.(tables := after, dirty := s.dirty + owed, minted := s.minted + 1)
  {
    assert s.dirty + (owed - s.dirty) == s.dirty + owed;
  }

  lemma ReachSaved(first: State, s: State, after: Tables)
    requires Reaches(first, s) && Committed(s.tables) && s.works == map[] && s.drain.Idle?
    requires Committed(after) && PairsKept(s.tables, after)
    ensures Reaches(first, Saved(s, after))
  {
    var owed := Triggers()(s.tables, after);
    ReachOpen(first, s, after);
    ReachCommitAlone(first, s, Ran(s.tables, s.dirty, owed, after));
    RanSaves(s, owed, after);
  }

  lemma AlongOne<T>(step: (T, T) -> set<TransactionId>, start: T, next: T)
    ensures Along(step, start, [next]) == step(start, next)
  {
    assert [next][1..] == [];
  }

  lemma SavedKeeps(s: State, after: Tables)
    requires Invariant(s) && Committed(after) && PairsKept(s.tables, after)
    ensures Invariant(Saved(s, after))
  {
    AlongOne(Triggers(), s.tables, after);
    ProjectionStores.SaveKeepsInvariant(s, Saved(s, after), [after]);
  }

  lemma RecordedHolds(a: Tables, order: seq<TransactionId>, s: State)
    requires Committed(a) && a.transactions.Keys <= Claimed(order) && Distinct(order)
    requires s.tables == a && Recompute(Pipeline(a), map[], order) == Some(s.stored)
    ensures Holding()(s)
  {
    RecomputedFromNothing(a, order, 0);
    RebuiltIsKeyed(a, order);
    forall t ensures Fresh(a, s.stored, t) {
      RecomputedFromNothing(a, order, t);
    }
  }

  /** A ledger written into an empty database and drained: its rows are stored and the queue is empty. */
  lemma ReachRecorded(a: Tables, t: TransactionId) returns (s: State)
    requires Committed(a) && t in a.transactions
    ensures Reaches(BLANK, s) && Holding()(s)
    ensures s.tables == a && s.works == map[] && s.drain.Idle? && Fresh(a, s.stored, t)
  {
    BlankIsRight();
    ReachesItself(BLANK);
    ReachSaved(BLANK, BLANK, a);
    var saved := Saved(BLANK, a);
    NewTransactionsAreQueued(NOTHING, a);
    Enumerable(saved.dirty);
    var order :| Enumerates(order, saved.dirty);
    assert t in Claimed(order);
    RecomputedFromNothing(a, order, t);
    var rows := Recompute(Pipeline(a), map[], order).value;
    ReachDrain(BLANK, saved, order, rows);
    s := saved.(dirty := saved.dirty - Claimed(order), stored := rows);
    RecordedHolds(a, order, s);
  }

  lemma PresenceChanges(a: Tables, b: Tables, t: TransactionId)
    requires t in a.transactions <==> t !in b.transactions
    ensures t in Triggers()(a, b)
  {
    assert t in Changed(a.transactions, b.transactions);
  }

  /** A unit of work alone, and what of its queue the example needs: transactions it adds or removes are in it. */
  lemma SaveAlone(first: State, s: State, after: Tables) returns (next: State)
    requires Reaches(first, s) && Holding()(s) && Committed(s.tables) && s.works == map[] && s.drain.Idle?
    requires Committed(after) && PairsKept(s.tables, after)
    ensures Reaches(first, next) && Holding()(next) && next.works == map[] && next.drain.Idle?
    ensures next.tables == after && next.stored == s.stored && s.dirty <= next.dirty
    ensures forall t :: t in after.transactions && t !in s.tables.transactions ==> t in next.dirty
    ensures forall t :: t in s.tables.transactions && t !in after.transactions ==> t in next.dirty
  {
    ReachSaved(first, s, after);
    SavedKeeps(s, after);
    next := Saved(s, after);
    forall t | t in s.tables.transactions <==> t !in after.transactions ensures t in next.dirty {
      PresenceChanges(s.tables, after, t);
    }
  }

  /**
   * A recorded transaction is pruned by one unit of work and others are imported by the next, with no drain between.
   */
  lemma ReachReplaced(first: State, recorded: State, gone: Tables, b: Tables) returns (last: State)
    requires Reaches(first, recorded) && Holding()(recorded) && recorded.works == map[] && recorded.drain.Idle?
    requires Committed(recorded.tables) && Committed(gone) && Committed(b)
    requires PairsKept(recorded.tables, gone) && PairsKept(gone, b)
    requires 0 in recorded.tables.transactions && gone.transactions == map[]
    ensures Reaches(first, last) && Holding()(last) && last.tables == b && last.stored == recorded.stored
    ensures last.works == map[] && last.drain.Idle?
    ensures {0} + b.transactions.Keys <= last.dirty
  {
    var pruned := SaveAlone(first, recorded, gone);
    last := SaveAlone(first, pruned, b);
  }

  /** The drain that follows is refused in some order, once more than a batch is queued. */
  lemma ReplacedIsRefused(a: Tables, gone: Tables, b: Tables, p: string)
    returns (last: State, order: seq<TransactionId>)
    requires Committed(a) && Committed(gone) && Committed(b) && PairsKept(a, gone) && PairsKept(gone, b)
    requires 0 in a.transactions && gone.transactions == map[]
    requires Plain(a) && Plain(b) && p in PostingKeys(a, {0}) && p in PostingKeys(b, {1})
    requires 1 in b.transactions && |{0} + b.transactions.Keys| > RECOMPUTE_BATCH_TRANSACTIONS
    ensures Reaches(BLANK, last) && Invariant(last) && last.works == map[] && last.drain.Idle?
    ensures last.tables == b && Enumerates(order, last.dirty)
    ensures CrossBatchMove(Pipeline(b), last.stored, order)
    ensures Recompute(Pipeline(b), last.stored, order).None?
  {
    var recorded := ReachRecorded(a, 0);
    last := ReachReplaced(BLANK, recorded, gone, b);
    LargerSet({0} + b.transactions.Keys, last.dirty);
    TakenOver(a, b, last.stored, 1, 0, p);
    order := SomeOrderIsRefused(Pipeline(b), last.stored, last.dirty, 1, 0);
    ProjectionStores.DrainRefused(last, order);
  }

  lemma {:induction false} OneIsImported(n: nat)
    requires n >= 1
    ensures 1 in Events(n)
  {
    if n > 1 {
      OneIsImported(n - 1);
    }
  }

  lemma ImportIsLarge(n: nat)
    requires n >= RECOMPUTE_BATCH_TRANSACTIONS
    ensures 1 in Events(n) && |{0} + Events(n).Keys| > RECOMPUTE_BATCH_TRANSACTIONS
  {
    EventsUpTo(n);
    CountUpTo(n + 1);
    OneIsImported(n);
  }

  lemma ReimportParts(n: nat)
    requires n >= RECOMPUTE_BATCH_TRANSACTIONS
    ensures var a, gone, b := OnePaid(0, 5, None, map[]), Empty(map[]), Imported(n);
      && Committed(a) && Committed(gone) && Committed(b) && PairsKept(a, gone) && PairsKept(gone, b)
      && 0 in a.transactions && gone.transactions == map[] && Plain(a) && Plain(b)
      && "p" in PostingKeys(a, {0}) && "p" in PostingKeys(b, {1})
      && 1 in b.transactions && |{0} + b.transactions.Keys| > RECOMPUTE_BATCH_TRANSACTIONS
  {
    OnePaidIsPlain(0, 5, None, map[]);
    EmptyIsCommitted(map[]);
    ImportIsLarge(n);
    ImportedIsCommitted(n);
  }

  /**
   * A transaction is pruned, and an import brings its postings back under a new row id among more than a batch of new
   * transactions: a run from an empty database ends where the drain is refused.
   */
  lemma ReimportIsRefused(n: nat) returns (last: State, order: seq<TransactionId>)
    requires n >= RECOMPUTE_BATCH_TRANSACTIONS
    ensures Reaches(BLANK, last) && Invariant(last) && last.works == map[] && last.drain.Idle?
    ensures last.tables == Imported(n) && Committed(last.tables) && Enumerates(order, last.dirty)
    ensures CrossBatchMove(Pipeline(last.tables), last.stored, order)
    ensures Recompute(Pipeline(last.tables), last.stored, order).None?
  {
    ReimportParts(n);
    last, order := ReplacedIsRefused(OnePaid(0, 5, None, map[]), Empty(map[]), Imported(n), "p");
  }
}
