/** Writing the imported ledger: upsert, then prune what the frame no longer has (accounting/importers/ingest.py). */
module LedgerStore {
  import opened Frame
  import ZeroSum

  datatype Origin = Imported | Manual

  datatype StoredTransaction = StoredTransaction(id: nat, origin: Origin, postedAt: int, description: string)

  /** What a posting points at, by natural key. */
  datatype Filed = Filed(account: string, currency: string, category: Option<string>, subcategory: Option<string>,
                         budget: Option<string>, tags: set<string>)

  datatype StoredPosting = StoredPosting(id: nat, transaction: string, amount: int, filed: Filed)

  /** One leg of the frame; every leg repeats its transaction's date and description. */
  datatype FrameRow = FrameRow(posting: string, transaction: string, postedAt: int, description: string, amount: int,
                               filed: Filed)

  /** The natural keys of the reference tables. */
  datatype Known = Known(accounts: set<string>, currencies: set<string>, categories: set<string>, budgets: set<string>,
                         tags: set<string>)

  predicate KnownIf(key: Option<string>, keys: set<string>) {
    key.Some? ==> key.value in keys
  }

  /** Every key a leg is filed under can be looked up. */
  predicate Resolvable(known: Known, filed: Filed) {
    && filed.account in known.accounts && filed.currency in known.currencies
    && KnownIf(filed.category, known.categories) && KnownIf(filed.subcategory, known.categories)
    && KnownIf(filed.budget, known.budgets)
    && filed.tags <= known.tags
  }

  datatype Facts = Facts(postedAt: int, description: string)

  /** One row per event, the last leg winning. */
  function FactsOf(rows: seq<FrameRow>): map<string, Facts> {
    if rows == [] then map[]
    else
      var row := rows[|rows| - 1];
      FactsOf(rows[..|rows| - 1])[row.transaction := Facts(row.postedAt, row.description)]
  }

  function LegsOf(rows: seq<FrameRow>): map<string, FrameRow> {
    if rows == [] then map[] else LegsOf(rows[..|rows| - 1])[rows[|rows| - 1].posting := rows[|rows| - 1]]
  }

  lemma {:induction false} FactsAndLegsOfRows(rows: seq<FrameRow>)
    ensures forall p :: p in LegsOf(rows) ==> LegsOf(rows)[p] in rows && LegsOf(rows)[p].posting == p
    ensures forall row :: row in rows ==> row.posting in LegsOf(rows) && row.transaction in FactsOf(rows)
  {
    if rows != [] {
      FactsAndLegsOfRows(rows[..|rows| - 1]);
      assert rows == rows[..|rows| - 1] + [rows[|rows| - 1]];
    }
  }

  type Transactions = map<string, StoredTransaction>
  type Postings = map<string, StoredPosting>

  predicate IsImported(transactions: Transactions, t: string) {
    t in transactions && transactions[t].origin == Imported
  }

  function ImportedOf(transactions: Transactions): set<string> {
    set t | t in transactions && IsImported(transactions, t)
  }

  function ImportedPostingsOf(transactions: Transactions, postings: Postings): set<string> {
    set p | p in postings && IsImported(transactions, postings[p].transaction)
  }

  /**
   * A posting that is not there to update, under a key that is taken: by a stored row or by an earlier one of the
   * frame.
   */
  predicate PostingClash(rows: seq<FrameRow>, i: nat, existing: set<string>, held: set<string>)
    requires i < |rows|
  {
    rows[i].posting !in existing
      && (rows[i].posting in held || exists j :: 0 <= j < i && rows[j].posting == rows[i].posting)
  }

  predicate PostingsClash(rows: seq<FrameRow>, existing: set<string>, held: set<string>) {
    exists i :: 0 <= i < |rows| && PostingClash(rows, i, existing, held)
  }

  /** A transaction of the frame under a key a manual one holds. */
  predicate TransactionsClash(facts: map<string, Facts>, transactions: Transactions) {
    exists t :: t in facts && t in transactions && !IsImported(transactions, t)
  }

  /** What breaks a unique index somewhere in the write. */
  predicate Collides(rows: seq<FrameRow>, transactions: Transactions, postings: Postings) {
    || TransactionsClash(FactsOf(rows), transactions)
    || PostingsClash(rows, ImportedPostingsOf(transactions, postings), postings.Keys)
  }

  predicate AllResolvable(rows: seq<FrameRow>, known: Known) {
    forall i :: 0 <= i < |rows| ==> Resolvable(known, rows[i].filed)
  }

  /** What the frame says of a transaction, under the id it already had, if it had one. */
  ghost predicate TransactionWritten(before: Transactions, after: Transactions, facts: map<string, Facts>, t: string)
    requires t in facts
  {
    && t in after && after[t].origin == Imported
    && after[t].postedAt == facts[t].postedAt && after[t].description == facts[t].description
    && (t in before ==> after[t].id == before[t].id)
  }

  ghost predicate PostingWritten(before: Postings, after: Postings, row: FrameRow) {
    && row.posting in after
    && after[row.posting].transaction == row.transaction
    && after[row.posting].amount == row.amount && after[row.posting].filed == row.filed
    && (row.posting in before ==> after[row.posting].id == before[row.posting].id)
  }

  // ---------- the check at the commit ----------

  /** What a posting says, whatever its id. */
  datatype Content = Content(transaction: string, amount: int, filed: Filed)

  function ContentsOf(postings: Postings): map<string, Content> {
    map p | p in postings :: Content(postings[p].transaction, postings[p].amount, postings[p].filed)
  }

  /** What the table says once the frame is written: its legs, and what was not imported. */
  function ContentsAfter(transactions: Transactions, postings: Postings, rows: seq<FrameRow>): map<string, Content> {
    var legs, kept := LegsOf(rows), postings.Keys - ImportedPostingsOf(transactions, postings);
    map p | p in legs.Keys + kept ::
      if p in legs then Content(legs[p].transaction, legs[p].amount, legs[p].filed) else ContentsOf(postings)[p]
  }

  function Amounts(contents: map<string, Content>): ZeroSum.Table {
    map p | p in contents ::
      ZeroSum.StoredPosting(contents[p].transaction, contents[p].amount, contents[p].filed.currency)
  }

  /** The transactions the deferred trigger looks at: of a posting written its new one, of a deleted one its old. */
  function Checked(before: map<string, Content>, after: map<string, Content>): set<string> {
    (set p | p in after && (p !in before || before[p] != after[p]) :: after[p].transaction)
    + (set p | p in before && p !in after :: before[p].transaction)
  }

  ghost predicate CommitPasses(before: map<string, Content>, after: map<string, Content>) {
    forall t :: t in Checked(before, after) ==> ZeroSum.Passes(Amounts(after), t)
  }

  lemma ChangedAmountIsChecked(before: map<string, Content>, after: map<string, Content>, t: string)
    requires t in ZeroSum.Checked(Amounts(before), Amounts(after))
    ensures t in Checked(before, after)
  {
  }

  /** A write that commits over a balanced table leaves it balanced, but for transactions a posting was moved out of. */
  lemma WriteKeepsBalance(before: map<string, Content>, after: map<string, Content>)
    requires (forall t :: ZeroSum.Passes(Amounts(before), t)) && CommitPasses(before, after)
    ensures (forall t :: ZeroSum.Passes(Amounts(after), t))
      <==> forall t :: t in ZeroSum.Abandoned(Amounts(before), Amounts(after)) ==> ZeroSum.Passes(Amounts(after), t)
  {
    forall t | t in ZeroSum.Checked(Amounts(before), Amounts(after)) ensures ZeroSum.Passes(Amounts(after), t) {
      ChangedAmountIsChecked(before, after, t);
    }
    ZeroSum.CommitKeepsBalance(Amounts(before), Amounts(after));
  }

  /** Sum a group of amounts, in any order. */
  method SumGroup(group: ZeroSum.Table) returns (sum: int)
    ensures sum == ZeroSum.SumAmounts(group)
  {
    sum := 0;
    var left := group;
    while left != map[]
      invariant sum + ZeroSum.SumAmounts(left) == ZeroSum.SumAmounts(group)
      decreases |left|
    {
      assert left.Keys != {};
      var p :| p in left;
      ZeroSum.FewerKeys(left, p);
      ZeroSum.SumWithout(left, p);
      sum := sum + left[p].amount;
      left := left - {p};
    }
  }

  /** Run the trigger function on every transaction queued for it. */
  method CommitChecks(before: map<string, Content>, after: map<string, Content>) returns (ok: bool)
    ensures ok <==> CommitPasses(before, after)
  {
    var amounts, left := Amounts(after), Checked(before, after);
    while left != {}
      invariant left <= Checked(before, after)
      invariant forall t :: t in Checked(before, after) - left ==> ZeroSum.Passes(amounts, t)
    {
      var t :| t in left;
      var group := ZeroSum.Group(amounts, t);
      var sum := SumGroup(group);
      if !ZeroSum.MixedCurrencies(group) && sum != 0 {
        assert !ZeroSum.Passes(amounts, t);
        return false;
      }
      left := left - {t};
    }
    ok := true;
  }

  lemma WrittenContents(oldT: Transactions, oldP: Postings, newP: Postings, rows: seq<FrameRow>)
    requires PostingsWritten(oldT, oldP, newP, rows)
    requires forall p :: p in LegsOf(rows) && p in oldP ==> p in ImportedPostingsOf(oldT, oldP)
    ensures ContentsOf(newP) == ContentsAfter(oldT, oldP, rows)
  {
    FactsAndLegsOfRows(rows);
    var now, after := ContentsOf(newP), ContentsAfter(oldT, oldP, rows);
    forall p ensures (p in now <==> p in after) && (p in now ==> now[p] == after[p]) {
      if p in LegsOf(rows) {
        assert PostingWritten(oldP, newP, LegsOf(rows)[p]);
      }
    }
  }

  /** Every link joins two transactions that are there, and every reference names one that is. */
  predicate Whole(links: map<string, set<string>>, references: map<string, string>, transactions: set<string>) {
    && (forall l :: l in links ==> |links[l]| == 2 && links[l] <= transactions)
    && (forall r :: r in references ==> references[r] in transactions)
  }

  lemma DisjointIffNothingShared(a: set<string>, b: set<string>)
    ensures a !! b <==> a * b == {}
  {
    if a !! b {
      assert a * b == {};
    } else {
      var x :| x in a && x in b;
      assert x in a * b;
    }
  }

  lemma PruningKeepsLinksWhole(links: map<string, set<string>>, references: map<string, string>, before: set<string>,
                               after: set<string>, removed: set<string>)
    requires Whole(links, references, before) && before - after == removed
    ensures Whole(LinksAmong(links, removed), ReferencesAmong(references, removed), after)
  {
  }

  /** Just the links and references that name no transaction gone are left, as they were. */
  lemma CascadesExactly(links: map<string, set<string>>, references: map<string, string>, before: set<string>,
                        after: set<string>)
    requires Whole(links, references, before)
    ensures forall l :: l in LinksAmong(links, before - after) <==> l in links && links[l] <= after
    ensures forall l :: l in LinksAmong(links, before - after) ==> LinksAmong(links, before - after)[l] == links[l]
    ensures forall r :: r in ReferencesAmong(references, before - after) <==> r in references && references[r] in after
    ensures forall r :: r in ReferencesAmong(references, before - after) ==>
      ReferencesAmong(references, before - after)[r] == references[r]
  {
  }

  /** The frame's transactions merged into the table but for those still pending. */
  ghost predicate TransactionsMergedBut(before: Transactions, after: Transactions, facts: map<string, Facts>,
                                        pending: set<string>)
    requires pending <= facts.Keys
  {
    && after.Keys == before.Keys + (facts.Keys - pending)
    && (forall t :: t in facts && t !in pending ==> TransactionWritten(before, after, facts, t))
    && (forall t :: t in before && (t !in facts || t in pending) ==> after[t] == before[t])
  }

  ghost predicate TransactionsMerged(before: Transactions, after: Transactions, facts: map<string, Facts>) {
    TransactionsMergedBut(before, after, facts, {})
  }

  lemma OneMoreMerged(before: Transactions, after: Transactions, facts: map<string, Facts>, pending: set<string>,
                      t: string, row: StoredTransaction)
    requires pending <= facts.Keys && t in pending && TransactionsMergedBut(before, after, facts, pending)
    requires row.origin == Imported && row.postedAt == facts[t].postedAt && row.description == facts[t].description
    requires t in before ==> row.id == before[t].id
    ensures TransactionsMergedBut(before, after[t := row], facts, pending - {t})
  {
    forall u | u in facts && u !in pending - {t} ensures TransactionWritten(before, after[t := row], facts, u) {
      if u != t {
        assert TransactionWritten(before, after, facts, u);
      }
    }
  }

  ghost predicate PostingsMerged(before: Postings, after: Postings, legs: map<string, FrameRow>) {
    && after.Keys == before.Keys + legs.Keys
    && (forall p :: p in legs ==> legs[p].posting == p && PostingWritten(before, after, legs[p]))
    && (forall p :: p in before && p !in legs ==> after[p] == before[p])
  }

  lemma OneMorePosting(before: Postings, after: Postings, legs: map<string, FrameRow>, row: FrameRow, id: nat)
    requires PostingsMerged(before, after, legs) && (row.posting in before ==> id == before[row.posting].id)
    ensures PostingsMerged(before, PutPosting(after, row, id), legs[row.posting := row])
  {
    var now, more := PutPosting(after, row, id), legs[row.posting := row];
    forall p | p in more ensures more[p].posting == p && PostingWritten(before, now, more[p]) {
      if p != row.posting {
        assert PostingWritten(before, after, legs[p]);
      }
    }
  }

  /** One leg can be written: its references are known and its key is not taken. */
  predicate Writable(rows: seq<FrameRow>, i: nat, existing: set<string>, held: set<string>, known: Known)
    requires i < |rows|
  {
    !PostingClash(rows, i, existing, held) && Resolvable(known, rows[i].filed)
  }

  predicate WritableUpTo(rows: seq<FrameRow>, n: nat, existing: set<string>, held: set<string>, known: Known)
    requires n <= |rows|
  {
    forall i :: 0 <= i < n ==> Writable(rows, i, existing, held, known)
  }

  lemma AllWritable(rows: seq<FrameRow>, existing: set<string>, held: set<string>, known: Known)
    ensures WritableUpTo(rows, |rows|, existing, held, known)
      <==> !PostingsClash(rows, existing, held) && AllResolvable(rows, known)
  {
    if WritableUpTo(rows, |rows|, existing, held, known) {
      forall i | 0 <= i < |rows| ensures !PostingClash(rows, i, existing, held) && Resolvable(known, rows[i].filed) {
        assert Writable(rows, i, existing, held, known);
      }
    }
  }

  /** What the table holds by then decides whether the next leg can be written. */
  lemma WritableNext(rows: seq<FrameRow>, i: nat, existing: set<string>, before: Postings, now: Postings, known: Known)
    requires i < |rows| && PostingsMerged(before, now, LegsOf(rows[..i]))
    ensures Writable(rows, i, existing, before.Keys, known)
      <==> Resolvable(known, rows[i].filed) && (rows[i].posting in existing || rows[i].posting !in now)
  {
    ClashIsHeld(rows, i, existing, before.Keys);
  }

  function PutPosting(postings: Postings, row: FrameRow, id: nat): Postings {
    postings[row.posting := StoredPosting(id, row.transaction, row.amount, row.filed)]
  }

  /** An update keeps its id, an insert takes the next one. */
  ghost predicate WrittenUnder(id: nat, row: FrameRow, existing: map<string, nat>, minted: nat, next: nat) {
    if row.posting in existing then id == existing[row.posting] && next == minted
    else id == minted && next == minted + 1
  }

  ghost predicate IdsBelow(postings: Postings, minted: nat) {
    forall p :: p in postings ==> postings[p].id < minted
  }

  /** The rows to update are there, under the ids read before the write. */
  ghost predicate UpdatesOf(postings: Postings, existing: map<string, nat>) {
    forall p :: p in existing ==> p in postings && postings[p].id == existing[p]
  }

  lemma PutKeeps(before: Postings, row: FrameRow, id: nat, existing: map<string, nat>, minted: nat, next: nat)
    requires UpdatesOf(before, existing) && IdsBelow(before, minted) && WrittenUnder(id, row, existing, minted, next)
    ensures UpdatesOf(PutPosting(before, row, id), existing) && IdsBelow(PutPosting(before, row, id), next)
  {
    if row.posting in existing {
      assert before[row.posting].id == id;
    }
  }

  lemma LegsSnoc(rows: seq<FrameRow>, i: nat)
    requires i < |rows|
    ensures LegsOf(rows[..i + 1]) == LegsOf(rows[..i])[rows[i].posting := rows[i]]
  {
    assert rows[..i + 1][..i] == rows[..i] && rows[..i + 1][i] == rows[i];
  }

  /** The table after the legs so far, and that they could all be written. */
  ghost predicate MergedUpTo(before: Postings, now: Postings, rows: seq<FrameRow>, n: nat, existing: map<string, nat>,
                             minted: nat, known: Known)
    requires n <= |rows|
  {
    && PostingsMerged(before, now, LegsOf(rows[..n]))
    && WritableUpTo(rows, n, existing.Keys, before.Keys, known)
    && UpdatesOf(before, existing) && UpdatesOf(now, existing) && IdsBelow(now, minted)
  }

  lemma MergedNext(before: Postings, now: Postings, after: Postings, rows: seq<FrameRow>, i: nat,
                   existing: map<string, nat>, minted: nat, next: nat, known: Known)
    requires i < |rows| && MergedUpTo(before, now, rows, i, existing, minted, known)
    requires Writable(rows, i, existing.Keys, before.Keys, known)
    requires exists id :: after == PutPosting(now, rows[i], id) && WrittenUnder(id, rows[i], existing, minted, next)
    ensures MergedUpTo(before, after, rows, i + 1, existing, next, known)
  {
    WritableNext(rows, i, existing.Keys, before, now, known);
    var id :| after == PutPosting(now, rows[i], id) && WrittenUnder(id, rows[i], existing, minted, next);
    LegsSnoc(rows, i);
    PutKeeps(now, rows[i], id, existing, minted, next);
    OneMorePosting(before, now, LegsOf(rows[..i]), rows[i], id);
  }

  lemma MergedAll(before: Postings, now: Postings, rows: seq<FrameRow>, existing: map<string, nat>, minted: nat,
                  known: Known)
    requires MergedUpTo(before, now, rows, |rows|, existing, minted, known)
    ensures !PostingsClash(rows, existing.Keys, before.Keys) && AllResolvable(rows, known)
    ensures PostingsMerged(before, now, LegsOf(rows))
  {
    AllWritable(rows, existing.Keys, before.Keys, known);
    assert rows[..|rows|] == rows;
  }

  lemma Unwritable(rows: seq<FrameRow>, i: nat, existing: set<string>, held: set<string>, known: Known)
    requires i < |rows| && !Writable(rows, i, existing, held, known)
    ensures PostingsClash(rows, existing, held) || !AllResolvable(rows, known)
  {
  }

  /** Going through the frame, a key is taken just when the row clashes. */
  lemma ClashIsHeld(rows: seq<FrameRow>, i: nat, existing: set<string>, held: set<string>)
    requires i < |rows|
    ensures PostingClash(rows, i, existing, held)
      <==> rows[i].posting !in existing && rows[i].posting in held + LegsOf(rows[..i]).Keys
  {
    LegKeys(rows[..i], rows[i].posting);
    if rows[i].posting in LegsOf(rows[..i]) {
      var j :| 0 <= j < i && rows[..i][j].posting == rows[i].posting;
      assert rows[j].posting == rows[i].posting;
    }
    if j :| 0 <= j < i && rows[j].posting == rows[i].posting {
      assert rows[..i][j].posting == rows[i].posting;
    }
  }

  lemma {:induction false} LegKeys(rows: seq<FrameRow>, p: string)
    ensures p in LegsOf(rows) <==> exists j :: 0 <= j < |rows| && rows[j].posting == p
  {
    if rows != [] {
      var n := |rows| - 1;
      LegKeys(rows[..n], p);
      if p in LegsOf(rows[..n]) {
        var j :| 0 <= j < n && rows[..n][j].posting == p;
        assert rows[j].posting == p;
      }
      if j :| 0 <= j < |rows| && rows[j].posting == p {
        assert j < n ==> rows[..n][j].posting == p;
      }
    }
  }

  /** Without a clash, what the frame names is new or among the rows to update. */
  lemma PostingsOfFrame(rows: seq<FrameRow>, existing: set<string>, postings: Postings)
    requires !PostingsClash(rows, existing, postings.Keys)
    ensures forall p :: p in LegsOf(rows) && p in postings ==> p in existing
  {
    forall p | p in LegsOf(rows) && p in postings ensures p in existing {
      LegKeys(rows, p);
      var j :| 0 <= j < |rows| && rows[j].posting == p;
      assert !PostingClash(rows, j, existing, postings.Keys);
    }
  }

  class Store {
    var transactions: Transactions
    var postings: Postings
    var links: map<string, set<string>>
    var references: map<string, string>
    var minted: nat
    var known: Known

    /** Foreign keys hold, every link joins two transactions, and ids are minted once. */
    ghost predicate Valid()
      reads this
    {
      && (forall p :: p in postings ==> postings[p].transaction in transactions)
      && Whole(links, references, transactions.Keys)
      && (forall t :: t in transactions ==> transactions[t].id < minted)
      && IdsBelow(postings, minted)
    }

    constructor (lookups: Known)
      ensures Valid() && transactions == map[] && postings == map[] && links == map[] && references == map[]
      ensures known == lookups
    {
      transactions, postings, links, references, minted, known := map[], map[], map[], map[], 0, lookups;
    }

    /** Update the transactions that were there, insert the others; an insert under a taken key fails. */
    method MergeTransactions(facts: map<string, Facts>, existing: map<string, nat>) returns (ok: bool)
      requires forall t :: t in transactions ==> transactions[t].id < minted
      requires existing.Keys == ImportedOf(transactions)
        && forall t :: t in existing ==> existing[t] == transactions[t].id
      modifies this`transactions, this`minted
      ensures ok <==> !TransactionsClash(facts, old(transactions))
      ensures ok ==> minted >= old(minted) && TransactionsMerged(old(transactions), transactions, facts)
      ensures ok ==> forall t :: t in transactions ==> transactions[t].id < minted
    {
      var pending := facts.Keys;
      while pending != {}
        invariant pending <= facts.Keys && minted >= old(minted)
        invariant TransactionsMergedBut(old(transactions), transactions, facts, pending)
        invariant forall t :: t in facts && t !in pending && t in old(transactions) ==> IsImported(old(transactions), t)
        invariant forall t :: t in transactions ==> transactions[t].id < minted
      {
        var t :| t in pending;
        ghost var before := transactions;
        if t in existing {
          transactions :=
            transactions[t := StoredTransaction(existing[t], Imported, facts[t].postedAt, facts[t].description)];
        } else if t in transactions {
          return false;
        } else {
          transactions :=
            transactions[t := StoredTransaction(minted, Imported, facts[t].postedAt, facts[t].description)];
          minted := minted + 1;
        }
        OneMoreMerged(old(transactions), before, facts, pending, t, transactions[t]);
        pending := pending - {t};
      }
      ok := true;
    }

    /** One posting: looked-up references first, then an update, an insert, or a rejected insert. */
    method MergePosting(row: FrameRow, existing: map<string, nat>) returns (ok: bool)
      modifies this`postings, this`minted
      ensures ok <==> Resolvable(known, row.filed) && (row.posting in existing || row.posting !in old(postings))
      ensures minted >= old(minted) && (!ok ==> postings == old(postings))
      ensures ok ==> exists id ::
        postings == PutPosting(old(postings), row, id) && WrittenUnder(id, row, existing, old(minted), minted)
    {
      ghost var id := if row.posting in existing then existing[row.posting] else minted;
      if !Resolvable(known, row.filed) {
        return false;
      }
      if row.posting in existing {
        postings := PutPosting(postings, row, existing[row.posting]);
      } else if row.posting in postings {
        return false;
      } else {
        postings := PutPosting(postings, row, minted);
        minted := minted + 1;
      }
      assert WrittenUnder(id, row, existing, old(minted), minted);
      ok := true;
    }

    /** The same for every leg; a repeated new key is rejected at its second insert. */
    method MergePostings(rows: seq<FrameRow>, existing: map<string, nat>) returns (ok: bool)
      requires IdsBelow(postings, minted) && UpdatesOf(postings, existing)
      modifies this`postings, this`minted
      ensures ok <==> !PostingsClash(rows, existing.Keys, old(postings).Keys) && AllResolvable(rows, known)
      ensures ok ==> minted >= old(minted) && PostingsMerged(old(postings), postings, LegsOf(rows))
      ensures ok ==> IdsBelow(postings, minted)
    {
      ghost var before := postings;
      for i := 0 to |rows|
        invariant minted >= old(minted)
        invariant MergedUpTo(before, postings, rows, i, existing, minted, known)
      {
        ghost var now, from := postings, minted;
        WritableNext(rows, i, existing.Keys, before, now, known);
        ok := MergePosting(rows[i], existing);
        if !ok {
          Unwritable(rows, i, existing.Keys, before.Keys, known);
          return;
        }
        MergedNext(before, now, postings, rows, i, existing, from, minted, known);
      }
      MergedAll(before, postings, rows, existing, minted, known);
      ok := true;
    }

    /** Both merges, against the ids the imported half had before the write. */
    method MergeRows(rows: seq<FrameRow>, importedTransactions: set<string>, importedPostings: set<string>)
      returns (ok: bool)
      requires Valid()
      requires importedTransactions == ImportedOf(transactions)
        && importedPostings == ImportedPostingsOf(transactions, postings)
      modifies this`transactions, this`postings, this`minted
      ensures ok <==> !Collides(rows, old(transactions), old(postings)) && AllResolvable(rows, known)
      ensures ok ==> TransactionsMerged(old(transactions), transactions, FactsOf(rows))
      ensures ok ==> PostingsMerged(old(postings), postings, LegsOf(rows))
      ensures ok ==> IdsBelow(postings, minted) && forall t :: t in transactions ==> transactions[t].id < minted
    {
      var transactionIds := map t | t in importedTransactions :: transactions[t].id;
      var postingIds := map p | p in importedPostings :: postings[p].id;
      assert transactionIds.Keys == importedTransactions && postingIds.Keys == importedPostings;
      ok := MergeTransactions(FactsOf(rows), transactionIds);
      if ok {
        ok := MergePostings(rows, postingIds);
      }
    }

    /** Both merges and the prune, given that the merges go through. */
    method MergeAndPrune(rows: seq<FrameRow>) returns (ok: bool)
      requires Valid()
      modifies this`transactions, this`postings, this`minted, this`links, this`references
      ensures ok <==> !Collides(rows, old(transactions), old(postings)) && AllResolvable(rows, old(known))
      ensures ok ==> Valid() && TransactionsWritten(old(transactions), transactions, FactsOf(rows))
      ensures ok ==> PostingsWritten(old(transactions), old(postings), postings, rows)
      ensures ok ==> links == LinksAmong(old(links), old(transactions).Keys - transactions.Keys)
      ensures ok ==> references == ReferencesAmong(old(references), old(transactions).Keys - transactions.Keys)
    {
      var importedTransactions, importedPostings :=
        ImportedOf(transactions), ImportedPostingsOf(transactions, postings);
      ghost var savedTransactions, savedPostings := transactions, postings;
      ok := MergeRows(rows, importedTransactions, importedPostings);
      if ok {
        var facts, legs := FactsOf(rows), LegsOf(rows);
        PostingsOfFrame(rows, importedPostings, savedPostings);
        PrunedTransactions(savedTransactions, transactions, facts);
        PrunedPostings(savedTransactions, savedPostings, postings, rows);
        ghost var removed := importedTransactions - facts.Keys;
        Prune(importedTransactions - facts.Keys, importedPostings - legs.Keys);
        PruningKeepsLinksWhole(old(links), old(references), savedTransactions.Keys, transactions.Keys, removed);
        PostingsStillPoint(savedTransactions, savedPostings, transactions, postings, rows);
      }
    }

    /**
     * Upsert every row of the frame, prune what is imported and no longer in it, and commit. A transfer link that loses
     * one side goes whole; a merge or exclusion naming a pruned transaction goes with it. A failed insert, lookup or
     * zero-sum check rolls everything back.
     */
    method WriteLedger(rows: seq<FrameRow>) returns (ok: bool)
      requires Valid()
      modifies this
      ensures ok <==>
        && !Collides(rows, old(transactions), old(postings)) && AllResolvable(rows, old(known))
        && CommitPasses(ContentsOf(old(postings)), ContentsAfter(old(transactions), old(postings), rows))
      ensures Valid() && known == old(known)
      ensures ok ==> TransactionsWritten(old(transactions), transactions, FactsOf(rows))
      ensures ok ==> PostingsWritten(old(transactions), old(postings), postings, rows)
      ensures ok ==> links == LinksAmong(old(links), old(transactions).Keys - transactions.Keys)
      ensures ok ==> references == ReferencesAmong(old(references), old(transactions).Keys - transactions.Keys)
      ensures !ok ==> unchanged(this)
    {
      var savedTransactions, savedPostings, savedMinted := transactions, postings, minted;
      var savedLinks, savedReferences := links, references;
      ok := MergeAndPrune(rows);
      if ok {
        PostingsOfFrame(rows, ImportedPostingsOf(savedTransactions, savedPostings), savedPostings);
        WrittenContents(savedTransactions, savedPostings, postings, rows);
        ok := CommitChecks(ContentsOf(savedPostings), ContentsOf(postings));
      }
      if !ok {
        transactions, postings, minted := savedTransactions, savedPostings, savedMinted;
        links, references := savedLinks, savedReferences;
      }
    }

    /** Delete postings, then every link a removed transaction is in, then the transactions and what names them. */
    method Prune(removed: set<string>, removedPostings: set<string>)
      modifies this`transactions, this`postings, this`links, this`references
      ensures transactions == old(transactions) - removed && postings == old(postings) - removedPostings
      ensures links == LinksAmong(old(links), removed) && references == ReferencesAmong(old(references), removed)
    {
      postings := postings - removedPostings;
      var staleLinks := set l | l in links && links[l] * removed != {};
      forall l | l in links ensures l in staleLinks <==> !(links[l] !! removed) {
        DisjointIffNothingShared(links[l], removed);
      }
      links := links - staleLinks;
      references := map r | r in references && references[r] !in removed :: references[r];
      transactions := transactions - removed;
    }
  }

  /** The links none of whose members is removed. */
  function LinksAmong(links: map<string, set<string>>, removed: set<string>): map<string, set<string>> {
    map l | l in links && links[l] !! removed :: links[l]
  }

  function ReferencesAmong(references: map<string, string>, removed: set<string>): map<string, string> {
    map r | r in references && references[r] !in removed :: references[r]
  }

  ghost predicate TransactionsWritten(oldT: Transactions, newT: Transactions, facts: map<string, Facts>) {
    && (forall t :: t in facts ==> TransactionWritten(oldT, newT, facts, t))
    && (forall t :: t in newT && t !in facts ==> t in oldT && oldT[t] == newT[t] && oldT[t].origin == Manual)
    && (forall t :: t in oldT && oldT[t].origin == Manual ==> t in newT && newT[t] == oldT[t])
  }

  ghost predicate PostingsWritten(oldT: Transactions, oldP: Postings, newP: Postings, rows: seq<FrameRow>) {
    && (forall p :: p in LegsOf(rows) ==> PostingWritten(oldP, newP, LegsOf(rows)[p]))
    && (forall p :: p in newP && p !in LegsOf(rows) ==>
          p in oldP && oldP[p] == newP[p] && !IsImported(oldT, oldP[p].transaction))
    && (forall p :: p in oldP && !IsImported(oldT, oldP[p].transaction) ==> p in newP && newP[p] == oldP[p])
  }

  lemma PrunedTransactions(oldT: Transactions, mergedT: Transactions, facts: map<string, Facts>)
    requires TransactionsMerged(oldT, mergedT, facts) && !TransactionsClash(facts, oldT)
    ensures TransactionsWritten(oldT, mergedT - (ImportedOf(oldT) - facts.Keys), facts)
    ensures oldT.Keys - (mergedT - (ImportedOf(oldT) - facts.Keys)).Keys == ImportedOf(oldT) - facts.Keys
  {
    var newT := mergedT - (ImportedOf(oldT) - facts.Keys);
    forall t | t in facts ensures TransactionWritten(oldT, newT, facts, t) {
      assert TransactionWritten(oldT, mergedT, facts, t);
    }
  }

  lemma PrunedPostings(oldT: Transactions, oldP: Postings, mergedP: Postings, rows: seq<FrameRow>)
    requires PostingsMerged(oldP, mergedP, LegsOf(rows))
    requires forall p :: p in LegsOf(rows) && p in oldP ==> p in ImportedPostingsOf(oldT, oldP)
    ensures PostingsWritten(oldT, oldP, mergedP - (ImportedPostingsOf(oldT, oldP) - LegsOf(rows).Keys), rows)
  {
    var newP := mergedP - (ImportedPostingsOf(oldT, oldP) - LegsOf(rows).Keys);
    FactsAndLegsOfRows(rows);
    forall p | p in LegsOf(rows) ensures PostingWritten(oldP, newP, LegsOf(rows)[p]) {
      assert PostingWritten(oldP, mergedP, LegsOf(rows)[p]);
    }
  }

  /** Every posting that is left still has its transaction. */
  lemma PostingsStillPoint(oldT: Transactions, oldP: Postings, newT: Transactions, newP: Postings, rows: seq<FrameRow>)
    requires TransactionsWritten(oldT, newT, FactsOf(rows)) && PostingsWritten(oldT, oldP, newP, rows)
    requires forall p :: p in oldP ==> oldP[p].transaction in oldT
    ensures forall p :: p in newP ==> newP[p].transaction in newT
  {
    FactsAndLegsOfRows(rows);
    forall p | p in newP ensures newP[p].transaction in newT {
      if p in LegsOf(rows) {
        assert PostingWritten(oldP, newP, LegsOf(rows)[p]);
        assert TransactionWritten(oldT, newT, FactsOf(rows), LegsOf(rows)[p].transaction);
      }
    }
  }

  /** The last leg of a transaction. */
  ghost predicate LastLeg(rows: seq<FrameRow>, t: string, i: int) {
    0 <= i < |rows| && rows[i].transaction == t && forall j :: i < j < |rows| ==> rows[j].transaction != t
  }

  /** Where the legs of a transaction disagree, the last one's date and description are written. */
  lemma {:induction false} LastLegSpeaks(rows: seq<FrameRow>, t: string, i: int)
    requires LastLeg(rows, t, i)
    ensures t in FactsOf(rows) && FactsOf(rows)[t] == Facts(rows[i].postedAt, rows[i].description)
  {
    var n := |rows| - 1;
    if i < n {
      assert forall j :: 0 <= j < n ==> rows[..n][j] == rows[j];
      LastLegSpeaks(rows[..n], t, i);
    }
  }

  /** Some leg says what the facts of its transaction say. */
  predicate SaidBy(rows: seq<FrameRow>, t: string, facts: Facts) {
    exists i :: 0 <= i < |rows| && rows[i].transaction == t && facts == Facts(rows[i].postedAt, rows[i].description)
  }

  lemma {:induction false} FactsComeFromRows(rows: seq<FrameRow>)
    ensures forall t :: t in FactsOf(rows) ==> SaidBy(rows, t, FactsOf(rows)[t])
  {
    if rows != [] {
      var n := |rows| - 1;
      var front := rows[..n];
      FactsComeFromRows(front);
      forall t | t in FactsOf(rows) ensures SaidBy(rows, t, FactsOf(rows)[t]) {
        if t == rows[n].transaction {
          assert rows[n].transaction == t;
        } else {
          assert SaidBy(front, t, FactsOf(front)[t]);
          var i :| 0 <= i < |front| && front[i].transaction == t
            && FactsOf(front)[t] == Facts(front[i].postedAt, front[i].description);
          assert rows[i] == front[i];
        }
      }
    }
  }

  // ---------- reading back ----------

  /** The legs of one transaction give it one date and description, and a posting appears once. */
  predicate Consistent(rows: seq<FrameRow>) {
    && (forall i, j :: 0 <= i < j < |rows| ==> rows[i].posting != rows[j].posting)
    && (forall i, j :: 0 <= i < j < |rows| && rows[i].transaction == rows[j].transaction ==>
          rows[i].postedAt == rows[j].postedAt && rows[i].description == rows[j].description)
  }

  /** A stored posting as a frame row, its transaction's facts beside it. */
  function ReadBack(transactions: Transactions, postings: Postings, p: string): FrameRow
    requires p in postings && postings[p].transaction in transactions
  {
    var t := transactions[postings[p].transaction];
    FrameRow(p, postings[p].transaction, t.postedAt, t.description, postings[p].amount, postings[p].filed)
  }

  /** Reading the imported half back gives just the frame that was written. */
  lemma WriteThenReadBack(oldT: Transactions, oldP: Postings, newT: Transactions, newP: Postings, rows: seq<FrameRow>,
                          row: FrameRow)
    requires TransactionsWritten(oldT, newT, FactsOf(rows)) && PostingsWritten(oldT, oldP, newP, rows)
      && Consistent(rows)
    requires forall p :: p in oldP ==> oldP[p].transaction in oldT
    requires forall p :: p in newP ==> newP[p].transaction in newT
    ensures row in rows
      <==> (row.posting in newP && IsImported(newT, newP[row.posting].transaction)
            && ReadBack(newT, newP, row.posting) == row)
  {
    FactsAndLegsOfRows(rows);
    if row in rows {
      WrittenRow(oldT, oldP, newT, newP, rows, row);
    }
    if row.posting in newP && IsImported(newT, newP[row.posting].transaction)
      && ReadBack(newT, newP, row.posting) == row
    {
      OnlyFrameIsImported(oldT, oldP, newT, newP, rows, row.posting);
      WrittenRow(oldT, oldP, newT, newP, rows, LegsOf(rows)[row.posting]);
    }
  }

  lemma OnlyFrameIsImported(oldT: Transactions, oldP: Postings, newT: Transactions, newP: Postings, rows: seq<FrameRow>,
                            p: string)
    requires TransactionsWritten(oldT, newT, FactsOf(rows)) && PostingsWritten(oldT, oldP, newP, rows)
    requires forall q :: q in oldP ==> oldP[q].transaction in oldT
    requires p in newP
    ensures IsImported(newT, newP[p].transaction) ==> p in LegsOf(rows)
  {
    if p !in LegsOf(rows) {
      assert oldP[p].transaction in oldT && oldT[oldP[p].transaction].origin == Manual;
    }
  }

  lemma LegIsRow(rows: seq<FrameRow>, row: FrameRow)
    requires Consistent(rows) && row in rows
    ensures row.posting in LegsOf(rows) && LegsOf(rows)[row.posting] == row
  {
    FactsAndLegsOfRows(rows);
    var leg := LegsOf(rows)[row.posting];
    var i :| 0 <= i < |rows| && rows[i] == row;
    var j :| 0 <= j < |rows| && rows[j] == leg;
    OneRowPerPosting(rows, i, j);
  }

  lemma FactIsRow(rows: seq<FrameRow>, row: FrameRow)
    requires Consistent(rows) && row in rows
    ensures row.transaction in FactsOf(rows) && FactsOf(rows)[row.transaction] == Facts(row.postedAt, row.description)
  {
    FactsAndLegsOfRows(rows);
    FactsComeFromRows(rows);
    assert SaidBy(rows, row.transaction, FactsOf(rows)[row.transaction]);
    var i :| 0 <= i < |rows| && rows[i] == row;
    var k :| 0 <= k < |rows| && rows[k].transaction == row.transaction
      && FactsOf(rows)[row.transaction] == Facts(rows[k].postedAt, rows[k].description);
    OneFactPerTransaction(rows, i, k);
  }

  lemma WrittenRow(oldT: Transactions, oldP: Postings, newT: Transactions, newP: Postings, rows: seq<FrameRow>,
                   row: FrameRow)
    requires TransactionsWritten(oldT, newT, FactsOf(rows)) && PostingsWritten(oldT, oldP, newP, rows)
    requires Consistent(rows) && row in rows
    ensures row.posting in newP && IsImported(newT, newP[row.posting].transaction)
      && ReadBack(newT, newP, row.posting) == row
  {
    LegIsRow(rows, row);
    FactIsRow(rows, row);
    assert TransactionWritten(oldT, newT, FactsOf(rows), row.transaction);
    assert PostingWritten(oldP, newP, row);
  }

  lemma OneRowPerPosting(rows: seq<FrameRow>, i: nat, j: nat)
    requires Consistent(rows) && i < |rows| && j < |rows|
    ensures rows[i].posting == rows[j].posting ==> i == j
  {
  }

  lemma OneFactPerTransaction(rows: seq<FrameRow>, i: nat, k: nat)
    requires Consistent(rows) && i < |rows| && k < |rows|
    ensures rows[i].transaction == rows[k].transaction ==>
              rows[i].postedAt == rows[k].postedAt && rows[i].description == rows[k].description
  {
  }
}
