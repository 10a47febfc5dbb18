/**
 * What the loaders hand the pipeline, told table by table
 * (accounting/repositories/interpretation.py, ledger.py, transfers.py).
 */
module Loading {
  import opened Frame
  import opened Categorization
  import opened Linking
  import opened Resolution
  import opened Tables
  import ResolvedIds
  import Slices

  // ---------- postings ----------

  lemma {:induction false} RowIsLoaded(tb: Tables, keys: seq<string>, p: string) returns (row: Row)
    requires ForeignKeys(tb) && p in keys && forall k :: k in keys ==> k in tb.postings
    ensures row in RowsAt(tb, keys) && row.posting == Stored(p)
  {
    if keys[0] == p {
      row := RowsAt(tb, keys)[0];
    } else {
      row := RowIsLoaded(tb, keys[1..], p);
    }
  }

  /** A stored posting as the frame shows it: its own columns, its transaction's date and description, its tags. */
  ghost predicate ShowsPosting(tb: Tables, p: string, row: Row) {
    && p in tb.postings && tb.postings[p].transaction in tb.transactions
    && var rec := tb.postings[p];
      && row.posting == Stored(p) && row.transaction == rec.transaction && row.account == rec.account
      && row.amount == rec.amount && row.currency == rec.currency
      && row.category == rec.category && row.subcategory == rec.subcategory && row.budget == rec.budget
      && row.meta == rec.meta && row.link == None
      && row.postedAt == tb.transactions[rec.transaction].postedAt
      && row.description == tb.transactions[rec.transaction].description
      && forall tag :: tag in row.tags <==> (p, tag) in tb.postingTags
  }

  lemma ShownRow(tb: Tables, ts: set<TransactionId>, row: Row)
    requires ForeignKeys(tb) && row in LoadLedger(tb, ts)
    ensures row.posting.Stored? && row.posting.key in tb.postings && tb.postings[row.posting.key].transaction in ts
    ensures ShowsPosting(tb, row.posting.key, row)
  {
    Slices.LedgerMembers(tb, ts, row);
    var p := row.posting.key;
    forall tag ensures tag in row.tags <==> (p, tag) in tb.postingTags {
      InSecondsAt(tb.postingTags, p, tag);
    }
  }

  /** The frame holds each posting of the transactions asked for once, in frame order, and nothing else. */
  lemma LedgerLoads(tb: Tables, ts: set<TransactionId>)
    requires ForeignKeys(tb)
    ensures Sorted(LoadLedger(tb, ts)) && ResolvedIds.DistinctBases(LoadLedger(tb, ts))
    ensures forall row :: row in LoadLedger(tb, ts) ==>
      row.posting.Stored? && row.transaction in ts && ShowsPosting(tb, row.posting.key, row)
    ensures forall p :: p in tb.postings && tb.postings[p].transaction in ts ==>
      exists row :: row in LoadLedger(tb, ts) && row.posting == Stored(p)
  {
    var keys := SortedKeys(PostingKeys(tb, ts));
    SortedPostingKeysKnown(tb, ts);
    SortSorted(RowsAt(tb, keys));
    ResolvedIds.LedgerIds(tb, ts);
    forall row | row in LoadLedger(tb, ts)
      ensures row.posting.Stored? && row.transaction in ts && ShowsPosting(tb, row.posting.key, row)
    {
      ShownRow(tb, ts, row);
    }
    forall p | p in tb.postings && tb.postings[p].transaction in ts
      ensures exists row :: row in LoadLedger(tb, ts) && row.posting == Stored(p)
    {
      SortedKeysMembers(PostingKeys(tb, ts), p);
      var row := RowIsLoaded(tb, keys, p);
      SortMembers(RowsAt(tb, keys), row);
    }
  }

  // ---------- rules ----------

  ghost predicate ShowsRule(tb: Tables, r: string, rule: TransferRule) {
    && r in tb.rules && tb.rules[r].transfer && rule.id == r
    && rule.contains == tb.rules[r].contains && rule.account == tb.rules[r].account
    && rule.counterparty == tb.rules[r].counterparty
    && rule.priority == tb.rules[r].priority && rule.active == tb.rules[r].active
    && forall t :: t in rule.excluded <==> (r, t) in tb.exclusions
  }

  lemma {:induction false} RuleIsLoaded(tb: Tables, keys: seq<string>, i: nat)
    requires i < |keys| && forall k :: k in keys ==> k in tb.rules && tb.rules[k].transfer
    ensures ShowsRule(tb, keys[i], RulesAt(tb, keys)[i])
  {
    if i == 0 {
      assert keys[0] in keys;
      forall t ensures t in ExcludedOf(tb, keys[0]) <==> (keys[0], t) in tb.exclusions {
        InSecondsAt(tb.exclusions, keys[0], t);
      }
    } else {
      RuleIsLoaded(tb, keys[1..], i - 1);
    }
  }

  /** Every transfer rule is loaded once, with the transactions opted out of it. */
  lemma RulesLoad(tb: Tables)
    ensures forall rule :: rule in LoadRules(tb) ==> ShowsRule(tb, rule.id, rule)
    ensures forall r :: r in tb.rules && tb.rules[r].transfer ==> exists rule :: rule in LoadRules(tb) && rule.id == r
    ensures forall a, b :: a in LoadRules(tb) && b in LoadRules(tb) && a.id == b.id ==> a == b
  {
    var keys, rules := SortedKeys(TransferRuleKeys(tb)), LoadRules(tb);
    forall k | k in keys ensures k in tb.rules && tb.rules[k].transfer {
      SortedKeysMembers(TransferRuleKeys(tb), k);
    }
    forall i | 0 <= i < |rules| ensures ShowsRule(tb, keys[i], rules[i]) {
      RuleIsLoaded(tb, keys, i);
    }
    forall r | r in tb.rules && tb.rules[r].transfer ensures exists rule :: rule in rules && rule.id == r {
      SortedKeysMembers(TransferRuleKeys(tb), r);
      var i :| 0 <= i < |keys| && keys[i] == r;
      assert rules[i] in rules && rules[i].id == r;
    }
    forall a, b | a in rules && b in rules && a.id == b.id ensures a == b {
      var i :| 0 <= i < |rules| && rules[i] == a;
      var j :| 0 <= j < |rules| && rules[j] == b;
      SameRuleShown(tb, a.id, a, b);
    }
  }

  lemma SameRuleShown(tb: Tables, r: string, a: TransferRule, b: TransferRule)
    requires ShowsRule(tb, r, a) && ShowsRule(tb, r, b)
    ensures a == b
  {
    assert a.excluded == b.excluded;
  }

  // ---------- splits ----------

  /** The ordinals of a split's legs, in rising order. */
  ghost predicate Ordinals(tb: Tables, p: string, order: seq<nat>) {
    && (forall i, j :: 0 <= i < j < |order| ==> order[i] < order[j])
    && (forall n :: n in order <==> (p, n) in tb.splitLegs)
  }

  lemma {:induction false} NatsListed(s: set<nat>, n: nat)
    ensures n in s <==> n in SortedNats(s)
  {
    if s != {} {
      LeastNatExists(s);
      var order := SortedNats(s);
      NatsListed(s - {order[0]}, n);
      assert order == [order[0]] + SortedNats(s - {order[0]});
    }
  }

  lemma {:induction false} NatsRise(s: set<nat>)
    ensures forall i, j :: 0 <= i < j < |SortedNats(s)| ==> SortedNats(s)[i] < SortedNats(s)[j]
  {
    if s != {} {
      LeastNatExists(s);
      var order := SortedNats(s);
      var rest := SortedNats(s - {order[0]});
      NatsRise(s - {order[0]});
      assert order == [order[0]] + rest;
      forall j | 0 <= j < |rest| ensures order[0] < rest[j] {
        assert rest[j] in rest;
      }
    }
  }

  lemma {:induction false} LegsInOrder(table: map<nat, Leg>, order: seq<nat>)
    requires forall n :: n in order ==> n in table
    ensures |LegsAt(table, order)| == |order|
    ensures forall i :: 0 <= i < |order| ==> order[i] in table && LegsAt(table, order)[i] == table[order[i]]
  {
    if order != [] {
      assert order[0] in order;
      LegsInOrder(table, order[1..]);
    }
  }

  lemma LegTableHolds(tb: Tables, p: string, n: nat)
    ensures n in LegTable(tb, p) <==> (p, n) in tb.splitLegs
    ensures (p, n) in tb.splitLegs ==> LegTable(tb, p)[n] == tb.splitLegs[(p, n)]
  {
    if (p, n) in tb.splitLegs {
      assert (p, n).0 == p && (p, n).1 == n;
    }
  }

  /** A split with a leg is loaded with all of its legs in ordinal order; one without is not loaded. */
  lemma SplitLoads(tb: Tables, p: string) returns (order: seq<nat>)
    ensures Ordinals(tb, p, order)
    ensures p in LoadSplits(tb) <==> p in tb.splits && order != []
    ensures p in LoadSplits(tb) ==>
      && |LoadSplits(tb)[p]| == |order|
      && forall i :: 0 <= i < |order| ==>
           (p, order[i]) in tb.splitLegs && LoadSplits(tb)[p][i] == tb.splitLegs[(p, order[i])]
  {
    var table := LegTable(tb, p);
    order := SortedNats(table.Keys);
    NatsRise(table.Keys);
    LegsInOrder(table, order);
    forall n: nat ensures n in table <==> n in order {
      NatsListed(table.Keys, n);
    }
    forall n: nat ensures (n in table <==> (p, n) in tb.splitLegs)
      && ((p, n) in tb.splitLegs ==> table[n] == tb.splitLegs[(p, n)])
    {
      LegTableHolds(tb, p, n);
    }
    assert order == [] <==> table == map[] by {
      if table != map[] {
        var n :| n in table;
        assert n in order;
      }
    }
  }

  // ---------- merges ----------

  ghost predicate ShowsMerge(tb: Tables, m: string, merge: Merge) {
    && m in tb.merges && merge.kept == tb.merges[m].kept && merge.description == tb.merges[m].description
    && forall t :: t in merge.duplicates <==> (m, t) in tb.mergeDuplicates
  }

  lemma {:induction false} MergeIsLoaded(tb: Tables, keys: seq<string>, i: nat)
    requires i < |keys| && forall k :: k in keys ==> k in tb.merges
    ensures |MergesAt(tb, keys)| == |keys| && ShowsMerge(tb, keys[i], MergesAt(tb, keys)[i])
  {
    if i == 0 {
      assert keys[0] in keys;
      forall t ensures t in DuplicatesOf(tb, keys[0]) <==> (keys[0], t) in tb.mergeDuplicates {
        InSecondsAt(tb.mergeDuplicates, keys[0], t);
      }
      if |keys| > 1 {
        MergeIsLoaded(tb, keys[1..], 0);
      }
    } else {
      MergeIsLoaded(tb, keys[1..], i - 1);
    }
  }

  lemma {:induction false} KeysRise(keys: set<string>)
    ensures forall i, j :: 0 <= i < j < |SortedKeys(keys)| ==>
      SortedKeys(keys)[i] != SortedKeys(keys)[j] && TextLe(SortedKeys(keys)[i], SortedKeys(keys)[j])
  {
    if keys != {} {
      var order, least := SortedKeys(keys), LeastKey(keys);
      KeysRise(keys - {least});
      forall j | 1 <= j < |order| ensures order[0] != order[j] && TextLe(order[0], order[j]) {
        assert order[1..] == SortedKeys(keys - {least});
        assert order[j] in order[1..];
        SortedKeysMembers(keys - {least}, order[j]);
      }
    }
  }

  /** Every merge is loaded, in key order. */
  lemma MergesLoad(tb: Tables) returns (keys: seq<string>)
    ensures |LoadMerges(tb)| == |keys| && forall m :: m in keys <==> m in tb.merges
    ensures forall i, j :: 0 <= i < j < |keys| ==> keys[i] != keys[j] && TextLe(keys[i], keys[j])
    ensures forall i :: 0 <= i < |keys| ==> ShowsMerge(tb, keys[i], LoadMerges(tb)[i])
  {
    keys := SortedKeys(tb.merges.Keys);
    SortedTableKeysKnown(tb.merges);
    KeysRise(tb.merges.Keys);
    forall m ensures m in keys <==> m in tb.merges {
      SortedKeysMembers(tb.merges.Keys, m);
    }
    forall i | 0 <= i < |keys| ensures |LoadMerges(tb)| == |keys| && ShowsMerge(tb, keys[i], LoadMerges(tb)[i]) {
      MergeIsLoaded(tb, keys, i);
    }
  }

  // ---------- links ----------

  ghost predicate ShowsLink(tb: Tables, l: string, link: TransferLink) {
    && l in tb.links && link.a < link.b && link.source == tb.links[l].source && link.rule == tb.links[l].rule
    && forall t :: (l, t) in tb.linkMembers <==> t == link.a || t == link.b
  }

  lemma {:induction false} LinksLoaded(tb: Tables, keys: seq<string>)
    requires Committed(tb) && forall k :: k in keys ==> k in tb.links
    ensures |LinksAt(tb, keys)| == |keys|
    ensures forall i :: 0 <= i < |keys| ==> ShowsLink(tb, keys[i], LinksAt(tb, keys)[i])
  {
    if keys != [] {
      PairShowsLink(tb, keys);
      LinksLoaded(tb, keys[1..]);
    }
  }

  lemma PairShowsLink(tb: Tables, keys: seq<string>)
    requires Committed(tb) && keys != [] && forall k :: k in keys ==> k in tb.links
    ensures ShowsLink(tb, keys[0], LinksAt(tb, keys)[0])
  {
    assert keys[0] in keys;
    var pair := Pair(MembersOf(tb, keys[0]));
    forall t: TransactionId ensures (keys[0], t) in tb.linkMembers <==> t == pair.0 || t == pair.1 {
      InSecondsAt(tb.linkMembers, keys[0], t);
      assert t in MembersOf(tb, keys[0]) <==> t in {pair.0, pair.1};
    }
  }

  /** No transaction is in two links. */
  ghost predicate OneLinkEach(tb: Tables) {
    forall x, y :: x in tb.linkMembers && y in tb.linkMembers && x.1 == y.1 ==> x.0 == y.0
  }

  lemma SharedIsSame(tb: Tables, keys: seq<string>, links: seq<TransferLink>, i: nat, j: nat, t: TransactionId)
    requires OneLinkEach(tb) && |links| == |keys| && i < j < |keys|
    requires ShowsLink(tb, keys[i], links[i]) && ShowsLink(tb, keys[j], links[j])
    ensures Joins(links[i], t) && Joins(links[j], t) ==> keys[i] == keys[j]
  {
    if Joins(links[i], t) && Joins(links[j], t) {
      assert (keys[i], t) in tb.linkMembers && (keys[j], t) in tb.linkMembers;
      assert (keys[i], t).1 == (keys[j], t).1;
    }
  }

  lemma ShownLinksMatch(tb: Tables, keys: seq<string>, links: seq<TransferLink>)
    requires OneLinkEach(tb) && |links| == |keys|
    requires forall i, j :: 0 <= i < j < |keys| ==> keys[i] != keys[j]
    requires forall i :: 0 <= i < |keys| ==> ShowsLink(tb, keys[i], links[i])
    ensures Matching(links)
  {
    forall i, j, t | 0 <= i < j < |links| ensures !(Joins(links[i], t) && Joins(links[j], t)) {
      SharedIsSame(tb, keys, links, i, j, t);
    }
  }

  /** Every link is loaded, its two members in canonical order, and together they are a matching. */
  lemma LinksLoad(tb: Tables) returns (keys: seq<string>)
    requires Committed(tb)
    ensures |LoadLinks(tb)| == |keys| && forall l :: l in keys <==> l in tb.links
    ensures forall i :: 0 <= i < |keys| ==> ShowsLink(tb, keys[i], LoadLinks(tb)[i])
    ensures Matching(LoadLinks(tb))
  {
    keys := SortedKeys(tb.links.Keys);
    SortedTableKeysKnown(tb.links);
    ResolvedIds.SortedKeysDistinct(tb.links.Keys);
    LinksLoaded(tb, keys);
    forall l ensures l in keys <==> l in tb.links {
      SortedKeysMembers(tb.links.Keys, l);
    }
    ShownLinksMatch(tb, keys, LoadLinks(tb));
  }

  // ---------- overrides ----------

  /** A suggestion still waiting for an answer about the posting. */
  ghost predicate Waiting(tb: Tables, p: string, s: string) {
    s in tb.suggestions && tb.suggestions[s].pending && tb.suggestions[s].posting == Some(p)
  }

  ghost predicate FirstWaiting(tb: Tables, p: string, s: string) {
    Waiting(tb, p, s) && forall other :: Waiting(tb, p, other) ==> TextLe(s, other)
  }

  /** What the stored correction says, or nothing where there is none; an empty tag list only if tags were corrected. */
  ghost predicate ShowsCorrection(tb: Tables, p: string, edit: Override) {
    if p in tb.overrides then
      var rec := tb.overrides[p];
      && edit.account == rec.account && edit.category == rec.category && edit.subcategory == rec.subcategory
      && (edit.tags.Some? <==> rec.tagsOverridden)
      && (edit.tags.Some? ==> forall tag :: tag in edit.tags.value <==> (p, tag) in tb.overrideTags)
      && edit.loadOrder == rec.order
    else
      edit.account == None && edit.category == None && edit.subcategory == None && edit.tags == None
  }

  ghost predicate ShowsSuggestion(tb: Tables, p: string, edit: Override) {
    && (forall s :: FirstWaiting(tb, p, s) ==>
          edit.pendingSource == Some(tb.suggestions[s].source) && edit.pendingSelected == tb.suggestions[s].selected)
    && ((forall s :: !Waiting(tb, p, s)) ==> edit.pendingSource == None && edit.pendingSelected)
  }

  lemma LoadedEdit(tb: Tables, p: string)
    ensures ShowsCorrection(tb, p,
                            OverrideFor(Lookup(tb.overrides, p), OverrideTagsOf(tb, p), PendingTable(tb, p)))
    ensures ShowsSuggestion(tb, p, OverrideFor(Lookup(tb.overrides, p), OverrideTagsOf(tb, p), PendingTable(tb, p)))
  {
    var pending := PendingTable(tb, p);
    forall tag ensures tag in OverrideTagsOf(tb, p) <==> (p, tag) in tb.overrideTags {
      InSecondsAt(tb.overrideTags, p, tag);
    }
    forall s ensures s in pending <==> Waiting(tb, p, s) {
    }
    if pending != map[] {
      var least := LeastKey(pending.Keys);
      forall s | FirstWaiting(tb, p, s) ensures s == least {
        TextLeAntisymmetric(s, least);
      }
    }
  }

  /** The overrides loaded are those of the postings asked for that are corrected or have a suggestion waiting. */
  lemma OverridesLoad(tb: Tables, asked: set<string>, id: PostingId)
    ensures id in LoadOverrides(tb, asked)
      <==> id.Stored? && id.key in asked && (id.key in tb.overrides || exists s :: Waiting(tb, id.key, s))
    ensures id in LoadOverrides(tb, asked) ==>
      ShowsCorrection(tb, id.key, LoadOverrides(tb, asked)[id])
      && ShowsSuggestion(tb, id.key, LoadOverrides(tb, asked)[id])
  {
    if id.Stored? {
      var pending := PendingTable(tb, id.key);
      forall s ensures s in pending <==> Waiting(tb, id.key, s) {
      }
      assert pending == map[] <==> forall s :: !Waiting(tb, id.key, s) by {
        if pending != map[] {
          var s :| s in pending;
        }
      }
      LoadedEdit(tb, id.key);
    }
  }

  // ---------- and what is shown of it ----------

  lemma {:induction false} DisplayedAt(rows: seq<Row>, resolved: seq<Row>, raw: seq<Row>, context: Context,
                                       overrides: Overrides, i: nat)
    requires i < |rows|
    ensures DisplayAll(rows, resolved, raw, context, overrides)[i]
         == DisplayOf(rows[i], resolved, raw, context, overrides)
  {
    if i > 0 {
      DisplayedAt(rows[1..], resolved, raw, context, overrides, i - 1);
    }
  }

  /** A display row shows the first suggestion waiting for its posting, and is selected if none is. */
  lemma SuggestionIsShown(tb: Tables, ts: set<TransactionId>, d: DisplayRow, p: string)
    requires Committed(tb) && d in ResolveBatch(tb, ts) && d.row.posting == Stored(p)
    ensures forall s :: FirstWaiting(tb, p, s) ==>
      d.pendingSource == Some(tb.suggestions[s].source) && d.pendingSelected == tb.suggestions[s].selected
    ensures (forall s :: !Waiting(tb, p, s)) ==> d.pendingSource == None && d.pendingSelected
  {
    var raw, c, asked := LoadLedger(tb, ts), LoadContext(tb), PostingKeys(tb, ts);
    var o := LoadOverrides(tb, asked);
    var resolved := Resolve(raw, c, o);
    ResolvedIds.BatchOwners(tb, ts, d);
    assert p in asked;
    OverridesLoad(tb, asked, Stored(p));
    var i :| 0 <= i < |resolved| && DisplayAll(resolved, resolved, raw, c, o)[i] == d;
    DisplayedAt(resolved, resolved, raw, c, o, i);
    ShownSuggestion(tb, p, o, d);
  }

  lemma ShownSuggestion(tb: Tables, p: string, o: Overrides, d: DisplayRow)
    requires d.pendingSource == if Stored(p) in o then o[Stored(p)].pendingSource else None
    requires d.pendingSelected == if Stored(p) in o then o[Stored(p)].pendingSelected else true
    requires Stored(p) in o ==> ShowsSuggestion(tb, p, o[Stored(p)])
    requires Stored(p) !in o ==> forall s :: !Waiting(tb, p, s)
    ensures forall s :: FirstWaiting(tb, p, s) ==>
      d.pendingSource == Some(tb.suggestions[s].source) && d.pendingSelected == tb.suggestions[s].selected
    ensures (forall s :: !Waiting(tb, p, s)) ==> d.pendingSource == None && d.pendingSelected
  {
  }
}
