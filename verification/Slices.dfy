/** A transaction's resolution is a function of its own slice of the tables, whatever the rest of them hold. */
module Slices {
  import opened Frame
  import opened Categorization
  import opened Linking
  import opened Resolution
  import opened Tables
  import opened Footprint
  import Locality
  import Agreement

  // ---------- the raw rows ----------

  lemma {:induction false} SameRowsAt(a: Tables, b: Tables, keys: seq<string>)
    requires ForeignKeys(a) && ForeignKeys(b)
    requires forall k :: k in keys ==>
      && k in a.postings && k in b.postings
      && a.postings[k] == b.postings[k]
      && a.transactions[a.postings[k].transaction] == b.transactions[b.postings[k].transaction]
      && TagsOf(a, k) == TagsOf(b, k)
    ensures RowsAt(a, keys) == RowsAt(b, keys)
  {
    if keys != [] {
      assert keys[0] in keys;
      SameRowsAt(a, b, keys[1..]);
    }
  }

  lemma SamePosting(a: Tables, b: Tables, t: TransactionId, p: string)
    requires ForeignKeys(a) && ForeignKeys(b) && InputsOf(a, t) == InputsOf(b, t)
    requires p in PostingKeys(a, {t})
    ensures p in b.postings && p in PostingKeys(b, {t}) && PostingInputsOf(a, p) == PostingInputsOf(b, p)
    ensures t in a.transactions && t in b.transactions && a.transactions[t] == b.transactions[t]
  {
    assert t in a.transactions;
    assert p in PostingsOf(a, t) && PostingsOf(a, t)[p] == PostingInputsOf(a, p);
    assert PostingsOf(b, t) == PostingsOf(a, t);
    assert p in PostingsOf(b, t) && PostingsOf(b, t)[p] == PostingInputsOf(b, p);
  }

  lemma SameKeys(a: Tables, b: Tables, t: TransactionId)
    requires ForeignKeys(a) && ForeignKeys(b) && InputsOf(a, t) == InputsOf(b, t)
    ensures PostingKeys(a, {t}) == PostingKeys(b, {t})
  {
    forall p ensures p in PostingKeys(a, {t}) <==> p in PostingKeys(b, {t}) {
      if p in PostingKeys(a, {t}) { SamePosting(a, b, t, p); }
      if p in PostingKeys(b, {t}) { SamePosting(b, a, t, p); }
    }
  }

  lemma SameLedger(a: Tables, b: Tables, t: TransactionId)
    requires ForeignKeys(a) && ForeignKeys(b) && InputsOf(a, t) == InputsOf(b, t)
    ensures LoadLedger(a, {t}) == LoadLedger(b, {t})
  {
    SameKeys(a, b, t);
    var keys := SortedKeys(PostingKeys(a, {t}));
    forall k | k in keys
      ensures k in a.postings && k in b.postings && a.postings[k] == b.postings[k] && TagsOf(a, k) == TagsOf(b, k)
      ensures a.transactions[a.postings[k].transaction] == b.transactions[b.postings[k].transaction]
    {
      SortedKeysMembers(PostingKeys(a, {t}), k);
      SamePosting(a, b, t, k);
    }
    SameRowsAt(a, b, keys);
  }

  lemma {:induction false} RowsAtMembers(tb: Tables, keys: seq<string>, row: Row)
    requires ForeignKeys(tb) && forall k :: k in keys ==> k in tb.postings
    requires row in RowsAt(tb, keys)
    ensures row.posting.Stored? && row.posting.key in keys
    ensures var rec := tb.postings[row.posting.key];
      row == RawRow(row.posting.key, rec, tb.transactions[rec.transaction], TagsOf(tb, row.posting.key))
  {
    if row != RowsAt(tb, keys)[0] {
      RowsAtMembers(tb, keys[1..], row);
    }
  }

  lemma LedgerMembers(tb: Tables, ts: set<TransactionId>, row: Row)
    requires ForeignKeys(tb) && row in LoadLedger(tb, ts)
    ensures row.posting.Stored? && row.posting.key in PostingKeys(tb, ts)
    ensures var rec := tb.postings[row.posting.key];
      row == RawRow(row.posting.key, rec, tb.transactions[rec.transaction], TagsOf(tb, row.posting.key))
  {
    SortedPostingKeysKnown(tb, ts);
    var keys := SortedKeys(PostingKeys(tb, ts));
    SortMembers(RowsAt(tb, keys), row);
    RowsAtMembers(tb, keys, row);
    SortedKeysMembers(PostingKeys(tb, ts), row.posting.key);
  }

  // ---------- rules ----------

  lemma {:induction false} SameRulesAt(a: Tables, b: Tables, keys: seq<string>, t: TransactionId)
    requires a.rules == b.rules && ExcludedBy(a, t) == ExcludedBy(b, t)
    requires forall k :: k in keys ==> k in a.rules
    ensures Agreement.RulesAgree(RulesAt(a, keys), RulesAt(b, keys), {t})
  {
    if keys != [] {
      assert keys[0] in keys;
      SameRulesAt(a, b, keys[1..], t);
      InSecondsAt(a.exclusions, keys[0], t);
      InSecondsAt(b.exclusions, keys[0], t);
      assert keys[0] in ExcludedBy(a, t) <==> keys[0] in ExcludedBy(b, t);
    }
  }

  lemma SameRules(a: Tables, b: Tables, t: TransactionId)
    requires a.rules == b.rules && ExcludedBy(a, t) == ExcludedBy(b, t)
    ensures Agreement.RulesAgree(LoadRules(a), LoadRules(b), {t})
  {
    SortedRuleKeysKnown(a);
    assert TransferRuleKeys(a) == TransferRuleKeys(b);
    SameRulesAt(a, b, SortedKeys(TransferRuleKeys(a)), t);
  }

  // ---------- overlays naming a posting ----------

  lemma SameRedirect(a: Tables, b: Tables, key: Option<string>)
    requires KnownIf(key, a.categories) && KnownIf(key, b.categories) && CategoryOf(a, key) == CategoryOf(b, key)
    ensures Redirected(key, LoadRedirects(a)) == Redirected(key, LoadRedirects(b))
  {
  }

  lemma SameSplitEntry(a: Tables, b: Tables, p: string)
    requires p in a.splits <==> p in b.splits
    requires LegTable(a, p) == LegTable(b, p)
    ensures Agreement.SameEntry(LoadSplits(a), LoadSplits(b), p)
  {
  }

  /** An override loaded for one posting is the same whichever other postings were asked for. */
  lemma SameOverrideEntry(a: Tables, b: Tables, asked: set<string>, asked': set<string>, p: string, id: PostingId)
    requires p in asked && p in asked' && Base(id) == p
    requires Lookup(a.overrides, p) == Lookup(b.overrides, p) && OverrideTagsOf(a, p) == OverrideTagsOf(b, p)
    requires PendingTable(a, p) == PendingTable(b, p)
    ensures Agreement.SameEntry(LoadOverrides(a, asked), LoadOverrides(b, asked'), id)
  {
    assert HasOverride(a, p) <==> HasOverride(b, p);
  }

  // ---------- merges ----------

  lemma {:induction false} DroppedCons(m: Merge, rest: seq<Merge>, t: TransactionId)
    ensures t in Dropped([m] + rest) <==> t in m.duplicates || t in Dropped(rest)
  {
    if rest == [] {
      assert ([m] + rest)[..0] == [];
    } else {
      var n := |rest| - 1;
      DroppedCons(m, rest[..n], t);
      assert ([m] + rest)[..n + 1] == [m] + rest[..n];
    }
  }

  lemma {:induction false} DescriptionsCons(m: Merge, rest: seq<Merge>, t: TransactionId)
    ensures var all := Descriptions([m] + rest);
      if t in Descriptions(rest) then t in all && all[t] == Descriptions(rest)[t]
      else if m.kept == t && m.description.Some? then t in all && all[t] == m.description.value
      else t !in all
  {
    if rest == [] {
      assert ([m] + rest)[..0] == [];
      assert Descriptions([m] + rest)
          == if m.description.Some? then map[m.kept := m.description.value] else map[];
    } else {
      var n := |rest| - 1;
      DescriptionsCons(m, rest[..n], t);
      assert ([m] + rest)[..n + 1] == [m] + rest[..n];
      assert ([m] + rest)[n + 1] == rest[n];
    }
  }

  lemma {:induction false} DroppedAt(tb: Tables, keys: seq<string>, t: TransactionId)
    requires forall k :: k in keys ==> k in tb.merges
    ensures t in Dropped(MergesAt(tb, keys)) <==> exists k :: k in keys && k in DroppedBy(tb, t)
  {
    if keys != [] {
      assert keys[0] in keys;
      DroppedAt(tb, keys[1..], t);
      InSecondsAt(tb.mergeDuplicates, keys[0], t);
      DroppedCons(MergesAt(tb, keys)[0], MergesAt(tb, keys[1..]), t);
      assert keys == [keys[0]] + keys[1..];
    }
  }

  lemma DroppedLoaded(tb: Tables, t: TransactionId)
    requires ForeignKeys(tb)
    ensures t in Dropped(LoadMerges(tb)) <==> DroppedBy(tb, t) != {}
  {
    SortedTableKeysKnown(tb.merges);
    var keys := SortedKeys(tb.merges.Keys);
    DroppedAt(tb, keys, t);
    forall k | k in DroppedBy(tb, t) ensures k in keys {
      InSecondsAt(tb.mergeDuplicates, k, t);
      assert (k, t).0 in tb.merges;
      SortedKeysMembers(tb.merges.Keys, k);
    }
  }

  /** The description a transaction is kept under, read off the merges that keep it and no others. */
  ghost function KeptDescription(kept: map<string, MergeRec>, keys: seq<string>): Option<string>
    requires forall k :: k in keys ==> k in kept
  {
    if keys == [] then None
    else
      assert keys[0] in keys;
      var rest := KeptDescription(kept, keys[1..]);
      if rest.Some? then rest else kept[keys[0]].description
  }

  lemma {:induction false} KeepKeysMembers(keys: seq<string>, keep: set<string>, k: string)
    ensures k in KeepKeys(keys, keep) <==> k in keys && k in keep
  {
    if keys != [] {
      KeepKeysMembers(keys[1..], keep, k);
      assert keys == [keys[0]] + keys[1..];
    }
  }

  lemma {:induction false} DescriptionAt(tb: Tables, keys: seq<string>, t: TransactionId)
    requires forall k :: k in keys ==> k in tb.merges
    ensures forall k :: k in KeepKeys(keys, KeptBy(tb, t).Keys) ==> k in KeptBy(tb, t)
    ensures Lookup'(Descriptions(MergesAt(tb, keys)), t)
            == KeptDescription(KeptBy(tb, t), KeepKeys(keys, KeptBy(tb, t).Keys))
  {
    forall k | k in KeepKeys(keys, KeptBy(tb, t).Keys) ensures k in KeptBy(tb, t) {
      KeepKeysMembers(keys, KeptBy(tb, t).Keys, k);
    }
    if keys != [] {
      assert keys[0] in keys;
      DescriptionAt(tb, keys[1..], t);
      DescriptionsCons(MergesAt(tb, keys)[0], MergesAt(tb, keys[1..]), t);
    }
  }

  function Lookup'<V>(table: map<TransactionId, V>, key: TransactionId): Option<V> {
    if key in table then Some(table[key]) else None
  }

  lemma DescriptionLoaded(tb: Tables, t: TransactionId)
    ensures forall k :: k in SortedKeys(KeptBy(tb, t).Keys) ==> k in KeptBy(tb, t)
    ensures Lookup'(Descriptions(LoadMerges(tb)), t)
            == KeptDescription(KeptBy(tb, t), SortedKeys(KeptBy(tb, t).Keys))
  {
    SortedTableKeysKnown(tb.merges);
    DescriptionAt(tb, SortedKeys(tb.merges.Keys), t);
    SortedKeysKeep(tb.merges.Keys, KeptBy(tb, t).Keys);
    assert tb.merges.Keys * KeptBy(tb, t).Keys == KeptBy(tb, t).Keys;
  }

  // ---------- links ----------

  /** The other side of a pair. */
  ghost function Partner(members: set<TransactionId>, t: TransactionId): TransactionId
    requires IsPair(members)
  {
    if Pair(members).0 == t then Pair(members).1 else Pair(members).0
  }

  lemma {:induction false} LinkForAt(tb: Tables, keys: seq<string>, t: TransactionId)
    requires Committed(tb) && forall k :: k in keys ==> k in tb.links
    ensures (forall k :: k in keys ==> (k, t) !in tb.linkMembers) ==> LinkFor(LinksAt(tb, keys), t) == None
    ensures forall k :: k in keys && (k, t) in tb.linkMembers ==>
      LinkFor(LinksAt(tb, keys), t) == Some(LinkMark(Partner(MembersOf(tb, k), t), SourceText(tb.links[k].source)))
  {
    if keys != [] {
      var k := keys[0];
      assert k in keys;
      LinkForAt(tb, keys[1..], t);
      assert keys == [k] + keys[1..];
      InSecondsAt(tb.linkMembers, k, t);
      var pair := Pair(MembersOf(tb, k));
      assert Joins(LinksAt(tb, keys)[0], t) <==> (k, t) in tb.linkMembers;
      forall other | other in keys && (other, t) in tb.linkMembers && (k, t) in tb.linkMembers ensures other == k {
        assert (other, t).1 == (k, t).1;
        assert (other, t).0 == (k, t).0;
      }
    }
  }

  lemma LinkLoaded(tb: Tables, t: TransactionId)
    requires Committed(tb)
    ensures LinksOf(tb, t) == map[] ==> LinkFor(LoadLinks(tb), t) == None
    ensures forall l :: l in LinksOf(tb, t) ==>
      LinkFor(LoadLinks(tb), t) == Some(LinkMark(Partner(MembersOf(tb, l), t), SourceText(tb.links[l].source)))
  {
    SortedTableKeysKnown(tb.links);
    var keys := SortedKeys(tb.links.Keys);
    LinkForAt(tb, keys, t);
    forall k ensures k in keys <==> k in tb.links {
      SortedKeysMembers(tb.links.Keys, k);
    }
    if LinksOf(tb, t) == map[] {
      forall k | k in keys ensures (k, t) !in tb.linkMembers {
        assert k !in LinksOf(tb, t);
      }
    }
  }

  /** A transaction's links pair it with the same partners in both states. */
  ghost predicate SamePartners(a: Tables, b: Tables, t: TransactionId) {
    forall l :: l in LinksOf(a, t) ==> MembersOf(a, l) == MembersOf(b, l)
  }

  lemma SameLink(a: Tables, b: Tables, t: TransactionId)
    requires Committed(a) && Committed(b) && LinksOf(a, t) == LinksOf(b, t) && SamePartners(a, b, t)
    ensures LinkFor(LoadLinks(a), t) == LinkFor(LoadLinks(b), t)
  {
    LinkLoaded(a, t);
    LinkLoaded(b, t);
    if LinksOf(a, t) != map[] {
      var l :| l in LinksOf(a, t);
      assert l in LinksOf(b, t) && LinksOf(a, t)[l] == LinksOf(b, t)[l];
      assert a.links[l] == b.links[l];
    }
  }

  // ---------- putting a slice together ----------

  lemma SameMergeViews(a: Tables, b: Tables, t: TransactionId)
    requires ForeignKeys(a) && ForeignKeys(b) && KeptBy(a, t) == KeptBy(b, t) && DroppedBy(a, t) == DroppedBy(b, t)
    ensures t in Dropped(LoadMerges(a)) <==> t in Dropped(LoadMerges(b))
    ensures Agreement.SameEntry(Descriptions(LoadMerges(a)), Descriptions(LoadMerges(b)), t)
  {
    DroppedLoaded(a, t);
    DroppedLoaded(b, t);
    DescriptionLoaded(a, t);
    DescriptionLoaded(b, t);
  }

  /** What two states must share, posting by posting, for their contexts to agree on a transaction. */
  lemma SamePostingViews(a: Tables, b: Tables, t: TransactionId, row: Row)
    requires Committed(a) && Committed(b) && InputsOf(a, t) == InputsOf(b, t) && row in LoadLedger(a, {t})
    ensures row.transaction == t && row.posting.Stored?
    ensures Redirected(row.category, LoadRedirects(a)) == Redirected(row.category, LoadRedirects(b))
    ensures Redirected(row.subcategory, LoadRedirects(a)) == Redirected(row.subcategory, LoadRedirects(b))
    ensures Agreement.SameEntry(LoadSplits(a), LoadSplits(b), Base(row.posting))
    ensures forall id :: Base(id) == Base(row.posting) ==>
      Agreement.SameEntry(LoadOverrides(a, PostingKeys(a, {t})), LoadOverrides(b, PostingKeys(b, {t})), id)
  {
    LedgerMembers(a, {t}, row);
    var p := row.posting.key;
    SamePosting(a, b, t, p);
    SameRedirect(a, b, row.category);
    SameRedirect(a, b, row.subcategory);
    SameSplitEntry(a, b, p);
    forall id | Base(id) == p
      ensures Agreement.SameEntry(LoadOverrides(a, PostingKeys(a, {t})), LoadOverrides(b, PostingKeys(b, {t})), id)
    {
      SameOverrideEntry(a, b, PostingKeys(a, {t}), PostingKeys(b, {t}), p, id);
    }
  }

  lemma TransactionViews(a: Tables, b: Tables, t: TransactionId)
    requires Committed(a) && Committed(b) && t in a.transactions
    requires InputsOf(a, t) == InputsOf(b, t) && SamePartners(a, b, t)
    ensures Agreement.TransactionAgrees(t, LoadContext(a), LoadContext(b))
    ensures Agreement.RulesAgree(LoadRules(a), LoadRules(b), {t}) && LoadAccounts(a) == LoadAccounts(b)
  {
    SameRules(a, b, t);
    SameMergeViews(a, b, t);
    SameLink(a, b, t);
  }

  lemma ContextsAgree(a: Tables, b: Tables, t: TransactionId)
    requires Committed(a) && Committed(b) && t in a.transactions
    requires InputsOf(a, t) == InputsOf(b, t) && SamePartners(a, b, t)
    ensures Agreement.Agree(LoadLedger(a, {t}), {t},
                            LoadContext(a), LoadOverrides(a, PostingKeys(a, {t})),
                            LoadContext(b), LoadOverrides(b, PostingKeys(b, {t})))
  {
    var c, o := LoadContext(a), LoadOverrides(a, PostingKeys(a, {t}));
    var d, p := LoadContext(b), LoadOverrides(b, PostingKeys(b, {t}));
    forall row | row in LoadLedger(a, {t}) ensures Agreement.RowAgrees(row, {t}, c, o, d, p) {
      SamePostingViews(a, b, t, row);
    }
    TransactionViews(a, b, t);
  }

  lemma NothingResolvesToNothing(context: Context, overrides: Overrides)
    ensures DisplayRows([], context, overrides) == []
  {
    Agreement.ResolveUnfolds([], context, overrides);
  }

  lemma AbsentResolvesToNothing(tb: Tables, t: TransactionId)
    requires Committed(tb) && t !in tb.transactions
    ensures ResolveBatch(tb, {t}) == []
  {
    assert PostingKeys(tb, {t}) == {};
    NothingResolvesToNothing(LoadContext(tb), LoadOverrides(tb, {}));
  }

  /** Equal slices and equal partners resolve to equal rows, derived flags included. */
  lemma SliceDetermines(a: Tables, b: Tables, t: TransactionId)
    requires Committed(a) && Committed(b) && InputsOf(a, t) == InputsOf(b, t) && SamePartners(a, b, t)
    ensures ResolveBatch(a, {t}) == ResolveBatch(b, {t})
  {
    if t in a.transactions {
      SameLedger(a, b, t);
      ContextsAgree(a, b, t);
      Agreement.DisplayRowsAgree(LoadLedger(a, {t}), {t},
                                 LoadContext(a), LoadOverrides(a, PostingKeys(a, {t})),
                                 LoadContext(b), LoadOverrides(b, PostingKeys(b, {t})));
    } else {
      AbsentResolvesToNothing(a, t);
      AbsentResolvesToNothing(b, t);
    }
  }

  // ---------- batches ----------

  lemma {:induction false} RestrictRowsAt(tb: Tables, keys: seq<string>, ts: set<TransactionId>)
    requires ForeignKeys(tb) && forall k :: k in keys ==> k in tb.postings
    ensures forall k :: k in KeepKeys(keys, PostingKeys(tb, ts)) ==> k in tb.postings
    ensures Restrict(RowsAt(tb, keys), ts) == RowsAt(tb, KeepKeys(keys, PostingKeys(tb, ts)))
  {
    forall k | k in KeepKeys(keys, PostingKeys(tb, ts)) ensures k in tb.postings {
      KeepKeysMembers(keys, PostingKeys(tb, ts), k);
    }
    if keys != [] {
      assert keys[0] in keys;
      RestrictRowsAt(tb, keys[1..], ts);
    }
  }

  /** Loading some transactions is loading more of them and keeping those. */
  lemma LoadIsRestriction(tb: Tables, ts: set<TransactionId>, all: set<TransactionId>)
    requires ForeignKeys(tb) && ts <= all
    ensures Restrict(LoadLedger(tb, all), ts) == LoadLedger(tb, ts)
  {
    SortedPostingKeysKnown(tb, all);
    var keys := SortedKeys(PostingKeys(tb, all));
    RestrictSort(RowsAt(tb, keys), ts);
    RestrictRowsAt(tb, keys, ts);
    SortedKeysKeep(PostingKeys(tb, all), PostingKeys(tb, ts));
    assert PostingKeys(tb, all) * PostingKeys(tb, ts) == PostingKeys(tb, ts);
  }

  lemma RulesAgreeWithSelf(rules: seq<TransferRule>, ts: set<TransactionId>)
    ensures Agreement.RulesAgree(rules, rules, ts)
  {
  }

  /** The overrides a batch loads say nothing different from those of any larger set of postings. */
  lemma BatchOverridesSuffice(tb: Tables, ts: set<TransactionId>, asked: set<string>)
    requires Committed(tb) && PostingKeys(tb, ts) <= asked
    ensures DisplayRows(LoadLedger(tb, ts), LoadContext(tb), LoadOverrides(tb, asked)) == ResolveBatch(tb, ts)
  {
    var raw, c := LoadLedger(tb, ts), LoadContext(tb);
    var o, p := LoadOverrides(tb, asked), LoadOverrides(tb, PostingKeys(tb, ts));
    forall row | row in raw ensures Agreement.RowAgrees(row, ts, c, o, c, p) {
      AskedRowAgrees(tb, ts, asked, row);
    }
    AgreesWithItself(raw, ts, c, o, p);
    Agreement.DisplayRowsAgree(raw, ts, c, o, c, p);
  }

  lemma AskedRowAgrees(tb: Tables, ts: set<TransactionId>, asked: set<string>, row: Row)
    requires Committed(tb) && PostingKeys(tb, ts) <= asked && row in LoadLedger(tb, ts)
    ensures Agreement.RowAgrees(row, ts, LoadContext(tb), LoadOverrides(tb, asked),
                                LoadContext(tb), LoadOverrides(tb, PostingKeys(tb, ts)))
  {
    LedgerMembers(tb, ts, row);
    forall id | Base(id) == Base(row.posting)
      ensures Agreement.SameEntry(LoadOverrides(tb, asked), LoadOverrides(tb, PostingKeys(tb, ts)), id)
    {
      SameOverrideEntry(tb, tb, asked, PostingKeys(tb, ts), Base(id), id);
    }
  }

  lemma AgreesWithItself(raw: seq<Row>, ts: set<TransactionId>, c: Context, o: Overrides, p: Overrides)
    requires forall row :: row in raw ==> Agreement.RowAgrees(row, ts, c, o, c, p)
    ensures Agreement.Agree(raw, ts, c, o, c, p)
  {
    RulesAgreeWithSelf(c.rules, ts);
    forall t | t in ts ensures Agreement.TransactionAgrees(t, c, c) {
    }
  }

  /** A recompute may be cut into batches of whole transactions any way at all. */
  lemma BatchIsLocal(tb: Tables, ts: set<TransactionId>, t: TransactionId)
    requires Committed(tb) && t in ts
    ensures Locality.RestrictDisplay(ResolveBatch(tb, ts), {t}) == ResolveBatch(tb, {t})
  {
    var o := LoadOverrides(tb, PostingKeys(tb, ts));
    Locality.DisplayRowsLocal(LoadLedger(tb, ts), LoadContext(tb), o, {t});
    LoadIsRestriction(tb, {t}, ts);
    BatchOverridesSuffice(tb, {t}, PostingKeys(tb, ts));
  }

  /** And one transaction's recompute is what the whole-ledger read shows for it. */
  lemma RecomputeMatchesFullRead(tb: Tables, t: TransactionId)
    requires Committed(tb) && t in tb.transactions
    ensures Locality.RestrictDisplay(ResolveEverything(tb), {t}) == ResolveBatch(tb, {t})
  {
    var all := tb.transactions.Keys;
    var o := LoadOverrides(tb, tb.postings.Keys);
    Locality.DisplayRowsLocal(LoadLedger(tb, all), LoadContext(tb), o, {t});
    LoadIsRestriction(tb, {t}, all);
    BatchOverridesSuffice(tb, {t}, tb.postings.Keys);
  }
}
