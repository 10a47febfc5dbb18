/**
 * The stored tables a resolved posting depends on, and how a resolution is loaded out of them.
 *
 * A row is named by its natural key, which no write ever changes; a transaction by its row id, which is
 * what the staleness queue holds.
 */
module Tables {
  import opened Frame
  import opened Categorization
  import opened Linking
  import opened Resolution

  datatype TransactionRec = TransactionRec(postedAt: int, description: string)
  datatype PostingRec = PostingRec(
    transaction: TransactionId, account: string, amount: int, currency: string,
    category: Option<string>, subcategory: Option<string>, budget: Option<string>, meta: map<string, string>)
  datatype OverrideRec = OverrideRec(
    account: Option<string>, category: Option<string>, subcategory: Option<string>, tagsOverridden: bool, order: nat)
  datatype SuggestionRec = SuggestionRec(pending: bool, posting: Option<string>, source: string, selected: bool)
  datatype MergeRec = MergeRec(kept: TransactionId, description: Option<string>)
  datatype LinkRec = LinkRec(source: LinkSource, rule: Option<string>)
  datatype TagRec = TagRec(name: string)
  datatype AccountRec = AccountRec(name: string, kind: AccountKind)
  datatype CategoryRec = CategoryRec(name: string, retired: bool, successor: Option<string>)
  datatype RuleRec = RuleRec(
    transfer: bool, contains: string, account: Option<string>, counterparty: Option<string>, priority: int,
    active: bool)

  /** One map or relation per triggered table. */
  datatype Tables = Tables(
    transactions: map<TransactionId, TransactionRec>,
    postings: map<string, PostingRec>,
    postingTags: set<(string, string)>,
    overrides: map<string, OverrideRec>,
    overrideTags: set<(string, string)>,
    splits: set<string>,
    splitLegs: map<(string, nat), Leg>,
    suggestions: map<string, SuggestionRec>,
    exclusions: set<(string, TransactionId)>,
    merges: map<string, MergeRec>,
    mergeDuplicates: set<(string, TransactionId)>,
    links: map<string, LinkRec>,
    linkMembers: set<(string, TransactionId)>,
    tags: map<string, TagRec>,
    accounts: map<string, AccountRec>,
    categories: map<string, CategoryRec>,
    rules: map<string, RuleRec>)

  // ---------- reading a relation by one of its columns ----------

  function Firsts<A(==), B(==)>(pairs: set<(A, B)>): set<A> {
    set pair | pair in pairs :: pair.0
  }

  function Seconds<A(==), B(==)>(pairs: set<(A, B)>): set<B> {
    set pair | pair in pairs :: pair.1
  }

  function SecondsAt<A(==), B(==)>(pairs: set<(A, B)>, a: A): set<B> {
    set pair | pair in pairs && pair.0 == a :: pair.1
  }

  function FirstsAt<A(==), B(==)>(pairs: set<(A, B)>, b: B): set<A> {
    set pair | pair in pairs && pair.1 == b :: pair.0
  }

  lemma InSecondsAt<A, B>(pairs: set<(A, B)>, a: A, b: B)
    ensures b in SecondsAt(pairs, a) <==> (a, b) in pairs
    ensures a in FirstsAt(pairs, b) <==> (a, b) in pairs
    ensures (a, b) in pairs ==> a in Firsts(pairs) && b in Seconds(pairs)
  {
    if (a, b) in pairs {
      assert (a, b).0 == a && (a, b).1 == b;
    }
  }

  // ---------- what the engine enforces after every statement ----------

  ghost predicate KnownIf<V>(key: Option<string>, table: map<string, V>) {
    key.Some? ==> key.value in table
  }

  /** Every foreign key resolves. */
  ghost predicate ForeignKeys(tb: Tables) {
    && (forall p :: p in tb.postings ==>
          && tb.postings[p].transaction in tb.transactions
          && tb.postings[p].account in tb.accounts
          && KnownIf(tb.postings[p].category, tb.categories)
          && KnownIf(tb.postings[p].subcategory, tb.categories))
    && (forall pair :: pair in tb.postingTags ==> pair.0 in tb.postings && pair.1 in tb.tags)
    && (forall p :: p in tb.overrides ==>
          && p in tb.postings
          && KnownIf(tb.overrides[p].account, tb.accounts)
          && KnownIf(tb.overrides[p].category, tb.categories))
    && (forall pair :: pair in tb.overrideTags ==> pair.0 in tb.overrides && pair.1 in tb.tags)
    && (forall p :: p in tb.splits ==> p in tb.postings)
    && (forall leg :: leg in tb.splitLegs ==> leg.0 in tb.splits && KnownIf(tb.splitLegs[leg].category, tb.categories))
    && (forall s :: s in tb.suggestions ==> KnownIf(tb.suggestions[s].posting, tb.postings))
    && (forall pair :: pair in tb.exclusions ==> pair.0 in tb.rules && pair.1 in tb.transactions)
    && (forall m :: m in tb.merges ==> tb.merges[m].kept in tb.transactions)
    && (forall pair :: pair in tb.mergeDuplicates ==> pair.0 in tb.merges && pair.1 in tb.transactions)
    && (forall pair :: pair in tb.linkMembers ==> pair.0 in tb.links && pair.1 in tb.transactions)
    && (forall c :: c in tb.categories ==> KnownIf(tb.categories[c].successor, tb.categories))
  }

  function MembersOf(tb: Tables, link: string): set<TransactionId> {
    SecondsAt(tb.linkMembers, link)
  }

  ghost predicate IsPair(members: set<TransactionId>) {
    exists a, b :: a < b && members == {a, b}
  }

  /** What every committed state holds besides: links are pairs, and no transaction is in two. */
  ghost predicate Committed(tb: Tables) {
    && ForeignKeys(tb)
    && (forall l :: l in tb.links ==> IsPair(MembersOf(tb, l)))
    && (forall x, y :: x in tb.linkMembers && y in tb.linkMembers && x.1 == y.1 ==> x.0 == y.0)
  }

  // ---------- reading a table in a fixed order ----------

  predicate IsLeast(k: string, keys: set<string>) {
    k in keys && forall other :: other in keys ==> TextLe(k, other)
  }

  lemma LesserIsLeast(k: string, m: string, keys: set<string>)
    requires k in keys && IsLeast(m, keys - {k}) && TextLe(k, m)
    ensures IsLeast(k, keys)
  {
    TextLeTotal(k, k);
    forall other | other in keys ensures TextLe(k, other) {
      if other != k { TextLeTransitive(k, m, other); }
    }
  }

  lemma {:induction false} LeastKeyExists(keys: set<string>)
    requires keys != {}
    ensures exists k :: IsLeast(k, keys)
  {
    var k :| k in keys;
    TextLeTotal(k, k);
    if keys == {k} {
      assert IsLeast(k, keys);
    } else {
      assert keys - {k} != {};
      LeastKeyExists(keys - {k});
      var m :| IsLeast(m, keys - {k});
      TextLeTotal(k, m);
      if TextLe(k, m) {
        LesserIsLeast(k, m, keys);
      } else {
        assert IsLeast(m, keys);
      }
    }
  }

  lemma LeastKeyUnique(keys: set<string>)
    ensures forall a, b :: IsLeast(a, keys) && IsLeast(b, keys) ==> a == b
  {
    forall a, b | IsLeast(a, keys) && IsLeast(b, keys) ensures a == b {
      TextLeAntisymmetric(a, b);
    }
  }

  function LeastKey(keys: set<string>): (k: string)
    requires keys != {}
    ensures IsLeast(k, keys)
  {
    LeastKeyExists(keys);
    LeastKeyUnique(keys);
    var k :| k in keys && IsLeast(k, keys);
    k
  }

  function SortedKeys(keys: set<string>): seq<string> {
    if keys == {} then [] else [LeastKey(keys)] + SortedKeys(keys - {LeastKey(keys)})
  }

  function KeepKeys(keys: seq<string>, keep: set<string>): seq<string> {
    if keys == [] then []
    else if keys[0] in keep then [keys[0]] + KeepKeys(keys[1..], keep)
    else KeepKeys(keys[1..], keep)
  }

  lemma {:induction false} SortedKeysMembers(keys: set<string>, k: string)
    ensures k in SortedKeys(keys) <==> k in keys
  {
    if keys != {} {
      SortedKeysMembers(keys - {LeastKey(keys)}, k);
    }
  }

  /** Reading some of the keys in order is reading them all in order and skipping the others. */
  lemma {:induction false} SortedKeysKeep(keys: set<string>, keep: set<string>)
    ensures KeepKeys(SortedKeys(keys), keep) == SortedKeys(keys * keep)
  {
    if keys != {} {
      var least := LeastKey(keys);
      var rest := keys - {least};
      SortedKeysKeep(rest, keep);
      assert SortedKeys(keys)[1..] == SortedKeys(rest);
      if least in keep {
        var both := keys * keep;
        assert least in both;
        TextLeAntisymmetric(LeastKey(both), least);
        assert both - {least} == rest * keep;
      } else {
        assert rest * keep == keys * keep;
      }
    }
  }

  predicate IsLeastNat(n: nat, s: set<nat>) {
    n in s && forall m :: m in s ==> n <= m
  }

  lemma {:induction false} LeastNatExists(s: set<nat>)
    requires s != {}
    ensures exists n :: IsLeastNat(n, s)
  {
    var n :| n in s;
    if s == {n} {
      assert IsLeastNat(n, s);
    } else {
      assert s - {n} != {};
      LeastNatExists(s - {n});
      var m :| IsLeastNat(m, s - {n});
      var least := if n <= m then n else m;
      forall other | other in s ensures least <= other {
        if other != n { assert other in s - {n}; }
      }
      assert IsLeastNat(least, s);
    }
  }

  function SortedNats(s: set<nat>): (order: seq<nat>)
    ensures forall n :: n in order ==> n in s
  {
    if s == {} then []
    else
      LeastNatExists(s);
      var n :| n in s && IsLeastNat(n, s);
      [n] + SortedNats(s - {n})
  }

  // ---------- loading the raw frame ----------

  function PostingKeys(tb: Tables, ts: set<TransactionId>): set<string> {
    set p | p in tb.postings && tb.postings[p].transaction in ts
  }

  function TagsOf(tb: Tables, posting: string): set<string> {
    SecondsAt(tb.postingTags, posting)
  }

  function RawRow(posting: string, rec: PostingRec, event: TransactionRec, tags: set<string>): Row {
    Row(Stored(posting), rec.transaction, rec.account, event.postedAt, rec.amount, rec.currency,
        rec.category, rec.subcategory, rec.budget, tags, event.description, rec.meta, None)
  }

  function RowsAt(tb: Tables, keys: seq<string>): seq<Row>
    requires ForeignKeys(tb) && forall k :: k in keys ==> k in tb.postings
  {
    if keys == [] then []
    else
      assert keys[0] in keys;
      var rec := tb.postings[keys[0]];
      [RawRow(keys[0], rec, tb.transactions[rec.transaction], TagsOf(tb, keys[0]))] + RowsAt(tb, keys[1..])
  }

  lemma SortedPostingKeysKnown(tb: Tables, ts: set<TransactionId>)
    ensures forall k :: k in SortedKeys(PostingKeys(tb, ts)) ==> k in tb.postings
  {
    forall k | k in SortedKeys(PostingKeys(tb, ts)) ensures k in tb.postings {
      SortedKeysMembers(PostingKeys(tb, ts), k);
    }
  }

  /** The postings of some transactions, each joined to its event's date and description. */
  function LoadLedger(tb: Tables, ts: set<TransactionId>): seq<Row>
    requires ForeignKeys(tb)
  {
    SortedPostingKeysKnown(tb, ts);
    Sort(RowsAt(tb, SortedKeys(PostingKeys(tb, ts))))
  }

  // ---------- loading the overlays ----------

  function LoadRedirects(tb: Tables): Redirects {
    map c | c in tb.categories && tb.categories[c].retired :: tb.categories[c].successor
  }

  function LoadAccounts(tb: Tables): map<string, AccountKind> {
    map[UNCATEGORIZED_EXPENSE := ExpensePayee, UNCATEGORIZED_INCOME := IncomeSource]
    + (map a | a in tb.accounts :: tb.accounts[a].kind)
  }

  function ExcludedOf(tb: Tables, rule: string): set<TransactionId> {
    SecondsAt(tb.exclusions, rule)
  }

  function RulesAt(tb: Tables, keys: seq<string>): (rules: seq<TransferRule>)
    requires forall k :: k in keys ==> k in tb.rules
    ensures |rules| == |keys|
  {
    if keys == [] then []
    else
      assert keys[0] in keys;
      var rec := tb.rules[keys[0]];
      [TransferRule(keys[0], rec.contains, rec.account, rec.counterparty, rec.priority, rec.active,
                    ExcludedOf(tb, keys[0]))] + RulesAt(tb, keys[1..])
  }

  function TransferRuleKeys(tb: Tables): set<string> {
    set r | r in tb.rules && tb.rules[r].transfer
  }

  lemma SortedRuleKeysKnown(tb: Tables)
    ensures forall k :: k in SortedKeys(TransferRuleKeys(tb)) ==> k in tb.rules
  {
    forall k | k in SortedKeys(TransferRuleKeys(tb)) ensures k in tb.rules {
      SortedKeysMembers(TransferRuleKeys(tb), k);
    }
  }

  function LoadRules(tb: Tables): seq<TransferRule> {
    SortedRuleKeysKnown(tb);
    RulesAt(tb, SortedKeys(TransferRuleKeys(tb)))
  }

  function LegTable(tb: Tables, posting: string): map<nat, Leg> {
    map key | key in tb.splitLegs && key.0 == posting :: key.1 := tb.splitLegs[key]
  }

  function LegsAt(table: map<nat, Leg>, order: seq<nat>): seq<Leg>
    requires forall n :: n in order ==> n in table
  {
    if order == [] then []
    else
      assert order[0] in order;
      [table[order[0]]] + LegsAt(table, order[1..])
  }

  /** A split's legs in ordinal order. */
  function LegList(table: map<nat, Leg>): seq<Leg> {
    LegsAt(table, SortedNats(table.Keys))
  }

  /** Splits are grouped from their legs, so a split with no legs yet is not a split. */
  function LoadSplits(tb: Tables): Splits {
    map p | p in tb.splits && LegTable(tb, p) != map[] :: LegList(LegTable(tb, p))
  }

  function DuplicatesOf(tb: Tables, merge: string): set<TransactionId> {
    SecondsAt(tb.mergeDuplicates, merge)
  }

  function MergesAt(tb: Tables, keys: seq<string>): seq<Merge>
    requires forall k :: k in keys ==> k in tb.merges
  {
    if keys == [] then []
    else
      assert keys[0] in keys;
      [Merge(tb.merges[keys[0]].kept, DuplicatesOf(tb, keys[0]), tb.merges[keys[0]].description)]
      + MergesAt(tb, keys[1..])
  }

  lemma SortedTableKeysKnown<V>(table: map<string, V>)
    ensures forall k :: k in SortedKeys(table.Keys) ==> k in table
  {
    forall k | k in SortedKeys(table.Keys) ensures k in table {
      SortedKeysMembers(table.Keys, k);
    }
  }

  function LoadMerges(tb: Tables): seq<Merge> {
    SortedTableKeysKnown(tb.merges);
    MergesAt(tb, SortedKeys(tb.merges.Keys))
  }

  function Pair(members: set<TransactionId>): (pair: (TransactionId, TransactionId))
    requires IsPair(members)
    ensures pair.0 < pair.1 && members == {pair.0, pair.1}
  {
    var a, b :| a in members && b in members && a < b && members == {a, b};
    (a, b)
  }

  function LinksAt(tb: Tables, keys: seq<string>): seq<TransferLink>
    requires Committed(tb) && forall k :: k in keys ==> k in tb.links
  {
    if keys == [] then []
    else
      assert keys[0] in keys;
      var pair := Pair(MembersOf(tb, keys[0]));
      [MakeTransferLink(pair.0, pair.1, tb.links[keys[0]].source, tb.links[keys[0]].rule)] + LinksAt(tb, keys[1..])
  }

  function LoadLinks(tb: Tables): seq<TransferLink>
    requires Committed(tb)
  {
    SortedTableKeysKnown(tb.links);
    LinksAt(tb, SortedKeys(tb.links.Keys))
  }

  /** Every whole-collection overlay, read once. */
  function LoadContext(tb: Tables): Context
    requires Committed(tb)
  {
    Context(LoadRules(tb), LoadAccounts(tb), LoadRedirects(tb), LoadSplits(tb), LoadMerges(tb), LoadLinks(tb))
  }

  function OverrideTagsOf(tb: Tables, posting: string): set<string> {
    SecondsAt(tb.overrideTags, posting)
  }

  function PendingTable(tb: Tables, posting: string): map<string, SuggestionRec> {
    map s | s in tb.suggestions && tb.suggestions[s].pending && tb.suggestions[s].posting == Some(posting)
      :: tb.suggestions[s]
  }

  predicate HasOverride(tb: Tables, posting: string) {
    posting in tb.overrides || PendingTable(tb, posting) != map[]
  }

  /** A stored correction and a pending suggestion, folded into one override. */
  function OverrideFor(rec: Option<OverrideRec>, tags: set<string>, pending: map<string, SuggestionRec>): Override {
    var correction :=
      if rec.None? then Override(None, None, None, None, None, true, 0)
      else Override(rec.value.account, rec.value.category, rec.value.subcategory,
                    if rec.value.tagsOverridden then Some(tags) else None, None, true, rec.value.order);
    if pending == map[] then correction
    else
      var suggestion := pending[LeastKey(pending.Keys)];
      correction.(pendingSource := Some(suggestion.source), pendingSelected := suggestion.selected)
  }

  function Lookup<V>(table: map<string, V>, key: string): Option<V> {
    if key in table then Some(table[key]) else None
  }

  function OverriddenIds(tb: Tables, postings: set<string>): set<PostingId> {
    set p | p in postings && HasOverride(tb, p) :: Stored(p)
  }

  /** The overrides of the named postings, and of no other. */
  function LoadOverrides(tb: Tables, postings: set<string>): Overrides {
    map id | id in OverriddenIds(tb, postings) ::
      OverrideFor(Lookup(tb.overrides, Base(id)), OverrideTagsOf(tb, Base(id)), PendingTable(tb, Base(id)))
  }

  // ---------- resolving out of the tables ----------

  /** One recompute pass over a batch of transactions: load, resolve, render. */
  function ResolveBatch(tb: Tables, ts: set<TransactionId>): seq<DisplayRow>
    requires Committed(tb)
  {
    DisplayRows(LoadLedger(tb, ts), LoadContext(tb), LoadOverrides(tb, PostingKeys(tb, ts)))
  }

  /** The same, with no cache and no batch: every transaction and every override. */
  function ResolveEverything(tb: Tables): seq<DisplayRow>
    requires Committed(tb)
  {
    DisplayRows(LoadLedger(tb, tb.transactions.Keys), LoadContext(tb), LoadOverrides(tb, tb.postings.Keys))
  }
}
