/**
 * The staleness triggers: which transactions one statement enqueues, and why those are enough
 * (accounting/db/projection.py).
 */
module Footprint {
  import opened Frame
  import opened Categorization
  import opened Tables

  // ---------- transition tables ----------

  /** Keys whose row a statement inserted, updated or deleted. */
  function Changed<K, V(==)>(old_: map<K, V>, new_: map<K, V>): set<K> {
    (set k | k in old_ && (k !in new_ || new_[k] != old_[k]) :: k) + (set k | k in new_ && k !in old_ :: k)
  }

  function ChangedPairs<P>(old_: set<P>, new_: set<P>): set<P> {
    (old_ - new_) + (new_ - old_)
  }

  // ---------- one SELECT per table, over the tables as the statement left them ----------

  /** An overlay row naming a posting, joined up to the posting's transaction. */
  function ViaPosting(tb: Tables, postings: set<string>): set<TransactionId> {
    set p | p in postings && p in tb.postings :: tb.postings[p].transaction
  }

  /** Both the transaction a changed posting left and the one it joined, with no join at all. */
  function FromPostings(a: Tables, b: Tables): set<TransactionId> {
    (set p | p in Changed(a.postings, b.postings) && p in a.postings :: a.postings[p].transaction)
    + (set p | p in Changed(a.postings, b.postings) && p in b.postings :: b.postings[p].transaction)
  }

  function FromPostingTags(a: Tables, b: Tables): set<TransactionId> {
    ViaPosting(b, Firsts(ChangedPairs(a.postingTags, b.postingTags)))
  }

  function FromOverrides(a: Tables, b: Tables): set<TransactionId> {
    ViaPosting(b, Changed(a.overrides, b.overrides))
  }

  function FromOverrideTags(a: Tables, b: Tables): set<TransactionId> {
    ViaPosting(b, Firsts(ChangedPairs(a.overrideTags, b.overrideTags)) * b.overrides.Keys)
  }

  function FromSplits(a: Tables, b: Tables): set<TransactionId> {
    ViaPosting(b, ChangedPairs(a.splits, b.splits))
  }

  function FromSplitLegs(a: Tables, b: Tables): set<TransactionId> {
    ViaPosting(b, Firsts(Changed(a.splitLegs, b.splitLegs)) * b.splits)
  }

  /** The postings a changed suggestion names, before or after; a dismissed one names none. */
  function FromSuggestions(a: Tables, b: Tables): set<TransactionId> {
    var changed := Changed(a.suggestions, b.suggestions);
    ViaPosting(b, SuggestedPostings(a, changed) + SuggestedPostings(b, changed))
  }

  function SuggestedPostings(tb: Tables, suggestions: set<string>): set<string> {
    set s | s in suggestions && s in tb.suggestions && tb.suggestions[s].posting.Some? ::
      tb.suggestions[s].posting.value
  }

  function FromExclusions(a: Tables, b: Tables): set<TransactionId> {
    Seconds(ChangedPairs(a.exclusions, b.exclusions))
  }

  function FromMerges(a: Tables, b: Tables): set<TransactionId> {
    (set m | m in Changed(a.merges, b.merges) && m in a.merges :: a.merges[m].kept)
    + (set m | m in Changed(a.merges, b.merges) && m in b.merges :: b.merges[m].kept)
    + (set pair | pair in b.mergeDuplicates && pair.0 in Changed(a.merges, b.merges) :: pair.1)
  }

  function FromMergeDuplicates(a: Tables, b: Tables): set<TransactionId> {
    Seconds(ChangedPairs(a.mergeDuplicates, b.mergeDuplicates))
    + (set pair | pair in ChangedPairs(a.mergeDuplicates, b.mergeDuplicates) && pair.0 in b.merges
        :: b.merges[pair.0].kept)
  }

  function FromLinkMembers(a: Tables, b: Tables): set<TransactionId> {
    Seconds(ChangedPairs(a.linkMembers, b.linkMembers))
  }

  function FromLinks(a: Tables, b: Tables): set<TransactionId> {
    set pair | pair in b.linkMembers && pair.0 in Changed(a.links, b.links) :: pair.1
  }

  function FromTags(a: Tables, b: Tables): set<TransactionId> {
    var tags := Changed(a.tags, b.tags);
    ViaPosting(b, set pair | pair in b.postingTags && pair.1 in tags :: pair.0)
    + ViaPosting(b, set pair | pair in b.overrideTags && pair.1 in tags && pair.0 in b.overrides :: pair.0)
  }

  /** A rule or an account can change anything, so either enqueues the whole ledger. */
  function WholeLedgerIf(b: Tables, changed: bool): set<TransactionId> {
    if changed then b.transactions.Keys else {}
  }

  /** The narrow map: postings filed under a changed category, as category or as subcategory. */
  function FromCategories(a: Tables, b: Tables): set<TransactionId> {
    var changed := Changed(a.categories, b.categories);
    set p | p in b.postings
         && ((b.postings[p].category.Some? && b.postings[p].category.value in changed)
             || (b.postings[p].subcategory.Some? && b.postings[p].subcategory.value in changed))
      :: b.postings[p].transaction
  }

  /** Everything one statement enqueues: every table it touched, directly or by cascade, fires its own triggers. */
  function Enqueued(a: Tables, b: Tables): set<TransactionId> {
    Changed(a.transactions, b.transactions)
    + FromPostings(a, b) + FromPostingTags(a, b)
    + FromOverrides(a, b) + FromOverrideTags(a, b)
    + FromSplits(a, b) + FromSplitLegs(a, b)
    + FromSuggestions(a, b) + FromExclusions(a, b)
    + FromMerges(a, b) + FromMergeDuplicates(a, b)
    + FromLinkMembers(a, b) + FromLinks(a, b)
    + FromTags(a, b) + FromCategories(a, b)
    + WholeLedgerIf(b, Changed(a.accounts, b.accounts) != {})
    + WholeLedgerIf(b, Changed(a.rules, b.rules) != {})
  }

  // ---------- everything a transaction's resolution reads ----------

  datatype PostingInputs = PostingInputs(
    rec: PostingRec,
    tags: set<string>,
    category: Option<CategoryRec>,
    subcategory: Option<CategoryRec>,
    override_: Option<OverrideRec>,
    overrideTags: set<string>,
    split: bool,
    legs: map<nat, Leg>,
    pending: map<string, SuggestionRec>)

  datatype Inputs =
    | Absent
    | Present(
        event: TransactionRec,
        rules: map<string, RuleRec>,
        accounts: map<string, AccountRec>,
        postings: map<string, PostingInputs>,
        excludedBy: set<string>,
        keptBy: map<string, MergeRec>,
        droppedBy: set<string>,
        links: map<string, LinkRec>)

  function CategoryOf(tb: Tables, key: Option<string>): Option<CategoryRec> {
    if key.Some? then Lookup(tb.categories, key.value) else None
  }

  function PostingInputsOf(tb: Tables, p: string): PostingInputs
    requires p in tb.postings
  {
    PostingInputs(
      tb.postings[p], TagsOf(tb, p),
      CategoryOf(tb, tb.postings[p].category), CategoryOf(tb, tb.postings[p].subcategory),
      Lookup(tb.overrides, p), OverrideTagsOf(tb, p),
      p in tb.splits, LegTable(tb, p), PendingTable(tb, p))
  }

  function PostingsOf(tb: Tables, t: TransactionId): map<string, PostingInputs> {
    map p | p in tb.postings && tb.postings[p].transaction == t :: PostingInputsOf(tb, p)
  }

  function ExcludedBy(tb: Tables, t: TransactionId): set<string> {
    FirstsAt(tb.exclusions, t)
  }

  function KeptBy(tb: Tables, t: TransactionId): map<string, MergeRec> {
    map m | m in tb.merges && tb.merges[m].kept == t :: tb.merges[m]
  }

  function DroppedBy(tb: Tables, t: TransactionId): set<string> {
    FirstsAt(tb.mergeDuplicates, t)
  }

  function LinksOf(tb: Tables, t: TransactionId): map<string, LinkRec> {
    map l | l in tb.links && (l, t) in tb.linkMembers :: tb.links[l]
  }

  /** One transaction's slice of the database; only the identity of a linked partner is not in it. */
  function InputsOf(tb: Tables, t: TransactionId): Inputs {
    if t !in tb.transactions then Absent
    else Present(tb.transactions[t], tb.rules, tb.accounts, PostingsOf(tb, t),
                 ExcludedBy(tb, t), KeptBy(tb, t), DroppedBy(tb, t), LinksOf(tb, t))
  }

  // ---------- footprint soundness, one table at a time ----------

  lemma Unchanged<K, V>(a: map<K, V>, b: map<K, V>, k: K)
    requires k !in Changed(a, b)
    ensures k in a <==> k in b
    ensures k in a ==> a[k] == b[k]
  {
  }

  lemma NothingChanged<K, V>(a: map<K, V>, b: map<K, V>)
    requires Changed(a, b) == {}
    ensures a == b
  {
    forall k ensures (k in a <==> k in b) && (k in a ==> a[k] == b[k]) {
      Unchanged(a, b, k);
    }
  }

  lemma SameSeconds<A, B>(x: set<(A, B)>, y: set<(A, B)>, a: A)
    requires a !in Firsts(ChangedPairs(x, y))
    ensures SecondsAt(x, a) == SecondsAt(y, a)
  {
    forall b ensures b in SecondsAt(x, a) <==> b in SecondsAt(y, a) {
      InSecondsAt(ChangedPairs(x, y), a, b);
      InSecondsAt(x, a, b);
      InSecondsAt(y, a, b);
    }
  }

  lemma SameFirsts<A, B>(x: set<(A, B)>, y: set<(A, B)>, b: B)
    requires b !in Seconds(ChangedPairs(x, y))
    ensures FirstsAt(x, b) == FirstsAt(y, b)
  {
    forall a ensures a in FirstsAt(x, b) <==> a in FirstsAt(y, b) {
      InSecondsAt(ChangedPairs(x, y), a, b);
      InSecondsAt(x, a, b);
      InSecondsAt(y, a, b);
    }
  }

  lemma PostingsReport(a: Tables, b: Tables, p: string)
    ensures p in Changed(a.postings, b.postings) && p in a.postings ==> a.postings[p].transaction in FromPostings(a, b)
    ensures p in Changed(a.postings, b.postings) && p in b.postings ==> b.postings[p].transaction in FromPostings(a, b)
  {
  }

  lemma SamePostings(a: Tables, b: Tables, t: TransactionId, p: string)
    requires t !in FromPostings(a, b)
    ensures p in a.postings && a.postings[p].transaction == t ==> p in b.postings && b.postings[p] == a.postings[p]
    ensures p in b.postings && b.postings[p].transaction == t ==> p in a.postings && a.postings[p] == b.postings[p]
  {
    PostingsReport(a, b, p);
  }

  /** A posting whose transaction is not enqueued is not among the postings a join reached. */
  lemma NotReached(tb: Tables, postings: set<string>, p: string)
    requires p in tb.postings && tb.postings[p].transaction !in ViaPosting(tb, postings)
    ensures p !in postings
  {
  }

  lemma SameTags(a: Tables, b: Tables, p: string)
    requires p in b.postings && b.postings[p].transaction !in FromPostingTags(a, b)
    ensures TagsOf(a, p) == TagsOf(b, p)
  {
    NotReached(b, Firsts(ChangedPairs(a.postingTags, b.postingTags)), p);
    SameSeconds(a.postingTags, b.postingTags, p);
  }

  lemma SameCategory(a: Tables, b: Tables, p: string, key: Option<string>)
    requires p in b.postings && b.postings[p].transaction !in FromCategories(a, b)
    requires key == b.postings[p].category || key == b.postings[p].subcategory
    ensures CategoryOf(a, key) == CategoryOf(b, key)
  {
    if key.Some? {
      assert key.value !in Changed(a.categories, b.categories);
      Unchanged(a.categories, b.categories, key.value);
    }
  }

  lemma SameOverride(a: Tables, b: Tables, p: string)
    requires p in b.postings && b.postings[p].transaction !in FromOverrides(a, b)
    ensures Lookup(a.overrides, p) == Lookup(b.overrides, p)
  {
    NotReached(b, Changed(a.overrides, b.overrides), p);
    Unchanged(a.overrides, b.overrides, p);
  }

  lemma NoTagsWithoutOverride(tb: Tables, p: string)
    requires ForeignKeys(tb) && p !in tb.overrides
    ensures OverrideTagsOf(tb, p) == {}
  {
  }

  /** An override's tags: reached through the override while it is there, and cascaded away with it when it is not. */
  lemma SameOverrideTags(a: Tables, b: Tables, p: string)
    requires ForeignKeys(a) && ForeignKeys(b) && p in b.postings
    requires b.postings[p].transaction !in FromOverrides(a, b) && b.postings[p].transaction !in FromOverrideTags(a, b)
    ensures OverrideTagsOf(a, p) == OverrideTagsOf(b, p)
  {
    SameOverride(a, b, p);
    if p !in b.overrides {
      NoTagsWithoutOverride(a, p);
      NoTagsWithoutOverride(b, p);
    } else {
      NotReached(b, Firsts(ChangedPairs(a.overrideTags, b.overrideTags)) * b.overrides.Keys, p);
      SameSeconds(a.overrideTags, b.overrideTags, p);
    }
  }

  lemma SameSplit(a: Tables, b: Tables, p: string)
    requires p in b.postings && b.postings[p].transaction !in FromSplits(a, b)
    ensures p in a.splits <==> p in b.splits
  {
    NotReached(b, ChangedPairs(a.splits, b.splits), p);
  }

  lemma InLegTable(tb: Tables, p: string, n: nat)
    ensures n in LegTable(tb, p) <==> (p, n) in tb.splitLegs
    ensures n in LegTable(tb, p) ==> LegTable(tb, p)[n] == tb.splitLegs[(p, n)]
  {
    if (p, n) in tb.splitLegs {
      assert (p, n).0 == p && (p, n).1 == n;
    }
  }

  lemma NoLegsWithoutSplit(tb: Tables, p: string)
    requires ForeignKeys(tb) && p !in tb.splits
    ensures LegTable(tb, p) == map[]
  {
    forall n ensures n !in LegTable(tb, p) {
      InLegTable(tb, p, n);
      assert (p, n) in tb.splitLegs ==> (p, n).0 in tb.splits;
    }
  }

  lemma LegsUntouched(a: Tables, b: Tables, p: string)
    requires p !in Firsts(Changed(a.splitLegs, b.splitLegs))
    ensures LegTable(a, p) == LegTable(b, p)
  {
    forall n ensures n in LegTable(a, p) <==> n in LegTable(b, p)
             ensures n in LegTable(a, p) ==> LegTable(a, p)[n] == LegTable(b, p)[n]
    {
      InLegTable(a, p, n);
      InLegTable(b, p, n);
      InSecondsAt(Changed(a.splitLegs, b.splitLegs), p, n);
      Unchanged(a.splitLegs, b.splitLegs, (p, n));
    }
  }

  lemma SameLegs(a: Tables, b: Tables, p: string)
    requires ForeignKeys(a) && ForeignKeys(b) && p in b.postings
    requires b.postings[p].transaction !in FromSplits(a, b) && b.postings[p].transaction !in FromSplitLegs(a, b)
    ensures LegTable(a, p) == LegTable(b, p)
  {
    SameSplit(a, b, p);
    if p !in b.splits {
      NoLegsWithoutSplit(a, p);
      NoLegsWithoutSplit(b, p);
    } else {
      NotReached(b, Firsts(Changed(a.splitLegs, b.splitLegs)) * b.splits, p);
      LegsUntouched(a, b, p);
    }
  }

  lemma SuggestionsReport(tb: Tables, changed: set<string>, s: string)
    ensures s in changed && s in tb.suggestions && tb.suggestions[s].posting.Some?
      ==> tb.suggestions[s].posting.value in SuggestedPostings(tb, changed)
  {
  }

  lemma SamePending(a: Tables, b: Tables, p: string)
    requires p in b.postings && b.postings[p].transaction !in FromSuggestions(a, b)
    ensures PendingTable(a, p) == PendingTable(b, p)
  {
    var changed := Changed(a.suggestions, b.suggestions);
    NotReached(b, SuggestedPostings(a, changed) + SuggestedPostings(b, changed), p);
    forall s ensures s in PendingTable(a, p) <==> s in PendingTable(b, p)
             ensures s in PendingTable(a, p) ==> PendingTable(a, p)[s] == PendingTable(b, p)[s]
    {
      SuggestionsReport(a, changed, s);
      SuggestionsReport(b, changed, s);
    }
  }

  /** Nothing read for one posting changed unless its transaction was enqueued. */
  lemma SamePostingInputs(a: Tables, b: Tables, t: TransactionId, p: string)
    requires ForeignKeys(a) && ForeignKeys(b) && t !in Enqueued(a, b)
    requires p in b.postings && b.postings[p].transaction == t
    ensures p in a.postings && PostingInputsOf(a, p) == PostingInputsOf(b, p)
  {
    SamePostings(a, b, t, p);
    SameTags(a, b, p);
    SameCategory(a, b, p, b.postings[p].category);
    SameCategory(a, b, p, b.postings[p].subcategory);
    SameOverride(a, b, p);
    SameOverrideTags(a, b, p);
    SameSplit(a, b, p);
    SameLegs(a, b, p);
    SamePending(a, b, p);
  }

  lemma SameEntryOf(a: Tables, b: Tables, t: TransactionId, p: string)
    requires ForeignKeys(a) && ForeignKeys(b) && t !in Enqueued(a, b)
    ensures p in PostingsOf(a, t) <==> p in PostingsOf(b, t)
    ensures p in PostingsOf(a, t) ==> PostingsOf(a, t)[p] == PostingsOf(b, t)[p]
  {
    SamePostings(a, b, t, p);
    if p in b.postings && b.postings[p].transaction == t {
      SamePostingInputs(a, b, t, p);
    }
  }

  lemma SameMaps<K, V>(x: map<K, V>, y: map<K, V>)
    requires forall k :: (k in x <==> k in y) && (k in x ==> x[k] == y[k])
    ensures x == y
  {
  }

  lemma SamePostingTable(a: Tables, b: Tables, t: TransactionId)
    requires ForeignKeys(a) && ForeignKeys(b) && t !in Enqueued(a, b)
    ensures PostingsOf(a, t) == PostingsOf(b, t)
  {
    var x, y := PostingsOf(a, t), PostingsOf(b, t);
    forall p ensures (p in x <==> p in y) && (p in x ==> x[p] == y[p]) {
      SameEntryOf(a, b, t, p);
    }
    SameMaps(x, y);
  }

  lemma MergesReport(a: Tables, b: Tables, m: string)
    ensures m in Changed(a.merges, b.merges) && m in a.merges ==> a.merges[m].kept in FromMerges(a, b)
    ensures m in Changed(a.merges, b.merges) && m in b.merges ==> b.merges[m].kept in FromMerges(a, b)
  {
  }

  lemma SameKept(a: Tables, b: Tables, t: TransactionId)
    requires t !in FromMerges(a, b)
    ensures KeptBy(a, t) == KeptBy(b, t)
  {
    forall m ensures m in KeptBy(a, t) <==> m in KeptBy(b, t)
             ensures m in KeptBy(a, t) ==> KeptBy(a, t)[m] == KeptBy(b, t)[m]
    {
      MergesReport(a, b, m);
    }
  }

  lemma LinksReport(a: Tables, b: Tables, l: string, t: TransactionId)
    ensures l in Changed(a.links, b.links) && (l, t) in b.linkMembers ==> t in FromLinks(a, b)
  {
    if (l, t) in b.linkMembers {
      assert (l, t).0 == l && (l, t).1 == t;
    }
  }

  lemma SameLinks(a: Tables, b: Tables, t: TransactionId)
    requires ForeignKeys(a) && ForeignKeys(b) && t !in FromLinkMembers(a, b) && t !in FromLinks(a, b)
    ensures LinksOf(a, t) == LinksOf(b, t)
  {
    forall l ensures l in LinksOf(a, t) <==> l in LinksOf(b, t)
             ensures l in LinksOf(a, t) ==> LinksOf(a, t)[l] == LinksOf(b, t)[l]
    {
      InSecondsAt(ChangedPairs(a.linkMembers, b.linkMembers), l, t);
      LinksReport(a, b, l, t);
      assert (l, t) in a.linkMembers ==> (l, t).0 in a.links;
      assert (l, t) in b.linkMembers ==> (l, t).0 in b.links;
    }
  }

  /** Footprint soundness of one statement: a transaction it does not enqueue reads exactly what it read before. */
  lemma StatementFootprint(a: Tables, b: Tables, t: TransactionId)
    requires ForeignKeys(a) && ForeignKeys(b) && t !in Enqueued(a, b)
    ensures InputsOf(a, t) == InputsOf(b, t)
  {
    Unchanged(a.transactions, b.transactions, t);
    if t in b.transactions {
      NothingChanged(a.accounts, b.accounts);
      NothingChanged(a.rules, b.rules);
      SamePostingTable(a, b, t);
      SameFirsts(a.exclusions, b.exclusions, t);
      SameKept(a, b, t);
      SameFirsts(a.mergeDuplicates, b.mergeDuplicates, t);
      SameLinks(a, b, t);
    }
  }
}
