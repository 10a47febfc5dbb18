/**
 * What an open unit of work sees once another one commits: its own uncommitted changes over the newly committed rows
 * (the engine's read-committed level, which every session here runs at).
 */
module Rebase {
  import opened Frame
  import opened Tables
  import opened Footprint

  function At<K, V>(table: map<K, V>, k: K): Option<V> {
    if k in table then Some(table[k]) else None
  }

  /** The rows of `view` where it differs from `from`, the rows of `to` elsewhere. */
  function CarryMap<K, V(==)>(to: map<K, V>, from: map<K, V>, view: map<K, V>): map<K, V> {
    map k | k in to.Keys + view.Keys && (if At(from, k) == At(view, k) then k in to else k in view)
      :: if At(from, k) == At(view, k) then to[k] else view[k]
  }

  function CarrySet<P>(to: set<P>, from: set<P>, view: set<P>): set<P> {
    (to - (from - view)) + (view - from)
  }

  /** A unit of work that changed `from` into `view` sees this once `to` is what is committed. */
  function Rebased(to: Tables, from: Tables, view: Tables): Tables {
    Tables(
      CarryMap(to.transactions, from.transactions, view.transactions),
      CarryMap(to.postings, from.postings, view.postings),
      CarrySet(to.postingTags, from.postingTags, view.postingTags),
      CarryMap(to.overrides, from.overrides, view.overrides),
      CarrySet(to.overrideTags, from.overrideTags, view.overrideTags),
      CarrySet(to.splits, from.splits, view.splits),
      CarryMap(to.splitLegs, from.splitLegs, view.splitLegs),
      CarryMap(to.suggestions, from.suggestions, view.suggestions),
      CarrySet(to.exclusions, from.exclusions, view.exclusions),
      CarryMap(to.merges, from.merges, view.merges),
      CarrySet(to.mergeDuplicates, from.mergeDuplicates, view.mergeDuplicates),
      CarryMap(to.links, from.links, view.links),
      CarrySet(to.linkMembers, from.linkMembers, view.linkMembers),
      CarryMap(to.tags, from.tags, view.tags),
      CarryMap(to.accounts, from.accounts, view.accounts),
      CarryMap(to.categories, from.categories, view.categories),
      CarryMap(to.rules, from.rules, view.rules))
  }

  lemma CarryAt<K, V>(to: map<K, V>, from: map<K, V>, view: map<K, V>, k: K)
    ensures At(CarryMap(to, from, view), k) == if At(from, k) == At(view, k) then At(to, k) else At(view, k)
  {
  }

  lemma CarryIn<P>(to: set<P>, from: set<P>, view: set<P>, p: P)
    ensures p in CarrySet(to, from, view) <==> if p in from <==> p in view then p in to else p in view
  {
  }

  lemma SameAt<K, V>(x: map<K, V>, y: map<K, V>)
    requires forall k :: At(x, k) == At(y, k)
    ensures x == y
  {
    forall k ensures (k in x <==> k in y) && (k in x ==> x[k] == y[k]) {
      assert At(x, k) == At(y, k);
    }
  }

  lemma CarryUntouched<K, V>(to: map<K, V>, from: map<K, V>)
    ensures CarryMap(to, from, from) == to
  {
    forall k ensures At(CarryMap(to, from, from), k) == At(to, k) {
      CarryAt(to, from, from, k);
    }
    SameAt(CarryMap(to, from, from), to);
  }

  lemma CarrySeconds<A, B>(to: set<(A, B)>, from: set<(A, B)>, view: set<(A, B)>, a: A)
    requires SecondsAt(to, a) == SecondsAt(from, a) == SecondsAt(view, a)
    ensures SecondsAt(CarrySet(to, from, view), a) == SecondsAt(to, a)
  {
    forall b ensures b in SecondsAt(CarrySet(to, from, view), a) <==> b in SecondsAt(to, a) {
      InSecondsAt(to, a, b);
      InSecondsAt(from, a, b);
      InSecondsAt(view, a, b);
      InSecondsAt(CarrySet(to, from, view), a, b);
    }
  }

  lemma CarryFirsts<A, B>(to: set<(A, B)>, from: set<(A, B)>, view: set<(A, B)>, b: B)
    requires FirstsAt(to, b) == FirstsAt(from, b) == FirstsAt(view, b)
    ensures FirstsAt(CarrySet(to, from, view), b) == FirstsAt(to, b)
  {
    forall a ensures a in FirstsAt(CarrySet(to, from, view), b) <==> a in FirstsAt(to, b) {
      InSecondsAt(to, a, b);
      InSecondsAt(from, a, b);
      InSecondsAt(view, a, b);
      InSecondsAt(CarrySet(to, from, view), a, b);
    }
  }

  // ---------- one posting's inputs ----------

  lemma CarryLegs(to: Tables, from: Tables, view: Tables, p: string)
    requires LegTable(to, p) == LegTable(from, p) == LegTable(view, p)
    ensures LegTable(Rebased(to, from, view), p) == LegTable(to, p)
  {
    var now := Rebased(to, from, view);
    forall n ensures At(LegTable(now, p), n) == At(LegTable(to, p), n) {
      InLegTable(to, p, n);
      InLegTable(from, p, n);
      InLegTable(view, p, n);
      InLegTable(now, p, n);
      CarryAt(to.splitLegs, from.splitLegs, view.splitLegs, (p, n));
    }
    SameAt(LegTable(now, p), LegTable(to, p));
  }

  lemma InPending(tb: Tables, p: string, s: string)
    ensures At(PendingTable(tb, p), s) == match At(tb.suggestions, s)
      case Some(rec) => if rec.pending && rec.posting == Some(p) then Some(rec) else None
      case None => None
  {
  }

  lemma CarryPending(to: Tables, from: Tables, view: Tables, p: string)
    requires PendingTable(to, p) == PendingTable(from, p) == PendingTable(view, p)
    ensures PendingTable(Rebased(to, from, view), p) == PendingTable(to, p)
  {
    var now := Rebased(to, from, view);
    forall s ensures At(PendingTable(now, p), s) == At(PendingTable(to, p), s) {
      InPending(to, p, s);
      InPending(from, p, s);
      InPending(view, p, s);
      InPending(now, p, s);
      CarryAt(to.suggestions, from.suggestions, view.suggestions, s);
    }
    SameAt(PendingTable(now, p), PendingTable(to, p));
  }

  lemma CarryCategory(to: Tables, from: Tables, view: Tables, key: Option<string>)
    requires CategoryOf(to, key) == CategoryOf(from, key) == CategoryOf(view, key)
    ensures CategoryOf(Rebased(to, from, view), key) == CategoryOf(to, key)
  {
    if key.Some? {
      CarryAt(to.categories, from.categories, view.categories, key.value);
    }
  }

  lemma CarryLookup<V>(to: map<string, V>, from: map<string, V>, view: map<string, V>, k: string)
    requires Lookup(to, k) == Lookup(from, k) == Lookup(view, k)
    ensures Lookup(CarryMap(to, from, view), k) == Lookup(to, k)
  {
    CarryAt(to, from, view, k);
  }

  /** A posting that reads alike in all three states still reads so. */
  lemma CarryPosting(to: Tables, from: Tables, view: Tables, p: string)
    requires p in to.postings && p in from.postings && p in view.postings
    requires PostingInputsOf(to, p) == PostingInputsOf(from, p) == PostingInputsOf(view, p)
    ensures p in Rebased(to, from, view).postings
    ensures PostingInputsOf(Rebased(to, from, view), p) == PostingInputsOf(to, p)
  {
    CarryAt(to.postings, from.postings, view.postings, p);
    CarrySeconds(to.postingTags, from.postingTags, view.postingTags, p);
    CarryCategory(to, from, view, to.postings[p].category);
    CarryCategory(to, from, view, to.postings[p].subcategory);
    CarryLookup(to.overrides, from.overrides, view.overrides, p);
    CarrySeconds(to.overrideTags, from.overrideTags, view.overrideTags, p);
    CarryIn(to.splits, from.splits, view.splits, p);
    CarryLegs(to, from, view, p);
    CarryPending(to, from, view, p);
  }

  // ---------- one transaction's inputs ----------

  lemma InPostings(tb: Tables, t: TransactionId, p: string)
    ensures p in PostingsOf(tb, t) <==> p in tb.postings && tb.postings[p].transaction == t
    ensures p in PostingsOf(tb, t) ==> PostingsOf(tb, t)[p] == PostingInputsOf(tb, p)
  {
  }

  lemma CarryPostingAt(to: Tables, from: Tables, view: Tables, t: TransactionId, p: string)
    requires PostingsOf(to, t) == PostingsOf(from, t) == PostingsOf(view, t)
    ensures At(PostingsOf(Rebased(to, from, view), t), p) == At(PostingsOf(to, t), p)
  {
    var now := Rebased(to, from, view);
    InPostings(to, t, p);
    InPostings(from, t, p);
    InPostings(view, t, p);
    InPostings(now, t, p);
    if p in PostingsOf(to, t) {
      CarryPosting(to, from, view, p);
    } else {
      CarryAt(to.postings, from.postings, view.postings, p);
    }
  }

  lemma CarryPostings(to: Tables, from: Tables, view: Tables, t: TransactionId)
    requires PostingsOf(to, t) == PostingsOf(from, t) == PostingsOf(view, t)
    ensures PostingsOf(Rebased(to, from, view), t) == PostingsOf(to, t)
  {
    var x, y := PostingsOf(Rebased(to, from, view), t), PostingsOf(to, t);
    forall p ensures At(x, p) == At(y, p) {
      CarryPostingAt(to, from, view, t, p);
    }
    SameAt(x, y);
  }

  lemma InKept(tb: Tables, t: TransactionId, m: string)
    ensures At(KeptBy(tb, t), m) == match At(tb.merges, m)
      case Some(rec) => if rec.kept == t then Some(rec) else None
      case None => None
  {
  }

  lemma CarryKept(to: Tables, from: Tables, view: Tables, t: TransactionId)
    requires KeptBy(to, t) == KeptBy(from, t) == KeptBy(view, t)
    ensures KeptBy(Rebased(to, from, view), t) == KeptBy(to, t)
  {
    var now := Rebased(to, from, view);
    forall m ensures At(KeptBy(now, t), m) == At(KeptBy(to, t), m) {
      InKept(to, t, m);
      InKept(from, t, m);
      InKept(view, t, m);
      InKept(now, t, m);
      CarryAt(to.merges, from.merges, view.merges, m);
    }
    SameAt(KeptBy(now, t), KeptBy(to, t));
  }

  lemma InLinks(tb: Tables, t: TransactionId, l: string)
    requires ForeignKeys(tb)
    ensures At(LinksOf(tb, t), l) == if (l, t) in tb.linkMembers then At(tb.links, l) else None
    ensures (l, t) in tb.linkMembers ==> l in tb.links
  {
    assert (l, t) in tb.linkMembers ==> (l, t).0 in tb.links;
  }

  lemma CarryLinkAt(to: Tables, from: Tables, view: Tables, t: TransactionId, l: string)
    requires ForeignKeys(to) && ForeignKeys(from) && ForeignKeys(view)
    requires LinksOf(to, t) == LinksOf(from, t) == LinksOf(view, t)
    ensures At(LinksOf(Rebased(to, from, view), t), l) == At(LinksOf(to, t), l)
  {
    InLinks(to, t, l);
    InLinks(from, t, l);
    InLinks(view, t, l);
    CarryAt(to.links, from.links, view.links, l);
    CarryIn(to.linkMembers, from.linkMembers, view.linkMembers, (l, t));
  }

  lemma CarryLinks(to: Tables, from: Tables, view: Tables, t: TransactionId)
    requires ForeignKeys(to) && ForeignKeys(from) && ForeignKeys(view)
    requires LinksOf(to, t) == LinksOf(from, t) == LinksOf(view, t)
    ensures LinksOf(Rebased(to, from, view), t) == LinksOf(to, t)
  {
    var x, y := LinksOf(Rebased(to, from, view), t), LinksOf(to, t);
    forall l ensures At(x, l) == At(y, l) {
      CarryLinkAt(to, from, view, t, l);
    }
    SameAt(x, y);
  }

  /** A transaction neither unit of work touched reads the same with both their changes in. */
  lemma UntouchedByEither(to: Tables, from: Tables, view: Tables, t: TransactionId)
    requires ForeignKeys(to) && ForeignKeys(from) && ForeignKeys(view)
    requires InputsOf(to, t) == InputsOf(from, t) == InputsOf(view, t)
    ensures InputsOf(Rebased(to, from, view), t) == InputsOf(to, t)
  {
    CarryAt(to.transactions, from.transactions, view.transactions, t);
    if t in to.transactions {
      CarryUntouched(to.rules, from.rules);
      CarryUntouched(to.accounts, from.accounts);
      CarryPostings(to, from, view, t);
      CarryFirsts(to.exclusions, from.exclusions, view.exclusions, t);
      CarryKept(to, from, view, t);
      CarryFirsts(to.mergeDuplicates, from.mergeDuplicates, view.mergeDuplicates, t);
      CarryLinks(to, from, view, t);
    }
  }
}
