/**
 * What importing by counting promises, over any ledger, batch or sequence of files (accounting/importers/ingest.py).
 */
module ImportLaws {
  import opened Importing

  // ---------- what a ledger and a batch look like ----------

  /** Every id hash stands for one fingerprint: a real leg carries it, a balancing leg cancels its amount. */
  ghost predicate Stamped(rows: seq<ImportRow>, facts: string -> Fingerprint) {
    forall k :: 0 <= k < |rows| ==> StampedRow(rows[k], facts)
  }

  predicate StampedRow(row: ImportRow, facts: string -> Fingerprint) {
    if row.leg == Real then row.mark == facts(row.id.base) else row.mark.amount == -facts(row.id.base).amount
  }

  predicate OneRowPerPosting(rows: seq<ImportRow>) {
    forall i, j :: 0 <= i < j < |rows| ==> !SameKey(rows[i], rows[j])
  }

  predicate HasLeg(rows: seq<ImportRow>, id: ImportId, leg: LegKind) {
    exists k :: 0 <= k < |rows| && rows[k].id == id && rows[k].leg == leg
  }

  predicate BothLegs(rows: seq<ImportRow>) {
    forall k :: 0 <= k < |rows| ==> HasLeg(rows, rows[k].id, Real) && HasLeg(rows, rows[k].id, Balancing)
  }

  /** The copies sharing a fingerprint are numbered 0, 2, 3, … */
  function Slot(k: nat): nat {
    if k == 0 then 0 else k + 1
  }

  predicate Numbered(ids: seq<ImportId>) {
    forall k :: 0 <= k < |ids| ==> ids[k].copy == Slot(k)
  }

  ghost predicate Ledger(rows: seq<ImportRow>, facts: string -> Fingerprint) {
    && Stamped(rows, facts)
    && OneRowPerPosting(rows)
    && BothLegs(rows)
    && (forall f :: Numbered(ExistingIds(rows, f)))
  }

  ghost predicate CollisionFree(facts: string -> Fingerprint, hash: Fingerprint -> string) {
    forall f :: facts(hash(f)) == f
  }

  predicate HashedRow(row: ImportRow, hash: Fingerprint -> string) {
    row.leg == Real ==> row.id == ImportId(hash(row.mark), 0)
  }

  /** A parsed file: plain hashed ids, and as many balancing legs as real ones for each. */
  ghost predicate Batch(rows: seq<ImportRow>, facts: string -> Fingerprint, hash: Fingerprint -> string) {
    && Stamped(rows, facts)
    && (forall k :: 0 <= k < |rows| ==> HashedRow(rows[k], hash))
    && (forall id :: |IndexesOf(rows, id, Real)| == |IndexesOf(rows, id, Balancing)|)
  }

  /** How many transactions look like a fingerprint. */
  function LookAlikes(rows: seq<ImportRow>, f: Fingerprint): nat {
    |RealIds(rows, f)|
  }

  function Max(a: nat, b: nat): nat {
    if a < b then b else a
  }

  /** The ids of `m` look-alikes: the ones already there, then fresh copies of the plain hash. */
  function Extend(ids: seq<ImportId>, base: string, m: nat): (extended: seq<ImportId>)
    ensures |extended| == Max(|ids|, m)
    ensures ids <= extended
    ensures forall k :: |ids| <= k < m ==> extended[k] == FinalId(ids, ImportId(base, 0), k)
  {
    ids + seq(Max(|ids|, m) - |ids|, i requires 0 <= i => FinalId(ids, ImportId(base, 0), |ids| + i))
  }

  // ---------- sorting ids by copy ----------

  ghost predicate Rising(ids: seq<ImportId>) {
    forall i, j :: 0 <= i < j < |ids| ==> ids[i].copy < ids[j].copy
  }

  ghost predicate Distinct<T>(s: seq<T>) {
    forall i, j :: 0 <= i < j < |s| ==> s[i] != s[j]
  }

  lemma {:induction false} SortKeepsMembers(ids: seq<ImportId>)
    ensures |SortByCopy(ids)| == |ids|
    ensures forall id :: id in SortByCopy(ids) <==> id in ids
  {
    if ids != [] {
      SortKeepsMembers(ids[1..]);
      InsertKeepsMembers(ids[0], SortByCopy(ids[1..]));
    }
  }

  lemma {:induction false} InsertKeepsMembers(id: ImportId, ids: seq<ImportId>)
    ensures |InsertByCopy(id, ids)| == |ids| + 1
    ensures forall other :: other in InsertByCopy(id, ids) <==> other == id || other in ids
  {
    if ids != [] && !(id.copy <= ids[0].copy) {
      InsertKeepsMembers(id, ids[1..]);
    }
  }

  lemma {:induction false} InsertBack(s: seq<ImportId>, p: nat)
    requires Rising(s) && p < |s|
    ensures InsertByCopy(s[p], s[..p] + s[p + 1..]) == s
  {
    var rest := s[..p] + s[p + 1..];
    if p == 0 {
      assert s == [s[0]] + s[1..];
      assert rest == s[1..];
    } else {
      InsertBack(s[1..], p - 1);
      assert rest[1..] == s[1..][..p - 1] + s[1..][p..];
    }
  }

  lemma EmptyOrInhabited(s: seq<ImportId>)
    ensures s == [] || exists id :: id in s
  {
    if s != [] {
      assert s[0] in s;
    }
  }

  lemma {:induction false} SortIs(ids: seq<ImportId>, s: seq<ImportId>)
    requires Distinct(ids) && Rising(s)
    requires forall id :: id in ids <==> id in s
    ensures SortByCopy(ids) == s
  {
    if ids == [] {
      EmptyOrInhabited(s);
    } else {
      assert ids[0] in s;
      var p :| 0 <= p < |s| && s[p] == ids[0];
      var rest := s[..p] + s[p + 1..];
      forall id ensures id in ids[1..] <==> id in rest {
        assert id in rest <==> id in s && id != s[p];
        assert id in ids[1..] <==> id in ids && id != ids[0];
      }
      SortIs(ids[1..], rest);
      InsertBack(s, p);
    }
  }

  lemma NumberedRises(ids: seq<ImportId>)
    requires Numbered(ids)
    ensures Rising(ids) && Distinct(ids)
  {
  }

  // ---------- which ids carry a fingerprint ----------

  ghost predicate Carries(rows: seq<ImportRow>, f: Fingerprint, id: ImportId) {
    exists k :: 0 <= k < |rows| && rows[k].leg == Real && rows[k].mark == f && rows[k].id == id
  }

  lemma {:induction false} RealIdsCarry(rows: seq<ImportRow>, f: Fingerprint)
    ensures forall id :: id in RealIds(rows, f) <==> Carries(rows, f, id)
  {
    if rows != [] {
      var n := |rows| - 1;
      RealIdsCarry(rows[..n], f);
      forall id ensures id in RealIds(rows, f) <==> Carries(rows, f, id) {
        assert Carries(rows, f, id) <==>
               (Carries(rows[..n], f, id) || (rows[n].leg == Real && rows[n].mark == f && rows[n].id == id));
      }
    }
  }

  lemma {:induction false} RealIdsDistinct(rows: seq<ImportRow>, f: Fingerprint)
    requires OneRowPerPosting(rows)
    ensures Distinct(RealIds(rows, f))
  {
    if rows != [] {
      var n := |rows| - 1;
      var front := RealIds(rows[..n], f);
      RealIdsDistinct(rows[..n], f);
      RealIdsCarry(rows[..n], f);
      forall i | 0 <= i < |front| ensures rows[n].leg == Real ==> front[i] != rows[n].id {
        assert front[i] in front;
        var k :| 0 <= k < n && rows[k].leg == Real && rows[k].mark == f && rows[k].id == front[i];
        assert !SameKey(rows[k], rows[n]);
      }
    }
  }

  lemma ExistingIdsCarry(rows: seq<ImportRow>, f: Fingerprint)
    ensures |ExistingIds(rows, f)| == LookAlikes(rows, f)
    ensures forall id :: id in ExistingIds(rows, f) <==> Carries(rows, f, id)
  {
    SortKeepsMembers(RealIds(rows, f));
    RealIdsCarry(rows, f);
  }

  // ---------- keeping the last row of each posting ----------

  lemma SameKeySame(rows: seq<ImportRow>, a: ImportRow, b: ImportRow)
    requires SameKey(a, b) && HasKey(rows, a)
    ensures HasKey(rows, b)
  {
    var k :| 0 <= k < |rows| && SameKey(rows[k], a);
    assert SameKey(rows[k], b);
  }

  lemma HasKeyCons(first: ImportRow, rest: seq<ImportRow>, row: ImportRow)
    ensures HasKey([first] + rest, row) <==> SameKey(first, row) || HasKey(rest, row)
  {
    HasKeySplits([first], rest, row);
    assert SameKey([first][0], row) <==> SameKey(first, row);
  }

  lemma {:induction false} KeepLastKeys(rows: seq<ImportRow>, row: ImportRow)
    ensures HasKey(KeepLast(rows), row) <==> HasKey(rows, row)
  {
    if rows != [] {
      var first, rest := rows[0], rows[1..];
      assert rows == [first] + rest;
      KeepLastKeys(rest, row);
      HasKeyCons(first, rest, row);
      if HasKey(rest, first) {
        if SameKey(first, row) {
          SameKeySame(rest, first, row);
        }
      } else {
        HasKeyCons(first, KeepLast(rest), row);
      }
    }
  }

  lemma {:induction false} KeepLastMembers(rows: seq<ImportRow>, row: ImportRow)
    requires row in KeepLast(rows)
    ensures row in rows
  {
    if row != rows[0] || HasKey(rows[1..], rows[0]) {
      KeepLastMembers(rows[1..], row);
    }
  }

  lemma {:induction false} KeepLastUnique(rows: seq<ImportRow>)
    ensures OneRowPerPosting(KeepLast(rows))
  {
    if rows != [] {
      var first, kept := rows[0], KeepLast(rows[1..]);
      KeepLastUnique(rows[1..]);
      KeepLastKeys(rows[1..], first);
      assert forall k :: 0 <= k < |kept| && SameKey(kept[k], first) ==> HasKey(kept, first);
      assert forall k :: 0 <= k < |kept| ==> (SameKey(first, kept[k]) <==> SameKey(kept[k], first));
    }
  }

  lemma KeepLastIsASelection(rows: seq<ImportRow>)
    ensures OneRowPerPosting(KeepLast(rows))
    ensures forall row :: row in KeepLast(rows) ==> row in rows
    ensures forall row :: HasKey(KeepLast(rows), row) <==> HasKey(rows, row)
  {
    KeepLastUnique(rows);
    forall row | row in KeepLast(rows) ensures row in rows {
      KeepLastMembers(rows, row);
    }
    forall row ensures HasKey(KeepLast(rows), row) <==> HasKey(rows, row) {
      KeepLastKeys(rows, row);
    }
  }

  lemma HasKeySplits(a: seq<ImportRow>, b: seq<ImportRow>, row: ImportRow)
    ensures HasKey(a + b, row) <==> HasKey(a, row) || HasKey(b, row)
  {
    if HasKey(a, row) {
      var k :| 0 <= k < |a| && SameKey(a[k], row);
      assert SameKey((a + b)[k], row);
    }
    if HasKey(b, row) {
      var k :| 0 <= k < |b| && SameKey(b[k], row);
      assert SameKey((a + b)[|a| + k], row);
    }
  }

  /** The rows no later row replaces. */
  function Without(rows: seq<ImportRow>, later: seq<ImportRow>): seq<ImportRow> {
    if rows == [] then []
    else (if HasKey(later, rows[0]) then [] else [rows[0]]) + Without(rows[1..], later)
  }

  lemma WithoutCons(first: ImportRow, rest: seq<ImportRow>, later: seq<ImportRow>)
    ensures Without([first] + rest, later) == (if HasKey(later, first) then [] else [first]) + Without(rest, later)
  {
    assert ([first] + rest)[1..] == rest;
  }

  lemma KeepLastCons(first: ImportRow, rest: seq<ImportRow>)
    ensures KeepLast([first] + rest) == (if HasKey(rest, first) then [] else [first]) + KeepLast(rest)
  {
    assert ([first] + rest)[1..] == rest;
  }

  lemma Regroup<T>(a: seq<T>, b: seq<T>, c: seq<T>)
    ensures (a + b) + c == a + (b + c)
    ensures [] + a == a
  {
  }

  lemma {:induction false} KeepLastConcat(a: seq<ImportRow>, b: seq<ImportRow>)
    ensures KeepLast(a + b) == Without(KeepLast(a), b) + KeepLast(b)
  {
    if a == [] {
      assert a + b == b;
    } else {
      var first, rest := a[0], a[1..];
      var replaced, kept := Without(KeepLast(rest), b), KeepLast(b);
      KeepLastConcat(rest, b);
      assert a == [first] + rest;
      Regroup([first], rest, b);
      KeepLastCons(first, rest);
      KeepLastCons(first, rest + b);
      HasKeySplits(rest, b, first);
      WithoutCons(first, KeepLast(rest), b);
      Regroup([first], replaced, kept);
      Regroup(KeepLast(rest), [], []);
      Regroup(replaced, [], []);
      Regroup(KeepLast(rest + b), [], []);
    }
  }

  lemma {:induction false} WithoutConcat(a: seq<ImportRow>, b: seq<ImportRow>, later: seq<ImportRow>)
    ensures Without(a + b, later) == Without(a, later) + Without(b, later)
  {
    if a == [] {
      assert a + b == b;
    } else {
      var first, rest := a[0], a[1..];
      WithoutConcat(rest, b, later);
      assert a == [first] + rest;
      Regroup([first], rest, b);
      WithoutCons(first, rest, later);
      WithoutCons(first, rest + b, later);
      Regroup([first], Without(rest, later), Without(b, later));
      Regroup(Without(rest, later), [], []);
      Regroup(Without(rest + b, later), [], []);
    }
  }

  lemma {:induction false} WithoutTwice(a: seq<ImportRow>, later: seq<ImportRow>)
    ensures Without(Without(a, later), later) == Without(a, later)
  {
    if a != [] {
      WithoutTwice(a[1..], later);
      if !HasKey(later, a[0]) {
        assert Without(a, later)[1..] == Without(a[1..], later);
      } else {
        assert Without(a, later) == Without(a[1..], later);
      }
    }
  }

  lemma {:induction false} WithoutAll(a: seq<ImportRow>, later: seq<ImportRow>)
    requires forall row :: row in a ==> HasKey(later, row)
    ensures Without(a, later) == []
  {
    if a != [] {
      assert a[0] in a;
      WithoutAll(a[1..], later);
    }
  }

  lemma {:induction false} KeepLastIdle(rows: seq<ImportRow>)
    requires OneRowPerPosting(rows)
    ensures KeepLast(rows) == rows
  {
    if rows != [] {
      KeepLastIdle(rows[1..]);
    }
  }

  lemma KeptHasKey(b: seq<ImportRow>)
    ensures Without(KeepLast(b), b) == []
  {
    forall row | row in KeepLast(b) ensures HasKey(b, row) {
      KeepLastMembers(b, row);
      var k :| 0 <= k < |b| && b[k] == row;
      assert SameKey(b[k], row);
    }
    WithoutAll(KeepLast(b), b);
  }

  /** Writing the same rows a second time changes nothing at all. */
  lemma KeepLastAgain(a: seq<ImportRow>, b: seq<ImportRow>)
    ensures KeepLast(KeepLast(a + b) + b) == KeepLast(a + b)
  {
    var old_, once := Without(KeepLast(a), b), KeepLast(a + b);
    KeepLastConcat(a, b);
    KeepLastConcat(once, b);
    KeepLastUnique(a + b);
    KeepLastIdle(once);
    assert Without(once, b) == old_ by {
      WithoutConcat(old_, KeepLast(b), b);
      WithoutTwice(KeepLast(a), b);
      KeptHasKey(b);
    }
  }

  // ---------- a batch's ids after reassignment ----------

  lemma {:induction false} BatchCounts(rows: seq<ImportRow>, facts: string -> Fingerprint,
                                       hash: Fingerprint -> string, f: Fingerprint)
    requires CollisionFree(facts, hash) && Stamped(rows, facts)
    requires forall k :: 0 <= k < |rows| ==> HashedRow(rows[k], hash)
    ensures |IndexesOf(rows, ImportId(hash(f), 0), Real)| == LookAlikes(rows, f)
  {
    if rows != [] {
      var n := |rows| - 1;
      BatchCounts(rows[..n], facts, hash, f);
      assert StampedRow(rows[n], facts) && HashedRow(rows[n], hash);
      assert facts(hash(f)) == f;
    }
  }

  /** The real leg a reassigned row belongs to: same original id, same place in the count. */
  lemma ReassignedFinalId(existing: seq<ImportRow>, rows: seq<ImportRow>, facts: string -> Fingerprint,
                          hash: Fingerprint -> string, k: nat)
    requires CollisionFree(facts, hash) && Batch(rows, facts, hash) && k < |rows|
    ensures var f := facts(rows[k].id.base);
      && rows[k].id == ImportId(hash(f), 0)
      && Occurrence(rows, k) < LookAlikes(rows, f)
      && ReassignedRow(existing, rows, k)
         == rows[k].(id := FinalId(ExistingIds(existing, f), rows[k].id, Occurrence(rows, k)))
  {
    var id := rows[k].id;
    PositionsAreIndexes(rows, k);
    assert |IndexesOf(rows, id, Real)| == |IndexesOf(rows, id, Balancing)|;
    IndexesArePositions(rows, id, Real, 0);
    var first := IndexesOf(rows, id, Real)[0];
    assert StampedRow(rows[first], facts) && HashedRow(rows[first], hash);
    BatchCounts(rows, facts, hash, rows[first].mark);
  }

  lemma FinalIdStands(existing: seq<ImportRow>, facts: string -> Fingerprint, hash: Fingerprint -> string,
                      f: Fingerprint, occurrence: nat)
    requires CollisionFree(facts, hash) && Stamped(existing, facts)
    ensures facts(FinalId(ExistingIds(existing, f), ImportId(hash(f), 0), occurrence).base) == f
  {
    ExistingIdsCarry(existing, f);
    var ids := ExistingIds(existing, f);
    assert facts(hash(f)) == f;
    if occurrence < |ids| {
      assert ids[occurrence] in ids;
      var k :| 0 <= k < |existing| && existing[k].leg == Real && existing[k].mark == f
        && existing[k].id == ids[occurrence];
      assert StampedRow(existing[k], facts);
    }
  }

  lemma ReassignedStamped(existing: seq<ImportRow>, rows: seq<ImportRow>, facts: string -> Fingerprint,
                          hash: Fingerprint -> string)
    requires CollisionFree(facts, hash) && Batch(rows, facts, hash) && Stamped(existing, facts)
    ensures Stamped(Reassigned(existing, rows), facts)
  {
    forall k | 0 <= k < |rows| ensures StampedRow(Reassigned(existing, rows)[k], facts) {
      assert StampedRow(rows[k], facts);
      ReassignedFinalId(existing, rows, facts, hash, k);
      FinalIdStands(existing, facts, hash, facts(rows[k].id.base), Occurrence(rows, k));
    }
  }

  ghost predicate IsFinalId(ids: seq<ImportId>, original: ImportId, m: nat, id: ImportId) {
    exists occurrence: nat :: occurrence < m && id == FinalId(ids, original, occurrence)
  }

  lemma ReassignedCarries(existing: seq<ImportRow>, rows: seq<ImportRow>, facts: string -> Fingerprint,
                          hash: Fingerprint -> string, f: Fingerprint, id: ImportId)
    requires CollisionFree(facts, hash) && Batch(rows, facts, hash) && Stamped(existing, facts)
    ensures Carries(Reassigned(existing, rows), f, id)
            <==> IsFinalId(ExistingIds(existing, f), ImportId(hash(f), 0), LookAlikes(rows, f), id)
  {
    var out := Reassigned(existing, rows);
    var ids := ExistingIds(existing, f);
    var original := ImportId(hash(f), 0);
    if Carries(out, f, id) {
      var k :| 0 <= k < |out| && out[k].leg == Real && out[k].mark == f && out[k].id == id;
      assert StampedRow(rows[k], facts);
      ReassignedFinalId(existing, rows, facts, hash, k);
      assert id == FinalId(ids, original, Occurrence(rows, k));
    }
    if IsFinalId(ids, original, LookAlikes(rows, f), id) {
      var occurrence: nat :| occurrence < LookAlikes(rows, f) && id == FinalId(ids, original, occurrence);
      BatchCounts(rows, facts, hash, f);
      IndexesArePositions(rows, original, Real, occurrence);
      var k := IndexesOf(rows, original, Real)[occurrence];
      assert StampedRow(rows[k], facts);
      ReassignedFinalId(existing, rows, facts, hash, k);
      assert out[k].id == id;
    }
  }

  // ---------- one merge ----------

  lemma StampedKeysCarry(rows: seq<ImportRow>, facts: string -> Fingerprint, f: Fingerprint, id: ImportId)
    requires Stamped(rows, facts)
    ensures Carries(KeepLast(rows), f, id) <==> Carries(rows, f, id)
    ensures Stamped(KeepLast(rows), facts)
  {
    var kept := KeepLast(rows);
    KeepLastIsASelection(rows);
    forall k | 0 <= k < |kept| ensures StampedRow(kept[k], facts) {
      assert kept[k] in rows;
    }
    if Carries(rows, f, id) {
      var k :| 0 <= k < |rows| && rows[k].leg == Real && rows[k].mark == f && rows[k].id == id;
      assert SameKey(rows[k], rows[k]) && StampedRow(rows[k], facts);
      assert HasKey(kept, rows[k]);
      var j :| 0 <= j < |kept| && SameKey(kept[j], rows[k]);
      assert StampedRow(kept[j], facts);
    }
    if Carries(kept, f, id) {
      var k :| 0 <= k < |kept| && kept[k].leg == Real && kept[k].mark == f && kept[k].id == id;
      assert kept[k] in rows;
    }
  }

  lemma StampedConcat(a: seq<ImportRow>, b: seq<ImportRow>, facts: string -> Fingerprint)
    requires Stamped(a, facts) && Stamped(b, facts)
    ensures Stamped(a + b, facts)
  {
  }

  lemma CarriesConcat(a: seq<ImportRow>, b: seq<ImportRow>, f: Fingerprint, id: ImportId)
    ensures Carries(a + b, f, id) <==> Carries(a, f, id) || Carries(b, f, id)
  {
    if Carries(a, f, id) {
      var k :| 0 <= k < |a| && a[k].leg == Real && a[k].mark == f && a[k].id == id;
      assert (a + b)[k] == a[k];
    }
    if Carries(b, f, id) {
      var k :| 0 <= k < |b| && b[k].leg == Real && b[k].mark == f && b[k].id == id;
      assert (a + b)[|a| + k] == b[k];
    }
  }

  lemma ExtendMembers(ids: seq<ImportId>, base: string, m: nat, id: ImportId)
    ensures id in Extend(ids, base, m) <==> id in ids || IsFinalId(ids, ImportId(base, 0), m, id)
  {
    var extended := Extend(ids, base, m);
    if id in extended {
      var k :| 0 <= k < |extended| && extended[k] == id;
      if k < |ids| {
        assert ids[k] == extended[k];
      } else {
        assert id == FinalId(ids, ImportId(base, 0), k);
      }
    }
    if IsFinalId(ids, ImportId(base, 0), m, id) {
      var k: nat :| k < m && id == FinalId(ids, ImportId(base, 0), k);
      assert k < |ids| || id == extended[k];
    }
    if id in ids {
      var k :| 0 <= k < |ids| && ids[k] == id;
      assert extended[k] == id;
    }
  }

  /** After a merge, each fingerprint keeps the ids it had, in their order, and gains just enough numbered copies. */
  lemma MergeExtendsIds(existing: seq<ImportRow>, rows: seq<ImportRow>, facts: string -> Fingerprint,
                        hash: Fingerprint -> string, f: Fingerprint)
    requires CollisionFree(facts, hash) && Ledger(existing, facts) && Batch(rows, facts, hash)
    ensures ExistingIds(MergeLedger(existing, rows), f)
         == Extend(ExistingIds(existing, f), hash(f), LookAlikes(rows, f))
    ensures Numbered(ExistingIds(MergeLedger(existing, rows), f))
  {
    var ids := ExistingIds(existing, f);
    var extended := Extend(ids, hash(f), LookAlikes(rows, f));
    var all := existing + Reassigned(existing, rows);
    var merged := KeepLast(all);
    assert Numbered(ids);
    assert Numbered(extended) by {
      forall k | 0 <= k < |extended| ensures extended[k].copy == Slot(k) {
        if k < |ids| {
          assert extended[k] == ids[k];
        }
      }
    }
    NumberedRises(extended);
    KeepLastIsASelection(all);
    RealIdsDistinct(merged, f);
    ReassignedStamped(existing, rows, facts, hash);
    StampedConcat(existing, Reassigned(existing, rows), facts);
    RealIdsCarry(merged, f);
    ExistingIdsCarry(existing, f);
    forall id ensures id in RealIds(merged, f) <==> id in extended {
      StampedKeysCarry(all, facts, f, id);
      CarriesConcat(existing, Reassigned(existing, rows), f, id);
      ReassignedCarries(existing, rows, facts, hash, f, id);
      ExtendMembers(ids, hash(f), LookAlikes(rows, f), id);
    }
    SortIs(RealIds(merged, f), extended);
  }

  /** The counting law: the look-alikes after a merge are the larger of the two counts. */
  lemma MergeCountsTheMaximum(existing: seq<ImportRow>, rows: seq<ImportRow>, facts: string -> Fingerprint,
                              hash: Fingerprint -> string, f: Fingerprint)
    requires CollisionFree(facts, hash) && Ledger(existing, facts) && Batch(rows, facts, hash)
    ensures LookAlikes(MergeLedger(existing, rows), f) == Max(LookAlikes(existing, f), LookAlikes(rows, f))
  {
    MergeExtendsIds(existing, rows, facts, hash, f);
    ExistingIdsCarry(existing, f);
    ExistingIdsCarry(MergeLedger(existing, rows), f);
  }

  lemma LegFromKey(rows: seq<ImportRow>, id: ImportId, leg: LegKind, row: ImportRow)
    requires row.id == id && row.leg == leg
    ensures HasKey(rows, row) <==> HasLeg(rows, id, leg)
  {
    if HasKey(rows, row) {
      var k :| 0 <= k < |rows| && SameKey(rows[k], row);
      assert rows[k].id == id && rows[k].leg == leg;
    }
    if HasLeg(rows, id, leg) {
      var k :| 0 <= k < |rows| && rows[k].id == id && rows[k].leg == leg;
      assert SameKey(rows[k], row);
    }
  }

  lemma ReassignedHasBothLegs(existing: seq<ImportRow>, rows: seq<ImportRow>, facts: string -> Fingerprint,
                              hash: Fingerprint -> string, k: nat, leg: LegKind)
    requires CollisionFree(facts, hash) && Batch(rows, facts, hash) && k < |rows|
    ensures HasLeg(Reassigned(existing, rows), Reassigned(existing, rows)[k].id, leg)
  {
    var id := rows[k].id;
    var p := Occurrence(rows, k);
    PositionsAreIndexes(rows, k);
    assert |IndexesOf(rows, id, Real)| == |IndexesOf(rows, id, Balancing)|;
    IndexesArePositions(rows, id, leg, p);
    var other := IndexesOf(rows, id, leg)[p];
    ReassignedFinalId(existing, rows, facts, hash, k);
    ReassignedFinalId(existing, rows, facts, hash, other);
    assert Reassigned(existing, rows)[other].id == Reassigned(existing, rows)[k].id;
    assert Reassigned(existing, rows)[other].leg == leg;
  }

  lemma KeyKept(all: seq<ImportRow>, id: ImportId, leg: LegKind)
    ensures HasLeg(KeepLast(all), id, leg) <==> HasLeg(all, id, leg)
  {
    var row := ImportRow(id, leg, Fingerprint("", 0, 0, ""), "");
    KeepLastIsASelection(all);
    LegFromKey(all, id, leg, row);
    LegFromKey(KeepLast(all), id, leg, row);
  }

  lemma LegsConcat(a: seq<ImportRow>, b: seq<ImportRow>, id: ImportId, leg: LegKind)
    ensures HasLeg(a + b, id, leg) <==> HasLeg(a, id, leg) || HasLeg(b, id, leg)
  {
    var row := ImportRow(id, leg, Fingerprint("", 0, 0, ""), "");
    HasKeySplits(a, b, row);
    LegFromKey(a + b, id, leg, row);
    LegFromKey(a, id, leg, row);
    LegFromKey(b, id, leg, row);
  }

  lemma MergedHasBothLegs(existing: seq<ImportRow>, rows: seq<ImportRow>, facts: string -> Fingerprint,
                          hash: Fingerprint -> string, id: ImportId, some: LegKind, leg: LegKind)
    requires CollisionFree(facts, hash) && Batch(rows, facts, hash) && BothLegs(existing)
    requires HasLeg(MergeLedger(existing, rows), id, some)
    ensures HasLeg(MergeLedger(existing, rows), id, leg)
  {
    var out := Reassigned(existing, rows);
    KeyKept(existing + out, id, some);
    LegsConcat(existing, out, id, some);
    if HasLeg(existing, id, some) {
      var k :| 0 <= k < |existing| && existing[k].id == id && existing[k].leg == some;
      assert HasLeg(existing, existing[k].id, Real) && HasLeg(existing, existing[k].id, Balancing);
    } else {
      var k :| 0 <= k < |out| && out[k].id == id && out[k].leg == some;
      ReassignedHasBothLegs(existing, rows, facts, hash, k, leg);
    }
    LegsConcat(existing, out, id, leg);
    KeyKept(existing + out, id, leg);
  }

  /** A merge of a ledger and a batch is a ledger again: unique ids, numbered copies, no transaction torn in half. */
  lemma MergeKeepsLedger(existing: seq<ImportRow>, rows: seq<ImportRow>, facts: string -> Fingerprint,
                         hash: Fingerprint -> string)
    requires CollisionFree(facts, hash) && Ledger(existing, facts) && Batch(rows, facts, hash)
    ensures Ledger(MergeLedger(existing, rows), facts)
  {
    var all := existing + Reassigned(existing, rows);
    var merged := KeepLast(all);
    KeepLastIsASelection(all);
    ReassignedStamped(existing, rows, facts, hash);
    StampedConcat(existing, Reassigned(existing, rows), facts);
    StampedKeysCarry(all, facts, Fingerprint("", 0, 0, ""), ImportId("", 0));
    forall k | 0 <= k < |merged| ensures HasLeg(merged, merged[k].id, Real) && HasLeg(merged, merged[k].id, Balancing) {
      assert HasLeg(merged, merged[k].id, merged[k].leg);
      MergedHasBothLegs(existing, rows, facts, hash, merged[k].id, merged[k].leg, Real);
      MergedHasBothLegs(existing, rows, facts, hash, merged[k].id, merged[k].leg, Balancing);
    }
    forall f ensures Numbered(ExistingIds(merged, f)) {
      MergeExtendsIds(existing, rows, facts, hash, f);
    }
  }

  lemma LegsCancel(rows: seq<ImportRow>, facts: string -> Fingerprint, i: nat, j: nat)
    requires Stamped(rows, facts) && OneRowPerPosting(rows) && i < |rows| && j < |rows|
    requires rows[i].id == rows[j].id && i != j
    ensures rows[i].leg != rows[j].leg && rows[i].mark.amount + rows[j].mark.amount == 0
  {
    assert StampedRow(rows[i], facts) && StampedRow(rows[j], facts);
    assert !SameKey(rows[i], rows[j]) && !SameKey(rows[j], rows[i]);
  }

  /** Row `i` has one sibling, and the two cancel. */
  ghost predicate PairedWith(rows: seq<ImportRow>, i: nat, j: nat)
    requires i < |rows|
  {
    && j < |rows| && j != i && rows[j].id == rows[i].id && rows[j].leg != rows[i].leg
    && rows[i].mark.amount + rows[j].mark.amount == 0
    && forall k :: 0 <= k < |rows| && rows[k].id == rows[i].id ==> k == i || k == j
  }

  /** After a merge every posting belongs to a transaction of exactly two legs, which cancel, whatever was merged. */
  lemma TransactionsBalance(existing: seq<ImportRow>, rows: seq<ImportRow>, facts: string -> Fingerprint,
                            hash: Fingerprint -> string, i: nat)
    requires CollisionFree(facts, hash) && Ledger(existing, facts) && Batch(rows, facts, hash)
    requires i < |MergeLedger(existing, rows)|
    ensures exists j :: PairedWith(MergeLedger(existing, rows), i, j)
  {
    var merged := MergeLedger(existing, rows);
    MergeKeepsLedger(existing, rows, facts, hash);
    var other := if merged[i].leg == Real then Balancing else Real;
    assert HasLeg(merged, merged[i].id, other);
    var j :| 0 <= j < |merged| && merged[j].id == merged[i].id && merged[j].leg == other;
    LegsCancel(merged, facts, i, j);
    forall k | 0 <= k < |merged| && merged[k].id == merged[i].id && k != i ensures k == j {
      LegsCancel(merged, facts, i, k);
      OneIndexPerKey(merged, j, k);
    }
    assert PairedWith(merged, i, j);
  }

  /** No existing posting is lost, and one the batch does not restate is kept as it was. */
  lemma NothingIsLost(existing: seq<ImportRow>, rows: seq<ImportRow>, k: nat)
    requires OneRowPerPosting(existing) && k < |existing|
    ensures HasKey(MergeLedger(existing, rows), existing[k])
    ensures !HasKey(Reassigned(existing, rows), existing[k]) ==> existing[k] in MergeLedger(existing, rows)
  {
    var out := Reassigned(existing, rows);
    var all := existing + out;
    KeepLastIsASelection(all);
    assert SameKey(all[k], existing[k]);
    assert HasKey(KeepLast(all), existing[k]);
    var j :| 0 <= j < |KeepLast(all)| && SameKey(KeepLast(all)[j], existing[k]);
    assert KeepLast(all)[j] in all;
    RowWithKey(existing, KeepLast(all)[j], k);
    MemberHasKey(out, KeepLast(all)[j], existing[k]);
  }

  lemma OneIndexPerKey(rows: seq<ImportRow>, i: nat, k: nat)
    requires OneRowPerPosting(rows) && i < |rows| && k < |rows|
    ensures SameKey(rows[i], rows[k]) ==> i == k
  {
  }

  lemma RowWithKey(rows: seq<ImportRow>, row: ImportRow, k: nat)
    requires OneRowPerPosting(rows) && k < |rows| && SameKey(row, rows[k])
    ensures row in rows ==> row == rows[k]
  {
    if row in rows {
      var i :| 0 <= i < |rows| && rows[i] == row;
      OneIndexPerKey(rows, i, k);
    }
  }

  lemma MemberHasKey(rows: seq<ImportRow>, row: ImportRow, other: ImportRow)
    requires SameKey(row, other)
    ensures row in rows ==> HasKey(rows, other)
  {
    if row in rows {
      var i :| 0 <= i < |rows| && rows[i] == row;
      assert SameKey(rows[i], other);
    }
  }

  // ---------- several imports ----------

  lemma ExtendTwice(ids: seq<ImportId>, base: string, m: nat, n: nat)
    ensures Extend(Extend(ids, base, m), base, n) == Extend(ids, base, Max(m, n))
  {
    var once := Extend(ids, base, m);
    var twice := Extend(once, base, n);
    var both := Extend(ids, base, Max(m, n));
    assert |twice| == |both|;
    forall k | 0 <= k < |twice| ensures twice[k] == both[k] {
      if k < |ids| {
        assert twice[k] == once[k] == ids[k] == both[k];
      } else if k < |once| {
        assert twice[k] == once[k];
      }
    }
  }

  /** A batch imported twice is given the ids it was given the first time. */
  lemma ReassignedAgain(existing: seq<ImportRow>, rows: seq<ImportRow>, facts: string -> Fingerprint,
                        hash: Fingerprint -> string)
    requires CollisionFree(facts, hash) && Ledger(existing, facts) && Batch(rows, facts, hash)
    ensures Reassigned(MergeLedger(existing, rows), rows) == Reassigned(existing, rows)
  {
    var merged := MergeLedger(existing, rows);
    forall k | 0 <= k < |rows| ensures ReassignedRow(merged, rows, k) == ReassignedRow(existing, rows, k) {
      var f := facts(rows[k].id.base);
      ReassignedFinalId(existing, rows, facts, hash, k);
      ReassignedFinalId(merged, rows, facts, hash, k);
      MergeExtendsIds(existing, rows, facts, hash, f);
      var ids := ExistingIds(existing, f);
      var extended := Extend(ids, hash(f), LookAlikes(rows, f));
      var p := Occurrence(rows, k);
      assert p < |ids| ==> extended[p] == ids[p];
    }
  }

  /** Importing a file a second time changes no row of the ledger. */
  lemma ReimportChangesNothing(existing: seq<ImportRow>, rows: seq<ImportRow>, facts: string -> Fingerprint,
                               hash: Fingerprint -> string)
    requires CollisionFree(facts, hash) && Ledger(existing, facts) && Batch(rows, facts, hash)
    ensures MergeLedger(MergeLedger(existing, rows), rows) == MergeLedger(existing, rows)
  {
    ReassignedAgain(existing, rows, facts, hash);
    KeepLastAgain(existing, Reassigned(existing, rows));
  }

  /** Only how many rows share each fingerprint matters, not the order a file lists them in. */
  lemma RowOrderIsIrrelevant(existing: seq<ImportRow>, rows: seq<ImportRow>, shuffled: seq<ImportRow>,
                             facts: string -> Fingerprint, hash: Fingerprint -> string, f: Fingerprint)
    requires CollisionFree(facts, hash) && Ledger(existing, facts)
    requires Batch(rows, facts, hash) && Batch(shuffled, facts, hash)
    requires multiset(rows) == multiset(shuffled)
    ensures ExistingIds(MergeLedger(existing, rows), f) == ExistingIds(MergeLedger(existing, shuffled), f)
  {
    MergeExtendsIds(existing, rows, facts, hash, f);
    MergeExtendsIds(existing, shuffled, facts, hash, f);
    LookAlikesOfShuffle(rows, shuffled, f);
  }

  lemma Removed<T>(s: seq<T>, p: nat)
    requires p < |s|
    ensures multiset(s[..p] + s[p + 1..]) == multiset(s) - multiset{s[p]}
  {
    assert s == s[..p] + [s[p]] + s[p + 1..];
  }

  lemma LookAlikesRemoved(rows: seq<ImportRow>, p: nat, f: Fingerprint)
    requires p < |rows|
    ensures LookAlikes(rows, f)
         == LookAlikes(rows[..p] + rows[p + 1..], f) + if rows[p].leg == Real && rows[p].mark == f then 1 else 0
  {
    assert rows == rows[..p] + [rows[p]] + rows[p + 1..];
    LookAlikesConcat(rows[..p], rows[p + 1..], f);
    LookAlikesConcat(rows[..p] + [rows[p]], rows[p + 1..], f);
    RealIdsSnoc(rows[..p], rows[p], f);
  }

  /** Take one row out of each, the same one. */
  lemma ShuffleStep(rows: seq<ImportRow>, shuffled: seq<ImportRow>, f: Fingerprint)
    returns (rest: seq<ImportRow>, others: seq<ImportRow>)
    requires multiset(rows) == multiset(shuffled) && rows != []
    ensures |rest| < |rows| && multiset(rest) == multiset(others)
    ensures LookAlikes(rows, f) - LookAlikes(rest, f) == LookAlikes(shuffled, f) - LookAlikes(others, f)
  {
    var first := rows[0];
    assert first in multiset(shuffled);
    var p := PlaceOf(first, shuffled);
    rest, others := rows[1..], shuffled[..p] + shuffled[p + 1..];
    assert rows[..0] + rows[1..] == rest;
    Removed(rows, 0);
    Removed(shuffled, p);
    SameRemoved(rows, rest, p, shuffled, others, f);
  }

  lemma SameRemoved(rows: seq<ImportRow>, rest: seq<ImportRow>, p: nat, shuffled: seq<ImportRow>,
                    others: seq<ImportRow>, f: Fingerprint)
    requires rows != [] && rest == rows[..0] + rows[1..]
    requires p < |shuffled| && shuffled[p] == rows[0] && others == shuffled[..p] + shuffled[p + 1..]
    ensures LookAlikes(rows, f) - LookAlikes(rest, f) == LookAlikes(shuffled, f) - LookAlikes(others, f)
  {
    LookAlikesRemoved(rows, 0, f);
    LookAlikesRemoved(shuffled, p, f);
  }

  lemma {:induction false} LookAlikesOfShuffle(rows: seq<ImportRow>, shuffled: seq<ImportRow>, f: Fingerprint)
    requires multiset(rows) == multiset(shuffled)
    ensures LookAlikes(rows, f) == LookAlikes(shuffled, f)
    decreases |rows|
  {
    if rows == [] {
      assert |multiset(shuffled)| == 0;
      assert shuffled == [];
    } else {
      var rest, others := ShuffleStep(rows, shuffled, f);
      LookAlikesOfShuffle(rest, others, f);
    }
  }

  lemma PlaceOf<T>(x: T, s: seq<T>) returns (p: nat)
    requires x in multiset(s)
    ensures p < |s| && s[p] == x
  {
    p :| p < |s| && s[p] == x;
  }

  lemma {:induction false} LookAlikesConcat(a: seq<ImportRow>, b: seq<ImportRow>, f: Fingerprint)
    ensures LookAlikes(a + b, f) == LookAlikes(a, f) + LookAlikes(b, f)
  {
    if b == [] {
      assert a + b == a;
    } else {
      var n := |b| - 1;
      LookAlikesConcat(a, b[..n], f);
      assert a + b == (a + b[..n]) + [b[n]] && b == b[..n] + [b[n]];
      RealIdsSnoc(a + b[..n], b[n], f);
      RealIdsSnoc(b[..n], b[n], f);
    }
  }

  /** Two files of one source leave the same ids behind in either order. */
  lemma FileOrderIsIrrelevant(existing: seq<ImportRow>, first: seq<ImportRow>, second: seq<ImportRow>,
                              facts: string -> Fingerprint, hash: Fingerprint -> string, f: Fingerprint)
    requires CollisionFree(facts, hash) && Ledger(existing, facts)
    requires Batch(first, facts, hash) && Batch(second, facts, hash)
    ensures ExistingIds(MergeLedger(MergeLedger(existing, first), second), f)
         == ExistingIds(MergeLedger(MergeLedger(existing, second), first), f)
  {
    MergeExtendsIds(existing, first, facts, hash, f);
    MergeExtendsIds(existing, second, facts, hash, f);
    MergeKeepsLedger(existing, first, facts, hash);
    MergeKeepsLedger(existing, second, facts, hash);
    MergeExtendsIds(MergeLedger(existing, first), second, facts, hash, f);
    MergeExtendsIds(MergeLedger(existing, second), first, facts, hash, f);
    ExtendTwice(ExistingIds(existing, f), hash(f), LookAlikes(first, f), LookAlikes(second, f));
    ExtendTwice(ExistingIds(existing, f), hash(f), LookAlikes(second, f), LookAlikes(first, f));
  }

  // ---------- a history of imports against one rebuild ----------

  /** Files imported one after another into an empty ledger. */
  function ImportOneByOne(files: seq<seq<ImportRow>>): seq<ImportRow> {
    if files == [] then []
    else MergeLedger(ImportOneByOne(files[..|files| - 1]), files[|files| - 1])
  }

  function Concatenated(files: seq<seq<ImportRow>>): seq<ImportRow> {
    if files == [] then [] else Concatenated(files[..|files| - 1]) + files[|files| - 1]
  }

  /** Every archived file at once into an empty ledger. */
  function Rebuilt(files: seq<seq<ImportRow>>): seq<ImportRow> {
    MergeLedger([], Concatenated(files))
  }

  ghost predicate Batches(files: seq<seq<ImportRow>>, facts: string -> Fingerprint, hash: Fingerprint -> string) {
    forall n :: 0 <= n < |files| ==> Batch(files[n], facts, hash)
  }

  function LargestCount(files: seq<seq<ImportRow>>, f: Fingerprint): nat {
    if files == [] then 0 else Max(LargestCount(files[..|files| - 1], f), LookAlikes(files[|files| - 1], f))
  }

  function TotalCount(files: seq<seq<ImportRow>>, f: Fingerprint): nat {
    if files == [] then 0 else TotalCount(files[..|files| - 1], f) + LookAlikes(files[|files| - 1], f)
  }

  lemma EmptyLedger(facts: string -> Fingerprint)
    ensures Ledger([], facts)
    ensures forall f :: ExistingIds([], f) == []
  {
  }

  /** A history of imports leaves, per fingerprint, the largest count any one file had. */
  lemma {:induction false} HistoryCountsTheMaximum(files: seq<seq<ImportRow>>, facts: string -> Fingerprint,
                                                   hash: Fingerprint -> string, f: Fingerprint)
    requires CollisionFree(facts, hash) && Batches(files, facts, hash)
    ensures Ledger(ImportOneByOne(files), facts)
    ensures ExistingIds(ImportOneByOne(files), f) == Extend([], hash(f), LargestCount(files, f))
    ensures LookAlikes(ImportOneByOne(files), f) == LargestCount(files, f)
  {
    if files == [] {
      EmptyLedger(facts);
    } else {
      var n := |files| - 1;
      HistoryCountsTheMaximum(files[..n], facts, hash, f);
      assert Batch(files[n], facts, hash);
      var before := ImportOneByOne(files[..n]);
      MergeExtendsIds(before, files[n], facts, hash, f);
      MergeKeepsLedger(before, files[n], facts, hash);
      ExtendTwice([], hash(f), LargestCount(files[..n], f), LookAlikes(files[n], f));
    }
    ExistingIdsCarry(ImportOneByOne(files), f);
  }

  lemma {:induction false} IndexCountsConcat(a: seq<ImportRow>, b: seq<ImportRow>, id: ImportId, leg: LegKind)
    ensures |IndexesOf(a + b, id, leg)| == |IndexesOf(a, id, leg)| + |IndexesOf(b, id, leg)|
  {
    if b == [] {
      assert a + b == a;
    } else {
      var n := |b| - 1;
      IndexCountsConcat(a, b[..n], id, leg);
      assert a + b == (a + b[..n]) + [b[n]] && b == b[..n] + [b[n]];
      IndexesSnoc(a + b[..n], b[n], id, leg);
      IndexesSnoc(b[..n], b[n], id, leg);
    }
  }

  lemma BatchConcat(a: seq<ImportRow>, b: seq<ImportRow>, facts: string -> Fingerprint, hash: Fingerprint -> string)
    requires Batch(a, facts, hash) && Batch(b, facts, hash)
    ensures Batch(a + b, facts, hash)
  {
    StampedConcat(a, b, facts);
    forall id ensures |IndexesOf(a + b, id, Real)| == |IndexesOf(a + b, id, Balancing)| {
      IndexCountsConcat(a, b, id, Real);
      IndexCountsConcat(a, b, id, Balancing);
    }
  }

  lemma {:induction false} ConcatenatedIsABatch(files: seq<seq<ImportRow>>, facts: string -> Fingerprint,
                                                hash: Fingerprint -> string, f: Fingerprint)
    requires Batches(files, facts, hash)
    ensures Batch(Concatenated(files), facts, hash)
    ensures LookAlikes(Concatenated(files), f) == TotalCount(files, f)
  {
    if files != [] {
      var n := |files| - 1;
      ConcatenatedIsABatch(files[..n], facts, hash, f);
      assert Batch(files[n], facts, hash);
      BatchConcat(Concatenated(files[..n]), files[n], facts, hash);
      LookAlikesConcat(Concatenated(files[..n]), files[n], f);
    }
  }

  /** A rebuild from the same files leaves, per fingerprint, the sum of their counts. */
  lemma RebuildCountsTheSum(files: seq<seq<ImportRow>>, facts: string -> Fingerprint, hash: Fingerprint -> string,
                            f: Fingerprint)
    requires CollisionFree(facts, hash) && Batches(files, facts, hash)
    ensures Ledger(Rebuilt(files), facts)
    ensures ExistingIds(Rebuilt(files), f) == Extend([], hash(f), TotalCount(files, f))
    ensures LookAlikes(Rebuilt(files), f) == TotalCount(files, f)
  {
    EmptyLedger(facts);
    ConcatenatedIsABatch(files, facts, hash, f);
    MergeExtendsIds([], Concatenated(files), facts, hash, f);
    MergeKeepsLedger([], Concatenated(files), facts, hash);
    ExistingIdsCarry(Rebuilt(files), f);
  }

  /** At most one archived file holds a fingerprint. */
  predicate InOneFileAtMost(files: seq<seq<ImportRow>>, f: Fingerprint) {
    forall i, j :: 0 <= i < j < |files| ==> LookAlikes(files[i], f) == 0 || LookAlikes(files[j], f) == 0
  }

  lemma {:induction false} SumAgainstMaximum(files: seq<seq<ImportRow>>, f: Fingerprint)
    ensures LargestCount(files, f) <= TotalCount(files, f)
    ensures LargestCount(files, f) == TotalCount(files, f) <==> InOneFileAtMost(files, f)
    ensures TotalCount(files, f) == 0 <==> forall n :: 0 <= n < |files| ==> LookAlikes(files[n], f) == 0
  {
    if files != [] {
      var n := |files| - 1;
      var front := files[..n];
      SumAgainstMaximum(front, f);
      assert forall i :: 0 <= i < n ==> front[i] == files[i];
      assert InOneFileAtMost(files, f) <==>
             (InOneFileAtMost(front, f)
              && (LookAlikes(files[n], f) == 0 || forall i :: 0 <= i < n ==> LookAlikes(front[i], f) == 0));
    }
  }

  /**
   * A rebuild never drops an id a history of imports made, and the two agree exactly when no file repeats another's.
   */
  lemma RebuildAgainstHistory(files: seq<seq<ImportRow>>, facts: string -> Fingerprint, hash: Fingerprint -> string,
                              f: Fingerprint)
    requires CollisionFree(facts, hash) && Batches(files, facts, hash)
    ensures ExistingIds(ImportOneByOne(files), f) <= ExistingIds(Rebuilt(files), f)
    ensures ExistingIds(ImportOneByOne(files), f) == ExistingIds(Rebuilt(files), f) <==> InOneFileAtMost(files, f)
  {
    HistoryCountsTheMaximum(files, facts, hash, f);
    RebuildCountsTheSum(files, facts, hash, f);
    SumAgainstMaximum(files, f);
    ExtendTwice([], hash(f), LargestCount(files, f), TotalCount(files, f));
  }
}
