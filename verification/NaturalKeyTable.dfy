/** The retry loop of merge_by_natural_key, against a table other transactions commit into (src/db/base.py). */
module NaturalKeyTable {
  import opened NaturalKeyMerge

  datatype Entry = Entry(id: Id, value: string)

  datatype Outcome =
    | Written(ids: map<string, Id>)
    | IntegrityError
    | ConcurrentNaturalKeyInsertError

  /** The ids of the keys that have a row. */
  function IdsByNaturalKey(rows: map<string, Entry>, keys: set<string>): map<string, Id> {
    map key | key in keys && key in rows :: rows[key].id
  }

  /** A key without a row occurs twice in the batch. */
  predicate RepeatsMissing(batch: seq<Row>, present: set<string>) {
    exists i, j :: 0 <= i < j < |batch| && batch[i].key == batch[j].key && batch[i].key !in present
  }

  predicate LastOfItsKey(batch: seq<Row>, i: nat)
    requires i < |batch|
  {
    forall j :: i < j < |batch| ==> batch[j].key != batch[i].key
  }

  predicate SameIds(before: map<string, Entry>, after: map<string, Entry>) {
    forall key :: key in before ==> key in after && after[key].id == before[key].id
  }

  /** Rows flushed from a batch: each has the id it had or a new one, and the value of its last occurrence. */
  ghost predicate BatchWritten(before: map<string, Entry>, after: map<string, Entry>, batch: seq<Row>,
                               ids: map<string, Id>)
  {
    && ids.Keys == Keys(batch)
    && SameIds(before, after)
    && after.Keys == before.Keys + Keys(batch)
    && OthersKept(before, after, ids)
    && LastValues(after, batch)
  }

  /** Written rows are under the ids reported, and the others are as they were. */
  ghost predicate OthersKept(before: map<string, Entry>, after: map<string, Entry>, ids: map<string, Id>) {
    && (forall key :: key in ids ==> key in after && after[key].id == ids[key])
    && (forall key :: key in before && key !in ids ==> key in after && after[key] == before[key])
  }

  ghost predicate LastValues(after: map<string, Entry>, batch: seq<Row>) {
    forall i :: 0 <= i < |batch| && LastOfItsKey(batch, i) ==>
      batch[i].key in after && after[batch[i].key].value == batch[i].value
  }

  lemma KeysSnoc(batch: seq<Row>, i: nat)
    requires i < |batch|
    ensures Keys(batch[..i + 1]) == Keys(batch[..i]) + {batch[i].key}
  {
    assert batch[..i + 1] == batch[..i] + [batch[i]];
    forall key | key in Keys(batch[..i + 1]) ensures key in Keys(batch[..i]) + {batch[i].key} {
      var j :| 0 <= j < i + 1 && batch[..i + 1][j].key == key;
      if j < i {
        assert batch[..i][j].key == key;
      }
    }
    forall key | key in Keys(batch[..i]) ensures key in Keys(batch[..i + 1]) {
      var j :| 0 <= j < i && batch[..i][j].key == key;
      assert batch[..i + 1][j].key == key;
    }
    assert batch[..i + 1][i].key == batch[i].key;
  }

  lemma LastStaysLast(batch: seq<Row>, i: nat, k: nat)
    requires k < i < |batch| && LastOfItsKey(batch[..i + 1], k)
    ensures batch[k].key != batch[i].key && LastOfItsKey(batch[..i], k) && batch[k].key in Keys(batch[..i])
  {
    var front, more := batch[..i], batch[..i + 1];
    assert more[i].key != more[k].key;
    forall j | k < j < i ensures front[j].key != front[k].key {
      assert more[j].key != more[k].key;
    }
    assert front[k].key in Keys(front);
  }

  lemma LastValueSnoc(rows: map<string, Entry>, batch: seq<Row>, i: nat, entry: Entry, k: nat)
    requires i < |batch| && k <= i && LastOfItsKey(batch[..i + 1], k) && entry.value == batch[i].value
    requires LastValues(rows, batch[..i])
    ensures batch[k].key in rows[batch[i].key := entry]
      && rows[batch[i].key := entry][batch[k].key].value == batch[k].value
  {
    if k < i {
      LastStaysLast(batch, i, k);
      assert batch[..i][k] == batch[k];
    }
  }

  lemma LastValuesSnoc(rows: map<string, Entry>, batch: seq<Row>, i: nat, entry: Entry)
    requires i < |batch| && entry.value == batch[i].value && LastValues(rows, batch[..i])
    ensures LastValues(rows[batch[i].key := entry], batch[..i + 1])
  {
    var more, after := batch[..i + 1], rows[batch[i].key := entry];
    forall k | 0 <= k < |more| && LastOfItsKey(more, k)
      ensures more[k].key in after && after[more[k].key].value == more[k].value
    {
      LastValueSnoc(rows, batch, i, entry, k);
    }
  }

  lemma SameIdsSnoc(before: map<string, Entry>, rows: map<string, Entry>, ids: map<string, Id>, key: string,
                    entry: Entry)
    requires SameIds(before, rows) && (key in rows ==> rows[key].id == entry.id) && OthersKept(before, rows, ids)
    ensures SameIds(before, rows[key := entry])
    ensures OthersKept(before, rows[key := entry], ids[key := entry.id])
  {
  }

  lemma WrittenSnoc(before: map<string, Entry>, rows: map<string, Entry>, batch: seq<Row>, i: nat,
                    ids: map<string, Id>, id: Id)
    requires i < |batch| && BatchWritten(before, rows, batch[..i], ids)
    requires var key := batch[i].key; key in rows ==> rows[key].id == id
    ensures BatchWritten(before, rows[batch[i].key := Entry(id, batch[i].value)], batch[..i + 1],
                         ids[batch[i].key := id])
  {
    var entry := Entry(id, batch[i].value);
    KeysSnoc(batch, i);
    SameIdsSnoc(before, rows, ids, batch[i].key, entry);
    LastValuesSnoc(rows, batch, i, entry);
  }

  /** Ids are minted once and belong to one key. */
  ghost predicate Minted(rows: map<string, Entry>, minted: nat) {
    && (forall key :: key in rows ==> rows[key].id < minted)
    && (forall a, b :: a in rows && b in rows && rows[a].id == rows[b].id ==> a == b)
  }

  lemma UpdateKeepsMinted(rows: map<string, Entry>, minted: nat, key: string, value: string)
    requires Minted(rows, minted) && key in rows
    ensures Minted(rows[key := Entry(rows[key].id, value)], minted)
  {
  }

  lemma InsertKeepsMinted(rows: map<string, Entry>, minted: nat, key: string, value: string)
    requires Minted(rows, minted) && key !in rows
    ensures Minted(rows[key := Entry(minted, value)], minted + 1)
  {
  }

  /** What was looked up is still so. */
  predicate Current(existing: map<string, Id>, rows: map<string, Entry>) {
    forall key :: key in existing ==> key in rows && rows[key].id == existing[key]
  }

  /** A batch key has a row the lookup did not see. */
  predicate Raced(batch: seq<Row>, rows: map<string, Entry>, existing: map<string, Id>) {
    exists key :: key in Keys(batch) && key in rows && key !in existing
  }

  /** Merge every row against the ids looked up before; the first insert a unique key rejects fails the flush. */
  method FlushBatch(before: map<string, Entry>, next: nat, batch: seq<Row>, existing: map<string, Id>)
    returns (ok: bool, rows: map<string, Entry>, minted: nat, ids: map<string, Id>)
    requires Minted(before, next) && Current(existing, before)
    ensures minted >= next
    ensures ok <==> !RepeatsMissing(batch, existing.Keys) && !Raced(batch, before, existing)
    ensures ok ==> Minted(rows, minted) && BatchWritten(before, rows, batch, ids)
  {
    rows, minted, ids := before, next, map[];
    for i := 0 to |batch|
      invariant Minted(rows, minted) && minted >= next
      invariant BatchWritten(before, rows, batch[..i], ids)
      invariant !RepeatsMissing(batch[..i], existing.Keys) && !Raced(batch[..i], before, existing)
    {
      var row := batch[i];
      KeysSnoc(batch, i);
      if row.key in existing {
        WrittenSnoc(before, rows, batch, i, ids, existing[row.key]);
        UpdateKeepsMinted(rows, minted, row.key, row.value);
        rows, ids := rows[row.key := Entry(existing[row.key], row.value)], ids[row.key := existing[row.key]];
      } else if row.key in rows {
        RejectedInsert(before, batch, i, existing);
        ok := false;
        return;
      } else {
        WrittenSnoc(before, rows, batch, i, ids, minted);
        InsertKeepsMinted(rows, minted, row.key, row.value);
        rows, ids := rows[row.key := Entry(minted, row.value)], ids[row.key := minted];
        minted := minted + 1;
      }
      NoNewRepeat(batch, i, existing.Keys);
      NoNewRace(batch, i, before, existing);
    }
    assert batch[..|batch|] == batch;
    ok := true;
  }

  lemma RejectedInsert(before: map<string, Entry>, batch: seq<Row>, i: nat, existing: map<string, Id>)
    requires i < |batch| && batch[i].key !in existing && batch[i].key in before.Keys + Keys(batch[..i])
    ensures RepeatsMissing(batch, existing.Keys) || Raced(batch, before, existing)
  {
    if batch[i].key in before {
      assert batch[i].key in Keys(batch);
    } else {
      var j :| 0 <= j < i && batch[..i][j].key == batch[i].key;
      assert batch[j].key == batch[i].key;
    }
  }

  lemma NoNewRace(batch: seq<Row>, i: nat, before: map<string, Entry>, existing: map<string, Id>)
    requires i < |batch| && !Raced(batch[..i], before, existing)
    requires batch[i].key in existing || batch[i].key !in before
    ensures !Raced(batch[..i + 1], before, existing)
  {
    KeysSnoc(batch, i);
  }

  /** A row that could be written does not repeat a missing key of an earlier one. */
  lemma NoNewRepeat(batch: seq<Row>, i: nat, present: set<string>)
    requires i < |batch| && !RepeatsMissing(batch[..i], present)
    requires batch[i].key in present || batch[i].key !in Keys(batch[..i])
    ensures !RepeatsMissing(batch[..i + 1], present)
  {
    var front, more := batch[..i], batch[..i + 1];
    forall a, b | 0 <= a < b < |more| && more[a].key == more[b].key ensures more[a].key in present {
      assert front[a] == more[a] && front[a].key in Keys(front);
      if b < i {
        assert front[b] == more[b];
      }
    }
  }

  predicate Kept(before: map<string, Entry>, after: map<string, Entry>) {
    forall key :: key in before ==> key in after && after[key] == before[key]
  }

  predicate Calm(races: seq<set<string>>) {
    forall n :: 0 <= n < |races| ==> races[n] == {}
  }

  /** Every new row is one another transaction committed. */
  predicate OnlyOthers(before: map<string, Entry>, after: map<string, Entry>, races: seq<set<string>>) {
    forall key :: key in after && key !in before ==> exists n :: 0 <= n < |races| && key in races[n]
  }

  /** Every row is one the table had, one of the batch, or one another transaction committed. */
  predicate NoStrangers(before: map<string, Entry>, after: map<string, Entry>, batch: seq<Row>, races: seq<set<string>>)
  {
    forall key :: key in after && key !in before && key !in Keys(batch) ==>
      exists n :: 0 <= n < |races| && key in races[n]
  }

  /** The batch is in the table, under the ids handed back; every other row the caller had is as it was. */
  ghost predicate Merged(before: map<string, Entry>, after: map<string, Entry>, batch: seq<Row>, ids: map<string, Id>) {
    && ids.Keys == Keys(batch)
    && SameIds(before, after)
    && (forall key :: key in ids ==> key in after && after[key].id == ids[key])
    && (forall key :: key in before && key !in ids ==> after[key] == before[key])
    && (forall i :: 0 <= i < |batch| && LastOfItsKey(batch, i) ==>
          batch[i].key in after && after[batch[i].key].value == batch[i].value)
  }

  lemma MergedAfterRace(before: map<string, Entry>, raced: map<string, Entry>, after: map<string, Entry>,
                        batch: seq<Row>, ids: map<string, Id>)
    requires Kept(before, raced) && BatchWritten(raced, after, batch, ids)
    ensures Merged(before, after, batch, ids)
  {
    forall i | 0 <= i < |batch| && LastOfItsKey(batch, i)
      ensures batch[i].key in after && after[batch[i].key].value == batch[i].value
    {
      assert batch[i].key in Keys(batch);
    }
  }

  class Table {
    var rows: map<string, Entry>
    var minted: nat

    ghost predicate Valid()
      reads this
    {
      Minted(rows, minted)
    }

    constructor ()
      ensures Valid() && rows == map[]
    {
      rows := map[];
      minted := 0;
    }

    /** Other transactions commit rows for keys that have none. */
    method CommitOthers(keys: set<string>)
      requires Valid()
      modifies this
      ensures Valid()
      ensures rows.Keys == old(rows).Keys + keys
      ensures Kept(old(rows), rows)
    {
      var pending := keys;
      while pending != {}
        invariant Valid() && pending <= keys
        invariant rows.Keys == old(rows).Keys + (keys - pending)
        invariant Kept(old(rows), rows)
      {
        var key :| key in pending;
        if key !in rows {
          InsertKeepsMinted(rows, minted, key, "");
          rows := rows[key := Entry(minted, "")];
          minted := minted + 1;
        }
        pending := pending - {key};
      }
    }

    /** Others commit, then one flush inside a savepoint: either the whole batch is written, or nothing of it. */
    method Attempt(batch: seq<Row>, existing: map<string, Id>, race: set<string>)
      returns (ok: bool, ids: map<string, Id>, ghost raced: map<string, Entry>)
      requires Valid() && Current(existing, rows)
      modifies this
      ensures Valid()
      ensures raced.Keys == old(rows).Keys + race && Kept(old(rows), raced)
      ensures ok <==> !RepeatsMissing(batch, existing.Keys) && !Raced(batch, raced, existing)
      ensures if ok then BatchWritten(raced, rows, batch, ids) else rows == raced
    {
      CommitOthers(race);
      raced := rows;
      var flushed, next;
      ok, flushed, next, ids := FlushBatch(rows, minted, batch, existing);
      if ok {
        rows, minted := flushed, next;
      }
    }

    /** Insert or update every row, in at most four flushes; `races[n]` is what others commit before flush n. */
    method MergeByNaturalKey(batch: seq<Row>, races: seq<set<string>>) returns (outcome: Outcome)
      requires Valid()
      modifies this
      ensures Valid()
      ensures outcome.Written? ==> Merged(old(rows), rows, batch, outcome.ids)
      ensures outcome.Written? ==> NoStrangers(old(rows), rows, batch, races)
      ensures !outcome.Written? ==> Kept(old(rows), rows) && OnlyOthers(old(rows), rows, races)
      ensures outcome == ConcurrentNaturalKeyInsertError
        ==> |Keys(batch) - old(rows).Keys| >= NATURAL_KEY_MERGE_ATTEMPTS
      ensures outcome == IntegrityError ==> RepeatsMissing(batch, old(rows).Keys)
      ensures Calm(races) ==> (outcome.Written? <==> !RepeatsMissing(batch, old(rows).Keys))
    {
      if batch == [] {
        return Written(map[]);
      }
      ghost var before := rows;
      var keys := Keys(batch);
      var existing := IdsByNaturalKey(rows, keys);
      LookupKeys(before, keys);
      var attempt := 0;
      while attempt < NATURAL_KEY_MERGE_ATTEMPTS
        invariant Valid() && attempt <= NATURAL_KEY_MERGE_ATTEMPTS
        invariant existing == IdsByNaturalKey(rows, keys)
        invariant Kept(before, rows) && OnlyOthers(before, rows, races)
        invariant |existing.Keys| >= |keys * before.Keys| + attempt
        invariant Calm(races) ==> rows.Keys == before.Keys
      {
        ghost var looked := rows;
        var ok, ids, raced := Attempt(batch, existing, if attempt < |races| then races[attempt] else {});
        RaceIsOthers(before, looked, raced, races, attempt);
        RepeatsOfPresent(batch, before, looked, existing);
        if ok {
          MergedAfterRace(before, raced, rows, batch, ids);
          return Written(ids);
        }
        var resolved := IdsByNaturalKey(rows, keys);
        FoundMore(batch, looked, rows, existing, resolved);
        if resolved.Keys - existing.Keys == {} {
          return IntegrityError;
        }
        existing := resolved;
        attempt := attempt + 1;
      }
      StillMissing(keys, before, existing);
      outcome := ConcurrentNaturalKeyInsertError;
    }

    /** Merge a batch, then delete every row whose key is not to be kept; a failed merge deletes nothing. */
    method UpsertAndPrune(batch: seq<Row>, keep: set<string>, races: seq<set<string>>) returns (outcome: Outcome)
      requires Valid()
      modifies this
      ensures Valid()
      ensures outcome.Written? ==>
                && outcome.ids.Keys == Keys(batch)
                && rows.Keys <= keep && NoStrangers(old(rows), rows, batch, races)
                && (forall i :: 0 <= i < |batch| && LastOfItsKey(batch, i) && batch[i].key in keep ==>
                      batch[i].key in rows && rows[batch[i].key].value == batch[i].value)
                && (forall key :: key in old(rows) && key in keep ==> key in rows && rows[key].id == old(rows)[key].id)
                && (forall key ::
                    key in old(rows) && key in keep && key !in Keys(batch) ==> rows[key] == old(rows)[key])
                && (forall key :: key in Keys(batch) && key in keep ==> key in rows && outcome.ids[key] == rows[key].id)
      ensures !outcome.Written? ==> Kept(old(rows), rows) && OnlyOthers(old(rows), rows, races)
    {
      outcome := MergeByNaturalKey(batch, races);
      if outcome.Written? {
        rows := rows - (rows.Keys - keep);
      }
    }
  }

  lemma LookupKeys(rows: map<string, Entry>, keys: set<string>)
    ensures IdsByNaturalKey(rows, keys).Keys == keys * rows.Keys
  {
  }

  lemma RaceIsOthers(before: map<string, Entry>, looked: map<string, Entry>, rows: map<string, Entry>,
                     races: seq<set<string>>, n: nat)
    requires rows.Keys == looked.Keys + if n < |races| then races[n] else {}
    requires Kept(before, looked) && Kept(looked, rows) && OnlyOthers(before, looked, races)
    ensures Kept(before, rows) && OnlyOthers(before, rows, races)
    ensures Calm(races) ==> rows.Keys == looked.Keys
  {
  }

  /** A second lookup never finds less, and if it finds no more, no key of the batch was raced. */
  lemma FoundMore(batch: seq<Row>, looked: map<string, Entry>, rows: map<string, Entry>, existing: map<string, Id>,
                  resolved: map<string, Id>)
    requires Kept(looked, rows)
    requires existing == IdsByNaturalKey(looked, Keys(batch)) && resolved == IdsByNaturalKey(rows, Keys(batch))
    ensures resolved.Keys - existing.Keys == {} ==> !Raced(batch, rows, existing)
    ensures resolved.Keys - existing.Keys != {} ==> |resolved.Keys| > |existing.Keys| && Raced(batch, rows, existing)
  {
    assert existing.Keys <= resolved.Keys;
    SubsetGrows(existing.Keys, resolved.Keys);
    if resolved.Keys - existing.Keys != {} {
      var key :| key in resolved.Keys - existing.Keys;
      assert key in Keys(batch) && key in rows && key !in existing;
    } else {
      assert resolved.Keys <= existing.Keys;
    }
  }

  lemma StillMissing(keys: set<string>, before: map<string, Entry>, existing: map<string, Id>)
    requires existing.Keys <= keys && |existing.Keys| >= |keys * before.Keys| + NATURAL_KEY_MERGE_ATTEMPTS
    ensures |keys - before.Keys| >= NATURAL_KEY_MERGE_ATTEMPTS
  {
    SubsetGrows(existing.Keys, keys);
    SubsetGrows(keys * before.Keys, keys);
    assert keys - before.Keys == keys - keys * before.Keys;
  }

  /** Repeats of a missing key, told by the last lookup, by the table it read and by the table the call started from. */
  lemma RepeatsOfPresent(batch: seq<Row>, before: map<string, Entry>, looked: map<string, Entry>,
                         existing: map<string, Id>)
    requires Kept(before, looked) && existing == IdsByNaturalKey(looked, Keys(batch))
    ensures RepeatsMissing(batch, existing.Keys) ==> RepeatsMissing(batch, before.Keys)
    ensures looked.Keys == before.Keys && RepeatsMissing(batch, before.Keys) ==> RepeatsMissing(batch, existing.Keys)
  {
    if RepeatsMissing(batch, existing.Keys) {
      var i, j :| 0 <= i < j < |batch| && batch[i].key == batch[j].key && batch[i].key !in existing.Keys;
      assert batch[i].key in Keys(batch);
    }
  }

  lemma SubsetGrows<T>(small: set<T>, large: set<T>)
    requires small <= large
    ensures |small| <= |large| && |large - small| == |large| - |small|
    ensures large - small != {} ==> |small| < |large|
  {
    assert large == small + (large - small);
  }
}
