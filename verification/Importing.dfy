/** Import de-duplication by counting (accounting/importers/ingest.py). */
module Importing {
  /** The facts that make two transactions look identical. */
  datatype Fingerprint = Fingerprint(account: string, postedAt: int, amount: int, description: string)

  /** A transaction id: the hash its importer built, and which copy of it this is (0 for the plain id, n for `#n`). */
  datatype ImportId = ImportId(base: string, copy: nat)

  /** `:0` is the leg a statement row described, `:1` its placeholder counterparty. */
  datatype LegKind = Real | Balancing

  datatype ImportRow = ImportRow(id: ImportId, leg: LegKind, mark: Fingerprint, detail: string)

  // ---------- the ids that already look like a fingerprint, oldest first ----------

  /** The ids of the real legs carrying a fingerprint, in ledger order. */
  function RealIds(rows: seq<ImportRow>, f: Fingerprint): seq<ImportId> {
    if rows == [] then []
    else
      var last := rows[|rows| - 1];
      var front := RealIds(rows[..|rows| - 1], f);
      if last.leg == Real && last.mark == f then front + [last.id] else front
  }

  function InsertByCopy(id: ImportId, ids: seq<ImportId>): seq<ImportId> {
    if ids == [] then [id]
    else if id.copy <= ids[0].copy then [id] + ids
    else [ids[0]] + InsertByCopy(id, ids[1..])
  }

  function SortByCopy(ids: seq<ImportId>): seq<ImportId> {
    if ids == [] then [] else InsertByCopy(ids[0], SortByCopy(ids[1..]))
  }

  function ExistingIds(rows: seq<ImportRow>, f: Fingerprint): seq<ImportId> {
    SortByCopy(RealIds(rows, f))
  }

  lemma RealIdsSnoc(rows: seq<ImportRow>, row: ImportRow, f: Fingerprint)
    ensures RealIds(rows + [row], f)
      == RealIds(rows, f) + if row.leg == Real && row.mark == f then [row.id] else []
  {
    assert (rows + [row])[..|rows|] == rows;
  }

  /** Group by fingerprint, then sort each group by copy. */
  method ExistingIdsByFingerprint(existing: seq<ImportRow>) returns (grouped: map<Fingerprint, seq<ImportId>>)
    ensures forall f :: f in grouped <==> RealIds(existing, f) != []
    ensures forall f :: f in grouped ==> grouped[f] == ExistingIds(existing, f)
  {
    grouped := map[];
    for i := 0 to |existing|
      invariant forall f :: f in grouped <==> RealIds(existing[..i], f) != []
      invariant forall f :: f in grouped ==> grouped[f] == RealIds(existing[..i], f)
    {
      var row := existing[i];
      assert existing[..i + 1] == existing[..i] + [row];
      forall f ensures RealIds(existing[..i + 1], f)
        == RealIds(existing[..i], f) + if row.leg == Real && row.mark == f then [row.id] else []
      {
        RealIdsSnoc(existing[..i], row, f);
      }
      if row.leg == Real {
        grouped := grouped[row.mark := (if row.mark in grouped then grouped[row.mark] else []) + [row.id]];
      }
    }
    assert existing[..|existing|] == existing;
    ghost var unsorted := grouped;
    var pending := grouped.Keys;
    while pending != {}
      invariant pending <= grouped.Keys == unsorted.Keys
      invariant forall f :: f in grouped ==> grouped[f] == if f in pending then unsorted[f] else SortByCopy(unsorted[f])
    {
      var f :| f in pending;
      grouped := grouped[f := SortByCopy(grouped[f])];
      pending := pending - {f};
    }
  }

  // ---------- reassigning colliding ids ----------

  /** Where an id's legs of one kind sit in a batch, in order. */
  function IndexesOf(rows: seq<ImportRow>, id: ImportId, leg: LegKind): (indexes: seq<nat>)
    ensures forall k :: 0 <= k < |indexes| ==> indexes[k] < |rows|
  {
    if rows == [] then []
    else
      var n := |rows| - 1;
      var front := IndexesOf(rows[..n], id, leg);
      if rows[n].id == id && rows[n].leg == leg then front + [n] else front
  }

  /** How many earlier rows share a row's id and leg. */
  function Occurrence(rows: seq<ImportRow>, k: nat): nat
    requires k < |rows|
  {
    |IndexesOf(rows[..k], rows[k].id, rows[k].leg)|
  }

  /** The id the n-th look-alike ends up with. */
  function FinalId(existing: seq<ImportId>, original: ImportId, occurrence: nat): ImportId {
    if occurrence < |existing| then existing[occurrence]
    else if occurrence == 0 then original
    else ImportId(original.base, occurrence + 1)
  }

  function ReassignedRow(existing: seq<ImportRow>, rows: seq<ImportRow>, k: nat): ImportRow
    requires k < |rows|
  {
    var reals := IndexesOf(rows, rows[k].id, Real);
    if Occurrence(rows, k) < |reals|
    then rows[k].(id := FinalId(ExistingIds(existing, rows[reals[0]].mark), rows[k].id, Occurrence(rows, k)))
    else rows[k]
  }

  function Reassigned(existing: seq<ImportRow>, rows: seq<ImportRow>): (out: seq<ImportRow>)
    ensures |out| == |rows|
  {
    seq(|rows|, k requires 0 <= k < |rows| => ReassignedRow(existing, rows, k))
  }

  lemma IndexesSnoc(rows: seq<ImportRow>, row: ImportRow, id: ImportId, leg: LegKind)
    ensures IndexesOf(rows + [row], id, leg)
      == IndexesOf(rows, id, leg) + if row.id == id && row.leg == leg then [|rows|] else []
  {
    assert (rows + [row])[..|rows|] == rows;
  }

  lemma {:induction false} IndexesArePositions(rows: seq<ImportRow>, id: ImportId, leg: LegKind, p: nat)
    requires p < |IndexesOf(rows, id, leg)|
    ensures var k := IndexesOf(rows, id, leg)[p];
      rows[k].id == id && rows[k].leg == leg && Occurrence(rows, k) == p
  {
    var n := |rows| - 1;
    var front := rows[..n];
    var k := IndexesOf(rows, id, leg)[p];
    if p < |IndexesOf(front, id, leg)| {
      IndexesArePositions(front, id, leg, p);
      assert front[..k] == rows[..k];
    }
  }

  lemma {:induction false} PositionsAreIndexes(rows: seq<ImportRow>, k: nat)
    requires k < |rows|
    ensures var indexes := IndexesOf(rows, rows[k].id, rows[k].leg);
      Occurrence(rows, k) < |indexes| && indexes[Occurrence(rows, k)] == k
  {
    var n := |rows| - 1;
    if k < n {
      PositionsAreIndexes(rows[..n], k);
      assert rows[..n][..k] == rows[..k];
    }
  }

  /** The index lists a batch is grouped into. */
  method GroupIndexes(rows: seq<ImportRow>, leg: LegKind) returns (indexes: map<ImportId, seq<nat>>)
    ensures forall id :: id in indexes <==> IndexesOf(rows, id, leg) != []
    ensures forall id :: id in indexes ==> indexes[id] == IndexesOf(rows, id, leg)
  {
    indexes := map[];
    for i := 0 to |rows|
      invariant forall id :: id in indexes <==> IndexesOf(rows[..i], id, leg) != []
      invariant forall id :: id in indexes ==> indexes[id] == IndexesOf(rows[..i], id, leg)
    {
      assert rows[..i + 1] == rows[..i] + [rows[i]];
      forall id ensures IndexesOf(rows[..i + 1], id, leg)
        == IndexesOf(rows[..i], id, leg) + if rows[i].id == id && rows[i].leg == leg then [i] else []
      {
        IndexesSnoc(rows[..i], rows[i], id, leg);
      }
      if rows[i].leg == leg {
        indexes := indexes[rows[i].id := (if rows[i].id in indexes then indexes[rows[i].id] else []) + [i]];
      }
    }
    assert rows[..|rows|] == rows;
  }

  /** One row of a batch once the groups in `done`, and the first `upto` look-alikes of `id`, are reassigned. */
  ghost predicate Settled(existing: seq<ImportRow>, rows: seq<ImportRow>, out: seq<ImportRow>,
                          done: set<ImportId>, id: ImportId, upto: nat, k: nat)
    requires |out| == |rows| && k < |rows|
  {
    out[k] == if rows[k].id in done || (rows[k].id == id && Occurrence(rows, k) < upto)
              then ReassignedRow(existing, rows, k) else rows[k]
  }

  /** Reassign one id's look-alikes in order, its balancing legs alongside. */
  method ReassignGroup(ghost existing: seq<ImportRow>, ghost rows: seq<ImportRow>, before: seq<ImportRow>,
                       id: ImportId, existingIds: seq<ImportId>, reals: seq<nat>, balancing: seq<nat>,
                       ghost done: set<ImportId>)
    returns (out: seq<ImportRow>)
    requires |before| == |rows| && id !in done
    requires reals == IndexesOf(rows, id, Real) && balancing == IndexesOf(rows, id, Balancing) && reals != []
    requires existingIds == ExistingIds(existing, rows[reals[0]].mark)
    requires forall k :: 0 <= k < |rows| ==> Settled(existing, rows, before, done, id, 0, k)
    ensures |out| == |rows|
    ensures forall k :: 0 <= k < |rows| ==> Settled(existing, rows, out, done + {id}, id, 0, k)
  {
    out := before;
    for occurrence := 0 to |reals|
      invariant |out| == |rows|
      invariant forall k :: 0 <= k < |rows| ==> Settled(existing, rows, out, done, id, occurrence, k)
    {
      ghost var previous := out;
      var finalId := FinalId(existingIds, id, occurrence);
      IndexesArePositions(rows, id, Real, occurrence);
      out := out[reals[occurrence] := out[reals[occurrence]].(id := finalId)];
      if occurrence < |balancing| {
        IndexesArePositions(rows, id, Balancing, occurrence);
        out := out[balancing[occurrence] := out[balancing[occurrence]].(id := finalId)];
      }
      ghost var next := occurrence + 1;
      forall k | 0 <= k < |rows| ensures Settled(existing, rows, out, done, id, next, k) {
        assert Settled(existing, rows, previous, done, id, occurrence, k);
        PositionsAreIndexes(rows, k);
        assert rows[k].id == id && rows[k].leg == Real && Occurrence(rows, k) == occurrence ==> k == reals[occurrence];
        if k == reals[occurrence] {
          assert out[k] == rows[k].(id := finalId);
        } else if occurrence < |balancing| && k == balancing[occurrence] {
          assert out[k] == rows[k].(id := finalId);
        } else {
          assert out[k] == previous[k];
        }
      }
    }
    forall k | 0 <= k < |rows| ensures Settled(existing, rows, out, done + {id}, id, 0, k) {
      assert Settled(existing, rows, out, done, id, |reals|, k);
      PositionsAreIndexes(rows, k);
    }
  }

  /** Give look-alikes in a batch their own ids, matching existing ones first. */
  method ReassignCollidingIds(existing: seq<ImportRow>, rows: seq<ImportRow>) returns (out: seq<ImportRow>)
    ensures out == Reassigned(existing, rows)
  {
    var existingIds := ExistingIdsByFingerprint(existing);
    var reals := GroupIndexes(rows, Real);
    var balancing := GroupIndexes(rows, Balancing);
    out := rows;
    var pending := reals.Keys;
    while pending != {}
      invariant pending <= reals.Keys && |out| == |rows|
      invariant forall k ::
        0 <= k < |rows| ==> Settled(existing, rows, out, reals.Keys - pending, ImportId("", 0), 0, k)
    {
      var id :| id in pending;
      var mark := rows[reals[id][0]].mark;
      var lookAlikes := if mark in existingIds then existingIds[mark] else [];
      assert lookAlikes == ExistingIds(existing, mark);
      var legs := if id in balancing then balancing[id] else [];
      ghost var done := reals.Keys - pending;
      forall k | 0 <= k < |rows| ensures Settled(existing, rows, out, done, id, 0, k) {
        assert Settled(existing, rows, out, done, ImportId("", 0), 0, k);
      }
      out := ReassignGroup(existing, rows, out, id, lookAlikes, reals[id], legs, done);
      pending := pending - {id};
      assert reals.Keys - pending == done + {id};
      forall k | 0 <= k < |rows| ensures Settled(existing, rows, out, reals.Keys - pending, ImportId("", 0), 0, k) {
        assert Settled(existing, rows, out, done + {id}, id, 0, k);
      }
    }
    forall k | 0 <= k < |rows| ensures out[k] == ReassignedRow(existing, rows, k) {
      assert Settled(existing, rows, out, reals.Keys - pending, ImportId("", 0), 0, k);
    }
  }

  // ---------- merging ----------

  predicate SameKey(a: ImportRow, b: ImportRow) {
    a.id == b.id && a.leg == b.leg
  }

  predicate HasKey(rows: seq<ImportRow>, row: ImportRow) {
    exists k :: 0 <= k < |rows| && SameKey(rows[k], row)
  }

  /** One row per posting id, the last one winning. */
  function KeepLast(rows: seq<ImportRow>): seq<ImportRow> {
    if rows == [] then []
    else if HasKey(rows[1..], rows[0]) then KeepLast(rows[1..])
    else [rows[0]] + KeepLast(rows[1..])
  }

  function MergeLedger(existing: seq<ImportRow>, new_: seq<ImportRow>): seq<ImportRow> {
    KeepLast(existing + Reassigned(existing, new_))
  }
}
