/** What whole runs of concurrent natural-key merges promise, and the retry loop itself (src/db/base.py). */
module NaturalKeyRuns {
  import opened NaturalKeyMerge

  // ---------- runs ----------

  ghost predicate IsRun(s: State, steps: seq<Step>)
    decreases |steps|
  {
    steps == [] || (Enabled(s, steps[0]) && IsRun(Apply(s, steps[0]), steps[1..]))
  }

  ghost function After(s: State, steps: seq<Step>): State
    requires IsRun(s, steps)
    decreases |steps|
  {
    if steps == [] then s else After(Apply(s, steps[0]), steps[1..])
  }

  /** Whatever writers do and however their statements interleave: one committed row per key. */
  lemma {:induction false} EveryRunKeepsInvariant(s: State, steps: seq<Step>)
    requires Invariant(s) && IsRun(s, steps)
    ensures Invariant(After(s, steps))
    ensures OneRowPerKey(After(s, steps).committed)
    decreases |steps|
  {
    if steps != [] {
      StepKeepsInvariant(s, steps[0]);
      EveryRunKeepsInvariant(Apply(s, steps[0]), steps[1..]);
    }
  }

  lemma StepKeepsIds(s: State, step: Step)
    requires Invariant(s) && Enabled(s, step)
    ensures forall id :: id in s.committed ==>
      id in Apply(s, step).committed && Apply(s, step).committed[id].key == s.committed[id].key
  {
    if step.Commit? {
      var own := s.writers[step.w].own;
      assert Booked(own, s.book);
    }
  }

  lemma {:induction false} RunKeepsRowIds(s: State, steps: seq<Step>, id: Id)
    requires Invariant(s) && IsRun(s, steps) && id in s.committed
    ensures id in After(s, steps).committed && After(s, steps).committed[id].key == s.committed[id].key
    decreases |steps|
  {
    if steps != [] {
      StepKeepsInvariant(s, steps[0]);
      StepKeepsIds(s, steps[0]);
      RunKeepsRowIds(Apply(s, steps[0]), steps[1..], id);
    }
  }

  /** A committed key's id never changes. */
  lemma RunKeepsIds(s: State, steps: seq<Step>, key: string)
    requires Invariant(s) && IsRun(s, steps) && HasKey(s.committed, key)
    ensures HasKey(After(s, steps).committed, key)
    ensures IdOf(After(s, steps).committed, key) == IdOf(s.committed, key)
  {
    RunKeepsRowIds(s, steps, IdOf(s.committed, key));
    EveryRunKeepsInvariant(s, steps);
  }

  // ---------- one call ----------

  /** A step with which a session ends its call or its transaction, or starts another. */
  predicate EndsCall(step: Step, w: nat) {
    step == Commit(w) || step == Abort(w) || (step.Begin? && step.w == w)
  }

  predicate WithinCall(steps: seq<Step>, w: nat) {
    forall n :: 0 <= n < |steps| ==> !EndsCall(steps[n], w)
  }

  /** The batch's rows are written, the caller's other rows are as they were. */
  ghost predicate Wrote(before: map<Id, Row>, after: map<Id, Row>, batch: seq<Row>, ids: map<string, Id>) {
    && ids.Keys == Keys(batch)
    && (forall id :: id in before ==> id in after)
    && (forall id :: id in after && after[id].key !in Keys(batch) ==> id in before && before[id] == after[id])
    && (forall key :: key in ids ==> ids[key] in after && after[ids[key]].key == key)
    && (DistinctKeys(batch)
        ==> forall i :: 0 <= i < |batch| ==> batch[i].key in ids && after[ids[batch[i].key]] == batch[i])
  }

  /** Where a call stands, seen from the transaction that made it. */
  ghost predicate CallState(writer: Writer, own: map<Id, Row>, batch: seq<Row>, first: set<string>, faulted: bool) {
    match writer.phase
    case Ready => false
    case Merging(b, f, _, _, _, _) => b == batch && f == first && writer.own == own
    case Failed(b, f, _, _, lost) => b == batch && f == first && writer.own == own && (!faulted ==> lost)
    case Returned(b, ids) => b == batch && Wrote(own, writer.own, batch, ids)
    case Raised(b, lost) => b == batch && writer.own == own && (!faulted ==> lost)
    case Exhausted(b, f) => b == batch && f == first && writer.own == own
  }

  lemma KeyIsInBatch(batch: seq<Row>, i: nat)
    requires i < |batch|
    ensures batch[i].key in Keys(batch)
  {
  }

  lemma BatchKeyHasIndex(batch: seq<Row>, key: string) returns (i: nat)
    requires key in Keys(batch)
    ensures i < |batch| && batch[i].key == key
  {
    i :| i < |batch| && batch[i].key == key;
  }

  /** A savepoint with nothing left to flush holds exactly the batch. */
  lemma SavepointIsTheBatch(inner: map<Id, Row>, p: Phase)
    requires p.Merging? && FlushInvariant(inner, p) && p.todo == {}
    ensures p.ids.Keys == Keys(p.batch)
    ensures forall key :: key in p.ids ==> p.ids[key] in inner && inner[p.ids[key]].key == key
    ensures forall id :: id in inner ==> inner[id].key in Keys(p.batch)
  {
    forall key ensures key in p.ids <==> key in Keys(p.batch) {
      if key in p.ids {
        assert Flushed(inner, p, key);
      }
      if key in Keys(p.batch) {
        var i := BatchKeyHasIndex(p.batch, key);
        assert i !in p.todo;
      }
    }
    forall key | key in p.ids ensures p.ids[key] in inner && inner[p.ids[key]].key == key {
      assert Flushed(inner, p, key);
    }
  }

  lemma DistinctRowsAreKept(inner: map<Id, Row>, p: Phase, i: nat)
    requires p.Merging? && FlushInvariant(inner, p) && p.todo == {} && DistinctKeys(p.batch) && i < |p.batch|
    ensures p.batch[i].key in p.ids && p.ids[p.batch[i].key] in inner && inner[p.ids[p.batch[i].key]] == p.batch[i]
  {
    assert i !in p.todo;
    assert Flushed(inner, p, p.batch[i].key);
  }

  /** Releasing the savepoint of a fully flushed batch writes exactly that batch. */
  lemma ReleaseWrites(own: map<Id, Row>, inner: map<Id, Row>, p: Phase)
    requires p.Merging? && FlushInvariant(inner, p) && p.todo == {}
    ensures Wrote(own, own + inner, p.batch, p.ids)
  {
    SavepointIsTheBatch(inner, p);
    if DistinctKeys(p.batch) {
      forall i | 0 <= i < |p.batch|
        ensures p.batch[i].key in p.ids && (own + inner)[p.ids[p.batch[i].key]] == p.batch[i]
      {
        DistinctRowsAreKept(inner, p, i);
      }
    }
  }

  lemma StepOfAnother(s: State, step: Step, w: nat)
    requires Enabled(s, step) && w in s.writers && step.w != w
    ensures w in Apply(s, step).writers && Apply(s, step).writers[w] == s.writers[w]
  {
  }

  lemma RetryKeepsCall(visible: map<Id, Row>, writer: Writer, own: map<Id, Row>, batch: seq<Row>, first: set<string>,
                       faulted: bool)
    requires writer.phase.Failed? && CallState(writer, own, batch, first, faulted)
    ensures CallState(writer.(phase := Retried(visible, writer.phase)), own, batch, first, faulted)
  {
  }

  lemma StepKeepsCall(s: State, step: Step, w: nat, own: map<Id, Row>, batch: seq<Row>, first: set<string>,
                      faulted: bool)
    requires w in s.writers && WriterInvariant(s.committed, s.writers[w], s.book) && Enabled(s, step)
    requires !EndsCall(step, w) && (step == Fault(w) ==> faulted)
    requires CallState(s.writers[w], own, batch, first, faulted)
    ensures w in Apply(s, step).writers
    ensures CallState(Apply(s, step).writers[w], own, batch, first, faulted)
  {
    var writer := s.writers[w];
    if step.w != w {
      StepOfAnother(s, step, w);
    } else {
      match step
      case Flush(_, i) =>
        assert Apply(s, step).writers[w].own == writer.own;
      case Conflict(_, i) =>
        assert Apply(s, step).writers[w] == RolledBack(writer, true);
      case Fault(_) =>
        assert Apply(s, step).writers[w] == RolledBack(writer, false);
      case Retry(_) =>
        RetryKeepsCall(Visible(s, w), writer, own, batch, first, faulted);
      case Release(_) =>
        ReleaseWrites(writer.own, writer.inner, writer.phase);
    }
  }

  /** Induction over a run whose steps are all of an allowed kind. */
  lemma {:induction false} RunInduction(s: State, steps: seq<Step>, good: State -> bool, allowed: Step -> bool)
    requires IsRun(s, steps) && good(s)
    requires forall n :: 0 <= n < |steps| ==> allowed(steps[n])
    requires forall t, step :: good(t) && allowed(step) && Enabled(t, step) ==> good(Apply(t, step))
    ensures good(After(s, steps))
    decreases |steps|
  {
    if steps != [] {
      assert allowed(steps[0]);
      RunInduction(Apply(s, steps[0]), steps[1..], good, allowed);
    }
  }

  ghost predicate InCall(s: State, w: nat, own: map<Id, Row>, batch: seq<Row>, first: set<string>, faulted: bool) {
    Invariant(s) && w in s.writers && CallState(s.writers[w], own, batch, first, faulted)
  }

  lemma StepStaysInCall(s: State, step: Step, w: nat, own: map<Id, Row>, batch: seq<Row>, first: set<string>,
                        faulted: bool)
    requires InCall(s, w, own, batch, first, faulted) && Enabled(s, step)
    requires !EndsCall(step, w) && (step == Fault(w) ==> faulted)
    ensures InCall(Apply(s, step), w, own, batch, first, faulted)
  {
    StepKeepsCall(s, step, w, own, batch, first, faulted);
    StepKeepsInvariant(s, step);
  }

  lemma RunStaysInCall(s: State, steps: seq<Step>, w: nat, own: map<Id, Row>, batch: seq<Row>, first: set<string>)
    requires InCall(s, w, own, batch, first, Fault(w) in steps) && IsRun(s, steps) && WithinCall(steps, w)
    ensures InCall(After(s, steps), w, own, batch, first, Fault(w) in steps)
  {
    var faulted := Fault(w) in steps;
    var good := (t: State) => InCall(t, w, own, batch, first, faulted);
    var allowed := (step: Step) => !EndsCall(step, w) && (step == Fault(w) ==> faulted);
    forall t, step | good(t) && allowed(step) && Enabled(t, step) ensures good(Apply(t, step)) {
      StepStaysInCall(t, step, w, own, batch, first, faulted);
    }
    RunInduction(s, steps, good, allowed);
  }

  /** The batch's keys the calling session saw no row for. */
  ghost function Missing(s: State, w: nat, batch: seq<Row>): set<string>
    requires w in s.writers
  {
    Keys(batch) - Lookup(Visible(s, w), Keys(batch)).Keys
  }

  /**
   * One call, whatever the others do meanwhile. Until it returns, the caller's earlier writes are untouched; it returns
   * with exactly the batch written; it runs out of attempts only if at least four keys were missing; and on a batch of
   * distinct keys it re-raises only an error that was not a lost race. So with distinct keys, at most three of them
   * missing and no other kind of error, a call can only go on or return.
   */
  lemma CallOutcome(s: State, w: nat, batch: seq<Row>, steps: seq<Step>)
    requires Invariant(s) && Enabled(s, Begin(w, batch))
    requires IsRun(Apply(s, Begin(w, batch)), steps) && WithinCall(steps, w)
    ensures var t := After(Apply(s, Begin(w, batch)), steps);
      && w in t.writers
      && var writer := t.writers[w];
      && !writer.phase.Ready?
      && (writer.phase.Returned? ==> Wrote(s.writers[w].own, writer.own, batch, writer.phase.ids))
      && (!writer.phase.Returned? ==> writer.own == s.writers[w].own)
      && (writer.phase.Exhausted? ==> |Missing(s, w, batch)| >= NATURAL_KEY_MERGE_ATTEMPTS)
      && (writer.phase.Raised? && DistinctKeys(batch) ==> Fault(w) in steps)
      && (DistinctKeys(batch) && Fault(w) !in steps && |Missing(s, w, batch)| < NATURAL_KEY_MERGE_ATTEMPTS
          ==> Busy(writer.phase) || writer.phase.Returned?)
  {
    var begun := Apply(s, Begin(w, batch));
    var first := Lookup(Visible(s, w), Keys(batch)).Keys;
    var own := s.writers[w].own;
    StepKeepsInvariant(s, Begin(w, batch));
    assert InCall(begun, w, own, batch, first, Fault(w) in steps);
    RunStaysInCall(begun, steps, w, own, batch, first);
    Ending(After(begun, steps), w, own, batch, first, Fault(w) in steps);
  }

  lemma Ending(t: State, w: nat, own: map<Id, Row>, batch: seq<Row>, first: set<string>, faulted: bool)
    requires InCall(t, w, own, batch, first, faulted)
    ensures !t.writers[w].phase.Ready?
    ensures t.writers[w].phase.Returned? ==> Wrote(own, t.writers[w].own, batch, t.writers[w].phase.ids)
    ensures !t.writers[w].phase.Returned? ==> t.writers[w].own == own
    ensures t.writers[w].phase.Exhausted? ==> |Keys(batch) - first| >= NATURAL_KEY_MERGE_ATTEMPTS
    ensures t.writers[w].phase.Raised? && DistinctKeys(batch) ==> faulted
    ensures DistinctKeys(batch) && !faulted && |Keys(batch) - first| < NATURAL_KEY_MERGE_ATTEMPTS
            ==> Busy(t.writers[w].phase) || t.writers[w].phase.Returned?
  {
    assert WriterInvariant(t.committed, t.writers[w], t.book);
    if t.writers[w].phase.Exhausted? {
      Removing(Keys(batch), first);
    }
  }

  lemma Removing<T>(all: set<T>, some: set<T>)
    requires some <= all
    ensures |all - some| == |all| - |some|
  {
    assert all == some + (all - some);
  }

  // ---------- four missing keys can exhaust a call ----------

  lemma {:induction false} RunConcat(s: State, first: seq<Step>, second: seq<Step>)
    requires IsRun(s, first) && IsRun(After(s, first), second)
    ensures IsRun(s, first + second) && After(s, first + second) == After(After(s, first), second)
    decreases |first|
  {
    if first == [] {
      assert first + second == second;
    } else {
      RunConcat(Apply(s, first[0]), first[1..], second);
      assert (first + second)[1..] == first[1..] + second;
    }
  }

  /** An idle session that holds nothing. */
  predicate Idle(s: State, v: nat) {
    v in s.writers && s.writers[v] == Writer(map[], map[], Ready)
  }

  /** The database once another session has committed one new row. */
  function WithRow(s: State, row: Row): State {
    s.(committed := s.committed[|s.book| := row], book := s.book + [row.key])
  }

  function CommitRow(v: nat, row: Row): seq<Step> {
    [Begin(v, [row]), Flush(v, 0), Release(v), Commit(v)]
  }

  ghost predicate Free(s: State, w: nat, key: string) {
    forall u :: u in s.writers && u != w ==> !Holds(s.writers[u], key)
  }

  lemma LoneRow(row: Row)
    ensures Keys([row]) == {row.key} && Indexes([row]) == {0}
  {
    forall i: nat ensures i in Indexes([row]) <==> i == 0 {
      if i == 0 {
        assert [row][i] == row;
      }
    }
    assert [row][0] == row;
  }

  lemma BeginRow(s: State, v: nat, row: Row)
    requires Idle(s, v) && !HasKey(s.committed, row.key)
    ensures Enabled(s, Begin(v, [row]))
    ensures Apply(s, Begin(v, [row])) == With(s, v, Writer(map[], map[], Merging([row], {}, map[], 0, {0}, map[])))
  {
    LoneRow(row);
    assert Visible(s, v) == s.committed;
    var found := Lookup(Visible(s, v), Keys([row]));
    assert found == map[] && found.Keys == {};
  }

  lemma FlushRow(s: State, v: nat, row: Row)
    requires v in s.writers && s.writers[v] == Writer(map[], map[], Merging([row], {}, map[], 0, {0}, map[]))
    requires !HasKey(s.committed, row.key) && Free(s, v, row.key)
    ensures Enabled(s, Flush(v, 0))
    ensures var flushed := Merging([row], {}, map[], 0, {}, map[row.key := |s.book|]);
      Apply(s, Flush(v, 0)) == With(s, v, Writer(map[], map[|s.book| := row], flushed)).(book := s.book + [row.key])
  {
    assert Visible(s, v) == s.committed;
    assert {0} - {0} == {};
  }

  lemma ReleaseRow(s: State, v: nat, row: Row, id: Id)
    requires v in s.writers
    requires s.writers[v] == Writer(map[], map[id := row], Merging([row], {}, map[], 0, {}, map[row.key := id]))
    ensures Enabled(s, Release(v)) && Enabled(Apply(s, Release(v)), Commit(v))
    ensures Apply(Apply(s, Release(v)), Commit(v))
      == With(s, v, Writer(map[], map[], Ready)).(committed := s.committed[id := row])
  {
    var t := Apply(s, Release(v));
    assert t.writers[v].own == map[id := row];
    assert s.committed + map[id := row] == s.committed[id := row];
  }

  lemma OtherCommits(s: State, v: nat, row: Row)
    requires Idle(s, v) && !HasKey(s.committed, row.key) && Free(s, v, row.key)
    ensures IsRun(s, CommitRow(v, row)) && After(s, CommitRow(v, row)) == WithRow(s, row)
  {
    var s1 := Apply(s, Begin(v, [row]));
    BeginRow(s, v, row);
    FlushRow(s1, v, row);
    var s2 := Apply(s1, Flush(v, 0));
    ReleaseRow(s2, v, row, |s.book|);
    var s3 := Apply(s2, Release(v));
    var s4 := Apply(s3, Commit(v));
    assert s4.writers == s.writers;
    FourSteps(s, Begin(v, [row]), Flush(v, 0), Release(v), Commit(v));
  }

  lemma FourSteps(s: State, a: Step, b: Step, c: Step, d: Step)
    requires Enabled(s, a) && Enabled(Apply(s, a), b) && Enabled(Apply(Apply(s, a), b), c)
    requires Enabled(Apply(Apply(Apply(s, a), b), c), d)
    ensures IsRun(s, [a, b, c, d]) && After(s, [a, b, c, d]) == Apply(Apply(Apply(Apply(s, a), b), c), d)
  {
    var s1 := Apply(s, a);
    var s2 := Apply(s1, b);
    var s3 := Apply(s2, c);
    var s4 := Apply(s3, d);
    assert [a, b, c, d][1..] == [b, c, d] && [b, c, d][1..] == [c, d] && [c, d][1..] == [d] && [d][1..] == [];
    assert IsRun(s4, []) && After(s4, []) == s4;
    assert IsRun(s3, [d]) && After(s3, [d]) == s4;
    assert IsRun(s2, [c, d]) && After(s2, [c, d]) == s4;
    assert IsRun(s1, [b, c, d]) && After(s1, [b, c, d]) == s4;
  }

  /** A call about to flush its whole batch, its lookup up to date, and nobody else in its way. */
  ghost predicate AboutToFlush(s: State, w: nat, batch: seq<Row>, attempt: nat) {
    && w in s.writers && s.writers[w].inner == map[]
    && var p := s.writers[w].phase;
    && p.Merging? && p.batch == batch && p.attempt == attempt
    && p.todo == Indexes(batch)
    && p.found.Keys == Lookup(s.committed + s.writers[w].own, Keys(batch)).Keys
    && (forall key :: key in Keys(batch) ==> Free(s, w, key))
  }

  lemma LookupOfOneMore(rows: map<Id, Row>, id: Id, row: Row, keys: set<string>)
    requires row.key in keys && id !in rows
    ensures Lookup(rows[id := row], keys).Keys == Lookup(rows, keys).Keys + {row.key}
  {
    forall key | key in keys ensures HasKey(rows[id := row], key) <==> HasKey(rows, key) || key == row.key {
      if HasKey(rows, key) {
        var other := IdOf(rows, key);
        assert rows[id := row][other].key == key;
      }
      if key == row.key {
        assert rows[id := row][id].key == key;
      }
    }
  }

  lemma TwoSteps(s: State, a: Step, b: Step)
    requires Enabled(s, a) && Enabled(Apply(s, a), b)
    ensures IsRun(s, [a, b]) && After(s, [a, b]) == Apply(Apply(s, a), b)
  {
    assert [a, b][1..] == [b] && [b][1..] == [];
    var s2 := Apply(Apply(s, a), b);
    assert IsRun(s2, []) && After(s2, []) == s2;
    assert IsRun(Apply(s, a), [b]) && After(Apply(s, a), [b]) == s2;
  }

  /** What a missing key means: not committed, not held by the caller, and the next id is new to both. */
  lemma MissingIsAbsent(committed: map<Id, Row>, writer: Writer, book: seq<string>, key: string)
    requires Booked(committed, book) && WriterInvariant(committed, writer, book) && writer.phase.Merging?
    requires writer.phase.found.Keys == Lookup(committed + writer.own, Keys(writer.phase.batch)).Keys
    requires key in Keys(writer.phase.batch) && key !in writer.phase.found
    ensures !HasKey(committed, key) && !HasKey(writer.own, key)
    ensures |book| !in committed && |book| !in writer.own
  {
    assert !HasKey(committed + writer.own, key);
    forall id | id in committed ensures committed[id].key != key {
      assert id in committed + writer.own && (committed + writer.own)[id].key == book[id];
    }
  }

  lemma ConflictOnNewRow(s: State, w: nat, batch: seq<Row>, attempt: nat, i: nat)
    requires AboutToFlush(s, w, batch, attempt) && i < |batch| && batch[i].key !in s.writers[w].phase.found
    requires |s.book| !in s.committed && |s.book| !in s.writers[w].own
    ensures var raced := WithRow(s, batch[i]);
      && Enabled(raced, Conflict(w, i))
      && Apply(raced, Conflict(w, i)) == With(raced, w, RolledBack(s.writers[w], true))
  {
    var row := batch[i];
    var raced := WithRow(s, row);
    KeyIsInBatch(batch, i);
    assert Visible(raced, w)[|s.book|].key == row.key;
    assert batch[i] == batch[i] && i in Indexes(batch);
    assert Free(s, w, row.key);
    assert !HeldByAnother(raced, w, row.key);
  }

  lemma RetriedAfterLoss(visible: map<Id, Row>, p: Phase, key: string)
    requires p.Failed? && key !in p.found
    requires Lookup(visible, Keys(p.batch)).Keys == p.found.Keys + {key}
    ensures Retried(visible, p)
         == if p.attempt + 1 == NATURAL_KEY_MERGE_ATTEMPTS then Exhausted(p.batch, p.first)
            else Merging(p.batch, p.first, Lookup(visible, Keys(p.batch)), p.attempt + 1, Indexes(p.batch), map[])
  {
    assert key in Lookup(visible, Keys(p.batch)).Keys - p.found.Keys;
  }

  /** How a call looks right after losing a race for one key. */
  ghost predicate LostOne(s: State, t: State, w: nat, batch: seq<Row>, attempt: nat, key: string) {
    && w in s.writers && w in t.writers && s.writers[w].phase.Merging?
    && t.writers.Keys == s.writers.Keys
    && (forall u :: u in s.writers && u != w ==> t.writers[u] == s.writers[u])
    && if attempt + 1 == NATURAL_KEY_MERGE_ATTEMPTS then t.writers[w].phase.Exhausted?
       else AboutToFlush(t, w, batch, attempt + 1)
            && t.writers[w].phase.found.Keys == s.writers[w].phase.found.Keys + {key}
  }

  lemma RetryFindsTheRow(s: State, w: nat, batch: seq<Row>, attempt: nat, i: nat)
    requires AboutToFlush(s, w, batch, attempt) && i < |batch| && batch[i].key !in s.writers[w].phase.found
    requires |s.book| !in s.committed && |s.book| !in s.writers[w].own
    ensures var failed := With(WithRow(s, batch[i]), w, RolledBack(s.writers[w], true));
      && Enabled(failed, Retry(w))
      && LostOne(s, Apply(failed, Retry(w)), w, batch, attempt, batch[i].key)
  {
    var row := batch[i];
    var own := s.writers[w].own;
    var failed := With(WithRow(s, row), w, RolledBack(s.writers[w], true));
    var seen := s.committed + own;
    KeyIsInBatch(batch, i);
    assert failed.committed + own == seen[|s.book| := row];
    PlusNothing(failed.committed + own);
    LookupOfOneMore(seen, |s.book|, row, Keys(batch));
    RetriedAfterLoss(Visible(failed, w), failed.writers[w].phase, row.key);
    var t := Apply(failed, Retry(w));
    forall key | key in Keys(batch) ensures Free(t, w, key) {
      assert Free(s, w, key);
    }
  }

  lemma OtherIsFree(s: State, w: nat, v: nat, batch: seq<Row>, attempt: nat, key: string)
    requires AboutToFlush(s, w, batch, attempt) && key in Keys(batch) && !HasKey(s.writers[w].own, key)
    ensures Free(s, v, key)
  {
    assert Free(s, w, key);
  }

  /** The invariant as a value, for the lemmas that only pass it on. */
  ghost function Sound(): State -> bool {
    (s: State) => Invariant(s)
  }

  lemma RunKeepsSound(s: State, steps: seq<Step>)
    requires Sound()(s) && IsRun(s, steps)
    ensures Sound()(After(s, steps))
  {
    EveryRunKeepsInvariant(s, steps);
  }

  lemma SoundMissing(s: State, w: nat, batch: seq<Row>, attempt: nat, key: string)
    requires Sound()(s) && AboutToFlush(s, w, batch, attempt)
    requires key in Keys(batch) && key !in s.writers[w].phase.found
    ensures !HasKey(s.committed, key) && !HasKey(s.writers[w].own, key)
    ensures |s.book| !in s.committed && |s.book| !in s.writers[w].own
  {
    MissingIsAbsent(s.committed, s.writers[w], s.book, key);
  }

  lemma OtherCommitsFirst(s: State, w: nat, v: nat, row: Row) returns (steps: seq<Step>)
    requires Idle(s, v) && !HasKey(s.committed, row.key) && Free(s, v, row.key) && v != w
    ensures IsRun(s, steps) && WithinCall(steps, w) && After(s, steps) == WithRow(s, row)
  {
    OtherCommits(s, v, row);
    steps := CommitRow(v, row);
  }

  /** Two steps, given what each leads to. */
  lemma StepsTo(s: State, first: Step, second: Step, middle: State, last: State) returns (steps: seq<Step>)
    requires Enabled(s, first) && Apply(s, first) == middle && Enabled(middle, second) && Apply(middle, second) == last
    ensures steps == [first, second] && IsRun(s, steps) && After(s, steps) == last
  {
    TwoSteps(s, first, second);
    steps := [first, second];
  }

  lemma OwnSteps(w: nat, i: nat)
    ensures WithinCall([Conflict(w, i), Retry(w)], w)
  {
  }

  lemma ThenLose(s: State, w: nat, batch: seq<Row>, attempt: nat, i: nat) returns (steps: seq<Step>)
    requires AboutToFlush(s, w, batch, attempt) && i < |batch| && batch[i].key !in s.writers[w].phase.found
    requires |s.book| !in s.committed && |s.book| !in s.writers[w].own
    ensures IsRun(WithRow(s, batch[i]), steps) && WithinCall(steps, w)
    ensures LostOne(s, After(WithRow(s, batch[i]), steps), w, batch, attempt, batch[i].key)
  {
    var raced, failed := WithRow(s, batch[i]), With(WithRow(s, batch[i]), w, RolledBack(s.writers[w], true));
    ConflictOnNewRow(s, w, batch, attempt, i);
    RetryFindsTheRow(s, w, batch, attempt, i);
    OwnSteps(w, i);
    steps := StepsTo(raced, Conflict(w, i), Retry(w), failed, Apply(failed, Retry(w)));
  }

  /**
   * Another session commits one of the missing keys first, so this flush conflicts and the retry finds just that key.
   */
  lemma LoseOnce(s: State, w: nat, v: nat, batch: seq<Row>, attempt: nat, i: nat) returns (steps: seq<Step>)
    requires Sound()(s) && AboutToFlush(s, w, batch, attempt) && Idle(s, v) && v != w
    requires i < |batch| && batch[i].key !in s.writers[w].phase.found
    ensures IsRun(s, steps) && WithinCall(steps, w)
    ensures LostOne(s, After(s, steps), w, batch, attempt, batch[i].key)
  {
    KeyIsInBatch(batch, i);
    SoundMissing(s, w, batch, attempt, batch[i].key);
    OtherIsFree(s, w, v, batch, attempt, batch[i].key);
    var others := OtherCommitsFirst(s, w, v, batch[i]);
    var mine := ThenLose(s, w, batch, attempt, i);
    RunConcat(s, others, mine);
    steps := others + mine;
  }

  lemma OneFewerMissing(all: set<string>, found: set<string>, key: string)
    requires key in all && key !in found
    ensures |all - (found + {key})| == |all - found| - 1
  {
    assert all - (found + {key}) == (all - found) - {key};
  }

  /** A call about to flush its batch again, with some of its keys still missing, and an idle session beside it. */
  ghost predicate ExposedAt(s: State, w: nat, v: nat, batch: seq<Row>, attempt: nat, missing: nat) {
    && Sound()(s) && AboutToFlush(s, w, batch, attempt) && Idle(s, v) && v != w
    && |Keys(batch) - s.writers[w].phase.found.Keys| == missing
  }

  ghost function Exposed(w: nat, v: nat, batch: seq<Row>): (State, nat, nat) -> bool {
    (s: State, attempt: nat, missing: nat) => ExposedAt(s, w, v, batch, attempt, missing)
  }

  /** A run within one call that loses its last attempt. */
  ghost predicate Exhausts(s: State, steps: seq<Step>, w: nat) {
    IsRun(s, steps) && WithinCall(steps, w) && w in After(s, steps).writers
      && After(s, steps).writers[w].phase.Exhausted?
  }

  /** A run that loses one attempt and leaves the call as exposed as before, but for one key. */
  ghost predicate Loses(s: State, steps: seq<Step>, w: nat, exposed: (State, nat, nat) -> bool, attempt: nat,
                        missing: nat)
  {
    && IsRun(s, steps) && WithinCall(steps, w)
    && if attempt + 1 == NATURAL_KEY_MERGE_ATTEMPTS then Exhausts(s, steps, w)
       else missing > 0 && exposed(After(s, steps), attempt + 1, missing - 1)
  }

  ghost predicate CanLose(s: State, w: nat, exposed: (State, nat, nat) -> bool, attempt: nat, missing: nat) {
    exists steps :: Loses(s, steps, w, exposed, attempt, missing)
  }

  lemma LostThenExposed(s: State, t: State, w: nat, v: nat, batch: seq<Row>, attempt: nat, missing: nat, key: string)
    requires ExposedAt(s, w, v, batch, attempt, missing) && LostOne(s, t, w, batch, attempt, key) && Sound()(t)
    requires key in Keys(batch) && key !in s.writers[w].phase.found && attempt + 1 != NATURAL_KEY_MERGE_ATTEMPTS
    ensures missing > 0 && ExposedAt(t, w, v, batch, attempt + 1, missing - 1)
  {
    OneFewerMissing(Keys(batch), s.writers[w].phase.found.Keys, key);
  }

  lemma LoseAnother(s: State, w: nat, v: nat, batch: seq<Row>, attempt: nat, missing: nat)
    requires ExposedAt(s, w, v, batch, attempt, missing) && missing > 0
    ensures CanLose(s, w, Exposed(w, v, batch), attempt, missing)
  {
    var i := PickMissing(batch, s.writers[w].phase.found.Keys);
    var steps := LoseOnce(s, w, v, batch, attempt, i);
    RunKeepsSound(s, steps);
    if attempt + 1 != NATURAL_KEY_MERGE_ATTEMPTS {
      LostThenExposed(s, After(s, steps), w, v, batch, attempt, missing, batch[i].key);
    }
    assert Loses(s, steps, w, Exposed(w, v, batch), attempt, missing);
  }

  lemma ExhaustsLater(s: State, steps: seq<Step>, more: seq<Step>, w: nat)
    requires IsRun(s, steps) && WithinCall(steps, w) && Exhausts(After(s, steps), more, w)
    ensures Exhausts(s, steps + more, w)
  {
    RunConcat(s, steps, more);
  }

  lemma {:induction false} LoseRepeatedly(s: State, w: nat, exposed: (State, nat, nat) -> bool, attempt: nat,
                                          missing: nat)
    returns (steps: seq<Step>)
    requires forall t, n, m :: exposed(t, n, m) && m > 0 ==> CanLose(t, w, exposed, n, m)
    requires exposed(s, attempt, missing)
    requires attempt < NATURAL_KEY_MERGE_ATTEMPTS <= missing + attempt
    ensures Exhausts(s, steps, w)
    decreases NATURAL_KEY_MERGE_ATTEMPTS - attempt
  {
    var once :| Loses(s, once, w, exposed, attempt, missing);
    if attempt + 1 == NATURAL_KEY_MERGE_ATTEMPTS {
      steps := once;
    } else {
      var more := LoseRepeatedly(After(s, once), w, exposed, attempt + 1, missing - 1);
      ExhaustsLater(s, once, more, w);
      steps := once + more;
    }
  }

  lemma PickMissing(batch: seq<Row>, found: set<string>) returns (i: nat)
    requires |Keys(batch) - found| > 0
    ensures i < |batch| && batch[i].key in Keys(batch) && batch[i].key !in found
  {
    var key :| key in Keys(batch) - found;
    i := BatchKeyHasIndex(batch, key);
  }

  lemma SoundBegin(s: State, w: nat, batch: seq<Row>)
    requires Sound()(s) && Enabled(s, Begin(w, batch))
    ensures Sound()(Apply(s, Begin(w, batch))) && s.writers[w].inner == map[]
  {
    StepKeepsInvariant(s, Begin(w, batch));
    assert WriterInvariant(s.committed, s.writers[w], s.book);
  }

  lemma BegunIsExposed(s: State, w: nat, v: nat, batch: seq<Row>)
    requires Enabled(s, Begin(w, batch)) && s.writers[w].inner == map[] && Idle(s, v) && v != w
    requires Sound()(Apply(s, Begin(w, batch)))
    requires forall key :: key in Keys(batch) ==> Free(s, w, key)
    ensures Exposed(w, v, batch)(Apply(s, Begin(w, batch)), 0, |Missing(s, w, batch)|)
  {
    var begun := Apply(s, Begin(w, batch));
    PlusNothing(s.committed + s.writers[w].own);
    forall key | key in Keys(batch) ensures Free(begun, w, key) {
      assert Free(s, w, key);
    }
    assert ExposedAt(begun, w, v, batch, 0, |Missing(s, w, batch)|);
  }

  /** The bound is exact: with four keys missing and another session at work, a call can lose every attempt. */
  lemma FourMissingKeysCanExhaust(s: State, w: nat, v: nat, batch: seq<Row>) returns (steps: seq<Step>)
    requires Sound()(s) && Enabled(s, Begin(w, batch)) && Idle(s, v) && v != w
    requires forall key :: key in Keys(batch) ==> Free(s, w, key)
    requires |Missing(s, w, batch)| >= NATURAL_KEY_MERGE_ATTEMPTS
    ensures Exhausts(Apply(s, Begin(w, batch)), steps, w)
  {
    SoundBegin(s, w, batch);
    BegunIsExposed(s, w, v, batch);
    forall t, n: nat, m: nat | Exposed(w, v, batch)(t, n, m) && m > 0
      ensures CanLose(t, w, Exposed(w, v, batch), n, m)
    {
      LoseAnother(t, w, v, batch, n, m);
    }
    steps := LoseRepeatedly(Apply(s, Begin(w, batch)), w, Exposed(w, v, batch), 0, |Missing(s, w, batch)|);
  }
}
