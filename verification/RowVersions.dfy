/** Optimistic concurrency on one row: check the remembered version and bump it, in one statement (src/db/base.py). */
module RowVersions {
  import opened Frame

  /** A row is named by its id and its owner. */
  datatype RowKey = RowKey(id: nat, user: nat)

  datatype Outcome =
    | Bumped(version: nat)
    | NoSuchRow
    | VersionConflict(current: nat)

  /** One save: the version its caller remembered, if it checks one, and the version it was given. */
  datatype Save = Save(expected: Option<nat>, got: nat)

  /** A transaction's uncommitted saves of one row; their row lock keeps every other transaction out. */
  datatype Lock = Lock(holder: nat, saves: seq<Save>)

  /** Committed versions, the locks of open transactions, and every committed save of each row in order. */
  datatype State = State(versions: map<RowKey, nat>, locks: map<RowKey, Lock>, saved: map<RowKey, seq<Save>>)

  datatype Step =
    | Bump(transaction: nat, key: RowKey, expected: Option<nat>)
    | Commit(transaction: nat)
    | Abort(transaction: nat)

  predicate LockedByAnother(s: State, transaction: nat, key: RowKey) {
    key in s.locks && s.locks[key].holder != transaction
  }

  function Pending(s: State, key: RowKey): seq<Save> {
    if key in s.locks then s.locks[key].saves else []
  }

  /** The version the lock holder sees. */
  function Current(s: State, key: RowKey): nat
    requires key in s.versions
  {
    s.versions[key] + |Pending(s, key)|
  }

  /** What the statement answers. */
  function Answer(s: State, key: RowKey, expected: Option<nat>): Outcome {
    if key !in s.versions then NoSuchRow
    else if expected.Some? && expected.value != Current(s, key) then VersionConflict(Current(s, key))
    else Bumped(Current(s, key) + 1)
  }

  function Held(s: State, transaction: nat): set<RowKey> {
    set key | key in s.locks && s.locks[key].holder == transaction
  }

  /** An update of a row another transaction has updated waits for it to finish. */
  predicate Enabled(s: State, step: Step) {
    step.Bump? ==> !LockedByAnother(s, step.transaction, step.key)
  }

  function Apply(s: State, step: Step): State
    requires Enabled(s, step)
  {
    match step
    case Bump(transaction, key, expected) =>
      var answer := Answer(s, key, expected);
      if answer.Bumped?
      then s.(locks := s.locks[key := Lock(transaction, Pending(s, key) + [Save(expected, answer.version)])])
      else s
    case Commit(transaction) =>
      var held := Held(s, transaction);
      State(map key | key in s.versions ::
            if key in held then s.versions[key] + |s.locks[key].saves| else s.versions[key],
            s.locks - held,
            map key | key in s.saved :: if key in held then s.saved[key] + s.locks[key].saves else s.saved[key])
    case Abort(transaction) => s.(locks := s.locks - Held(s, transaction))
  }

  /** Saves starting from a version each got the next one, and each that checked had remembered the one before. */
  predicate InOrder(start: nat, saves: seq<Save>) {
    forall k :: 0 <= k < |saves| ==>
      && saves[k].got == start + k + 1
      && (saves[k].expected.Some? ==> saves[k].expected.value == start + k)
  }

  predicate Invariant(s: State, start: map<RowKey, nat>) {
    && s.versions.Keys == start.Keys == s.saved.Keys
    && s.locks.Keys <= s.versions.Keys
    && (forall key :: key in start ==>
          && s.versions[key] == start[key] + |s.saved[key]|
          && InOrder(start[key], s.saved[key])
          && InOrder(s.versions[key], Pending(s, key)))
  }

  lemma OrderContinues(start: nat, first: seq<Save>, second: seq<Save>)
    requires InOrder(start, first) && InOrder(start + |first|, second)
    ensures InOrder(start, first + second)
  {
    var all := first + second;
    forall k | 0 <= k < |all|
      ensures all[k].got == start + k + 1 && (all[k].expected.Some? ==> all[k].expected.value == start + k)
    {
      if k >= |first| {
        assert all[k] == second[k - |first|];
      }
    }
  }

  lemma StepKeepsInvariant(s: State, step: Step, start: map<RowKey, nat>)
    requires Invariant(s, start) && Enabled(s, step)
    ensures Invariant(Apply(s, step), start)
  {
    var t := Apply(s, step);
    forall key | key in start
      ensures t.versions[key] == start[key] + |t.saved[key]|
      ensures InOrder(start[key], t.saved[key]) && InOrder(t.versions[key], Pending(t, key))
    {
      match step
      case Bump(transaction, bumped, expected) =>
        if key == bumped && Answer(s, key, expected).Bumped? {
          OrderContinues(s.versions[key], Pending(s, key), [Save(expected, Current(s, key) + 1)]);
        }
      case Commit(transaction) =>
        if key in Held(s, transaction) {
          OrderContinues(start[key], s.saved[key], s.locks[key].saves);
        }
      case Abort(transaction) =>
    }
  }

  ghost predicate IsRun(s: State, steps: seq<Step>)
    decreases |steps|
  {
    steps == [] || (Enabled(s, steps[0]) && IsRun(Apply(s, steps[0]), steps[1..]))
  }

  ghost function After(s: State, steps: seq<Step>): State
    requires IsRun(s, steps)
    decreases |steps|
  {
    if steps == [] then s else After(Apply(s, steps[0]), steps[1..])
  }

  lemma {:induction false} EveryRunKeepsInvariant(s: State, steps: seq<Step>, start: map<RowKey, nat>)
    requires Invariant(s, start) && IsRun(s, steps)
    ensures Invariant(After(s, steps), start)
    decreases |steps|
  {
    if steps != [] {
      StepKeepsInvariant(s, steps[0], start);
      EveryRunKeepsInvariant(Apply(s, steps[0]), steps[1..], start);
    }
  }

  /** A database nobody is writing to. */
  function Quiet(versions: map<RowKey, nat>): State {
    State(versions, map[], map key | key in versions :: [])
  }

  /**
   * In any run, of the committed saves of one row no two got the same version and no two that checked had remembered
   * the same one: of several savers who loaded the same version, at most one wins.
   */
  lemma AtMostOneSaverWins(versions: map<RowKey, nat>, steps: seq<Step>, key: RowKey, i: nat, j: nat)
    requires IsRun(Quiet(versions), steps) && key in versions
    requires key in After(Quiet(versions), steps).saved
    requires i < j < |After(Quiet(versions), steps).saved[key]|
    ensures var saves := After(Quiet(versions), steps).saved[key];
      && saves[i].got < saves[j].got
      && (saves[i].expected.Some? && saves[j].expected.Some? ==> saves[i].expected != saves[j].expected)
  {
    EveryRunKeepsInvariant(Quiet(versions), steps, versions);
  }

  /** The stored version counts the committed saves: none is lost and an aborted one leaves no trace. */
  lemma VersionCountsSaves(versions: map<RowKey, nat>, steps: seq<Step>, key: RowKey)
    requires IsRun(Quiet(versions), steps) && key in versions
    ensures var t := After(Quiet(versions), steps);
      key in t.versions && key in t.saved && t.versions[key] == versions[key] + |t.saved[key]|
  {
    EveryRunKeepsInvariant(Quiet(versions), steps, versions);
  }

  /** A checking save succeeds exactly when nothing was saved since the version its caller loaded. */
  lemma CheckedSaveSucceedsIffUnchanged(s: State, start: map<RowKey, nat>, transaction: nat, key: RowKey, loaded: nat)
    requires Invariant(s, start) && Enabled(s, Bump(transaction, key, Some(loaded))) && key in s.versions
    requires start[key] <= loaded
    ensures Answer(s, key, Some(loaded)).Bumped? <==> |s.saved[key] + Pending(s, key)| == loaded - start[key]
    ensures !Answer(s, key, Some(loaded)).Bumped? ==> Apply(s, Bump(transaction, key, Some(loaded))) == s
  {
    assert s.versions[key] == start[key] + |s.saved[key]|;
  }

  // ---------- the call itself ----------

  class VersionTable {
    var versions: map<RowKey, nat>

    constructor (versions: map<RowKey, nat>)
      ensures this.versions == versions
    {
      this.versions := versions;
    }

    /** One statement updates the row if its version still matches; only if it did not is the row looked at again. */
    method CheckAndBumpRowVersion(key: RowKey, expected: Option<nat>) returns (outcome: Outcome)
      modifies this
      ensures outcome == Answer(Quiet(old(versions)), key, expected)
      ensures versions == if outcome.Bumped? then old(versions)[key := old(versions)[key] + 1] else old(versions)
    {
      if key in versions && (expected.None? || expected.value == versions[key]) {
        versions := versions[key := versions[key] + 1];
        return Bumped(versions[key]);
      }
      if key !in versions {
        return NoSuchRow;
      }
      outcome := VersionConflict(versions[key]);
    }
  }
}
