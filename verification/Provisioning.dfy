/**
 * First sign-ins racing to create one user for one external account (src/db/provisioning.py, external_identities.py).
 */
module Provisioning {
  import opened Frame

  type UserId = nat

  /** An account at an identity provider. */
  datatype Account = Account(provider: string, externalId: string)

  datatype Phase =
    | Called
    | NotLinked
    | UserInserted
    | LinkInserted
    | Conflicted
    | Returned(id: UserId)
    | LinkRaceError
    | Aborted

  /** One call of provision_linked_user, in its own transaction, with the id it minted for itself. */
  datatype Caller = Caller(account: Account, own: UserId, phase: Phase)

  /**
   * `users` holds, by user id, the account each committed user was made for; `links` the committed identity links by
   * their primary key. What a caller has inserted but not committed is told by its phase.
   */
  datatype State = State(users: map<UserId, Account>, links: map<Account, UserId>, callers: map<nat, Caller>,
                         minted: UserId)

  datatype Step =
    | Call(c: nat, account: Account)
    | Lookup(c: nat)
    | InsertUser(c: nat)
    | InsertLink(c: nat)
    | Reread(c: nat)
    | Commit(c: nat)
    | Abort(c: nat)

  /**
   * Another transaction has inserted a link for this account and has not finished, so an insert of the same key waits.
   */
  predicate LinkPending(s: State, c: nat, account: Account) {
    exists d :: d in s.callers && d != c && s.callers[d].account == account && s.callers[d].phase == LinkInserted
  }

  predicate Enabled(s: State, step: Step) {
    match step
    case Call(c, _) => c !in s.callers
    case Lookup(c) => c in s.callers && s.callers[c].phase == Called
    case InsertUser(c) => c in s.callers && s.callers[c].phase == NotLinked
    case InsertLink(c) =>
      c in s.callers && s.callers[c].phase == UserInserted && !LinkPending(s, c, s.callers[c].account)
    case Reread(c) => c in s.callers && s.callers[c].phase == Conflicted
    case Commit(c) => c in s.callers && s.callers[c].phase == LinkInserted
    case Abort(c) => c in s.callers && !s.callers[c].phase.Returned?
  }

  function Moved(s: State, c: nat, phase: Phase): State
    requires c in s.callers
  {
    s.(callers := s.callers[c := s.callers[c].(phase := phase)])
  }

  function Apply(s: State, step: Step): State
    requires Enabled(s, step)
  {
    match step
    case Call(c, account) =>
      s.(callers := s.callers[c := Caller(account, s.minted, Called)], minted := s.minted + 1)
    case Lookup(c) =>
      var account := s.callers[c].account;
      Moved(s, c, if account in s.links then Returned(s.links[account]) else NotLinked)
    case InsertUser(c) => Moved(s, c, UserInserted)
    case InsertLink(c) => Moved(s, c, if s.callers[c].account in s.links then Conflicted else LinkInserted)
    case Reread(c) =>
      var account := s.callers[c].account;
      Moved(s, c, if account in s.links then Returned(s.links[account]) else LinkRaceError)
    case Commit(c) =>
      var caller := s.callers[c];
      Moved(s, c, Returned(caller.own))
        .(users := s.users[caller.own := caller.account], links := s.links[caller.account := caller.own])
    case Abort(c) => Moved(s, c, Aborted)
  }

  /** A link names a user made for its account, and every user made for an account is the one its link names. */
  predicate Paired(users: map<UserId, Account>, links: map<Account, UserId>) {
    && (forall a :: a in links ==> links[a] in users && users[links[a]] == a)
    && (forall u :: u in users ==> users[u] in links && links[users[u]] == u)
  }

  predicate CallerInvariant(s: State, c: nat)
    requires c in s.callers
  {
    var caller := s.callers[c];
    && caller.own < s.minted
    && match caller.phase
       case Returned(id) => caller.account in s.links && s.links[caller.account] == id
       case Conflicted => caller.account in s.links && caller.own !in s.users
       case LinkInserted => caller.account !in s.links && caller.own !in s.users
       case LinkRaceError => false
       case _ => caller.own !in s.users
  }

  predicate Invariant(s: State) {
    && Paired(s.users, s.links)
    && (forall u :: u in s.users ==> u < s.minted)
    && (forall c :: c in s.callers ==> CallerInvariant(s, c))
    && (forall c, d :: c in s.callers && d in s.callers && c != d ==> s.callers[c].own != s.callers[d].own)
    && (forall c, d :: c in s.callers && d in s.callers && c != d
          && s.callers[c].phase == LinkInserted && s.callers[d].phase == LinkInserted
          ==> s.callers[c].account != s.callers[d].account)
  }

  lemma StepKeepsCaller(s: State, step: Step, c: nat)
    requires Invariant(s) && Enabled(s, step) && c in Apply(s, step).callers
    ensures CallerInvariant(Apply(s, step), c)
  {
    if c in s.callers {
      assert CallerInvariant(s, c);
    }
    if step.c in s.callers {
      assert CallerInvariant(s, step.c);
      assert c in s.callers && c != step.c ==> s.callers[c].own != s.callers[step.c].own;
    }
  }

  lemma StepKeepsPairing(s: State, step: Step)
    requires Invariant(s) && Enabled(s, step)
    ensures Paired(Apply(s, step).users, Apply(s, step).links)
    ensures forall u :: u in Apply(s, step).users ==> u < Apply(s, step).minted
  {
    if step.Commit? {
      assert CallerInvariant(s, step.c);
    }
  }

  lemma StepKeepsApart(s: State, step: Step, c: nat, d: nat)
    requires Invariant(s) && Enabled(s, step) && c in Apply(s, step).callers && d in Apply(s, step).callers && c != d
    ensures var t := Apply(s, step);
      && t.callers[c].own != t.callers[d].own
      && (t.callers[c].phase == LinkInserted && t.callers[d].phase == LinkInserted
          ==> t.callers[c].account != t.callers[d].account)
  {
    assert c in s.callers ==> CallerInvariant(s, c);
    assert d in s.callers ==> CallerInvariant(s, d);
  }

  lemma StepKeepsInvariant(s: State, step: Step)
    requires Invariant(s) && Enabled(s, step)
    ensures Invariant(Apply(s, step))
  {
    var t := Apply(s, step);
    StepKeepsPairing(s, step);
    forall c | c in t.callers ensures CallerInvariant(t, c) {
      StepKeepsCaller(s, step, c);
    }
    forall c, d | c in t.callers && d in t.callers && c != d
      ensures t.callers[c].own != t.callers[d].own
      ensures t.callers[c].phase == LinkInserted && t.callers[d].phase == LinkInserted
              ==> t.callers[c].account != t.callers[d].account
    {
      StepKeepsApart(s, step, c, d);
    }
  }

  /** A link, once committed, is never overwritten, and no committed user goes away. */
  lemma StepKeepsLinks(s: State, step: Step)
    requires Invariant(s) && Enabled(s, step)
    ensures forall a :: a in s.links ==> a in Apply(s, step).links && Apply(s, step).links[a] == s.links[a]
    ensures forall u :: u in s.users ==> u in Apply(s, step).users && Apply(s, step).users[u] == s.users[u]
  {
    if step.Commit? {
      assert CallerInvariant(s, step.c);
    }
  }

  // ---------- runs ----------

  ghost predicate IsRun(s: State, steps: seq<Step>)
    decreases |steps|
  {
    steps == [] || (Enabled(s, steps[0]) && IsRun(Apply(s, steps[0]), steps[1..]))
  }

  ghost function After(s: State, steps: seq<Step>): State
    requires IsRun(s, steps)
    decreases |steps|
  {
    if steps == [] then s else After(Apply(s, steps[0]), steps[1..])
  }

  /** What has been settled stays settled: links, and the answers already given. */
  predicate Settles(s: State, t: State) {
    && (forall a :: a in s.links ==> a in t.links && t.links[a] == s.links[a])
    && (forall c :: c in s.callers ==> c in t.callers && t.callers[c].account == s.callers[c].account)
    && (forall c :: c in s.callers && s.callers[c].phase.Returned? ==> t.callers[c] == s.callers[c])
  }

  lemma SettlesFurther(s: State, t: State, u: State)
    requires Settles(s, t) && Settles(t, u)
    ensures Settles(s, u)
  {
  }

  lemma StepSettles(s: State, step: Step)
    requires Invariant(s) && Enabled(s, step)
    ensures Settles(s, Apply(s, step))
  {
    StepKeepsLinks(s, step);
  }

  lemma {:induction false} RunKeeps(s: State, steps: seq<Step>)
    requires Invariant(s) && IsRun(s, steps)
    ensures Invariant(After(s, steps)) && Settles(s, After(s, steps))
    decreases |steps|
  {
    if steps != [] {
      var t := Apply(s, steps[0]);
      StepKeepsInvariant(s, steps[0]);
      StepSettles(s, steps[0]);
      RunKeeps(t, steps[1..]);
      SettlesFurther(s, t, After(t, steps[1..]));
    }
  }

  /** The users whose row was made for an account. */
  function MadeFor(s: State, account: Account): set<UserId> {
    set u | u in s.users && s.users[u] == account
  }

  /**
   * Concurrent first sign-ins agree: any two calls for one account that have returned, at any two points of any run,
   * returned the same id; it is the only user ever made for the account; and a lookup at any later point finds it.
   */
  lemma EveryCallerAgrees(s: State, steps: seq<Step>, more: seq<Step>, c: nat, d: nat)
    requires Invariant(s) && IsRun(s, steps) && IsRun(After(s, steps), more)
    requires c in After(s, steps).callers && After(s, steps).callers[c].phase.Returned?
    requires d in After(After(s, steps), more).callers && After(After(s, steps), more).callers[d].phase.Returned?
    requires After(After(s, steps), more).callers[d].account == After(s, steps).callers[c].account
    ensures var account := After(s, steps).callers[c].account;
      var id := After(s, steps).callers[c].phase.id;
      var t := After(After(s, steps), more);
      && t.callers[d].phase.id == id
      && account in t.links && t.links[account] == id
      && MadeFor(t, account) == {id}
  {
    RunKeeps(s, steps);
    RunKeeps(After(s, steps), more);
    var t := After(After(s, steps), more);
    assert CallerInvariant(After(s, steps), c);
    assert CallerInvariant(t, c) && CallerInvariant(t, d);
  }

  /** The loud failure kept for an impossible re-read really is impossible. */
  lemma NoLinkRaceError(s: State, steps: seq<Step>, c: nat)
    requires Invariant(s) && IsRun(s, steps) && c in After(s, steps).callers
    ensures After(s, steps).callers[c].phase != LinkRaceError
  {
    RunKeeps(s, steps);
    assert CallerInvariant(After(s, steps), c);
  }

  /** However many calls give up or lose, no account is left with an unlinked user or more than one. */
  lemma NoOrphans(s: State, steps: seq<Step>, u: UserId)
    requires Invariant(s) && IsRun(s, steps) && u in After(s, steps).users
    ensures var t := After(s, steps);
      t.users[u] in t.links && t.links[t.users[u]] == u && MadeFor(t, t.users[u]) == {u}
  {
    RunKeeps(s, steps);
  }

  /** Nothing blocks for ever: unless every call is over, some call can take a step. */
  lemma SomeoneCanMove(s: State, c: nat) returns (step: Step)
    requires Invariant(s) && c in s.callers && !s.callers[c].phase.Returned? && s.callers[c].phase != Aborted
    ensures Enabled(s, step) && !step.Call? && !step.Abort?
  {
    assert CallerInvariant(s, c);
    match s.callers[c].phase
    case Called => step := Lookup(c);
    case NotLinked => step := InsertUser(c);
    case UserInserted =>
      if LinkPending(s, c, s.callers[c].account) {
        var d :| d in s.callers && d != c && s.callers[d].account == s.callers[c].account
          && s.callers[d].phase == LinkInserted;
        step := Commit(d);
      } else {
        step := InsertLink(c);
      }
    case LinkInserted => step := Commit(c);
    case Conflicted => step := Reread(c);
  }

  // ---------- one call, as the code performs it ----------

  class Directory {
    var users: map<UserId, Account>
    var links: map<Account, UserId>

    constructor ()
      ensures users == map[] && links == map[]
    {
      users, links := map[], map[];
    }

    method LookupUserId(account: Account) returns (found: Option<UserId>)
      ensures found == if account in links then Some(links[account]) else None
    {
      if account in links {
        found := Some(links[account]);
      } else {
        found := None;
      }
    }

    /** Link unless the account is linked already; either way, say which user is. */
    method LinkIdentity(own: UserId, account: Account) returns (linked: UserId)
      modifies this`links
      ensures account in links && links[account] == linked
      ensures if account in old(links) then links == old(links) else links == old(links)[account := own]
    {
      if account !in links {
        links := links[account := own];
      }
      linked := links[account];
    }

    /** Another call for the same account commits first. */
    method CommitOther(account: Account, winner: UserId)
      requires account !in links
      modifies this
      ensures users == old(users)[winner := account] && links == old(links)[account := winner]
    {
      users := users[winner := account];
      links := links[account := winner];
    }

    /** `own` is freshly minted; `race` is a user another call links between this one's lookup and its own link. */
    method ProvisionLinkedUser(account: Account, own: UserId, race: Option<UserId>) returns (id: UserId)
      requires Paired(users, links) && own !in users
      requires race.Some? ==> race.value !in users && race.value != own
      modifies this
      ensures Paired(users, links)
      ensures account in links && links[account] == id
      ensures account in old(links) ==> id == old(links)[account] && users == old(users) && links == old(links)
      ensures account !in old(links) ==>
                && id == (if race.Some? then race.value else own)
                && users == old(users)[id := account] && links == old(links)[account := id]
    {
      var already := LookupUserId(account);
      if already.Some? {
        return already.value;
      }
      if race.Some? {
        CommitOther(account, race.value);
      }
      var savedUsers, savedLinks := users, links;
      users := users[own := account];
      var linked := LinkIdentity(own, account);
      if linked != own {
        users, links := savedUsers, savedLinks;
        return linked;
      }
      return own;
    }
  }
}
