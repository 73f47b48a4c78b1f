/**
 Owners stepping down at once. Each runs `change_role` on themselves in a transaction of its own:
 an unlocked read of their membership, then one SELECT … FOR UPDATE of the organization's owners
 (a snapshot of the rows that match, locked one by one, each matched again once its lock is granted),
 then the check, the write and the commit. Locks are held to the end.
 */
module StepDown {
  import opened Organization

  type Txn = nat

  datatype Phase =
    | Idle
    | Begun
    | Locking(pending: set<UserId>, found: set<UserId>)
    | Passed(found: set<UserId>)
    | Over

  /** One request: who steps down, to what, and how far it got. */
  datatype Request = Request(user: UserId, role: Role, phase: Phase)

  /** The committed rows, who holds each membership row's lock, and the requests. */
  datatype Db = Db(rows: State, locks: map<UserId, Txn>, requests: map<Txn, Request>)

  datatype Action =
    | Begin(txn: Txn)
    | Select(txn: Txn)
    | Lock(txn: Txn, row: UserId)
    | Check(txn: Txn)
    | LockOwn(txn: Txn)
    | Commit(txn: Txn)
    | Abort(txn: Txn)

  predicate Holds(db: Db, txn: Txn, row: UserId) {
    row in db.locks && db.locks[row] == txn
  }

  predicate MayLock(db: Db, txn: Txn, row: UserId) {
    row !in db.locks || db.locks[row] == txn
  }

  /** `locked` is whether the owners are read FOR UPDATE, as `_active_owners(lock=True)` does. */
  predicate Enabled(db: Db, org: OrgId, action: Action) {
    action.txn in db.requests
    && var request := db.requests[action.txn];
    match action
    case Begin(_) => request.phase == Idle && request.role != Owner && IsActiveOwner(db.rows, org, request.user)
    case Select(_) => request.phase == Begun
    case Lock(txn, row) => request.phase.Locking? && row in request.phase.pending && MayLock(db, txn, row)
    case Check(_) => request.phase.Locking? && request.phase.pending == {}
    case LockOwn(txn) => request.phase.Passed? && request.user in db.rows.members && MayLock(db, txn, request.user)
    case Commit(txn) => request.phase.Passed? && request.user in db.rows.members && Holds(db, txn, request.user)
    case Abort(_) => true
  }

  function In(db: Db, txn: Txn, phase: Phase): Db
    requires txn in db.requests
  {
    db.(requests := db.requests[txn := db.requests[txn].(phase := phase)])
  }

  function Released(db: Db, txn: Txn): Db
    requires txn in db.requests
  {
    In(db, txn, Over).(locks := map row | row in db.locks && db.locks[row] != txn :: db.locks[row])
  }

  function Next(db: Db, org: OrgId, action: Action, locked: bool): Db
    requires Enabled(db, org, action)
  {
    var request := db.requests[action.txn];
    match action
    case Begin(txn) => In(db, txn, Begun)
    case Select(txn) =>
      if locked then In(db, txn, Locking(ActiveOwners(db.rows, org), {}))
      else In(db, txn, Locking({}, ActiveOwners(db.rows, org)))
    case Lock(txn, row) =>
      var found := if IsActiveOwner(db.rows, org, row) then request.phase.found + {row} else request.phase.found;
      In(db, txn, Locking(request.phase.pending - {row}, found)).(locks := db.locks[row := txn])
    case Check(txn) =>
      if request.phase.found - {request.user} != {} then In(db, txn, Passed(request.phase.found)) else Released(db, txn)
    case LockOwn(txn) => db.(locks := db.locks[request.user := txn])
    case Commit(txn) => Released(db, txn).(rows := WithRole(db.rows, request.user, request.role))
    case Abort(txn) => Released(db, txn)
  }

  ghost predicate IsInterleaving(dbs: seq<Db>, actions: seq<Action>, org: OrgId, locked: bool) {
    && |dbs| == |actions| + 1
    && (forall txn | txn in dbs[0].requests :: dbs[0].requests[txn].phase == Idle)
    && forall i :: 0 <= i < |actions| ==>
         Enabled(dbs[i], org, actions[i]) && dbs[i + 1] == Next(dbs[i], org, actions[i], locked)
  }

  function Found(request: Request): set<UserId> {
    if request.phase.Locking? || request.phase.Passed? then request.phase.found else {}
  }

  /** What a request found are owners still, since it holds their rows; past its check, one is someone else. */
  ghost predicate Protects(db: Db, org: OrgId, txn: Txn)
    requires txn in db.requests
  {
    var request := db.requests[txn];
    && (forall row | row in Found(request) :: Holds(db, txn, row) && IsActiveOwner(db.rows, org, row))
    && (request.phase.Passed? ==> request.phase.found - {request.user} != {})
  }

  ghost predicate LocksProtect(db: Db, org: OrgId) {
    forall txn | txn in db.requests :: Protects(db, org, txn)
  }

  lemma StepProtects(db: Db, org: OrgId, action: Action)
    requires Enabled(db, org, action) && LocksProtect(db, org)
    ensures LocksProtect(Next(db, org, action, true), org)
  {
    var next, txn := Next(db, org, action, true), action.txn;
    forall other | other in next.requests ensures Protects(next, org, other) {
      assert Protects(db, org, other);
      if other != txn {
        OthersKeepTheirs(db, org, action, other);
      } else {
        ItKeepsItsOwn(db, org, action);
      }
    }
  }

  /** A request's own step keeps what it found, and adds only an owner it has just locked. */
  lemma ItKeepsItsOwn(db: Db, org: OrgId, action: Action)
    requires Enabled(db, org, action) && Protects(db, org, action.txn)
    ensures Protects(Next(db, org, action, true), org, action.txn)
  {
    var next, txn := Next(db, org, action, true), action.txn;
    forall row | row in Found(next.requests[txn])
      ensures Holds(next, txn, row) && IsActiveOwner(next.rows, org, row)
    {
      assert row in Found(db.requests[txn]) ==> Holds(db, txn, row) && IsActiveOwner(db.rows, org, row);
    }
  }

  /** A step of one request leaves what another found as it was. */
  lemma OthersKeepTheirs(db: Db, org: OrgId, action: Action, other: Txn)
    requires Enabled(db, org, action) && other in db.requests && other != action.txn && Protects(db, org, other)
    ensures Protects(Next(db, org, action, true), org, other)
  {
    var next := Next(db, org, action, true);
    assert next.requests[other] == db.requests[other];
    forall row | row in Found(db.requests[other])
      ensures Holds(next, other, row) && IsActiveOwner(next.rows, org, row)
    {
      assert Holds(db, other, row) && IsActiveOwner(db.rows, org, row);
    }
  }

  lemma StepLeavesAnOwner(db: Db, org: OrgId, action: Action)
    requires Enabled(db, org, action) && LocksProtect(db, org) && HasOwner(db.rows, org)
    ensures HasOwner(Next(db, org, action, true).rows, org)
  {
    if action.Commit? {
      var request := db.requests[action.txn];
      assert Protects(db, org, action.txn);
      var other :| other in request.phase.found - {request.user};
      assert other in Found(request) && IsActiveOwner(db.rows, org, other);
      assert IsActiveOwner(Next(db, org, action, true).rows, org, other);
    }
  }

  /** However any number of step-downs interleave, every committed state has an active owner. */
  lemma {:induction false} InterleavingsKeepAnOwner(dbs: seq<Db>, actions: seq<Action>, org: OrgId, n: nat)
    requires IsInterleaving(dbs, actions, org, true) && n <= |actions| && HasOwner(dbs[0].rows, org)
    ensures HasOwner(dbs[n].rows, org) && LocksProtect(dbs[n], org)
    decreases n
  {
    if n > 0 {
      InterleavingsKeepAnOwner(dbs, actions, org, n - 1);
      StepProtects(dbs[n - 1], org, actions[n - 1]);
      StepLeavesAnOwner(dbs[n - 1], org, actions[n - 1]);
    }
  }

  /** Every lock is held by a request between its select and its end. */
  ghost predicate LocksAreLive(db: Db) {
    forall row | row in db.locks :: db.locks[row] in db.requests && IsLive(db.requests[db.locks[row]])
  }

  predicate IsLive(request: Request) {
    request.phase.Locking? || request.phase.Passed?
  }

  /** A step-down finished, committed or not, leaves no lock behind. */
  lemma {:induction false} FinishedHoldNothing(dbs: seq<Db>, actions: seq<Action>, org: OrgId, n: nat)
    requires IsInterleaving(dbs, actions, org, true) && n <= |actions| && dbs[0].locks == map[]
    ensures LocksAreLive(dbs[n])
    decreases n
  {
    if n > 0 {
      FinishedHoldNothing(dbs, actions, org, n - 1);
      var db, next := dbs[n - 1], dbs[n];
      forall row | row in next.locks ensures next.locks[row] in next.requests && IsLive(next.requests[next.locks[row]]) {
        assert row in db.locks ==> IsLive(db.requests[db.locks[row]]);
      }
    }
  }

  /** A request may end without a change at any point, letting go of its locks and no other. */
  lemma AbortingChangesNothing(db: Db, org: OrgId, txn: Txn, locked: bool, row: UserId)
    requires txn in db.requests
    ensures Enabled(db, org, Abort(txn)) && Next(db, org, Abort(txn), locked).rows == db.rows
    ensures var next := Next(db, org, Abort(txn), locked);
      && (row in next.locks <==> row in db.locks && db.locks[row] != txn)
      && (row in next.locks ==> next.locks[row] == db.locks[row])
      && next.requests[txn] == db.requests[txn].(phase := Over)
  {
  }

  /** A commit writes the request's role in its user's row alone, and the request is over, its locks let go. */
  lemma CommitWrites(db: Db, org: OrgId, txn: Txn, locked: bool, row: UserId)
    requires Enabled(db, org, Commit(txn))
    ensures var request, next := db.requests[txn], Next(db, org, Commit(txn), locked);
      && next.rows == State(db.rows.users, db.rows.members[request.user := Membership(db.rows.members[request.user].org, request.role)])
      && (row in next.locks <==> row in db.locks && db.locks[row] != txn)
      && next.requests == db.requests[txn := request.(phase := Over)]
  {
  }

  // ---------------------------------------------------------------- Commits as single steps

  /** No lock held and no request begun. */
  ghost predicate Starts(db: Db) {
    db.locks == map[] && forall txn | txn in db.requests :: db.requests[txn].phase == Idle
  }

  /** An owner asks to step down to two roles at once, the second above the first, and is not the last owner. */
  ghost predicate Clash(db: Db, org: OrgId, first: Txn, second: Txn) {
    && first in db.requests && second in db.requests
    && var a, b := db.requests[first], db.requests[second];
    && a.user == b.user && Rank(a.role) < Rank(b.role) < Rank(Owner)
    && IsActiveOwner(db.rows, org, a.user) && ActiveOwners(db.rows, org) - {a.user} != {}
  }

  ghost predicate Clashes(db: Db, org: OrgId) {
    exists first, second :: Clash(db, org, first, second)
  }

  /** The rule for changing one's own role allows what a request writes. */
  predicate IsAllowed(db: Db, txn: Txn) {
    && txn in db.requests
    && var request := db.requests[txn];
    ChangeRoleOutcome(db.rows, request.user, request.user, request.role) == Done
  }

  predicate IsBegun(request: Request) {
    request.phase == Begun || IsLive(request)
  }

  /** A role its owner asked for. */
  ghost predicate IsAsked(start: Db, user: UserId, role: Role) {
    exists txn :: txn in start.requests && start.requests[txn].user == user && start.requests[txn].role == role
  }

  /** A request under way is of an owner the organization had, at a role still owner or one they asked for. */
  ghost predicate UnderWay(start: Db, db: Db, org: OrgId, request: Request) {
    && request.role != Owner && IsActiveOwner(start.rows, org, request.user)
    && request.user in db.rows.members && db.rows.members[request.user].org == org
    && (db.rows.members[request.user].role == Owner || IsAsked(start, request.user, db.rows.members[request.user].role))
  }

  /** What an interleaving keeps of where it started. */
  ghost predicate Follows(start: Db, db: Db, org: OrgId) {
    && db.rows.users == start.rows.users && db.requests.Keys == start.requests.Keys
    && (forall user | user in db.rows.members && IsActiveOwner(db.rows, org, user) :: IsActiveOwner(start.rows, org, user))
    && (forall txn | txn in db.requests :: db.requests[txn] == start.requests[txn].(phase := db.requests[txn].phase))
    && (forall txn | txn in db.requests && IsBegun(db.requests[txn]) :: UnderWay(start, db, org, db.requests[txn]))
  }

  lemma StepFollows(start: Db, db: Db, org: OrgId, action: Action)
    requires Enabled(db, org, action) && Follows(start, db, org)
    ensures Follows(start, Next(db, org, action, true), org)
  {
    var next := Next(db, org, action, true);
    forall txn | txn in next.requests && IsBegun(next.requests[txn]) ensures UnderWay(start, next, org, next.requests[txn]) {
      StaysUnderWay(start, db, org, action, txn);
    }
    RequestsStay(db, org, action);
    hide UnderWay, IsActiveOwner, Next, Enabled;
    forall user | user in next.rows.members && IsActiveOwner(next.rows, org, user) ensures IsActiveOwner(start.rows, org, user) {
      NobodyBecomesOwner(db, org, action, user);
    }
  }

  /** A step changes the phase of a request at most, and only a commit writes a row. */
  lemma RequestsStay(db: Db, org: OrgId, action: Action)
    requires Enabled(db, org, action)
    ensures var next := Next(db, org, action, true);
      && next.requests.Keys == db.requests.Keys && next.rows.users == db.rows.users
      && (forall txn | txn in db.requests :: next.requests[txn] == db.requests[txn].(phase := next.requests[txn].phase))
      && (!action.Commit? ==> next.rows == db.rows)
  {
  }

  lemma NobodyBecomesOwner(db: Db, org: OrgId, action: Action, user: UserId)
    requires Enabled(db, org, action)
    requires IsActiveOwner(Next(db, org, action, true).rows, org, user)
    requires action.Commit? ==> db.requests[action.txn].role != Owner
    ensures user in db.rows.members && IsActiveOwner(db.rows, org, user)
  {
  }

  lemma StaysUnderWay(start: Db, db: Db, org: OrgId, action: Action, txn: Txn)
    requires Enabled(db, org, action) && Follows(start, db, org)
    requires var next := Next(db, org, action, true); txn in next.requests && IsBegun(next.requests[txn])
    ensures var next := Next(db, org, action, true); UnderWay(start, next, org, next.requests[txn])
  {
    var request, own := db.requests[txn], db.requests[action.txn];
    if !action.Begin? || txn != action.txn {
      assert IsBegun(request) && UnderWay(start, db, org, request);
      if action.Commit? && request.user == own.user {
        assert start.requests[action.txn].role == own.role && start.requests[action.txn].user == own.user;
      }
    }
  }

  lemma {:induction false} InterleavingsFollow(dbs: seq<Db>, actions: seq<Action>, org: OrgId, n: nat)
    requires IsInterleaving(dbs, actions, org, true) && n <= |actions|
    ensures Follows(dbs[0], dbs[n], org) && LocksProtect(dbs[n], org)
    decreases n
  {
    if n > 0 {
      InterleavingsFollow(dbs, actions, org, n - 1);
      StepFollows(dbs[0], dbs[n - 1], org, actions[n - 1]);
      StepProtects(dbs[n - 1], org, actions[n - 1]);
    }
  }

  /** A commit is allowed when the role it writes is not above the one committed by then. */
  lemma AllowedByRank(start: Db, db: Db, org: OrgId, txn: Txn)
    requires Enabled(db, org, Commit(txn)) && LocksProtect(db, org) && Follows(start, db, org)
    ensures var request := db.requests[txn];
            IsAllowed(db, txn) <==> Rank(request.role) <= RankOf(db.rows, request.user)
    ensures ActiveOwners(start.rows, org) - {db.requests[txn].user} != {}
  {
    var request := db.requests[txn];
    assert Protects(db, org, txn) && UnderWay(start, db, org, request);
    var other :| other in request.phase.found - {request.user};
    assert other in Found(request) && IsActiveOwner(db.rows, org, other);
    assert other in ActiveOwners(db.rows, org) - {request.user};
    assert other in ActiveOwners(start.rows, org) - {request.user};
  }

  /** Without a clash it never is. */
  lemma CommitIsAllowed(start: Db, db: Db, org: OrgId, txn: Txn)
    requires Enabled(db, org, Commit(txn)) && LocksProtect(db, org) && Follows(start, db, org) && !Clashes(start, org)
    ensures IsAllowed(db, txn)
  {
    AllowedByRank(start, db, org, txn);
    var request := db.requests[txn];
    assert UnderWay(start, db, org, request);
    var role := db.rows.members[request.user].role;
    if role != Owner {
      var other :| other in start.requests && start.requests[other].user == request.user && start.requests[other].role == role;
      assert !Clash(start, org, other, txn);
    }
  }

  lemma CommitIsApplied(settings: Settings, start: Db, db: Db, org: OrgId, txn: Txn)
    requires Enabled(db, org, Commit(txn)) && LocksProtect(db, org) && Follows(start, db, org) && !Clashes(start, org)
    ensures var request := db.requests[txn];
      request == start.requests[txn].(phase := request.phase)
      && Next(db, org, Commit(txn), true).rows == Apply(settings, db.rows, ChangeRole(request.user, request.user, request.role))
  {
    hide LocksProtect, Clashes;
    CommitIsAllowed(start, db, org, txn);
  }

  /** The changes of role committed, in their order. */
  function Committed(requests: map<Txn, Request>, actions: seq<Action>): seq<Op> {
    if actions == [] then []
    else
      var before, last := Committed(requests, actions[..|actions| - 1]), actions[|actions| - 1];
      if last.Commit? && last.txn in requests
      then before + [ChangeRole(requests[last.txn].user, requests[last.txn].user, requests[last.txn].role)]
      else before
  }

  lemma OneState(settings: Settings, rows: State)
    ensures IsRun(settings, [rows], [])
  {
  }

  /** Without a clash every interleaving is a run of the organization, one allowed step a commit. */
  lemma {:induction false} CommittedStatesAreARun(settings: Settings, dbs: seq<Db>, actions: seq<Action>, org: OrgId, n: nat)
    returns (states: seq<State>)
    requires IsInterleaving(dbs, actions, org, true) && n <= |actions| && !Clashes(dbs[0], org)
    ensures var ops := Committed(dbs[0].requests, actions[..n]);
      IsRun(settings, states, ops) && states[0] == dbs[0].rows && states[|ops|] == dbs[n].rows
    decreases n
  {
    hide Follows, LocksProtect, Clashes, IsRun, Apply, Next;
    if n == 0 {
      OneState(settings, dbs[0].rows);
      states := [dbs[0].rows];
    } else {
      var db, action := dbs[n - 1], actions[n - 1];
      var ops := Committed(dbs[0].requests, actions[..n - 1]);
      RequestsStay(db, org, action);
      states := CommittedStatesAreARun(settings, dbs, actions, org, n - 1);
      InterleavingsFollow(dbs, actions, org, n - 1);
      assert actions[..n][..n - 1] == actions[..n - 1];
      if action.Commit? {
        var request := db.requests[action.txn];
        CommitIsApplied(settings, dbs[0], db, org, action.txn);
        RunGoesOn(settings, states, ops, ChangeRole(request.user, request.user, request.role), dbs[n].rows);
        states := states + [dbs[n].rows];
      }
    }
  }

  // ---------------------------------------------------------------- Building interleavings

  /** The interleaving so far ends in `last`, from `start`. */
  ghost predicate Reaches(dbs: seq<Db>, actions: seq<Action>, org: OrgId, locked: bool, start: Db, last: Db) {
    IsInterleaving(dbs, actions, org, locked) && dbs[0] == start && dbs[|actions|] == last
  }

  lemma GoesOn(dbs: seq<Db>, actions: seq<Action>, org: OrgId, locked: bool, start: Db, last: Db, action: Action)
    returns (dbs': seq<Db>, actions': seq<Action>, next: Db)
    requires Reaches(dbs, actions, org, locked, start, last) && Enabled(last, org, action)
    ensures next == Next(last, org, action, locked) && Reaches(dbs', actions', org, locked, start, next)
    ensures dbs' == dbs + [next] && actions' == actions + [action]
  {
    next := Next(last, org, action, locked);
    dbs', actions' := dbs + [next], actions + [action];
  }

  lemma StartReaches(start: Db, org: OrgId, locked: bool)
    requires forall txn | txn in start.requests :: start.requests[txn].phase == Idle
    ensures Reaches([start], [], org, locked, start, start)
  {
  }

  /** A request alone with the locks takes those of all the rows it selected, one by one. */
  lemma {:induction false} LocksAll(dbs: seq<Db>, actions: seq<Action>, org: OrgId, start: Db, last: Db, txn: Txn,
                                    pending: set<UserId>, found: set<UserId>)
    returns (dbs': seq<Db>, actions': seq<Action>, next: Db)
    requires Reaches(dbs, actions, org, true, start, last) && txn in last.requests
    requires last.requests[txn].phase == Locking(pending, found) && pending <= ActiveOwners(last.rows, org)
    requires forall row | row in last.locks :: last.locks[row] == txn
    ensures Reaches(dbs', actions', org, true, start, next) && next.rows == last.rows
    ensures next.requests == last.requests[txn := last.requests[txn].(phase := Locking({}, found + pending))]
    ensures forall row | row in next.locks :: next.locks[row] == txn
    decreases |pending|
  {
    hide Reaches;
    if pending == {} {
      assert found + pending == found;
      assert last.requests == last.requests[txn := last.requests[txn].(phase := Locking({}, found + pending))];
      dbs', actions', next := dbs, actions, last;
    } else {
      var row :| row in pending;
      dbs', actions', next := GoesOn(dbs, actions, org, true, start, last, Lock(txn, row));
      dbs', actions', next := LocksAll(dbs', actions', org, start, next, txn, pending - {row}, found + {row});
      assert found + {row} + (pending - {row}) == found + pending;
    }
  }

  /** Begun and alone with the locks, a step-down goes on to its commit when another owner is left. */
  lemma GoesOnAlone(dbs: seq<Db>, actions: seq<Action>, org: OrgId, start: Db, last: Db, txn: Txn)
    returns (dbs': seq<Db>, actions': seq<Action>, ready: Db)
    requires Reaches(dbs, actions, org, true, start, last) && last.locks == map[]
    requires txn in last.requests && last.requests[txn].phase == Begun && last.requests[txn].user in last.rows.members
    requires ActiveOwners(last.rows, org) - {last.requests[txn].user} != {}
    ensures Reaches(dbs', actions', org, true, start, ready) && ready.rows == last.rows && Enabled(ready, org, Commit(txn))
    ensures ready.requests == last.requests[txn := last.requests[txn].(phase := Passed(ActiveOwners(last.rows, org)))]
    ensures forall row | row in ready.locks :: ready.locks[row] == txn
  {
    hide Reaches;
    var owners := ActiveOwners(last.rows, org);
    dbs', actions', ready := GoesOn(dbs, actions, org, true, start, last, Select(txn));
    dbs', actions', ready := LocksAll(dbs', actions', org, start, ready, txn, owners, {});
    assert {} + owners == owners;
    dbs', actions', ready := GoesOn(dbs', actions', org, true, start, ready, Check(txn));
    dbs', actions', ready := GoesOn(dbs', actions', org, true, start, ready, LockOwn(txn));
  }

  /** Both step-downs of a clash have begun, and the first has committed. */
  lemma FirstCommits(start: Db, org: OrgId, first: Txn, second: Txn) returns (dbs: seq<Db>, actions: seq<Action>, last: Db)
    requires Starts(start) && Clash(start, org, first, second)
    ensures Reaches(dbs, actions, org, true, start, last) && last.locks == map[]
    ensures last.rows == WithRole(start.rows, start.requests[first].user, start.requests[first].role)
    ensures second in last.requests && last.requests[second] == start.requests[second].(phase := Begun)
  {
    hide Reaches;
    var user := start.requests[first].user;
    dbs, actions, last := [start], [], start;
    StartReaches(start, org, true);
    dbs, actions, last := GoesOn(dbs, actions, org, true, start, last, Begin(first));
    dbs, actions, last := GoesOn(dbs, actions, org, true, start, last, Begin(second));
    dbs, actions, last := GoesOnAlone(dbs, actions, org, start, last, first);
    dbs, actions, last := GoesOn(dbs, actions, org, true, start, last, Commit(first));
  }

  /** Then the second commits above the first: from every start with a clash an interleaving raises a rank. */
  lemma SecondStepDownMayRaise(start: Db, org: OrgId, first: Txn, second: Txn) returns (dbs: seq<Db>, actions: seq<Action>)
    requires Starts(start) && Clash(start, org, first, second)
    ensures IsInterleaving(dbs, actions, org, true) && dbs[0] == start
    ensures actions != [] && actions[|actions| - 1] == Commit(second) && !IsAllowed(dbs[|actions| - 1], second)
    ensures var user := start.requests[first].user;
      RankOf(dbs[|actions|].rows, user) > RankOf(dbs[|actions| - 1].rows, user)
  {
    var user, last := start.requests[first].user, start;
    dbs, actions, last := FirstCommits(start, org, first, second);
    var other :| other in ActiveOwners(start.rows, org) - {user};
    assert other in ActiveOwners(last.rows, org) - {user};
    var ready;
    dbs, actions, ready := GoesOnAlone(dbs, actions, org, start, last, second);
    var n := |actions|;
    assert dbs[n] == ready;
    dbs, actions, last := GoesOn(dbs, actions, org, true, start, ready, Commit(second));
    assert dbs[n] == ready && actions[n] == Commit(second);
  }

  /** Every commit of every interleaving from a start is an allowed single step. */
  ghost predicate EveryCommitIsAStep(start: Db, org: OrgId) {
    forall dbs: seq<Db>, actions: seq<Action>, n: nat ::
      IsInterleaving(dbs, actions, org, true) && dbs[0] == start && n < |actions| && actions[n].Commit?
      ==> IsAllowed(dbs[n], actions[n].txn)
  }

  /** So interleaved step-downs are single steps one after another exactly when no owner's own two clash. */
  lemma CommitsAreStepsIff(start: Db, org: OrgId)
    requires Starts(start)
    ensures EveryCommitIsAStep(start, org) <==> !Clashes(start, org)
  {
    if Clashes(start, org) {
      var first, second :| Clash(start, org, first, second);
      var dbs, actions := SecondStepDownMayRaise(start, org, first, second);
      assert actions[|actions| - 1].Commit?;
    } else {
      forall dbs: seq<Db>, actions: seq<Action>, n: nat |
        IsInterleaving(dbs, actions, org, true) && dbs[0] == start && n < |actions| && actions[n].Commit?
        ensures IsAllowed(dbs[n], actions[n].txn)
      {
        InterleavingsFollow(dbs, actions, org, n);
        CommitIsAllowed(start, dbs[n], org, actions[n].txn);
      }
    }
  }

  // ---------------------------------------------------------------- Without the locks

  /** Two owners of organization 0, 1 and 2, and two requests. */
  function TwoOwners(first: Request, second: Request): Db {
    Db(State(map[1 := User(true, true, ""), 2 := User(true, true, "")],
             map[1 := Membership(0, Owner), 2 := Membership(0, Owner)]),
       map[], map[1 := first, 2 := second])
  }

  /** Two owners read the owners before either writes. */
  lemma BothSelect() returns (dbs: seq<Db>, actions: seq<Action>)
    ensures Reaches(dbs, actions, 0, false, TwoOwners(Request(1, Member, Idle), Request(2, Member, Idle)),
                    TwoOwners(Request(1, Member, Locking({}, {1, 2})), Request(2, Member, Locking({}, {1, 2}))))
  {
    hide Reaches;
    var start := TwoOwners(Request(1, Member, Idle), Request(2, Member, Idle));
    var last := start;
    dbs, actions := [start], [];
    StartReaches(start, 0, false);
    dbs, actions, last := GoesOn(dbs, actions, 0, false, start, last, Begin(1));
    dbs, actions, last := GoesOn(dbs, actions, 0, false, start, last, Begin(2));
    assert last == TwoOwners(Request(1, Member, Begun), Request(2, Member, Begun));
    assert ActiveOwners(last.rows, 0) == {1, 2};
    dbs, actions, last := GoesOn(dbs, actions, 0, false, start, last, Select(1));
    dbs, actions, last := GoesOn(dbs, actions, 0, false, start, last, Select(2));
    assert last == TwoOwners(Request(1, Member, Locking({}, {1, 2})), Request(2, Member, Locking({}, {1, 2})));
  }

  /** So both pass the check. */
  lemma BothPass() returns (dbs: seq<Db>, actions: seq<Action>)
    ensures Reaches(dbs, actions, 0, false, TwoOwners(Request(1, Member, Idle), Request(2, Member, Idle)),
                    TwoOwners(Request(1, Member, Passed({1, 2})), Request(2, Member, Passed({1, 2}))))
  {
    hide Reaches;
    var start := TwoOwners(Request(1, Member, Idle), Request(2, Member, Idle));
    var last := TwoOwners(Request(1, Member, Locking({}, {1, 2})), Request(2, Member, Locking({}, {1, 2})));
    dbs, actions := BothSelect();
    assert 2 in {1, 2} - {1} && 1 in {1, 2} - {2};
    dbs, actions, last := GoesOn(dbs, actions, 0, false, start, last, Check(1));
    dbs, actions, last := GoesOn(dbs, actions, 0, false, start, last, Check(2));
    assert last == TwoOwners(Request(1, Member, Passed({1, 2})), Request(2, Member, Passed({1, 2})));
  }

  /** Without the locks, two owners stepping down at once both pass the check, and none is left. */
  lemma WithoutLocksBothLeave() returns (dbs: seq<Db>, actions: seq<Action>)
    ensures IsInterleaving(dbs, actions, 0, false)
    ensures HasOwner(dbs[0].rows, 0) && !HasOwner(dbs[|actions|].rows, 0)
  {
    var start := TwoOwners(Request(1, Member, Idle), Request(2, Member, Idle));
    var last := TwoOwners(Request(1, Member, Passed({1, 2})), Request(2, Member, Passed({1, 2})));
    dbs, actions := BothPass();
    assert IsActiveOwner(start.rows, 0, 1);
    dbs, actions, last := GoesOn(dbs, actions, 0, false, start, last, LockOwn(1));
    dbs, actions, last := GoesOn(dbs, actions, 0, false, start, last, Commit(1));
    dbs, actions, last := GoesOn(dbs, actions, 0, false, start, last, LockOwn(2));
    dbs, actions, last := GoesOn(dbs, actions, 0, false, start, last, Commit(2));
  }
}
