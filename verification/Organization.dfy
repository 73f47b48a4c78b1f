/**
 The organization's members and the rules for their roles: members rank below admins, admins below
 owners. Each operation is one step on the tables of users and memberships; a refused one changes nothing.
 */
module Organization {
  type UserId = nat
  type OrgId = nat

  datatype Role = Member | Admin | Owner

  function Rank(role: Role): nat {
    match role
    case Member => 0
    case Admin => 1
    case Owner => 2
  }

  datatype User = User(isPerson: bool, isActive: bool, email: string)

  datatype Membership = Membership(org: OrgId, role: Role)

  datatype State = State(users: map<UserId, User>, members: map<UserId, Membership>)

  /** The deployment: the organization accounts join, who is on its domain, whose address the first owner's is. */
  datatype Settings = Settings(defaultOrg: OrgId, onDomain: string -> bool, isBootstrapAddress: string -> bool)

  datatype Error = ServiceAccountNotAllowed | NotAllowed | NotAMember | LastOwner | CannotRemoveSelf

  datatype Outcome = Done | Refused(error: Error)

  predicate IsActivePerson(s: State, user: UserId) {
    user in s.users && s.users[user].isActive && s.users[user].isPerson
  }

  predicate IsActiveOwner(s: State, org: OrgId, user: UserId) {
    user in s.members && s.members[user] == Membership(org, Owner) && IsActivePerson(s, user)
  }

  function ActiveOwners(s: State, org: OrgId): set<UserId> {
    set user | user in s.members && IsActiveOwner(s, org, user)
  }

  predicate IsOwner(s: State, user: UserId) {
    user in s.members && s.members[user].role == Owner
  }

  // ---------------------------------------------------------------- The rules

  /** Why the actor can't reach the target at all: neither a person's account nor in one organization. */
  function Unreachable(s: State, actor: UserId, target: UserId): (error: Outcome)
    ensures error == Done ==> actor in s.members && target in s.members && s.members[actor].org == s.members[target].org
  {
    if actor !in s.users || !s.users[actor].isPerson then Refused(ServiceAccountNotAllowed)
    else if actor !in s.members then Refused(NotAllowed)
    else if target !in s.members || s.members[target].org != s.members[actor].org || target !in s.users || !s.users[target].isPerson
      then Refused(NotAMember)
    else Done
  }

  function ChangeRoleOutcome(s: State, actor: UserId, target: UserId, role: Role): (outcome: Outcome)
    ensures outcome == Done ==> target in s.members
  {
    var reach := Unreachable(s, actor, target);
    if reach != Done then reach
    else
      var mine, theirs := s.members[actor], s.members[target];
      if target == actor && Rank(role) > Rank(mine.role) then Refused(NotAllowed)
      else if target != actor && mine.role != Owner then Refused(NotAllowed)
      else if target != actor && theirs.role == Owner then Refused(NotAllowed)
      else if theirs.role == Owner && role != Owner && ActiveOwners(s, theirs.org) - {target} == {} then Refused(LastOwner)
      else Done
  }

  function TransferOutcome(s: State, actor: UserId, target: UserId): (outcome: Outcome)
    ensures outcome == Done ==> actor in s.members && target in s.members
  {
    var reach := Unreachable(s, actor, target);
    if reach != Done then reach
    else if s.members[actor].role != Owner then Refused(NotAllowed)
    else if target == actor then Refused(NotAllowed)
    else if !s.users[target].isActive then Refused(NotAMember)
    else Done
  }

  function RemoveOutcome(s: State, actor: UserId, target: UserId): (outcome: Outcome)
    ensures outcome == Done ==> target in s.members && target in s.users
  {
    if target == actor then Refused(CannotRemoveSelf)
    else
      var reach := Unreachable(s, actor, target);
      if reach != Done then reach
      else if s.members[actor].role == Member || Rank(s.members[target].role) >= Rank(s.members[actor].role) then Refused(NotAllowed)
      else Done
  }

  function WithRole(s: State, user: UserId, role: Role): State
    requires user in s.members
  {
    s.(members := s.members[user := s.members[user].(role := role)])
  }

  /** A new account joins as a member, or as owner if it is the configured first one and none is left. */
  function Joined(settings: Settings, s: State, user: UserId): State
    requires user in s.users
  {
    if user in s.members || !s.users[user].isPerson || !settings.onDomain(s.users[user].email) then s
    else
      var first := settings.isBootstrapAddress(s.users[user].email) && ActiveOwners(s, settings.defaultOrg) == {};
      s.(members := s.members[user := Membership(settings.defaultOrg, if first then Owner else Member)])
  }

  /** Whom the startup adds: open accounts of people on the organization's domain. */
  predicate Joins(settings: Settings, user: User) {
    user.isActive && user.isPerson && settings.onDomain(user.email)
  }

  /** The startup's break-glass: the configured first owner, when the organization has none. */
  predicate MayPromote(settings: Settings, s: State, user: UserId) {
    ActiveOwners(s, settings.defaultOrg) == {} && IsFirstOwner(settings, s, user) && user in s.members
  }

  /** An open account with the configured first owner's address. */
  predicate IsFirstOwner(settings: Settings, s: State, user: UserId) {
    IsActivePerson(s, user) && settings.isBootstrapAddress(s.users[user].email)
  }

  /** At most one account is the configured first owner's. */
  ghost predicate OneBootstrapAccount(settings: Settings, s: State) {
    forall a, b :: IsFirstOwner(settings, s, a) && IsFirstOwner(settings, s, b) ==> a == b
  }

  datatype Op =
    | ChangeRole(actor: UserId, target: UserId, role: Role)
    | Transfer(actor: UserId, target: UserId)
    | Remove(actor: UserId, target: UserId)
    | SignUp(user: UserId, email: string)
    | Join(user: UserId)
    | Promote(user: UserId)

  /** Only an account that exists and is open joins: registration, sign-in and startup each check it. */
  predicate CanHappen(settings: Settings, s: State, op: Op) {
    match op
    case SignUp(user, email) => user !in s.users
    case Join(user) => user in s.users && s.users[user].isActive
    case Promote(user) => MayPromote(settings, s, user)
    case _ => true
  }

  function Apply(settings: Settings, s: State, op: Op): State
    requires CanHappen(settings, s, op)
  {
    match op
    case ChangeRole(actor, target, role) =>
      if ChangeRoleOutcome(s, actor, target, role) == Done then WithRole(s, target, role) else s
    case Transfer(actor, target) =>
      if TransferOutcome(s, actor, target) == Done then WithRole(WithRole(s, target, Owner), actor, Admin) else s
    case Remove(actor, target) =>
      if RemoveOutcome(s, actor, target) == Done
      then State(s.users[target := s.users[target].(isActive := false)], s.members - {target})
      else s
    case SignUp(user, email) => Joined(settings, s.(users := s.users[user := User(true, true, email)]), user)
    case Join(user) => Joined(settings, s, user)
    case Promote(user) => WithRole(s, user, Owner)
  }

  // ---------------------------------------------------------------- Runs

  ghost predicate IsRun(settings: Settings, states: seq<State>, ops: seq<Op>) {
    && |states| == |ops| + 1
    && forall i :: 0 <= i < |ops| ==> CanHappen(settings, states[i], ops[i]) && states[i + 1] == Apply(settings, states[i], ops[i])
  }

  lemma RunGoesOn(settings: Settings, states: seq<State>, ops: seq<Op>, op: Op, next: State)
    requires IsRun(settings, states, ops)
    requires CanHappen(settings, states[|ops|], op) && next == Apply(settings, states[|ops|], op)
    ensures IsRun(settings, states + [next], ops + [op])
  {
  }

  /** Every member is an account that exists and is open. */
  ghost predicate MembersAreOpen(s: State) {
    forall user | user in s.members :: user in s.users && s.users[user].isActive
  }

  ghost predicate HasOwner(s: State, org: OrgId) {
    exists user :: user in s.members && IsActiveOwner(s, org, user)
  }

  lemma OwnersNonEmpty(s: State, org: OrgId)
    ensures HasOwner(s, org) <==> ActiveOwners(s, org) != {}
  {
    if HasOwner(s, org) {
      var user :| user in s.members && IsActiveOwner(s, org, user);
      assert user in ActiveOwners(s, org);
    }
    if ActiveOwners(s, org) != {} {
      var user :| user in ActiveOwners(s, org);
    }
  }

  lemma StepKeepsMembersOpen(settings: Settings, s: State, op: Op)
    requires CanHappen(settings, s, op) && MembersAreOpen(s)
    ensures MembersAreOpen(Apply(settings, s, op))
  {
  }

  /** No step takes an organization's last active owner. */
  lemma StepKeepsAnOwner(settings: Settings, s: State, op: Op, org: OrgId)
    requires CanHappen(settings, s, op) && MembersAreOpen(s) && HasOwner(s, org)
    ensures HasOwner(Apply(settings, s, op), org)
  {
    var next := Apply(settings, s, op);
    var owner :| owner in s.members && IsActiveOwner(s, org, owner);
    match op
    case ChangeRole(actor, target, role) =>
      if target == owner && ChangeRoleOutcome(s, actor, target, role) == Done && role != Owner {
        var other :| other in ActiveOwners(s, org) - {target};
        assert IsActiveOwner(next, org, other);
      } else {
        assert IsActiveOwner(next, org, owner);
      }
    case Transfer(actor, target) =>
      if TransferOutcome(s, actor, target) == Done && s.members[actor].org == org {
        assert IsActiveOwner(next, org, target);
      } else {
        assert IsActiveOwner(next, org, owner);
      }
    case _ => assert IsActiveOwner(next, org, owner);
  }

  /** Once an organization has an active owner, every run keeps one at every state, and its members stay open. */
  lemma {:induction false} RunsKeepAnOwner(settings: Settings, states: seq<State>, ops: seq<Op>, org: OrgId, n: nat)
    requires IsRun(settings, states, ops) && n <= |ops|
    requires MembersAreOpen(states[0]) && HasOwner(states[0], org)
    ensures MembersAreOpen(states[n]) && HasOwner(states[n], org)
    decreases n
  {
    if n > 0 {
      RunsKeepAnOwner(settings, states, ops, org, n - 1);
      StepKeepsMembersOpen(settings, states[n - 1], ops[n - 1]);
      StepKeepsAnOwner(settings, states[n - 1], ops[n - 1], org);
    }
  }

  function RankOf(s: State, user: UserId): nat {
    if user in s.members then Rank(s.members[user].role) else 0
  }

  /** The step is an owner's own doing. */
  predicate ByAnOwner(s: State, op: Op) {
    (op.ChangeRole? || op.Transfer? || op.Remove?) && IsOwner(s, op.actor)
  }

  /** The step makes the configured first owner one. */
  predicate Bootstraps(settings: Settings, s: State, op: Op)
    requires CanHappen(settings, s, op)
  {
    op.Promote? || ((op.SignUp? || op.Join?) && op.user !in s.members && IsOwner(Apply(settings, s, op), op.user))
  }

  /** Nobody's rank rises but by an owner's step or a bootstrap. */
  lemma StepRaisesNobody(settings: Settings, s: State, op: Op, user: UserId)
    requires CanHappen(settings, s, op) && !ByAnOwner(s, op) && !Bootstraps(settings, s, op)
    ensures RankOf(Apply(settings, s, op), user) <= RankOf(s, user)
  {
  }

  /** So in a run where no owner acts and nobody is bootstrapped, nobody ends above where they began. */
  lemma {:induction false} RunsRaiseNobody(settings: Settings, states: seq<State>, ops: seq<Op>, user: UserId, n: nat)
    requires IsRun(settings, states, ops) && n <= |ops|
    requires forall i :: 0 <= i < n ==> !ByAnOwner(states[i], ops[i]) && !Bootstraps(settings, states[i], ops[i])
    ensures RankOf(states[n], user) <= RankOf(states[0], user)
    decreases n
  {
    if n > 0 {
      RunsRaiseNobody(settings, states, ops, user, n - 1);
      StepRaisesNobody(settings, states[n - 1], ops[n - 1], user);
    }
  }

  /** And while the organization accounts join has an owner, no step is a bootstrap. */
  lemma OwnersPreventBootstrap(settings: Settings, s: State, op: Op)
    requires CanHappen(settings, s, op) && HasOwner(s, settings.defaultOrg)
    ensures !Bootstraps(settings, s, op)
  {
    OwnersNonEmpty(s, settings.defaultOrg);
    if op.SignUp? {
      var added := s.(users := s.users[op.user := User(true, true, op.email)]);
      var owner :| owner in ActiveOwners(s, settings.defaultOrg);
      assert owner in ActiveOwners(added, settings.defaultOrg);
    }
  }

  /** Someone removed stays out: no later step opens the account or gives it a membership. */
  lemma {:induction false} RemovedStayOut(settings: Settings, states: seq<State>, ops: seq<Op>, user: UserId, m: nat, n: nat)
    requires IsRun(settings, states, ops) && m <= n <= |ops|
    requires user in states[m].users && !states[m].users[user].isActive && user !in states[m].members
    ensures user in states[n].users && !states[n].users[user].isActive && user !in states[n].members
    decreases n
  {
    if m < n {
      RemovedStayOut(settings, states, ops, user, m, n - 1);
    }
  }

  /** The roles' rules as documented, for two people of one organization. */
  lemma ChangeRoleRules(s: State, actor: UserId, target: UserId, role: Role)
    requires Unreachable(s, actor, target) == Done && MembersAreOpen(s)
    ensures ChangeRoleOutcome(s, actor, target, role) == Done <==>
      if actor == target then
        Rank(role) <= RankOf(s, actor)
        && (IsOwner(s, actor) && role != Owner ==> exists other :: other != actor && IsActiveOwner(s, s.members[actor].org, other))
      else IsOwner(s, actor) && !IsOwner(s, target)
  {
    var others := ActiveOwners(s, s.members[target].org) - {target};
    if others != {} {
      var other :| other in others;
      assert other != target && IsActiveOwner(s, s.members[target].org, other);
    }
    if exists other :: other != target && IsActiveOwner(s, s.members[target].org, other) {
      var other :| other != target && IsActiveOwner(s, s.members[target].org, other);
      assert other in others;
    }
  }

  /** Two people of one organization, each with an account. */
  ghost predicate Colleagues(s: State, actor: UserId, target: UserId) {
    && actor in s.users && target in s.users && s.users[actor].isPerson && s.users[target].isPerson
    && actor in s.members && target in s.members && s.members[actor].org == s.members[target].org
  }

  /** Who is told what when the two aren't: a service account, someone outside, or about someone outside. */
  lemma ReachRules(s: State, actor: UserId, target: UserId)
    ensures Unreachable(s, actor, target) == Done <==> Colleagues(s, actor, target)
    ensures Unreachable(s, actor, target) == Refused(ServiceAccountNotAllowed) <==> !(actor in s.users && s.users[actor].isPerson)
    ensures Unreachable(s, actor, target) == Refused(NotAllowed)
      <==> actor in s.users && s.users[actor].isPerson && actor !in s.members
    ensures Unreachable(s, actor, target) in {Done, Refused(ServiceAccountNotAllowed), Refused(NotAllowed), Refused(NotAMember)}
  {
  }

  /** An owner hands over to a colleague whose account is open, not to themselves. */
  lemma TransferRules(s: State, actor: UserId, target: UserId)
    ensures TransferOutcome(s, actor, target) == Done
      <==> Colleagues(s, actor, target) && actor != target && s.members[actor].role == Owner && s.users[target].isActive
    ensures Colleagues(s, actor, target) ==>
      && (TransferOutcome(s, actor, target) == Refused(NotAllowed) <==> s.members[actor].role != Owner || actor == target)
      && (TransferOutcome(s, actor, target) == Refused(NotAMember)
          <==> s.members[actor].role == Owner && actor != target && !s.users[target].isActive)
    ensures !Colleagues(s, actor, target) ==> TransferOutcome(s, actor, target) == Unreachable(s, actor, target)
  {
    ReachRules(s, actor, target);
  }

  /** Why a role change is refused: the last owner stays one, and nothing else is theirs to do. */
  lemma ChangeRoleRefusals(s: State, actor: UserId, target: UserId, role: Role)
    ensures !Colleagues(s, actor, target) ==> ChangeRoleOutcome(s, actor, target, role) == Unreachable(s, actor, target)
    ensures Colleagues(s, actor, target) ==>
      && ChangeRoleOutcome(s, actor, target, role) in {Done, Refused(NotAllowed), Refused(LastOwner)}
      && (ChangeRoleOutcome(s, actor, target, role) == Refused(LastOwner) <==>
            && actor == target && s.members[actor].role == Owner && role != Owner
            && forall other | other != actor :: !IsActiveOwner(s, s.members[actor].org, other))
  {
    ReachRules(s, actor, target);
    if Colleagues(s, actor, target) {
      var others := ActiveOwners(s, s.members[target].org) - {target};
      assert forall other | other != target && IsActiveOwner(s, s.members[target].org, other) :: other in others;
    }
  }

  /** An admin removes members; an owner members and admins; nobody themselves. */
  lemma RemoveRules(s: State, actor: UserId, target: UserId)
    ensures RemoveOutcome(s, actor, target) == Done <==>
      && Colleagues(s, actor, target) && actor != target
      && ((s.members[target].role == Member && s.members[actor].role != Member)
          || (s.members[target].role == Admin && s.members[actor].role == Owner))
    ensures RemoveOutcome(s, actor, target) == Refused(CannotRemoveSelf) <==> actor == target
    ensures actor != target && !Colleagues(s, actor, target) ==> RemoveOutcome(s, actor, target) == Unreachable(s, actor, target)
    ensures actor != target && Colleagues(s, actor, target) ==> RemoveOutcome(s, actor, target) in {Done, Refused(NotAllowed)}
  {
    ReachRules(s, actor, target);
  }

  /** Everybody else's account and membership are as they were. */
  ghost predicate OthersStay(s: State, next: State, changed: set<UserId>) {
    && (forall user | user !in changed :: user in next.users <==> user in s.users)
    && (forall user | user !in changed :: user in next.members <==> user in s.members)
    && (forall user | user !in changed && user in s.users :: next.users[user] == s.users[user])
    && (forall user | user !in changed && user in s.members :: next.members[user] == s.members[user])
  }

  /** A role change writes that role, and nothing else. */
  lemma ChangeRoleWrites(settings: Settings, s: State, actor: UserId, target: UserId, role: Role)
    ensures var next := Apply(settings, s, ChangeRole(actor, target, role));
      && OthersStay(s, next, {target}) && next.users == s.users
      && if ChangeRoleOutcome(s, actor, target, role) == Done
         then target in next.members && next.members[target] == Membership(s.members[target].org, role)
         else next == s
  {
  }

  /** A handover makes the target owner and the actor admin, and nothing else. */
  lemma TransferWrites(settings: Settings, s: State, actor: UserId, target: UserId)
    ensures var next := Apply(settings, s, Transfer(actor, target));
      && OthersStay(s, next, {actor, target}) && next.users == s.users
      && if TransferOutcome(s, actor, target) == Done
         then
           && actor in next.members && next.members[actor] == Membership(s.members[actor].org, Admin)
           && target in next.members && next.members[target] == Membership(s.members[target].org, Owner)
         else next == s
  {
  }

  /** A removal closes the account and ends the membership, and nothing else. */
  lemma RemovalWrites(settings: Settings, s: State, actor: UserId, target: UserId)
    ensures var next := Apply(settings, s, Remove(actor, target));
      && OthersStay(s, next, {target})
      && if RemoveOutcome(s, actor, target) == Done
         then
           && target in next.users && !next.users[target].isActive && target !in next.members
           && next.users[target].email == s.users[target].email && next.users[target].isPerson == s.users[target].isPerson
         else next == s
  {
  }

  /** Someone removed in a run is out for good, whatever its later steps: no sign-in and no startup takes them back. */
  lemma RemovedForGood(settings: Settings, states: seq<State>, ops: seq<Op>, actor: UserId, target: UserId, m: nat, n: nat)
    requires IsRun(settings, states, ops) && m < n <= |ops|
    requires ops[m] == Remove(actor, target) && RemoveOutcome(states[m], actor, target) == Done
    ensures target in states[n].users && !states[n].users[target].isActive && target !in states[n].members
  {
    RemovalWrites(settings, states[m], actor, target);
    RemovedStayOut(settings, states, ops, target, m + 1, n);
  }

  /** Whom joining adds, and as what: a person on the domain without a membership, owner only when none is left. */
  lemma JoiningWrites(settings: Settings, s: State, user: UserId)
    requires user in s.users
    ensures var next := Joined(settings, s, user);
      && OthersStay(s, next, {user}) && next.users == s.users
      && (user in s.members ==> next == s)
      && (user !in s.members ==>
            (user in next.members <==> s.users[user].isPerson && settings.onDomain(s.users[user].email)))
      && (user !in s.members && user in next.members ==>
            && next.members[user].org == settings.defaultOrg && next.members[user].role in {Member, Owner}
            && (next.members[user].role == Owner <==>
                  settings.isBootstrapAddress(s.users[user].email) && !HasOwner(s, settings.defaultOrg)))
  {
    OwnersNonEmpty(s, settings.defaultOrg);
  }

  /** A new account is an open person's, and joins by the same rule. */
  lemma SignUpWrites(settings: Settings, s: State, user: UserId, email: string)
    requires user !in s.users
    ensures var next := Apply(settings, s, SignUp(user, email));
      && OthersStay(s, next, {user}) && user in next.users && next.users[user] == User(true, true, email)
      && (user in next.members <==> user in s.members || settings.onDomain(email))
  {
  }

  /** The break-glass makes an owner, when there is none, of the open account with the configured address, and changes no one else. */
  lemma PromotionWrites(settings: Settings, s: State, user: UserId)
    ensures MayPromote(settings, s, user) <==>
      && !HasOwner(s, settings.defaultOrg) && user in s.members && user in s.users
      && s.users[user].isActive && s.users[user].isPerson && settings.isBootstrapAddress(s.users[user].email)
    ensures MayPromote(settings, s, user) ==>
      var next := Apply(settings, s, Promote(user));
      && OthersStay(s, next, {user}) && next.users == s.users
      && user in next.members && next.members[user] == Membership(s.members[user].org, Owner)
  {
    OwnersNonEmpty(s, settings.defaultOrg);
  }

  // ---------------------------------------------------------------- The operations on the tables

  class Directory {
    var users: map<UserId, User>
    var members: map<UserId, Membership>
    const settings: Settings

    constructor (settings: Settings, users: map<UserId, User>)
      ensures Contents() == State(users, map[]) && this.settings == settings
    {
      this.settings := settings;
      this.users := users;
      this.members := map[];
    }

    function Contents(): State
      reads this
    {
      State(users, members)
    }

    method ChangeRole(actor: UserId, target: UserId, role: Role) returns (outcome: Outcome)
      modifies this`members
      ensures outcome == ChangeRoleOutcome(old(Contents()), actor, target, role)
      ensures Contents() == Apply(settings, old(Contents()), Op.ChangeRole(actor, target, role))
    {
      var reach := Unreachable(Contents(), actor, target);
      if reach != Done {
        return reach;
      }
      var mine, theirs := members[actor], members[target];
      if target == actor {
        if Rank(role) > Rank(mine.role) {
          return Refused(NotAllowed);
        }
      } else if mine.role != Owner {
        return Refused(NotAllowed);
      } else if theirs.role == Owner {
        return Refused(NotAllowed);
      }
      if theirs.role == Owner && role != Owner {
        var owners := ActiveOwners(Contents(), theirs.org);
        if !exists owner :: owner in owners && owner != target {
          assert owners - {target} == {};
          return Refused(LastOwner);
        }
        ghost var other :| other in owners && other != target;
        assert other in owners - {target};
      }
      members := members[target := theirs.(role := role)];
      outcome := Done;
    }

    method TransferOwnership(actor: UserId, target: UserId) returns (outcome: Outcome)
      modifies this`members
      ensures outcome == TransferOutcome(old(Contents()), actor, target)
      ensures Contents() == Apply(settings, old(Contents()), Transfer(actor, target))
    {
      var reach := Unreachable(Contents(), actor, target);
      if reach != Done {
        return reach;
      }
      if members[actor].role != Owner || target == actor {
        return Refused(NotAllowed);
      }
      if !users[target].isActive {
        return Refused(NotAMember);
      }
      members := members[target := members[target].(role := Owner)];
      members := members[actor := members[actor].(role := Admin)];
      outcome := Done;
    }

    method RemoveMember(actor: UserId, target: UserId) returns (outcome: Outcome)
      modifies this`members, this`users
      ensures outcome == RemoveOutcome(old(Contents()), actor, target)
      ensures Contents() == Apply(settings, old(Contents()), Remove(actor, target))
    {
      if target == actor {
        return Refused(CannotRemoveSelf);
      }
      var reach := Unreachable(Contents(), actor, target);
      if reach != Done {
        return reach;
      }
      if members[actor].role == Member || Rank(members[target].role) >= Rank(members[actor].role) {
        return Refused(NotAllowed);
      }
      users := users[target := users[target].(isActive := false)];
      members := members - {target};
      outcome := Done;
    }

    method JoinDefaultOrganization(user: UserId)
      requires user in users
      modifies this`members
      ensures Contents() == Joined(settings, old(Contents()), user)
    {
      if user in members || !users[user].isPerson {
        return;
      }
      if !settings.onDomain(users[user].email) {
        return;
      }
      var role := Member;
      if settings.isBootstrapAddress(users[user].email) && ActiveOwners(Contents(), settings.defaultOrg) == {} {
        role := Owner;
      }
      members := members[user := Membership(settings.defaultOrg, role)];
    }

    /** Open accounts without a membership join. `states` and `ops` are the steps taken. */
    method JoinTheRest() returns (ghost states: seq<State>, ghost ops: seq<Op>)
      modifies this`members
      ensures IsRun(settings, states, ops) && states[0] == old(Contents()) && states[|ops|] == Contents()
      ensures forall op | op in ops :: op.Join?
      ensures members.Keys == old(members.Keys) + set user | user in users && Joins(settings, users[user])
    {
      states, ops := [Contents()], [];
      var people := set user | user in users && users[user].isActive && users[user].isPerson && user !in members;
      while people != {}
        invariant people == set user | user in people && user in users && users[user].isActive && users[user].isPerson
        invariant IsRun(settings, states, ops) && states[0] == old(Contents()) && states[|ops|] == Contents()
        invariant forall op | op in ops :: op.Join?
        invariant old(members.Keys) <= members.Keys
        invariant members.Keys <= old(members.Keys) + set user | user in users && Joins(settings, users[user])
        invariant forall user | user in users && Joins(settings, users[user]) :: user in members || user in people
        decreases people
      {
        var user :| user in people;
        people := people - {user};
        JoinDefaultOrganization(user);
        RunGoesOn(settings, states, ops, Join(user), Contents());
        states, ops := states + [Contents()], ops + [Join(user)];
      }
    }

    /** At startup: they join, then the configured first owner becomes one if none is left. */
    method EnsureMemberships() returns (ghost states: seq<State>, ghost ops: seq<Op>)
      modifies this`members
      ensures IsRun(settings, states, ops) && states[0] == old(Contents()) && states[|ops|] == Contents()
      ensures forall op | op in ops :: op.Join? || op.Promote?
      ensures members.Keys == old(members.Keys) + set user | user in users && Joins(settings, users[user])
      ensures OneBootstrapAccount(settings, Contents()) ==>
        forall user | user in members && IsFirstOwner(settings, Contents(), user) ::
          members[user].org == settings.defaultOrg ==> HasOwner(Contents(), settings.defaultOrg)
    {
      states, ops := JoinTheRest();
      if ActiveOwners(Contents(), settings.defaultOrg) == {} {
        if owner :| owner in users && IsFirstOwner(settings, Contents(), owner) {
          if owner in members {
            RunGoesOn(settings, states, ops, Promote(owner), WithRole(Contents(), owner, Owner));
            members := members[owner := members[owner].(role := Owner)];
            states, ops := states + [Contents()], ops + [Promote(owner)];
          }
          assert IsFirstOwner(settings, Contents(), owner);
          assert owner in members ==> members[owner].role == Owner;
        }
      } else {
        OwnersNonEmpty(Contents(), settings.defaultOrg);
      }
    }
  }
}
