/**
 Which account a Google sign-in opens, what linking an account takes back, and the flow's one-time secrets.
 Times are in microseconds.
 */
module GoogleSignIn {
  import opened Rows
  import opened OneTimeSecrets

  type Id = nat

  const SECOND: int := 1_000_000
  const STATE_TTL: nat := 600_000_000
  const LOGIN_CODE_TTL: nat := 60_000_000

  datatype User = User(email: string, isService: bool, isActive: bool, hasPassword: bool, hasApiKey: bool,
                       sessionsValidFrom: Option<int>)

  datatype Identity = Identity(user: Id, email: string)

  /** The accounts, and Google's identities by their subject: the table's key. */
  datatype Accounts = Accounts(users: map<Id, User>, identities: map<string, Identity>)

  /** A Google account whose token checked out. */
  datatype GoogleAccount = GoogleAccount(subject: string, email: string)

  datatype Refusal = ServiceAccount | Inactive | AccountConflict

  datatype Outcome = Opened(user: Id) | Refused(reason: Refusal)

  predicate HasGoogle(accounts: Accounts, user: Id) {
    exists subject :: subject in accounts.identities && accounts.identities[subject].user == user
  }

  /** The account the query by address finds: any whose address is this one but for case, None when there is none. */
  predicate Finds(accounts: Accounts, lower: string -> string, email: string, found: Option<Id>) {
    match found
    case Some(user) => user in accounts.users && lower(accounts.users[user].email) == email
    case None => forall user | user in accounts.users :: lower(accounts.users[user].email) != email
  }

  function Refusing(user: User): Option<Refusal> {
    if user.isService then Some(ServiceAccount) else if !user.isActive then Some(Inactive) else None
  }

  /** Every way in taken back, from now on. */
  function LockedOut(user: User, now: int): User {
    user.(hasPassword := false, hasApiKey := false, sessionsValidFrom := Some(now))
  }

  function WithIdentity(accounts: Accounts, user: Id, account: GoogleAccount): Accounts {
    accounts.(identities := accounts.identities[account.subject := Identity(user, account.email)])
  }

  /** The account a sign-in opens, made or linked if need be; every account as it was when it's refused. */
  function SignIn(accounts: Accounts, now: int, account: GoogleAccount, found: Option<Id>, newId: Id): (result: (Accounts, Outcome))
    requires account.subject in accounts.identities ==> accounts.identities[account.subject].user in accounts.users
    requires found.Some? ==> found.value in accounts.users
  {
    if account.subject in accounts.identities then
      var user := accounts.identities[account.subject].user;
      match Refusing(accounts.users[user])
      case Some(reason) => (accounts, Refused(reason))
      case None => (WithIdentity(accounts, user, account), Opened(user))
    else if found == None then
      var made := User(account.email, false, true, false, false, None);
      (WithIdentity(accounts.(users := accounts.users[newId := made]), newId, account), Opened(newId))
    else
      var user := found.value;
      match Refusing(accounts.users[user])
      case Some(reason) => (accounts, Refused(reason))
      case None =>
        if HasGoogle(accounts, user) then (accounts, Refused(AccountConflict))
        else
          var locked := accounts.users[user := LockedOut(accounts.users[user], now)];
          (WithIdentity(accounts.(users := locked), user, account), Opened(user))
  }

  // ---------------------------------------------------------------- Runs

  /** What happens to accounts: a sign-in, an account made otherwise, or its ways in or activity changed. */
  datatype Op =
    | SigningIn(now: int, account: GoogleAccount, found: Option<Id>, newId: Id)
    | Making(newId: Id, made: User)
    | Changing(user: Id, hasPassword: bool, hasApiKey: bool, isActive: bool)

  /** What holds of the accounts at all times: identities of accounts there are, one each at most and none a service's. */
  ghost predicate Good(accounts: Accounts) {
    && (forall subject | subject in accounts.identities ::
          accounts.identities[subject].user in accounts.users && !accounts.users[accounts.identities[subject].user].isService)
    && (forall a, b | a in accounts.identities && b in accounts.identities && a != b ::
          accounts.identities[a].user != accounts.identities[b].user)
    && (forall a, b | a in accounts.users && b in accounts.users && a != b ::
          accounts.users[a].email != accounts.users[b].email)
  }

  /** What the code lets happen: ids are new, addresses unique, a sign-in's address lowercase and looked up. */
  ghost predicate Enabled(accounts: Accounts, lower: string -> string, op: Op) {
    match op
    case SigningIn(_, account, found, newId) =>
      newId !in accounts.users && lower(account.email) == account.email && Finds(accounts, lower, account.email, found)
    case Making(newId, made) =>
      && newId !in accounts.users && made.sessionsValidFrom == None
      && forall user | user in accounts.users :: accounts.users[user].email != made.email
    case Changing(user, _, _, _) => user in accounts.users
  }

  ghost function After(accounts: Accounts, lower: string -> string, op: Op): (after: Accounts)
    requires Good(accounts) && Enabled(accounts, lower, op)
    ensures Good(after)
  {
    match op
    case SigningIn(now, account, found, newId) =>
      SignInKeepsGood(accounts, lower, now, account, found, newId);
      SignIn(accounts, now, account, found, newId).0
    case Making(newId, made) => accounts.(users := accounts.users[newId := made])
    case Changing(user, hasPassword, hasApiKey, isActive) =>
      accounts.(users := accounts.users[user := accounts.users[user].(hasPassword := hasPassword, hasApiKey := hasApiKey,
                                                                       isActive := isActive)])
  }

  lemma SignInKeepsGood(accounts: Accounts, lower: string -> string, now: int, account: GoogleAccount, found: Option<Id>, newId: Id)
    requires Good(accounts) && Enabled(accounts, lower, SigningIn(now, account, found, newId))
    ensures Good(SignIn(accounts, now, account, found, newId).0)
  {
    if account.subject in accounts.identities {
      var user := accounts.identities[account.subject].user;
      LinkedIsGood(accounts, accounts.users, user, account);
    } else if found == None {
      var made := User(account.email, false, true, false, false, None);
      LinkedIsGood(accounts, accounts.users[newId := made], newId, account);
    } else if Refusing(accounts.users[found.value]) == None && !HasGoogle(accounts, found.value) {
      var user := found.value;
      LinkedIsGood(accounts, accounts.users[user := LockedOut(accounts.users[user], now)], user, account);
    }
  }

  /** An identity for an account that has no other, among accounts whose kinds and addresses are as they were. */
  lemma LinkedIsGood(accounts: Accounts, users: map<Id, User>, user: Id, account: GoogleAccount)
    requires Good(accounts) && user in users && !users[user].isService
    requires forall one :: one in accounts.users ==>
      one in users && users[one].email == accounts.users[one].email && users[one].isService == accounts.users[one].isService
    requires forall one :: one in users && one !in accounts.users ==>
      one == user && forall other :: other in accounts.users ==> accounts.users[other].email != users[user].email
    requires forall subject :: subject in accounts.identities && accounts.identities[subject].user == user ==> subject == account.subject
    ensures Good(WithIdentity(Accounts(users, accounts.identities), user, account))
  {
  }

  /** Ops that can happen one after another. */
  ghost predicate IsRun(accounts: Accounts, lower: string -> string, ops: seq<Op>)
    requires Good(accounts)
    decreases |ops|
  {
    ops == [] || (Enabled(accounts, lower, ops[0]) && IsRun(After(accounts, lower, ops[0]), lower, ops[1..]))
  }

  ghost function AfterAll(accounts: Accounts, lower: string -> string, ops: seq<Op>): (after: Accounts)
    requires Good(accounts) && IsRun(accounts, lower, ops)
    ensures Good(after)
    decreases |ops|
  {
    if ops == [] then accounts else AfterAll(After(accounts, lower, ops[0]), lower, ops[1..])
  }

  // ---------------------------------------------------------------- Which account a subject opens

  /** What never changes of an account once it has an identity. */
  ghost predicate Settled(before: Accounts, after: Accounts, subject: string)
    requires Good(before) && Good(after) && subject in before.identities
  {
    var user := before.identities[subject].user;
    && subject in after.identities && after.identities[subject].user == user
    && after.users[user].email == before.users[user].email
    && after.users[user].sessionsValidFrom == before.users[user].sessionsValidFrom
  }

  lemma StepSettles(accounts: Accounts, lower: string -> string, op: Op, subject: string)
    requires Good(accounts) && Enabled(accounts, lower, op) && subject in accounts.identities
    ensures Settled(accounts, After(accounts, lower, op), subject)
  {
    var user := accounts.identities[subject].user;
    match op
    case SigningIn(now, account, found, newId) => SignInSettles(accounts, now, account, found, newId, subject);
    case Making(_, _) => assert user in accounts.users;
    case Changing(_, _, _, _) =>
  }

  lemma SignInSettles(accounts: Accounts, now: int, account: GoogleAccount, found: Option<Id>, newId: Id, subject: string)
    requires Good(accounts) && subject in accounts.identities && newId !in accounts.users
    requires found.Some? ==> found.value in accounts.users
    ensures var after, user := SignIn(accounts, now, account, found, newId).0, accounts.identities[subject].user;
      && subject in after.identities && after.identities[subject].user == user && user in after.users
      && after.users[user] == accounts.users[user]
  {
    assert HasGoogle(accounts, accounts.identities[subject].user);
  }

  /** A subject once linked stays with its account, over every run, and so does the account's cutoff. */
  lemma {:induction false} RunsSettle(accounts: Accounts, lower: string -> string, ops: seq<Op>, subject: string)
    requires Good(accounts) && IsRun(accounts, lower, ops) && subject in accounts.identities
    ensures Settled(accounts, AfterAll(accounts, lower, ops), subject)
    decreases |ops|
  {
    if ops != [] {
      StepSettles(accounts, lower, ops[0], subject);
      RunsSettle(After(accounts, lower, ops[0]), lower, ops[1..], subject);
    }
  }

  /** A later sign-in with it opens that account, or is refused because the account was closed. */
  lemma SubjectOpensItsAccount(accounts: Accounts, lower: string -> string, ops: seq<Op>, now: int, account: GoogleAccount,
                               found: Option<Id>, newId: Id)
    requires Good(accounts) && IsRun(accounts, lower, ops) && account.subject in accounts.identities
    requires Enabled(AfterAll(accounts, lower, ops), lower, SigningIn(now, account, found, newId))
    ensures var user, later := accounts.identities[account.subject].user, AfterAll(accounts, lower, ops);
      && user in later.users
      && SignIn(later, now, account, found, newId).1 == if later.users[user].isActive then Opened(user) else Refused(Inactive)
  {
    RunsSettle(accounts, lower, ops, account.subject);
  }

  /** A first sign-in opens only an account nobody's identity opens; and whoever is opened, the subject is theirs. */
  lemma OpenedIsLinked(accounts: Accounts, lower: string -> string, now: int, account: GoogleAccount, found: Option<Id>, newId: Id)
    requires Good(accounts) && Enabled(accounts, lower, SigningIn(now, account, found, newId))
    ensures var (after, outcome) := SignIn(accounts, now, account, found, newId);
      match outcome
      case Refused(_) => after == accounts
      case Opened(user) =>
        && account.subject in after.identities && after.identities[account.subject] == Identity(user, account.email)
        && after.users[user].isActive && !after.users[user].isService
        && (account.subject !in accounts.identities ==> !HasGoogle(accounts, user))
  {
    if HasGoogle(accounts, newId) {
      assert false;
    }
  }

  /**
   A first sign-in makes an account without a password when no account has its address; it is refused when that
   account is a service's, is closed, or has another identity; and it touches no other account.
   */
  lemma FirstSignIn(accounts: Accounts, lower: string -> string, now: int, account: GoogleAccount, found: Option<Id>, newId: Id)
    requires Good(accounts) && Enabled(accounts, lower, SigningIn(now, account, found, newId))
    requires account.subject !in accounts.identities
    ensures var (after, outcome) := SignIn(accounts, now, account, found, newId);
      && (found == None ==> outcome == Opened(newId))
      && (found == None <==> forall user | user in accounts.users :: lower(accounts.users[user].email) != account.email)
      && (found.Some? ==> found.value in accounts.users && lower(accounts.users[found.value].email) == account.email)
      && (found == None ==> after.users.Keys == accounts.users.Keys + {newId}
                            && after.users[newId] == User(account.email, false, true, false, false, None))
      && (found.Some? ==>
            var user := accounts.users[found.value];
            && after.users.Keys == accounts.users.Keys
            && (outcome == Opened(found.value) <==> user.isActive && !user.isService && !HasGoogle(accounts, found.value))
            && (outcome == Refused(AccountConflict) <==> user.isActive && !user.isService && HasGoogle(accounts, found.value)))
      && forall other | other in accounts.users && Opened(other) != outcome :: after.users[other] == accounts.users[other]
  {
  }

  // ---------------------------------------------------------------- What linking takes back

  /** A session names an account by its address and says when it was issued; older ones may not say. */
  ghost predicate Accepted(accounts: Accounts, email: string, issuedAt: Option<int>, user: Id) {
    && user in accounts.users && accounts.users[user].email == email && !accounts.users[user].isService
    && match accounts.users[user].sessionsValidFrom
       case None => true
       case Some(cutoff) => issuedAt.Some? && issuedAt.value >= cutoff / SECOND
  }

  /** An address names one account at most. */
  lemma AcceptedForOne(accounts: Accounts, email: string, issuedAt: Option<int>, a: Id, b: Id)
    requires Good(accounts) && Accepted(accounts, email, issuedAt, a) && Accepted(accounts, email, issuedAt, b)
    ensures a == b
  {
  }

  /**
   Linking an existing account takes back its password and key at once; and after any run its sessions accepted are
   exactly those issued in the second it was linked, or later.
   */
  lemma LinkingEndsSessions(accounts: Accounts, lower: string -> string, now: int, account: GoogleAccount, user: Id, newId: Id,
                            ops: seq<Op>, email: string, issuedAt: Option<int>)
    requires var link := SigningIn(now, account, Some(user), newId);
      && Good(accounts) && Enabled(accounts, lower, link)
      && account.subject !in accounts.identities && SignIn(accounts, now, account, Some(user), newId).1 == Opened(user)
      && IsRun(After(accounts, lower, link), lower, ops)
    ensures var linked := After(accounts, lower, SigningIn(now, account, Some(user), newId));
      && !linked.users[user].hasPassword && !linked.users[user].hasApiKey
      && (Accepted(AfterAll(linked, lower, ops), email, issuedAt, user) <==>
            email == accounts.users[user].email && issuedAt.Some? && issuedAt.value >= now / SECOND)
  {
    var linked := After(accounts, lower, SigningIn(now, account, Some(user), newId));
    RunsSettle(linked, lower, ops, account.subject);
  }

  // ---------------------------------------------------------------- The tables

  class Database {
    var accounts: Accounts
    var states: Kept<string>
    var loginCodes: Kept<Id>
    ghost var stateHistory: seq<Event<string>>
    ghost var codeHistory: seq<Event<Id>>

    /** The rows of secrets are what their whole histories left. */
    ghost predicate Valid() reads this {
      && Good(accounts)
      && IsHistory(stateHistory) && states == KeptAfter(stateHistory, STATE_TTL)
      && IsHistory(codeHistory) && loginCodes == KeptAfter(codeHistory, LOGIN_CODE_TTL)
    }

    constructor ()
      ensures Valid() && accounts == Accounts(map[], map[]) && stateHistory == [] && codeHistory == []
    {
      accounts, states, loginCodes, stateHistory, codeHistory := Accounts(map[], map[]), map[], map[], [], [];
    }

    /** A new sign-in, under a state never given before. */
    method StartSignIn(now: int, state: string, verifier: string)
      requires Valid() && IsHistory(stateHistory + [Issued(now, state, verifier)])
      modifies this`states, this`stateHistory
      ensures Valid() && stateHistory == old(stateHistory) + [Issued(now, state, verifier)]
    {
      hide Good, IsHistory, KeptAfter;
      OneMoreEvent(stateHistory, Issued(now, state, verifier), STATE_TTL);
      states := Purged(states, now);
      states := states[state := Secret(verifier, now + STATE_TTL)];
      stateHistory := stateHistory + [Issued(now, state, verifier)];
    }

    /** The verifier of the sign-in a state belongs to: one begun within ten minutes whose state has not been tried. */
    method TakeCodeVerifier(now: int, state: string) returns (verifier: Option<string>)
      requires Valid() && IsHistory(stateHistory + [Tried(now, state)])
      modifies this`states, this`stateHistory
      ensures Valid() && stateHistory == old(stateHistory) + [Tried(now, state)]
      ensures forall value :: verifier == Some(value) <==> InTime(old(stateHistory), STATE_TTL, now, state, value)
    {
      hide Good, IsHistory, KeptAfter, InTime;
      OneMoreEvent(stateHistory, Tried(now, state), STATE_TTL);
      TryingGives(stateHistory, STATE_TTL, now, state);
      verifier := if state in states && now < states[state].expiresAt then Some(states[state].value) else None;
      states := states - {state};
      stateHistory := stateHistory + [Tried(now, state)];
    }

    /** The account a Google account opens; `found` is the one its address names, whichever the query read first. */
    method SignInWithGoogle(now: int, account: GoogleAccount, lower: string -> string, newId: Id)
      returns (outcome: Outcome, ghost found: Option<Id>)
      requires Valid() && newId !in accounts.users && lower(account.email) == account.email
      modifies this`accounts
      ensures Valid() && Finds(old(accounts), lower, account.email, found)
      ensures (accounts, outcome) == SignIn(old(accounts), now, account, found, newId)
    {
      hide IsHistory, KeptAfter;
      var user: Id;
      found := None;
      if exists one :: one in accounts.users && lower(accounts.users[one].email) == account.email {
        var one :| one in accounts.users && lower(accounts.users[one].email) == account.email;
        found := Some(one);
        user := one;
      } else {
        user := newId;
      }
      SignInKeepsGood(accounts, lower, now, account, found, newId);
      hide Good;
      if account.subject in accounts.identities {
        user := accounts.identities[account.subject].user;
        var reason := Refusing(accounts.users[user]);
        if reason.Some? {
          return Refused(reason.value), found;
        }
        accounts := accounts.(identities := accounts.identities[account.subject := Identity(user, account.email)]);
        return Opened(user), found;
      }
      var users := accounts.users;
      if user == newId {
        users := users[newId := User(account.email, false, true, false, false, None)];
      } else {
        var reason := Refusing(users[user]);
        if reason.Some? {
          return Refused(reason.value), found;
        }
        if HasGoogle(accounts, user) {
          return Refused(AccountConflict), found;
        }
        users := users[user := LockedOut(users[user], now)];
      }
      accounts := Accounts(users, accounts.identities[account.subject := Identity(user, account.email)]);
      outcome := Opened(user);
    }

    /** The one-time code for an account, never given before. */
    method IssueLoginCode(now: int, code: string, user: Id)
      requires Valid() && IsHistory(codeHistory + [Issued(now, code, user)])
      modifies this`loginCodes, this`codeHistory
      ensures Valid() && codeHistory == old(codeHistory) + [Issued(now, code, user)]
    {
      hide Good, IsHistory, KeptAfter;
      OneMoreEvent(codeHistory, Issued(now, code, user), LOGIN_CODE_TTL);
      loginCodes := Purged(loginCodes, now);
      loginCodes := loginCodes[code := Secret(user, now + LOGIN_CODE_TTL)];
      codeHistory := codeHistory + [Issued(now, code, user)];
    }

    /** The account a code was issued to within the minute, when it has not been tried and the account may sign in. */
    method RedeemLoginCode(now: int, code: string) returns (redeemed: Option<Id>)
      requires Valid() && IsHistory(codeHistory + [Tried(now, code)])
      modifies this`loginCodes, this`codeHistory
      ensures Valid() && codeHistory == old(codeHistory) + [Tried(now, code)]
      ensures forall user :: redeemed == Some(user) <==>
        && InTime(old(codeHistory), LOGIN_CODE_TTL, now, code, user)
        && user in accounts.users && Refusing(accounts.users[user]) == None
    {
      hide Good, IsHistory, KeptAfter, InTime;
      OneMoreEvent(codeHistory, Tried(now, code), LOGIN_CODE_TTL);
      TryingGives(codeHistory, LOGIN_CODE_TTL, now, code);
      redeemed := if code in loginCodes && now < loginCodes[code].expiresAt then Some(loginCodes[code].value) else None;
      loginCodes := loginCodes - {code};
      codeHistory := codeHistory + [Tried(now, code)];
      if redeemed.Some? {
        var user := redeemed.value;
        if user !in accounts.users || !accounts.users[user].isActive || accounts.users[user].isService {
          redeemed := None;
        }
      }
    }
  }
}
