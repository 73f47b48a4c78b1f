/**
 A service account's tokens over their life: made, renewed with an overlap, used, revoked, and ended with
 the account. Times are naive UTC in microseconds. The table keeps rows in the order they were made.
 */
module ServiceTokens {
  import opened Rows

  type OrgId = nat
  type AccountId = nat

  const HOUR: int := 3_600_000_000
  /** How long a renewed token keeps working. */
  const OVERLAP: int := 24 * HOUR
  const EXPIRES_SOON: int := 14 * 24 * HOUR
  const UNUSED_FOR: int := 90 * 24 * HOUR
  /** `last_used_at` is written at most this often. */
  const LAST_USED_RESOLUTION: int := 60_000_000

  datatype Token = Token(account: AccountId, createdAt: int, expiresAt: Option<int>, lastUsedAt: Option<int>,
                         replacedAt: Option<int>, revokedAt: Option<int>) {
    /** Authenticates at `now`: not revoked, not expired, not past its overlap. */
    predicate IsValid(now: int) {
      && revokedAt.None?
      && (expiresAt.Some? ==> now < expiresAt.value)
      && (replacedAt.Some? ==> now < replacedAt.value + OVERLAP)
    }
  }

  /** A service account: its organization while it is a member, and whether it is open. */
  datatype Account = Account(org: Option<OrgId>, isActive: bool)

  /** Who asks: a person or a service account, and the organization they own, if any. */
  datatype Actor = Actor(isService: bool, owns: Option<OrgId>)

  datatype Store = Store(tokens: seq<Token>, accounts: map<AccountId, Account>)

  datatype Outcome = Done | NotAllowed | NotFound | Invalid

  /** An owner reaches the open service accounts of their own organization. */
  function Reach(s: Store, actor: Actor, account: AccountId): (outcome: Outcome)
    ensures outcome == Done ==> account in s.accounts && s.accounts[account].isActive
  {
    if actor.isService || actor.owns.None? then NotAllowed
    else if account !in s.accounts || !s.accounts[account].isActive || s.accounts[account].org != actor.owns then NotFound
    else Done
  }

  predicate IsLive(token: Token, account: AccountId, now: int) {
    token.account == account && token.IsValid(now)
  }

  /** The account's active token: live, and not yet replaced. */
  predicate IsActive(token: Token, account: AccountId, now: int) {
    IsLive(token, account, now) && token.replacedAt.None?
  }

  // ---------------------------------------------------------------- What each operation makes of a row

  /** A renewal puts the active token in its overlap, and ends one that was already in it. */
  function Renewed(token: Token, account: AccountId, now: int): Token {
    if !IsLive(token, account, now) then token
    else if token.replacedAt.None? then token.(replacedAt := Some(now))
    else token.(revokedAt := Some(now))
  }

  function Ended(token: Token, account: AccountId, now: int, oldOnly: bool): Token {
    if IsLive(token, account, now) && !(oldOnly && token.replacedAt.None?) then token.(revokedAt := Some(now)) else token
  }

  function Used(token: Token, now: int): Token {
    if token.lastUsedAt.None? || now - token.lastUsedAt.value >= LAST_USED_RESOLUTION then token.(lastUsedAt := Some(now))
    else token
  }

  function AllRenewed(tokens: seq<Token>, account: AccountId, now: int): (renewed: seq<Token>)
    ensures |renewed| == |tokens| && forall i :: 0 <= i < |tokens| ==> renewed[i] == Renewed(tokens[i], account, now)
  {
    seq(|tokens|, i requires 0 <= i < |tokens| => Renewed(tokens[i], account, now))
  }

  function AllEnded(tokens: seq<Token>, account: AccountId, now: int, oldOnly: bool): (ended: seq<Token>)
    ensures |ended| == |tokens| && forall i :: 0 <= i < |tokens| ==> ended[i] == Ended(tokens[i], account, now, oldOnly)
  {
    seq(|tokens|, i requires 0 <= i < |tokens| => Ended(tokens[i], account, now, oldOnly))
  }

  function NewToken(account: AccountId, now: int, expiresAt: Option<int>): Token {
    Token(account, now, expiresAt, None, None, None)
  }

  // ---------------------------------------------------------------- Steps and runs

  datatype Op =
    | Create(account: AccountId, org: OrgId)
    | Issue(actor: Actor, account: AccountId, expiresAt: Option<int>)
    | Revoke(actor: Actor, account: AccountId, oldOnly: bool)
    | Remove(actor: Actor, account: AccountId)
    | Use(token: nat)

  function IssueOutcome(s: Store, actor: Actor, account: AccountId, expiresAt: Option<int>, now: int): (outcome: Outcome)
    ensures outcome == Done ==> Reach(s, actor, account) == Done
  {
    if Reach(s, actor, account) != Done then Reach(s, actor, account)
    else if expiresAt.Some? && expiresAt.value <= now then Invalid
    else Done
  }

  /** The token is accepted: valid, and its account open. */
  predicate Authenticates(s: Store, token: nat, now: int) {
    token < |s.tokens| && s.tokens[token].IsValid(now)
    && s.tokens[token].account in s.accounts && s.accounts[s.tokens[token].account].isActive
  }

  function Apply(s: Store, now: int, op: Op): Store {
    match op
    case Create(account, org) =>
      if account in s.accounts then s else s.(accounts := s.accounts[account := Account(Some(org), true)])
    case Issue(actor, account, expiresAt) =>
      if IssueOutcome(s, actor, account, expiresAt, now) == Done
      then s.(tokens := AllRenewed(s.tokens, account, now) + [NewToken(account, now, expiresAt)])
      else s
    case Revoke(actor, account, oldOnly) =>
      if Reach(s, actor, account) == Done then s.(tokens := AllEnded(s.tokens, account, now, oldOnly)) else s
    case Remove(actor, account) =>
      if Reach(s, actor, account) == Done
      then Store(AllEnded(s.tokens, account, now, false), s.accounts[account := Account(None, false)])
      else s
    case Use(token) =>
      if Authenticates(s, token, now) then s.(tokens := s.tokens[token := Used(s.tokens[token], now)]) else s
  }

  /** Steps under a clock that does not go back. */
  ghost predicate IsRun(stores: seq<Store>, times: seq<int>, ops: seq<Op>) {
    && |stores| == |ops| + 1 && |times| == |ops|
    && (forall i :: 0 <= i < |ops| ==> stores[i + 1] == Apply(stores[i], times[i], ops[i]))
    && (forall i :: 0 <= i < |ops| - 1 ==> times[i] <= times[i + 1])
  }

  /** At `now` each account has at most one live token that is active, and at most one in its overlap. */
  ghost predicate OneOfEach(s: Store, now: int) {
    forall i, j :: 0 <= i < |s.tokens| && 0 <= j < |s.tokens| && s.tokens[i].account == s.tokens[j].account
      && s.tokens[i].IsValid(now) && s.tokens[j].IsValid(now)
      && s.tokens[i].replacedAt.None? == s.tokens[j].replacedAt.None?
      ==> i == j
  }

  /** At `now` every live token is of an account that is open. */
  ghost predicate LiveAreOpen(s: Store, now: int) {
    forall i :: 0 <= i < |s.tokens| && s.tokens[i].IsValid(now)
      ==> s.tokens[i].account in s.accounts && s.accounts[s.tokens[i].account].isActive
  }

  /** With no step taken, what is live only shrinks. */
  lemma TimeKeeps(s: Store, now: int, later: int)
    requires now <= later && OneOfEach(s, now) && LiveAreOpen(s, now)
    ensures OneOfEach(s, later) && LiveAreOpen(s, later)
  {
    forall i | 0 <= i < |s.tokens| ensures s.tokens[i].IsValid(later) ==> s.tokens[i].IsValid(now) {
    }
  }

  lemma StepKeeps(s: Store, now: int, op: Op)
    requires OneOfEach(s, now) && LiveAreOpen(s, now)
    ensures OneOfEach(Apply(s, now, op), now) && LiveAreOpen(Apply(s, now, op), now)
  {
    match op
    case Issue(actor, account, expiresAt) => IssueKeeps(s, now, actor, account, expiresAt);
    case _ =>
      var next := Apply(s, now, op);
      forall i | 0 <= i < |next.tokens| && next.tokens[i].IsValid(now)
        ensures i < |s.tokens| && s.tokens[i].IsValid(now) && s.tokens[i].account == next.tokens[i].account
        ensures s.tokens[i].replacedAt == next.tokens[i].replacedAt
      {
      }
  }

  lemma IssueKeeps(s: Store, now: int, actor: Actor, account: AccountId, expiresAt: Option<int>)
    requires OneOfEach(s, now) && LiveAreOpen(s, now)
    ensures var next := Apply(s, now, Issue(actor, account, expiresAt)); OneOfEach(next, now) && LiveAreOpen(next, now)
  {
    var next := Apply(s, now, Issue(actor, account, expiresAt));
    forall i | 0 <= i < |next.tokens| && next.tokens[i].IsValid(now)
      ensures i < |s.tokens| ==> s.tokens[i].IsValid(now) && s.tokens[i].account == next.tokens[i].account
      ensures i < |s.tokens| && next.tokens != s.tokens ==>
        (next.tokens[i].account == account ==> s.tokens[i].replacedAt.None? && next.tokens[i].replacedAt.Some?)
        && (next.tokens[i].account != account ==> s.tokens[i] == next.tokens[i])
    {
    }
  }

  /** Over every run, at the time of each step and at any time until the next. */
  lemma {:induction false} RunsKeepOneOfEach(stores: seq<Store>, times: seq<int>, ops: seq<Op>, n: nat, now: int)
    requires IsRun(stores, times, ops) && n <= |ops| && stores[0].tokens == []
    requires n > 0 ==> times[n - 1] <= now
    ensures OneOfEach(stores[n], now) && LiveAreOpen(stores[n], now)
    decreases n
  {
    if n > 0 {
      RunsKeepOneOfEach(stores, times, ops, n - 1, times[n - 1]);
      StepKeeps(stores[n - 1], times[n - 1], ops[n - 1]);
      TimeKeeps(stores[n], times[n - 1], now);
    }
  }

  // ---------------------------------------------------------------- Renewal

  /** A token later on: the same one, whose replacement and revocation, once noted, are for good. */
  predicate Ages(token: Token, later: Token) {
    && later.account == token.account && later.createdAt == token.createdAt && later.expiresAt == token.expiresAt
    && (token.replacedAt.Some? ==> later.replacedAt == token.replacedAt)
    && (token.revokedAt.Some? ==> later.revokedAt == token.revokedAt)
  }

  ghost predicate AllAge(tokens: seq<Token>, later: seq<Token>) {
    |tokens| <= |later| && forall i :: 0 <= i < |tokens| ==> Ages(tokens[i], later[i])
  }

  lemma StepAges(s: Store, now: int, op: Op)
    ensures AllAge(s.tokens, Apply(s, now, op).tokens)
  {
  }

  /** Over every run each row stays the same token and no step lengthens its life. */
  lemma {:induction false} RunsAge(stores: seq<Store>, times: seq<int>, ops: seq<Op>, m: nat, n: nat)
    requires IsRun(stores, times, ops) && m <= n <= |ops|
    ensures AllAge(stores[m].tokens, stores[n].tokens)
    ensures forall i :: 0 <= i < |stores[m].tokens| ==>
      var token, later := stores[m].tokens[i], stores[n].tokens[i];
      (token.account, token.createdAt, token.expiresAt) == (later.account, later.createdAt, later.expiresAt)
    decreases n
  {
    if m < n {
      RunsAge(stores, times, ops, m, n - 1);
      StepAges(stores[n - 1], times[n - 1], ops[n - 1]);
      var first, before, after := stores[m].tokens, stores[n - 1].tokens, stores[n].tokens;
      forall i | 0 <= i < |first| ensures Ages(first[i], after[i]) {
        assert Ages(first[i], before[i]) && Ages(before[i], after[i]);
      }
    }
  }

  /** Step `m` of the run issues the account a token. */
  ghost predicate Issues(stores: seq<Store>, times: seq<int>, ops: seq<Op>, m: nat, account: AccountId)
    requires IsRun(stores, times, ops) && m < |ops|
  {
    var op := ops[m];
    op.Issue? && op.account == account && IssueOutcome(stores[m], op.actor, account, op.expiresAt, times[m]) == Done
  }

  /** The account's token `i` was active when step `m` was taken. */
  ghost predicate WasActive(stores: seq<Store>, times: seq<int>, m: nat, i: nat, account: AccountId)
    requires m < |stores| && m < |times|
  {
    i < |stores[m].tokens| && IsActive(stores[m].tokens[i], account, times[m])
  }

  /**
   At any later point of the run, of the tokens the account had and the new one, only the new one and the one the
   renewal replaced may be live; and until the next step they are, while neither expires nor the overlap ends.
   */
  lemma RenewalLeavesTwo(stores: seq<Store>, times: seq<int>, ops: seq<Op>, m: nat, n: nat, account: AccountId, i: nat, now: int)
    requires IsRun(stores, times, ops) && stores[0].tokens == [] && m < n <= |ops| && Issues(stores, times, ops, m, account)
    requires i <= |stores[m].tokens| && times[m] <= now
    ensures |stores[m].tokens| < |stores[n].tokens|
    ensures IsLive(stores[n].tokens[i], account, now) ==> i == |stores[m].tokens| || WasActive(stores, times, m, i, account)
    ensures n == m + 1 ==>
      (IsLive(stores[n].tokens[i], account, now) <==>
         if i == |stores[m].tokens| then ops[m].expiresAt.Some? ==> now < ops[m].expiresAt.value
         else WasActive(stores, times, m, i, account) && stores[m].tokens[i].IsValid(now) && now < times[m] + OVERLAP)
    ensures forall j: nat | WasActive(stores, times, m, i, account) && WasActive(stores, times, m, j, account) :: i == j
  {
    RunsAge(stores, times, ops, m + 1, n);
    RunsKeepOneOfEach(stores, times, ops, m, times[m]);
    var before, after, token := stores[m].tokens, stores[m + 1].tokens, stores[n].tokens[i];
    assert after == AllRenewed(before, account, times[m]) + [NewToken(account, times[m], ops[m].expiresAt)];
    assert Ages(after[i], token);
    if i < |before| {
      assert after[i] == Renewed(before[i], account, times[m]);
    }
  }

  /** A token replaced in a run ends, whatever its later steps, within the overlap and never later than it would have. */
  lemma ReplacedEndsNoLater(stores: seq<Store>, times: seq<int>, ops: seq<Op>, m: nat, n: nat, account: AccountId, i: nat, later: int)
    requires IsRun(stores, times, ops) && m < n <= |ops| && Issues(stores, times, ops, m, account)
    requires i < |stores[m].tokens| && IsLive(stores[m].tokens[i], account, times[m])
    ensures i < |stores[n].tokens|
    ensures stores[n].tokens[i].IsValid(later) ==>
      WasActive(stores, times, m, i, account) && later < times[m] + OVERLAP && stores[m].tokens[i].IsValid(later)
  {
    RunsAge(stores, times, ops, m + 1, n);
    var before, after := stores[m].tokens, stores[m + 1].tokens;
    assert after[i] == Renewed(before[i], account, times[m]);
    assert Ages(after[i], stores[n].tokens[i]);
  }

  // ---------------------------------------------------------------- What each step writes

  /** An owner, not a service account, reaches an open service account of their organization. */
  lemma ReachRules(s: Store, actor: Actor, account: AccountId)
    ensures Reach(s, actor, account) == Done <==>
      && !actor.isService && actor.owns.Some?
      && account in s.accounts && s.accounts[account].isActive && s.accounts[account].org == actor.owns
    ensures Reach(s, actor, account) == NotAllowed <==> actor.isService || actor.owns == None
    ensures Reach(s, actor, account) in {Done, NotAllowed, NotFound}
  {
  }

  /** A new token is for an account reached, and does not end before it begins. */
  lemma IssueRules(s: Store, actor: Actor, account: AccountId, expiresAt: Option<int>, now: int)
    ensures IssueOutcome(s, actor, account, expiresAt, now) == Done
      <==> Reach(s, actor, account) == Done && (expiresAt.Some? ==> expiresAt.value > now)
    ensures IssueOutcome(s, actor, account, expiresAt, now) == Invalid
      <==> Reach(s, actor, account) == Done && expiresAt.Some? && expiresAt.value <= now
  {
    ReachRules(s, actor, account);
  }

  /** The tokens of other accounts, and the account's that no longer worked, are as they were. */
  ghost predicate OthersStay(s: Store, next: Store, account: AccountId, now: int) {
    && |s.tokens| <= |next.tokens|
    && forall i :: 0 <= i < |s.tokens| && (s.tokens[i].account != account || !s.tokens[i].IsValid(now)) ==> next.tokens[i] == s.tokens[i]
  }

  /** An issue notes the active token as replaced and the one in overlap as revoked, and adds a token. */
  lemma IssueWrites(s: Store, now: int, actor: Actor, account: AccountId, expiresAt: Option<int>)
    ensures var next := Apply(s, now, Issue(actor, account, expiresAt));
      && OthersStay(s, next, account, now) && next.accounts == s.accounts
      && if IssueOutcome(s, actor, account, expiresAt, now) != Done then next == s
         else
           && |next.tokens| == |s.tokens| + 1
           && next.tokens[|s.tokens|] == Token(account, now, expiresAt, None, None, None)
           && forall i :: 0 <= i < |s.tokens| && s.tokens[i].account == account && s.tokens[i].IsValid(now) ==>
                next.tokens[i] == if s.tokens[i].replacedAt == None then s.tokens[i].(replacedAt := Some(now))
                                  else s.tokens[i].(revokedAt := Some(now))
  {
  }

  /** A revocation ends the account's tokens at once; with `oldOnly`, the one in its overlap and not the active one. */
  lemma RevocationEnds(s: Store, now: int, actor: Actor, account: AccountId, oldOnly: bool, i: nat, at: int)
    requires Reach(s, actor, account) == Done && i < |s.tokens| && now <= at
    ensures var next := Apply(s, now, Revoke(actor, account, oldOnly));
      && OthersStay(s, next, account, now) && |next.tokens| == |s.tokens| && next.accounts == s.accounts
      && (next.tokens[i].IsValid(at) <==>
            s.tokens[i].IsValid(at) && (s.tokens[i].account != account || (oldOnly && s.tokens[i].replacedAt == None)))
      && next.tokens[i].(revokedAt := s.tokens[i].revokedAt) == s.tokens[i]
  {
  }

  /** What is refused changes nothing. */
  lemma RefusedChangesNothing(s: Store, now: int, actor: Actor, account: AccountId, oldOnly: bool)
    requires Reach(s, actor, account) != Done
    ensures Apply(s, now, Revoke(actor, account, oldOnly)) == s && Apply(s, now, Remove(actor, account)) == s
  {
  }

  /** After a revocation of them all, no token the account had is valid at any later point of the run. */
  lemma RevokedForGood(stores: seq<Store>, times: seq<int>, ops: seq<Op>, m: nat, n: nat, i: nat, at: int)
    requires IsRun(stores, times, ops) && m < n <= |ops| && times[m] <= at
    requires ops[m].Revoke? && !ops[m].oldOnly && Reach(stores[m], ops[m].actor, ops[m].account) == Done
    requires i < |stores[m].tokens| && stores[m].tokens[i].account == ops[m].account
    ensures i < |stores[n].tokens| && !stores[n].tokens[i].IsValid(at)
  {
    RunsAge(stores, times, ops, m + 1, n);
    RevocationEnds(stores[m], times[m], ops[m].actor, ops[m].account, false, i, at);
    assert Ages(stores[m + 1].tokens[i], stores[n].tokens[i]);
  }

  /** A removal ends all of the account's tokens, closes it and takes it out of the organization. */
  lemma RemovalWrites(s: Store, now: int, actor: Actor, account: AccountId)
    requires Reach(s, actor, account) == Done
    ensures var next := Apply(s, now, Remove(actor, account));
      && OthersStay(s, next, account, now) && |next.tokens| == |s.tokens|
      && (forall i :: 0 <= i < |s.tokens| && s.tokens[i].account == account ==> !next.tokens[i].IsValid(now))
      && next.accounts.Keys == s.accounts.Keys && next.accounts[account] == Account(None, false)
      && forall other | other in s.accounts && other != account :: next.accounts[other] == s.accounts[other]
  {
  }

  /** A use notes its time, at most once a minute, and nothing else. */
  lemma UseWrites(s: Store, now: int, token: nat)
    ensures Authenticates(s, token, now) <==>
      && token < |s.tokens| && s.tokens[token].IsValid(now)
      && exists account :: account == s.tokens[token].account && account in s.accounts && s.accounts[account].isActive
    ensures var next := Apply(s, now, Use(token));
      && next.accounts == s.accounts && |next.tokens| == |s.tokens|
      && (forall i :: 0 <= i < |s.tokens| && (i != token || !Authenticates(s, token, now)) ==> next.tokens[i] == s.tokens[i])
      && (Authenticates(s, token, now) ==>
            && next.tokens[token].(lastUsedAt := s.tokens[token].lastUsedAt) == s.tokens[token]
            && next.tokens[token].lastUsedAt ==
               match s.tokens[token].lastUsedAt
               case None => Some(now)
               case Some(last) => if now < last + 60 * 1_000_000 then Some(last) else Some(now))
  {
  }

  /** An account made is open and of its organization; one there already stays as it is. */
  lemma CreateWrites(s: Store, now: int, account: AccountId, org: OrgId)
    ensures var next := Apply(s, now, Create(account, org));
      && next.tokens == s.tokens && next.accounts.Keys == s.accounts.Keys + {account}
      && (account !in s.accounts ==> next.accounts[account] == Account(Some(org), true))
      && forall other | other in s.accounts :: next.accounts[other] == s.accounts[other]
  {
  }

  // ---------------------------------------------------------------- Removal

  /** A removed account's tokens never authenticate again, and none of them is ever live. */
  lemma {:induction false} RemovedNeverAuthenticates(stores: seq<Store>, times: seq<int>, ops: seq<Op>, m: nat, n: nat,
                                                     account: AccountId, token: nat, now: int)
    requires IsRun(stores, times, ops) && stores[0].tokens == [] && m < n <= |ops| && times[n - 1] <= now
    requires ops[m].Remove? && ops[m].account == account && Reach(stores[m], ops[m].actor, account) == Done
    requires token < |stores[n].tokens| && stores[n].tokens[token].account == account
    ensures !Authenticates(stores[n], token, now) && !stores[n].tokens[token].IsValid(now)
  {
    ClosedStayClosed(stores, times, ops, m + 1, n, account);
    RunsKeepOneOfEach(stores, times, ops, n, now);
  }

  lemma {:induction false} ClosedStayClosed(stores: seq<Store>, times: seq<int>, ops: seq<Op>, m: nat, n: nat, account: AccountId)
    requires IsRun(stores, times, ops) && m <= n <= |ops|
    requires account in stores[m].accounts && !stores[m].accounts[account].isActive
    ensures account in stores[n].accounts && !stores[n].accounts[account].isActive
    decreases n
  {
    if m < n {
      ClosedStayClosed(stores, times, ops, m, n - 1, account);
    }
  }

  // ---------------------------------------------------------------- Warnings

  datatype Warning = ExpiresSoon | Unused

  /** When a token was last used, or else made. */
  function LastSeen(token: Token): int {
    if token.lastUsedAt.Some? then token.lastUsedAt.value else token.createdAt
  }

  function TokenWarnings(token: Token, now: int): (warnings: seq<Warning>)
    ensures warnings != [] ==> token.IsValid(now) && token.replacedAt.None?
    ensures ExpiresSoon in warnings
      <==> (IsActive(token, token.account, now) && token.expiresAt.Some? && token.expiresAt.value - now <= EXPIRES_SOON)
    ensures Unused in warnings <==> (IsActive(token, token.account, now) && now - LastSeen(token) >= UNUSED_FOR)
  {
    if token.replacedAt.Some? || !token.IsValid(now) then []
    else
      (if token.expiresAt.Some? && token.expiresAt.value - now <= EXPIRES_SOON then [ExpiresSoon] else [])
      + (if now - LastSeen(token) >= UNUSED_FOR then [Unused] else [])
  }

  function OpenAccounts(s: Store, org: OrgId): set<AccountId> {
    set account | account in s.accounts && s.accounts[account].isActive && s.accounts[account].org == Some(org)
  }

  function NeedsAttention(s: Store, org: OrgId, now: int): Token -> bool {
    (token: Token) => token.account in OpenAccounts(s, org) && token.revokedAt.None? && token.replacedAt.None?
      && TokenWarnings(token, now) != []
  }

  function AttentionCount(s: Store, org: OrgId, now: int): nat {
    Count(s.tokens, NeedsAttention(s, org, now))
  }

  /** Whose tokens count and when: an open account's of the organization, active and with a warning. */
  lemma AttentionRules(s: Store, org: OrgId, now: int, token: Token, account: AccountId)
    ensures account in OpenAccounts(s, org)
      <==> account in s.accounts && s.accounts[account] == Account(Some(org), true)
    ensures NeedsAttention(s, org, now)(token) <==>
      && token.account in OpenAccounts(s, org) && token.IsValid(now) && token.replacedAt == None
      && ((token.expiresAt.Some? && token.expiresAt.value <= now + EXPIRES_SOON)
          || (match token.lastUsedAt case None => token.createdAt case Some(at) => at) <= now - UNUSED_FOR)
  {
    if TokenWarnings(token, now) != [] {
      assert TokenWarnings(token, now)[0] in TokenWarnings(token, now);
    }
  }

  /** When a token is valid. */
  lemma ValidRules(token: Token, now: int)
    ensures token.IsValid(now) <==>
      && token.revokedAt == None && (token.expiresAt == None || now < token.expiresAt.value)
      && (token.replacedAt == None || now < token.replacedAt.value + 24 * 60 * 60 * 1_000_000)
  {
  }

  /** At most one token an account needs attention, over every run. */
  lemma AttentionAtMostAccounts(stores: seq<Store>, times: seq<int>, ops: seq<Op>, n: nat, org: OrgId, now: int)
    requires IsRun(stores, times, ops) && n <= |ops| && stores[0].tokens == []
    requires n > 0 ==> times[n - 1] <= now
    ensures AttentionCount(stores[n], org, now) <= |OpenAccounts(stores[n], org)|
  {
    var s := stores[n];
    RunsKeepOneOfEach(stores, times, ops, n, now);
    assert s.tokens[..|s.tokens|] == s.tokens;
    OneAnAccount(s.tokens, |s.tokens|, NeedsAttention(s, org, now), OpenAccounts(s, org));
  }

  lemma {:induction false} OneAnAccount(tokens: seq<Token>, n: nat, keep: Token -> bool, accounts: set<AccountId>)
    requires n <= |tokens|
    requires forall i :: 0 <= i < n && keep(tokens[i]) ==> tokens[i].account in accounts
    requires forall i, j :: 0 <= i < j < n && keep(tokens[i]) && keep(tokens[j]) ==> tokens[i].account != tokens[j].account
    ensures Count(tokens[..n], keep) <= |accounts|
    decreases n
  {
    if n > 0 {
      var last := tokens[n - 1];
      assert tokens[..n] == tokens[..n - 1] + [last];
      CountSnoc(tokens[..n - 1], last, keep);
      if keep(last) {
        OneAnAccount(tokens, n - 1, keep, accounts - {last.account});
      } else {
        OneAnAccount(tokens, n - 1, keep, accounts);
      }
    }
  }

  // ---------------------------------------------------------------- The operations on the tables

  class Database {
    var tokens: seq<Token>
    var accounts: map<AccountId, Account>

    function Contents(): Store
      reads this
    {
      Store(tokens, accounts)
    }

    constructor (accounts: map<AccountId, Account>)
      ensures Contents() == Store([], accounts)
    {
      this.tokens, this.accounts := [], accounts;
    }

    /** Make the account's token, or renew it. `replaced` is the one it replaced, if any. */
    method IssueToken(actor: Actor, account: AccountId, expiresAt: Option<int>, now: int)
      returns (outcome: Outcome, replaced: Option<nat>)
      modifies this`tokens
      ensures outcome == IssueOutcome(old(Contents()), actor, account, expiresAt, now)
      ensures Contents() == Apply(old(Contents()), now, Issue(actor, account, expiresAt))
      ensures replaced.Some? ==> replaced.value < |old(tokens)| && IsActive(old(tokens)[replaced.value], account, now)
      ensures outcome == Done && replaced.None? ==> forall i :: 0 <= i < |old(tokens)| ==> !IsActive(old(tokens)[i], account, now)
    {
      replaced := None;
      outcome := Reach(Contents(), actor, account);
      if outcome != Done {
        return;
      }
      if expiresAt.Some? && expiresAt.value <= now {
        outcome := Invalid;
        return;
      }
      // Newest first, as the live tokens are read.
      for i := |tokens| downto 0
        invariant |tokens| == |old(tokens)|
        invariant tokens[..i] == old(tokens)[..i]
        invariant forall j :: i <= j < |tokens| ==> tokens[j] == Renewed(old(tokens)[j], account, now)
        invariant replaced.Some? ==> i <= replaced.value < |tokens| && IsActive(old(tokens)[replaced.value], account, now)
        invariant replaced.None? ==> forall j :: i <= j < |tokens| ==> !IsActive(old(tokens)[j], account, now)
      {
        var row := tokens[i];
        assert row == old(tokens)[i];
        if IsLive(row, account, now) {
          if row.replacedAt.None? {
            tokens := tokens[i := row.(replacedAt := Some(now))];
            replaced := Some(i);
          } else {
            tokens := tokens[i := row.(revokedAt := Some(now))];
          }
        }
      }
      assert tokens == AllRenewed(old(tokens), account, now);
      tokens := tokens + [NewToken(account, now, expiresAt)];
    }

    method EndTokens(account: AccountId, oldOnly: bool, now: int)
      modifies this`tokens
      ensures tokens == AllEnded(old(tokens), account, now, oldOnly)
    {
      for i := |tokens| downto 0
        invariant |tokens| == |old(tokens)|
        invariant tokens[..i] == old(tokens)[..i]
        invariant forall j :: i <= j < |tokens| ==> tokens[j] == Ended(old(tokens)[j], account, now, oldOnly)
      {
        var row := tokens[i];
        assert row == old(tokens)[i];
        if IsLive(row, account, now) && !(oldOnly && row.replacedAt.None?) {
          tokens := tokens[i := row.(revokedAt := Some(now))];
        }
      }
    }

    method RevokeTokens(actor: Actor, account: AccountId, oldOnly: bool, now: int) returns (outcome: Outcome)
      modifies this`tokens
      ensures outcome == Reach(old(Contents()), actor, account)
      ensures Contents() == Apply(old(Contents()), now, Revoke(actor, account, oldOnly))
    {
      outcome := Reach(Contents(), actor, account);
      if outcome == Done {
        EndTokens(account, oldOnly, now);
      }
    }

    /** Revoke its tokens, take it out of the organization and close it. */
    method RemoveAccount(actor: Actor, account: AccountId, now: int) returns (outcome: Outcome)
      modifies this
      ensures outcome == Reach(old(Contents()), actor, account)
      ensures Contents() == Apply(old(Contents()), now, Remove(actor, account))
    {
      outcome := Reach(Contents(), actor, account);
      if outcome == Done {
        EndTokens(account, false, now);
        accounts := accounts[account := Account(None, false)];
      }
    }

    /** A request with the token: accepted or not, and its use noted. */
    method Authenticate(token: nat, now: int) returns (accepted: bool)
      modifies this`tokens
      ensures accepted == Authenticates(old(Contents()), token, now)
      ensures Contents() == Apply(old(Contents()), now, Use(token))
    {
      if token >= |tokens| || !tokens[token].IsValid(now) {
        return false;
      }
      var row := tokens[token];
      if row.account !in accounts || !accounts[row.account].isActive {
        return false;
      }
      if row.lastUsedAt.None? || now - row.lastUsedAt.value >= LAST_USED_RESOLUTION {
        tokens := tokens[token := row.(lastUsedAt := Some(now))];
      }
      accepted := true;
    }
  }
}
