/**
 Secrets that work once and for a short time, as a sign-in's state and its login code do: kept by their digest,
 which stands here for the secret, since no two secrets share one.
 */
module OneTimeSecrets {
  import opened Rows

  datatype Secret<V> = Secret(value: V, expiresAt: int)

  type Kept<V> = map<string, Secret<V>>

  /** The expired rows purged. */
  function Purged<V>(kept: Kept<V>, now: int): Kept<V> {
    map secret | secret in kept && kept[secret].expiresAt >= now :: kept[secret]
  }

  function Issue<V>(kept: Kept<V>, now: int, ttl: nat, secret: string, value: V): Kept<V> {
    Purged(kept, now)[secret := Secret(value, now + ttl)]
  }

  /** Trying a secret uses it up. */
  function UsedUp<V>(kept: Kept<V>, secret: string): Kept<V> {
    kept - {secret}
  }

  /** What a secret gives: nothing when it's unknown, used or expired. */
  function Gives<V>(kept: Kept<V>, now: int, secret: string): Option<V> {
    if secret in kept && now < kept[secret].expiresAt then Some(kept[secret].value) else None
  }

  // ---------------------------------------------------------------- Whole histories

  datatype Event<V> =
    | Issued(now: int, secret: string, value: V)
    | Tried(now: int, secret: string)

  function Next<V>(kept: Kept<V>, event: Event<V>, ttl: nat): Kept<V> {
    match event
    case Issued(now, secret, value) => Issue(kept, now, ttl, secret, value)
    case Tried(_, secret) => UsedUp(kept, secret)
  }

  /** What is kept after a history that began with nothing. */
  function KeptAfter<V>(history: seq<Event<V>>, ttl: nat): Kept<V> {
    if history == [] then map[]
    else Next(KeptAfter(history[..|history| - 1], ttl), history[|history| - 1], ttl)
  }

  lemma OneMoreEvent<V>(history: seq<Event<V>>, event: Event<V>, ttl: nat)
    requires IsHistory(history + [event])
    ensures IsHistory(history) && KeptAfter(history + [event], ttl) == Next(KeptAfter(history, ttl), event, ttl)
    ensures history != [] ==> history[|history| - 1].now <= event.now
  {
    var more := history + [event];
    assert more[..|more| - 1] == history;
    assert forall k :: 0 <= k < |history| ==> more[k] == history[k];
  }

  /** A history told in the order of the clock, issuing no secret twice. */
  ghost predicate IsHistory<V>(history: seq<Event<V>>) {
    && (forall j, k :: 0 <= j < k < |history| ==> history[j].now <= history[k].now)
    && (forall j, k :: 0 <= j < k < |history| && history[j].Issued? && history[k].Issued? ==> history[j].secret != history[k].secret)
  }

  ghost predicate WasTried<V>(history: seq<Event<V>>, secret: string, since: nat) {
    exists k :: since <= k < |history| && history[k] == Tried(history[k].now, secret)
  }

  /** The secret was issued with a value at some point of the history and not tried since. */
  ghost predicate Untried<V>(history: seq<Event<V>>, secret: string, value: V, issuedAt: int) {
    exists j :: 0 <= j < |history| && history[j] == Issued(issuedAt, secret, value) && !WasTried(history, secret, j)
  }

  /** Issued with a value less than its time ago, and not tried since. */
  ghost predicate InTime<V>(history: seq<Event<V>>, ttl: nat, now: int, secret: string, value: V) {
    exists issuedAt :: Untried(history, secret, value, issuedAt) && now < issuedAt + ttl
  }

  lemma TriedFurther<V>(history: seq<Event<V>>, event: Event<V>, secret: string, since: nat)
    requires since <= |history|
    ensures WasTried(history + [event], secret, since)
       <==> WasTried(history, secret, since) || (event.Tried? && event.secret == secret)
  {
    var more := history + [event];
    assert more[|history|] == event && forall k :: 0 <= k < |history| ==> more[k] == history[k];
    if WasTried(history, secret, since) {
      var k :| since <= k < |history| && history[k] == Tried(history[k].now, secret);
      assert more[k] == Tried(more[k].now, secret);
    }
    if event.Tried? && event.secret == secret {
      assert more[|history|] == Tried(more[|history|].now, secret);
    }
  }

  lemma UntriedFurther<V>(history: seq<Event<V>>, event: Event<V>, secret: string, value: V, issuedAt: int)
    ensures Untried(history + [event], secret, value, issuedAt)
      == (event == Issued(issuedAt, secret, value)
          || (Untried(history, secret, value, issuedAt) && !(event.Tried? && event.secret == secret)))
  {
    hide WasTried;
    var more := history + [event];
    assert more[|history|] == event && forall k :: 0 <= k < |history| ==> more[k] == history[k];
    forall since: nat | since <= |history|
      ensures WasTried(more, secret, since) <==> WasTried(history, secret, since) || (event.Tried? && event.secret == secret)
    {
      TriedFurther(history, event, secret, since);
    }
    if event == Issued(issuedAt, secret, value) {
      assert !WasTried(more, secret, |history|) by {
        NothingSince(more, secret);
      }
    }
  }

  lemma NothingSince<V>(history: seq<Event<V>>, secret: string)
    requires history != [] && history[|history| - 1].Issued?
    ensures !WasTried(history, secret, |history| - 1)
  {
  }

  /** What is kept is what was issued and not tried; what was purged had expired. */
  lemma {:induction false} KeptIsUntried<V>(history: seq<Event<V>>, ttl: nat, secret: string, value: V, issuedAt: int)
    requires IsHistory(history)
    ensures var kept := KeptAfter(history, ttl);
      && (secret in kept && kept[secret] == Secret(value, issuedAt + ttl) ==> Untried(history, secret, value, issuedAt))
      && (Untried(history, secret, value, issuedAt) ==>
            if secret in kept then kept[secret] == Secret(value, issuedAt + ttl)
            else history != [] && issuedAt + ttl < history[|history| - 1].now)
  {
    hide Untried;
    if history != [] {
      var before, event := history[..|history| - 1], history[|history| - 1];
      assert history == before + [event];
      KeptIsUntried(before, ttl, secret, value, issuedAt);
      UntriedFurther(before, event, secret, value, issuedAt);
      if event.Issued? && event.secret == secret {
        IssuedAfresh(history, value, issuedAt);
      }
    } else {
      NothingUntried<V>(secret, value, issuedAt);
    }
  }

  lemma IssuedAfresh<V>(history: seq<Event<V>>, value: V, issuedAt: int)
    requires IsHistory(history) && history != [] && history[|history| - 1].Issued?
    ensures !Untried(history[..|history| - 1], history[|history| - 1].secret, value, issuedAt)
  {
  }

  lemma NothingUntried<V>(secret: string, value: V, issuedAt: int)
    ensures !Untried([], secret, value, issuedAt)
  {
  }

  /** A secret gives its value exactly when it was issued with it, not tried since, and has not expired. */
  lemma GivesIff<V>(history: seq<Event<V>>, ttl: nat, now: int, secret: string, value: V)
    requires IsHistory(history) && (history != [] ==> history[|history| - 1].now <= now)
    ensures Gives(KeptAfter(history, ttl), now, secret) == Some(value)
       <==> InTime(history, ttl, now, secret, value)
  {
    hide Untried, KeptAfter, IsHistory;
    var kept := KeptAfter(history, ttl);
    if secret in kept {
      KeptIsUntried(history, ttl, secret, value, kept[secret].expiresAt - ttl);
    }
    forall issuedAt | Untried(history, secret, value, issuedAt) && now < issuedAt + ttl
      ensures secret in kept && kept[secret] == Secret(value, issuedAt + ttl)
    {
      KeptIsUntried(history, ttl, secret, value, issuedAt);
    }
  }

  /** What was tried is not untried later, since it is not issued again. */
  lemma TriedForGood<V>(history: seq<Event<V>>, i: nat, j: nat, value: V, issuedAt: int, other: V, otherAt: int)
    requires IsHistory(history) && i < j <= |history| && history[i].Tried?
    requires Untried(history[..i], history[i].secret, value, issuedAt)
    ensures !Untried(history[..j], history[i].secret, other, otherAt)
  {
    var secret := history[i].secret;
    var p :| 0 <= p < i && history[..i][p] == Issued(issuedAt, secret, value);
    forall q: nat | q < j && history[..j][q] == Issued(otherAt, secret, other) ensures WasTried(history[..j], secret, q) {
      assert history[p].secret == history[q].secret;
      assert history[..j][i] == Tried(history[..j][i].now, secret);
    }
  }

  /** Trying a secret after a history gives what was issued, not tried since and not expired. */
  lemma TryingGives<V>(history: seq<Event<V>>, ttl: nat, now: int, secret: string)
    requires IsHistory(history + [Tried(now, secret)])
    ensures forall value :: Gives(KeptAfter(history, ttl), now, secret) == Some(value) <==> InTime(history, ttl, now, secret, value)
  {
    hide KeptAfter, InTime, Gives, IsHistory;
    OneMoreEvent(history, Tried(now, secret), ttl);
    forall value
      ensures Gives(KeptAfter(history, ttl), now, secret) == Some(value) <==> InTime(history, ttl, now, secret, value)
    {
      GivesIff(history, ttl, now, secret, value);
    }
  }

  /** Of all the times a secret is tried, it gives its value once at most. */
  lemma GivesOnce<V>(history: seq<Event<V>>, ttl: nat, i: nat, j: nat)
    requires IsHistory(history) && i < j < |history| && history[i].Tried? && history[j].Tried?
    requires history[i].secret == history[j].secret
    requires Gives(KeptAfter(history[..i], ttl), history[i].now, history[i].secret).Some?
    ensures Gives(KeptAfter(history[..j], ttl), history[j].now, history[j].secret) == None
  {
    assert IsHistory(history[..i]) && IsHistory(history[..j]);
    hide KeptAfter, Untried, Gives;
    var secret := history[i].secret;
    var first := Gives(KeptAfter(history[..i], ttl), history[i].now, secret).value;
    GivesIff(history[..i], ttl, history[i].now, secret, first);
    var issuedAt :| Untried(history[..i], secret, first, issuedAt);
    forall other ensures Gives(KeptAfter(history[..j], ttl), history[j].now, secret) != Some(other) {
      GivesIff(history[..j], ttl, history[j].now, secret, other);
      forall otherAt ensures !Untried(history[..j], secret, other, otherAt) {
        TriedForGood(history, i, j, first, issuedAt, other, otherAt);
      }
    }
  }
}
