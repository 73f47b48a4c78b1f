/**
 The links a mistyped code was probably meant for: the codes one edit from it, against the
 restricted Damerau-Levenshtein distance defined by its recurrence.
 */
module Orphans {
  import opened Rows

  const LONGEST_CODE: int := 64

  // ---------------------------------------------------------------- The generator

  function Deleted(code: string): set<string> {
    set i | 0 <= i < |code| :: code[..i] + code[i + 1..]
  }

  function Swapped(code: string): set<string> {
    set i | 0 <= i < |code| - 1 :: code[..i] + [code[i + 1], code[i]] + code[i + 2..]
  }

  function Replaced(code: string, alphabet: set<char>): set<string> {
    set i, c | 0 <= i < |code| && c in alphabet :: code[..i] + [c] + code[i + 1..]
  }

  function Inserted(code: string, alphabet: set<char>): set<string> {
    set i, c | 0 <= i <= |code| && c in alphabet :: code[..i] + [c] + code[i..]
  }

  function Edits(code: string, alphabet: set<char>): set<string> {
    Deleted(code) + Swapped(code) + Replaced(code, alphabet) + Inserted(code, alphabet) + {code}
  }

  /** The edits that can be codes by their length, none too long and none empty. */
  function OneEditAway(code: string, alphabet: set<char>): set<string> {
    set edit | edit in Edits(code, alphabet) && 0 < |edit| <= LONGEST_CODE
  }

  // ---------------------------------------------------------------- The distance

  function Min(a: nat, b: nat): nat { if a <= b then a else b }

  /** Writing a character the alphabet lacks counts as two edits: no single one writes it. */
  function Cost(c: char, alphabet: set<char>): nat {
    if c in alphabet then 1 else 2
  }

  /**
   The restricted Damerau-Levenshtein distance from the first `i` characters of `a` to the first `j` of
   `b`: the cheapest way to delete, insert or replace the last one, or swap the last two, and go on.
   */
  function PrefixDistance(a: string, b: string, i: nat, j: nat, alphabet: set<char>): nat
    requires i <= |a| && j <= |b|
    decreases i + j
  {
    if i == 0 && j == 0 then 0
    else if i == 0 then PrefixDistance(a, b, i, j - 1, alphabet) + Cost(b[j - 1], alphabet)
    else if j == 0 then PrefixDistance(a, b, i - 1, j, alphabet) + 1
    else
      Cheapest(a, b, i, j, alphabet,
               PrefixDistance(a, b, i - 1, j, alphabet), PrefixDistance(a, b, i, j - 1, alphabet),
               PrefixDistance(a, b, i - 1, j - 1, alphabet),
               if i > 1 && j > 1 then PrefixDistance(a, b, i - 2, j - 2, alphabet) else 0)
  }

  /** The least of the four choices, given what comes before each. */
  function Cheapest(a: string, b: string, i: nat, j: nat, alphabet: set<char>,
                    deleted: nat, inserted: nat, replaced: nat, swapped: nat): nat
    requires 0 < i <= |a| && 0 < j <= |b|
  {
    var replacing := replaced + if a[i - 1] == b[j - 1] then 0 else Cost(b[j - 1], alphabet);
    var best := Min(Min(deleted + 1, inserted + Cost(b[j - 1], alphabet)), replacing);
    if i > 1 && j > 1 && a[i - 1] == b[j - 2] && a[i - 2] == b[j - 1] then Min(best, swapped + 1) else best
  }

  function Distance(a: string, b: string, alphabet: set<char>): nat {
    PrefixDistance(a, b, |a|, |b|, alphabet)
  }

  lemma Unfolds(a: string, b: string, i: nat, j: nat, alphabet: set<char>)
    requires 0 < i <= |a| && 0 < j <= |b|
    ensures PrefixDistance(a, b, i, j, alphabet)
         == Cheapest(a, b, i, j, alphabet,
                     PrefixDistance(a, b, i - 1, j, alphabet), PrefixDistance(a, b, i, j - 1, alphabet),
                     PrefixDistance(a, b, i - 1, j - 1, alphabet),
                     if i > 1 && j > 1 then PrefixDistance(a, b, i - 2, j - 2, alphabet) else 0)
  {
    hide Cheapest;
  }

  /** Each edit of a last character is one way to go on. */
  lemma Steps(a: string, b: string, i: nat, j: nat, alphabet: set<char>)
    requires i <= |a| && j <= |b|
    ensures i > 0 ==> PrefixDistance(a, b, i, j, alphabet) <= PrefixDistance(a, b, i - 1, j, alphabet) + 1
    ensures j > 0 ==> PrefixDistance(a, b, i, j, alphabet) <= PrefixDistance(a, b, i, j - 1, alphabet) + Cost(b[j - 1], alphabet)
    ensures i > 0 && j > 0 ==>
      PrefixDistance(a, b, i, j, alphabet) <= PrefixDistance(a, b, i - 1, j - 1, alphabet) + Cost(b[j - 1], alphabet)
    ensures i > 1 && j > 1 && a[i - 1] == b[j - 2] && a[i - 2] == b[j - 1] ==>
      PrefixDistance(a, b, i, j, alphabet) <= PrefixDistance(a, b, i - 2, j - 2, alphabet) + 1
  {
    if i > 0 && j > 0 {
      hide PrefixDistance;
      Unfolds(a, b, i, j, alphabet);
    }
  }

  lemma {:induction false} EqualPrefixes(a: string, b: string, i: nat, alphabet: set<char>)
    requires i <= |a| && i <= |b| && forall t :: 0 <= t < i ==> a[t] == b[t]
    ensures PrefixDistance(a, b, i, i, alphabet) == 0
  {
    if i > 0 {
      EqualPrefixes(a, b, i - 1, alphabet);
    }
  }

  lemma {:induction false} NoDistanceIsEqual(a: string, b: string, i: nat, j: nat, alphabet: set<char>)
    requires i <= |a| && j <= |b| && PrefixDistance(a, b, i, j, alphabet) == 0
    ensures a[..i] == b[..j]
    decreases i + j
  {
    if i > 0 && j > 0 {
      hide PrefixDistance;
      Unfolds(a, b, i, j, alphabet);
      NoDistanceIsEqual(a, b, i - 1, j - 1, alphabet);
      EqualsExtend(a, b, i, j);
    }
  }

  lemma EqualsExtend(a: string, b: string, i: nat, j: nat)
    requires 0 < i <= |a| && 0 < j <= |b| && a[..i - 1] == b[..j - 1] && a[i - 1] == b[j - 1]
    ensures a[..i] == b[..j]
  {
    assert a[..i] == a[..i - 1] + [a[i - 1]] && b[..j] == b[..j - 1] + [b[j - 1]];
  }

  /** What follows an edit costs nothing. */
  lemma {:induction false} CommonSuffix(a: string, b: string, i: nat, j: nat, k: nat, alphabet: set<char>)
    requires i + k <= |a| && j + k <= |b| && forall t :: i <= t < i + k ==> a[t] == b[t - i + j]
    ensures PrefixDistance(a, b, i + k, j + k, alphabet) <= PrefixDistance(a, b, i, j, alphabet)
    decreases k
  {
    if k > 0 {
      hide PrefixDistance;
      Unfolds(a, b, i + k, j + k, alphabet);
      CommonSuffix(a, b, i, j, k - 1, alphabet);
      assert a[i + k - 1] == b[j + k - 1];
    }
  }

  // ---------------------------------------------------------------- Every edit is near

  /** Texts alike up to some place and from some place on are as far apart as what is between. */
  lemma AlikeAround(code: string, edit: string, i: nat, p: nat, q: nat, alphabet: set<char>)
    requires i <= p <= |code| && i <= q <= |edit| && code[..i] == edit[..i] && code[p..] == edit[q..]
    ensures PrefixDistance(code, edit, i, i, alphabet) == 0
    ensures Distance(code, edit, alphabet) <= PrefixDistance(code, edit, p, q, alphabet)
  {
    hide PrefixDistance;
    assert forall t :: 0 <= t < i ==> code[t] == code[..i][t] && edit[t] == edit[..i][t];
    EqualPrefixes(code, edit, i, alphabet);
    var k := |code[p..]|;
    assert forall t :: p <= t < p + k ==> code[t] == code[p..][t - p] && edit[t - p + q] == edit[q..][t - p];
    CommonSuffix(code, edit, p, q, k, alphabet);
  }

  lemma DeletedIsNear(code: string, i: nat, alphabet: set<char>)
    requires i < |code|
    ensures Distance(code, code[..i] + code[i + 1..], alphabet) <= 1
  {
    var edit := code[..i] + code[i + 1..];
    hide PrefixDistance, Distance;
    AlikeAround(code, edit, i, i + 1, i, alphabet);
    Steps(code, edit, i + 1, i, alphabet);
  }

  lemma InsertedIsNear(code: string, i: nat, c: char, alphabet: set<char>)
    requires i <= |code| && c in alphabet
    ensures Distance(code, code[..i] + [c] + code[i..], alphabet) <= 1
  {
    var edit := code[..i] + [c] + code[i..];
    hide PrefixDistance, Distance;
    AlikeAround(code, edit, i, i, i + 1, alphabet);
    Steps(code, edit, i, i + 1, alphabet);
  }

  lemma ReplacedIsNear(code: string, i: nat, c: char, alphabet: set<char>)
    requires i < |code| && c in alphabet
    ensures Distance(code, code[..i] + [c] + code[i + 1..], alphabet) <= 1
  {
    var edit := code[..i] + [c] + code[i + 1..];
    hide PrefixDistance, Distance;
    AlikeAround(code, edit, i, i + 1, i + 1, alphabet);
    Steps(code, edit, i + 1, i + 1, alphabet);
  }

  lemma SwappedIsNear(code: string, i: nat, alphabet: set<char>)
    requires i + 1 < |code|
    ensures Distance(code, code[..i] + [code[i + 1], code[i]] + code[i + 2..], alphabet) <= 1
  {
    var edit := code[..i] + [code[i + 1], code[i]] + code[i + 2..];
    hide PrefixDistance, Distance;
    AlikeAround(code, edit, i, i + 2, i + 2, alphabet);
    Steps(code, edit, i + 2, i + 2, alphabet);
  }

  lemma EditsAreNear(code: string, edit: string, alphabet: set<char>)
    requires edit in Edits(code, alphabet)
    ensures Distance(code, edit, alphabet) <= 1
  {
    hide Distance;
    if edit == code {
      ItselfIsNear(code, alphabet);
    } else if edit in Deleted(code) {
      var i :| 0 <= i < |code| && edit == code[..i] + code[i + 1..];
      DeletedIsNear(code, i, alphabet);
    } else if edit in Swapped(code) {
      var i :| 0 <= i < |code| - 1 && edit == code[..i] + [code[i + 1], code[i]] + code[i + 2..];
      SwappedIsNear(code, i, alphabet);
    } else if edit in Replaced(code, alphabet) {
      var i, c :| 0 <= i < |code| && c in alphabet && edit == code[..i] + [c] + code[i + 1..];
      ReplacedIsNear(code, i, c, alphabet);
    } else {
      var i, c :| 0 <= i <= |code| && c in alphabet && edit == code[..i] + [c] + code[i..];
      InsertedIsNear(code, i, c, alphabet);
    }
  }

  lemma ItselfIsNear(code: string, alphabet: set<char>)
    ensures Distance(code, code, alphabet) == 0
  {
    EqualPrefixes(code, code, |code|, alphabet);
  }

  // ---------------------------------------------------------------- Everything near is an edit

  /** An edit of a code is one of the code with a character more at the end. */
  lemma EditsExtend(code: string, edit: string, last: char, alphabet: set<char>)
    requires edit in Edits(code, alphabet)
    ensures edit + [last] in Edits(code + [last], alphabet)
  {
    hide Deleted, Swapped, Replaced, Inserted;
    if edit in Deleted(code) {
      DeletionsExtend(code, edit, last);
    } else if edit in Swapped(code) {
      SwapsExtend(code, edit, last);
    } else if edit in Replaced(code, alphabet) {
      ReplacementsExtend(code, edit, last, alphabet);
    } else if edit in Inserted(code, alphabet) {
      InsertionsExtend(code, edit, last, alphabet);
    }
  }

  lemma DeletionsExtend(code: string, edit: string, last: char)
    requires edit in Deleted(code)
    ensures edit + [last] in Deleted(code + [last])
  {
    var more := code + [last];
    var i :| 0 <= i < |code| && edit == code[..i] + code[i + 1..];
    assert more[..i] == code[..i] && more[i + 1..] == code[i + 1..] + [last];
    assert edit + [last] == more[..i] + more[i + 1..];
  }

  lemma SwapsExtend(code: string, edit: string, last: char)
    requires edit in Swapped(code)
    ensures edit + [last] in Swapped(code + [last])
  {
    var more := code + [last];
    var i :| 0 <= i < |code| - 1 && edit == code[..i] + [code[i + 1], code[i]] + code[i + 2..];
    assert more[..i] == code[..i] && more[i + 2..] == code[i + 2..] + [last];
    assert edit + [last] == more[..i] + [more[i + 1], more[i]] + more[i + 2..];
  }

  lemma ReplacementsExtend(code: string, edit: string, last: char, alphabet: set<char>)
    requires edit in Replaced(code, alphabet)
    ensures edit + [last] in Replaced(code + [last], alphabet)
  {
    var more := code + [last];
    var i, c :| 0 <= i < |code| && c in alphabet && edit == code[..i] + [c] + code[i + 1..];
    assert more[..i] == code[..i] && more[i + 1..] == code[i + 1..] + [last];
    assert edit + [last] == more[..i] + [c] + more[i + 1..];
  }

  lemma InsertionsExtend(code: string, edit: string, last: char, alphabet: set<char>)
    requires edit in Inserted(code, alphabet)
    ensures edit + [last] in Inserted(code + [last], alphabet)
  {
    var more := code + [last];
    var i, c :| 0 <= i <= |code| && c in alphabet && edit == code[..i] + [c] + code[i..];
    assert more[..i] == code[..i] && more[i..] == code[i..] + [last];
    assert edit + [last] == more[..i] + [c] + more[i..];
  }

  lemma {:induction false} NearAreEdits(a: string, b: string, i: nat, j: nat, alphabet: set<char>)
    requires i <= |a| && j <= |b| && PrefixDistance(a, b, i, j, alphabet) <= 1
    ensures b[..j] in Edits(a[..i], alphabet)
    decreases i + j
  {
    if i == 0 && j == 0 {
      assert a[..i] == b[..j];
    } else if i == 0 {
      NoDistanceIsEqual(a, b, i, j - 1, alphabet);
      LastInserted(a, b, i, j, alphabet);
    } else if j == 0 {
      NoDistanceIsEqual(a, b, i - 1, j, alphabet);
      LastDeleted(a, b, i, j, alphabet);
    } else {
      NearByItsLast(a, b, i, j, alphabet);
    }
  }

  lemma {:induction false} NearByItsLast(a: string, b: string, i: nat, j: nat, alphabet: set<char>)
    requires 0 < i <= |a| && 0 < j <= |b| && PrefixDistance(a, b, i, j, alphabet) <= 1
    ensures b[..j] in Edits(a[..i], alphabet)
    decreases i + j, 0
  {
    hide PrefixDistance, Edits;
    Unfolds(a, b, i, j, alphabet);
    if PrefixDistance(a, b, i - 1, j, alphabet) == 0 {
      NoDistanceIsEqual(a, b, i - 1, j, alphabet);
      LastDeleted(a, b, i, j, alphabet);
    } else if PrefixDistance(a, b, i, j - 1, alphabet) + Cost(b[j - 1], alphabet) <= 1 {
      NoDistanceIsEqual(a, b, i, j - 1, alphabet);
      LastInserted(a, b, i, j, alphabet);
    } else if a[i - 1] == b[j - 1] && PrefixDistance(a, b, i - 1, j - 1, alphabet) <= 1 {
      NearAreEdits(a, b, i - 1, j - 1, alphabet);
      LastKept(a, b, i, j, alphabet);
    } else if PrefixDistance(a, b, i - 1, j - 1, alphabet) + Cost(b[j - 1], alphabet) <= 1 {
      NoDistanceIsEqual(a, b, i - 1, j - 1, alphabet);
      LastReplaced(a, b, i, j, alphabet);
    } else {
      NoDistanceIsEqual(a, b, i - 2, j - 2, alphabet);
      LastSwapped(a, b, i, j, alphabet);
    }
  }

  lemma LastDeleted(a: string, b: string, i: nat, j: nat, alphabet: set<char>)
    requires 0 < i <= |a| && j <= |b| && a[..i - 1] == b[..j]
    ensures b[..j] in Edits(a[..i], alphabet)
  {
    var code := a[..i];
    assert code[..i - 1] == a[..i - 1] && code[i..] == [];
    assert b[..j] == code[..i - 1] + code[i - 1 + 1..];
    assert b[..j] in Deleted(code);
  }

  lemma LastInserted(a: string, b: string, i: nat, j: nat, alphabet: set<char>)
    requires i <= |a| && 0 < j <= |b| && a[..i] == b[..j - 1] && b[j - 1] in alphabet
    ensures b[..j] in Edits(a[..i], alphabet)
  {
    var code := a[..i];
    assert code[..i] == code && code[i..] == [];
    assert b[..j] == code[..i] + [b[j - 1]] + code[i..];
    assert b[..j] in Inserted(code, alphabet);
  }

  lemma LastKept(a: string, b: string, i: nat, j: nat, alphabet: set<char>)
    requires 0 < i <= |a| && 0 < j <= |b| && b[..j - 1] in Edits(a[..i - 1], alphabet) && a[i - 1] == b[j - 1]
    ensures b[..j] in Edits(a[..i], alphabet)
  {
    hide Edits;
    EditsExtend(a[..i - 1], b[..j - 1], b[j - 1], alphabet);
    assert a[..i] == a[..i - 1] + [a[i - 1]] && b[..j] == b[..j - 1] + [b[j - 1]];
  }

  lemma LastReplaced(a: string, b: string, i: nat, j: nat, alphabet: set<char>)
    requires 0 < i <= |a| && 0 < j <= |b| && a[..i - 1] == b[..j - 1] && b[j - 1] in alphabet
    ensures b[..j] in Edits(a[..i], alphabet)
  {
    var code := a[..i];
    assert code[..i - 1] == a[..i - 1] && code[i..] == [];
    assert b[..j] == code[..i - 1] + [b[j - 1]] + code[i - 1 + 1..];
    assert b[..j] in Replaced(code, alphabet);
  }

  lemma LastSwapped(a: string, b: string, i: nat, j: nat, alphabet: set<char>)
    requires 1 < i <= |a| && 1 < j <= |b| && a[..i - 2] == b[..j - 2] && a[i - 1] == b[j - 2] && a[i - 2] == b[j - 1]
    ensures b[..j] in Edits(a[..i], alphabet)
  {
    var code := a[..i];
    assert code[..i - 2] == a[..i - 2] && code[i..] == [];
    assert b[..j] == code[..i - 2] + [code[i - 2 + 1], code[i - 2]] + code[i - 2 + 2..];
    assert b[..j] in Swapped(code);
  }

  /** The generator is exact: what it makes is what is within one edit and as long as a code can be. */
  lemma OneEditAwayIsExact(code: string, edit: string, alphabet: set<char>)
    ensures edit in OneEditAway(code, alphabet) <==> 1 <= |edit| <= LONGEST_CODE && Distance(code, edit, alphabet) <= 1
  {
    hide PrefixDistance, Edits;
    if edit in Edits(code, alphabet) {
      EditsAreNear(code, edit, alphabet);
    }
    if Distance(code, edit, alphabet) <= 1 {
      NearAreEdits(code, edit, |code|, |edit|, alphabet);
      assert code[..|code|] == code && edit[..|edit|] == edit;
    }
  }

  predicate Over(text: string, alphabet: set<char>) {
    forall i :: 0 <= i < |text| ==> text[i] in alphabet
  }

  lemma ChoicesMirror(a: string, b: string, i: nat, j: nat, alphabet: set<char>,
                      deleted: nat, inserted: nat, replaced: nat, swapped: nat)
    requires 0 < i <= |a| && 0 < j <= |b| && a[i - 1] in alphabet && b[j - 1] in alphabet
    ensures Cheapest(a, b, i, j, alphabet, deleted, inserted, replaced, swapped)
         == Cheapest(b, a, j, i, alphabet, inserted, deleted, replaced, swapped)
  {
  }

  /** Between texts over the alphabet the distance is the same both ways. */
  lemma {:induction false} DistanceIsSymmetric(a: string, b: string, i: nat, j: nat, alphabet: set<char>)
    requires i <= |a| && j <= |b| && Over(a, alphabet) && Over(b, alphabet)
    ensures PrefixDistance(a, b, i, j, alphabet) == PrefixDistance(b, a, j, i, alphabet)
    decreases i + j
  {
    if i > 0 && j > 0 {
      hide PrefixDistance, Cheapest;
      DistanceIsSymmetric(a, b, i - 1, j, alphabet);
      DistanceIsSymmetric(a, b, i, j - 1, alphabet);
      DistanceIsSymmetric(a, b, i - 1, j - 1, alphabet);
      var swapped := 0;
      if i > 1 && j > 1 {
        DistanceIsSymmetric(a, b, i - 2, j - 2, alphabet);
        swapped := PrefixDistance(a, b, i - 2, j - 2, alphabet);
      }
      Unfolds(a, b, i, j, alphabet);
      Unfolds(b, a, j, i, alphabet);
      ChoicesMirror(a, b, i, j, alphabet, PrefixDistance(a, b, i - 1, j, alphabet), PrefixDistance(a, b, i, j - 1, alphabet),
                    PrefixDistance(a, b, i - 1, j - 1, alphabet), swapped);
    } else if i > 0 {
      DistanceIsSymmetric(a, b, i - 1, j, alphabet);
    } else if j > 0 {
      DistanceIsSymmetric(a, b, i, j - 1, alphabet);
    }
  }

  /** So a code is suggested for a typo exactly when the typo would be for it. */
  lemma SuggestionsAreMutual(a: string, b: string, alphabet: set<char>)
    requires Over(a, alphabet) && Over(b, alphabet) && 1 <= |a| <= LONGEST_CODE && 1 <= |b| <= LONGEST_CODE
    ensures b in OneEditAway(a, alphabet) <==> a in OneEditAway(b, alphabet)
  {
    hide PrefixDistance, OneEditAway;
    DistanceIsSymmetric(a, b, |a|, |b|, alphabet);
    OneEditAwayIsExact(a, b, alphabet);
    OneEditAwayIsExact(b, a, alphabet);
  }

  // ---------------------------------------------------------------- How many there are

  /** What the edits at the first `n` places make. */
  ghost function Everywhere(n: nat, at: nat -> set<string>): (all: set<string>)
    ensures forall i: nat, edit :: i < n && edit in at(i) ==> edit in all
  {
    if n == 0 then {} else Everywhere(n - 1, at) + at(n - 1)
  }

  lemma {:induction false} EverywhereSize(n: nat, at: nat -> set<string>, most: nat)
    requires forall i: nat :: i < n ==> |at(i)| <= most
    ensures |Everywhere(n, at)| <= n * most
  {
    if n > 0 {
      EverywhereSize(n - 1, at, most);
      assert n * most == (n - 1) * most + most;
    }
  }

  /** One edit a place at most. */
  lemma OneAPlace(edits: set<string>, n: nat, at: nat -> string)
    requires forall edit :: edit in edits ==> exists i: nat :: i < n && edit == at(i)
    ensures |edits| <= n
  {
    var only := (i: nat) => {at(i)};
    EverywhereSize(n, only, 1);
    assert edits <= Everywhere(n, only) by {
      forall edit | edit in edits ensures edit in Everywhere(n, only) {
        var i: nat :| i < n && edit == at(i);
        assert edit in only(i);
      }
    }
    SubsetSize(edits, Everywhere(n, only));
  }

  lemma {:induction false} Written(alphabet: set<char>, text: char -> string)
    ensures |set c | c in alphabet :: text(c)| <= |alphabet|
  {
    if alphabet != {} {
      var x :| x in alphabet;
      Written(alphabet - {x}, text);
      assert (set c | c in alphabet :: text(c)) == (set c | c in alphabet - {x} :: text(c)) + {text(x)};
    }
  }

  /** An edit for each character of the alphabet a place at most. */
  lemma OneACharacter(edits: set<string>, n: nat, alphabet: set<char>, at: (nat, char) -> string)
    requires forall edit :: edit in edits ==> exists i: nat, c :: i < n && c in alphabet && edit == at(i, c)
    ensures |edits| <= n * |alphabet|
  {
    var each := (i: nat) => set c | c in alphabet :: at(i, c);
    forall i: nat | i < n ensures |each(i)| <= |alphabet| {
      var text := (c: char) => at(i, c);
      Written(alphabet, text);
      assert each(i) == set c | c in alphabet :: text(c);
    }
    EverywhereSize(n, each, |alphabet|);
    assert edits <= Everywhere(n, each) by {
      forall edit | edit in edits ensures edit in Everywhere(n, each) {
        var i: nat, c :| i < n && c in alphabet && edit == at(i, c);
        assert edit in each(i);
      }
    }
    SubsetSize(edits, Everywhere(n, each));
  }

  lemma DeletedSize(code: string)
    ensures |Deleted(code)| <= |code|
  {
    var at := (i: nat) => if i < |code| then code[..i] + code[i + 1..] else "";
    forall edit | edit in Deleted(code) ensures exists i: nat :: i < |code| && edit == at(i) {
      var i :| 0 <= i < |code| && edit == code[..i] + code[i + 1..];
      assert edit == at(i);
    }
    OneAPlace(Deleted(code), |code|, at);
  }

  lemma SwappedSize(code: string)
    requires code != []
    ensures |Swapped(code)| < |code|
  {
    var at := (i: nat) => if i < |code| - 1 then code[..i] + [code[i + 1], code[i]] + code[i + 2..] else "";
    forall edit | edit in Swapped(code) ensures exists i: nat :: i < |code| - 1 && edit == at(i) {
      var i :| 0 <= i < |code| - 1 && edit == code[..i] + [code[i + 1], code[i]] + code[i + 2..];
      assert edit == at(i);
    }
    OneAPlace(Swapped(code), |code| - 1, at);
  }

  lemma ReplacedSize(code: string, alphabet: set<char>)
    ensures |Replaced(code, alphabet)| <= |code| * |alphabet|
  {
    var at := (i: nat, c: char) => if i < |code| then code[..i] + [c] + code[i + 1..] else "";
    forall edit | edit in Replaced(code, alphabet)
      ensures exists i: nat, c :: i < |code| && c in alphabet && edit == at(i, c)
    {
      var i, c :| 0 <= i < |code| && c in alphabet && edit == code[..i] + [c] + code[i + 1..];
      assert edit == at(i, c);
    }
    OneACharacter(Replaced(code, alphabet), |code|, alphabet, at);
  }

  lemma InsertedSize(code: string, alphabet: set<char>)
    ensures |Inserted(code, alphabet)| <= (|code| + 1) * |alphabet|
  {
    var at := (i: nat, c: char) => if i <= |code| then code[..i] + [c] + code[i..] else "";
    forall edit | edit in Inserted(code, alphabet)
      ensures exists i: nat, c :: i < |code| + 1 && c in alphabet && edit == at(i, c)
    {
      var i, c :| 0 <= i <= |code| && c in alphabet && edit == code[..i] + [c] + code[i..];
      assert edit == at(i, c);
    }
    OneACharacter(Inserted(code, alphabet), |code| + 1, alphabet, at);
  }

  /** About 800 for six characters: at most (2n + 1)k + 2n for n characters and an alphabet of k. */
  lemma OneEditAwaySize(code: string, alphabet: set<char>)
    ensures |OneEditAway(code, alphabet)| <= (2 * |code| + 1) * |alphabet| + 2 * |code|
  {
    hide Deleted, Replaced, Inserted;
    DeletedSize(code);
    if code == [] {
      assert Swapped(code) == {};
    } else {
      SwappedSize(code);
    }
    ReplacedSize(code, alphabet);
    InsertedSize(code, alphabet);
    var n, k := |code|, |alphabet|;
    assert (2 * n + 1) * k == n * k + (n + 1) * k;
    var written := Deleted(code) + Swapped(code) + Replaced(code, alphabet) + Inserted(code, alphabet);
    var all := if code == [] then written else written + {code};
    assert OneEditAway(code, alphabet) <= all;
    SubsetSize(OneEditAway(code, alphabet), all);
  }

  // ---------------------------------------------------------------- The code a path tried

  predicate Upper(c: char) { 'A' <= c <= 'Z' }

  /** What a code is made of: ASCII letters, digits, "_" and "-". */
  predicate CodeCharacter(c: char) {
    Upper(c) || 'a' <= c <= 'z' || '0' <= c <= '9' || c == '_' || c == '-'
  }

  /** What codes are kept in: no capitals where their case doesn't matter. */
  function Alphabet(loose: bool): set<char> {
    set c: char | CodeCharacter(c) && !(loose && Upper(c))
  }

  function LowerCharacter(c: char): char {
    if Upper(c) then (c as int - 'A' as int + 'a' as int) as char else c
  }

  /** A text as codes are kept. */
  function Kept(text: string, loose: bool): (kept: string)
    ensures |kept| == |text|
  {
    if loose then seq(|text|, i requires 0 <= i < |text| => LowerCharacter(text[i])) else text
  }

  function WithoutSlash(path: string): string {
    if path != "" && path[0] == '/' then path[1..] else path
  }

  /** The code a path tried, as codes are kept; None for one that's empty, too long or has a foreign character. */
  function TypedCode(path: string, loose: bool): Option<string> {
    var typed := WithoutSlash(path);
    if typed == "" || |typed| > LONGEST_CODE || exists i :: 0 <= i < |typed| && !CodeCharacter(typed[i]) then None
    else Some(Kept(typed, loose))
  }

  /** A code's characters by their numbers in ASCII, and what case makes of them. */
  lemma CodeCharacters(c: char, loose: bool)
    ensures var n := c as int;
      && (CodeCharacter(c) <==> 65 <= n <= 90 || 97 <= n <= 122 || 48 <= n <= 57 || n == 95 || n == 45)
      && (c in Alphabet(loose) <==> CodeCharacter(c) && !(loose && 65 <= n <= 90))
      && LowerCharacter(c) as int == (if 65 <= n <= 90 then n + 32 else n)
  {
  }

  /** What a path is taken for: what follows its one slash, in small letters where case doesn't matter. */
  lemma TypedCodeRules(text: string, loose: bool)
    ensures WithoutSlash("/" + text) == text
    ensures !("/" <= text) ==> WithoutSlash(text) == text
    ensures TypedCode("/" + text, loose).Some? <==> 1 <= |text| <= 64 && forall i :: 0 <= i < |text| ==> CodeCharacter(text[i])
    ensures TypedCode("/" + text, loose).Some? ==>
      var typed := TypedCode("/" + text, loose).value;
      |typed| == |text| && forall i :: 0 <= i < |text| ==> typed[i] == if loose then LowerCharacter(text[i]) else text[i]
  {
    assert ("/" + text)[1..] == text;
  }

  /** A code that can be kept. */
  predicate IsCode(code: string, alphabet: set<char>) {
    1 <= |code| <= LONGEST_CODE && Over(code, alphabet)
  }

  /** Some code is what was typed, or one edit from it. */
  ghost predicate NearACode(text: string, alphabet: set<char>) {
    exists code :: IsCode(code, alphabet) && Distance(text, code, alphabet) <= 1
  }

  function IsForeign(alphabet: set<char>): char -> bool {
    (c: char) => c !in alphabet
  }

  /** How many characters of a text no code has. */
  function Foreign(text: string, alphabet: set<char>): (n: nat)
    ensures n <= |text|
  {
    Count(text, IsForeign(alphabet))
  }

  lemma {:induction false} NoneForeign(text: string, alphabet: set<char>)
    ensures Foreign(text, alphabet) == 0 <==> Over(text, alphabet)
  {
    if text != [] {
      NoneForeign(text[1..], alphabet);
      assert Over(text, alphabet) ==> Over(text[1..], alphabet);
      assert Over(text[1..], alphabet) && text[0] in alphabet ==> Over(text, alphabet) by {
        assert forall i :: 0 < i < |text| ==> text[i] == text[1..][i - 1];
      }
    }
  }

  /** Foreign characters before a place, at it, and after it. */
  lemma ForeignAround(head: string, mid: string, tail: string, alphabet: set<char>)
    ensures Foreign(head + mid + tail, alphabet) == Foreign(head, alphabet) + Foreign(mid, alphabet) + Foreign(tail, alphabet)
  {
    CountConcat(head + mid, tail, IsForeign(alphabet));
    CountConcat(head, mid, IsForeign(alphabet));
  }

  /** Rewriting one character, or swapping two, loses one character and one foreign character at most. */
  lemma Rewritten(text: string, i: nat, j: nat, written: string, alphabet: set<char>)
    requires i <= j <= |text| && j - i <= |written| + 1
    requires Foreign(text[i..j], alphabet) <= Foreign(written, alphabet) + 1
    ensures |text| <= |text[..i] + written + text[j..]| + 1
    ensures Foreign(text, alphabet) <= Foreign(text[..i] + written + text[j..], alphabet) + 1
  {
    hide Foreign;
    assert text == text[..i] + text[i..j] + text[j..];
    ForeignAround(text[..i], text[i..j], text[j..], alphabet);
    ForeignAround(text[..i], written, text[j..], alphabet);
  }

  lemma SwapKeepsForeign(text: string, i: nat, alphabet: set<char>)
    requires i + 1 < |text|
    ensures Foreign(text[i..i + 2], alphabet) == Foreign([text[i + 1], text[i]], alphabet)
  {
    hide Foreign;
    var a, b := [text[i]], [text[i + 1]];
    ForeignAround([], a, b, alphabet);
    ForeignAround([], b, a, alphabet);
    assert [] + a + b == text[i..i + 2] && [] + b + a == [text[i + 1], text[i]];
  }

  predicate LosesOne(text: string, edit: string, alphabet: set<char>) {
    |text| <= |edit| + 1 && Foreign(text, alphabet) <= Foreign(edit, alphabet) + 1
  }

  lemma DeletedLosesOne(text: string, edit: string, alphabet: set<char>)
    requires edit in Deleted(text)
    ensures LosesOne(text, edit, alphabet)
  {
    hide Foreign;
    var i :| 0 <= i < |text| && edit == text[..i] + text[i + 1..];
    Rewritten(text, i, i + 1, [], alphabet);
    assert text[..i] + [] == text[..i];
  }

  lemma SwappedLosesOne(text: string, edit: string, alphabet: set<char>)
    requires edit in Swapped(text)
    ensures LosesOne(text, edit, alphabet)
  {
    hide Foreign;
    var i :| 0 <= i < |text| - 1 && edit == text[..i] + [text[i + 1], text[i]] + text[i + 2..];
    SwapKeepsForeign(text, i, alphabet);
    Rewritten(text, i, i + 2, [text[i + 1], text[i]], alphabet);
  }

  lemma ReplacedLosesOne(text: string, edit: string, alphabet: set<char>)
    requires edit in Replaced(text, alphabet)
    ensures LosesOne(text, edit, alphabet)
  {
    hide Foreign;
    var i, c :| 0 <= i < |text| && c in alphabet && edit == text[..i] + [c] + text[i + 1..];
    Rewritten(text, i, i + 1, [c], alphabet);
  }

  lemma InsertedLosesOne(text: string, edit: string, alphabet: set<char>)
    requires edit in Inserted(text, alphabet)
    ensures LosesOne(text, edit, alphabet)
  {
    hide Foreign;
    var i, c :| 0 <= i <= |text| && c in alphabet && edit == text[..i] + [c] + text[i..];
    Rewritten(text, i, i, [c], alphabet);
  }

  /** One edit takes away one character, and one foreign character, at most. */
  lemma EditsLoseOne(text: string, edit: string, alphabet: set<char>)
    requires edit in Edits(text, alphabet)
    ensures LosesOne(text, edit, alphabet)
  {
    hide Foreign, Deleted, Swapped, Replaced, Inserted;
    if edit in Deleted(text) {
      DeletedLosesOne(text, edit, alphabet);
    } else if edit in Swapped(text) {
      SwappedLosesOne(text, edit, alphabet);
    } else if edit in Replaced(text, alphabet) {
      ReplacedLosesOne(text, edit, alphabet);
    } else if edit in Inserted(text, alphabet) {
      InsertedLosesOne(text, edit, alphabet);
    }
  }

  lemma {:induction false} ForeignPlace(text: string, alphabet: set<char>) returns (i: nat)
    requires Foreign(text, alphabet) == 1
    ensures i < |text| && Over(text[..i], alphabet) && Over(text[i + 1..], alphabet)
  {
    if text[0] in alphabet {
      var k := ForeignPlace(text[1..], alphabet);
      i := k + 1;
      assert text[..i] == [text[0]] + text[1..][..k];
      assert text[1..][k + 1..] == text[i + 1..];
    } else {
      i := 0;
      NoneForeign(text[1..], alphabet);
    }
  }

  lemma NearIsNotTooFar(text: string, alphabet: set<char>)
    requires NearACode(text, alphabet)
    ensures |text| <= LONGEST_CODE + 1 && Foreign(text, alphabet) <= 1
  {
    hide Distance, Foreign, Edits;
    var code :| IsCode(code, alphabet) && Distance(text, code, alphabet) <= 1;
    NearIsAnEdit(text, code, alphabet);
    EditsLoseOne(text, code, alphabet);
    NoneForeign(code, alphabet);
  }

  lemma NearIsAnEdit(text: string, code: string, alphabet: set<char>)
    requires Distance(text, code, alphabet) <= 1
    ensures code in Edits(text, alphabet)
  {
    hide PrefixDistance, Edits;
    NearAreEdits(text, code, |text|, |code|, alphabet);
    assert text[..|text|] == text && code[..|code|] == code;
  }

  lemma NotTooFarIsNear(text: string, alphabet: set<char>, any: char)
    requires any in alphabet && |text| <= LONGEST_CODE + 1 && Foreign(text, alphabet) <= 1
    ensures NearACode(text, alphabet)
  {
    hide Distance, Foreign;
    NoneForeign(text, alphabet);
    var code;
    if |text| == 0 {
      code := text[..0] + [any] + text[0..];
      InsertedIsNear(text, 0, any, alphabet);
    } else if Foreign(text, alphabet) == 1 {
      var i := ForeignPlace(text, alphabet);
      if |text| > LONGEST_CODE {
        code := text[..i] + text[i + 1..];
        DeletedIsNear(text, i, alphabet);
      } else {
        code := text[..i] + [any] + text[i + 1..];
        ReplacedIsNear(text, i, any, alphabet);
      }
    } else if |text| > LONGEST_CODE {
      var last := |text| - 1;
      code := text[..last] + text[last + 1..];
      DeletedIsNear(text, last, alphabet);
    } else {
      code := text;
      ItselfIsNear(text, alphabet);
    }
    assert IsCode(code, alphabet);
  }

  /** A typed code is a code, as codes are kept. */
  lemma TypedCodeIsACode(path: string, loose: bool)
    requires TypedCode(path, loose).Some?
    ensures IsCode(TypedCode(path, loose).value, Alphabet(loose))
  {
    var typed := WithoutSlash(path);
    var kept := Kept(typed, loose);
    forall i | 0 <= i < |kept| ensures kept[i] in Alphabet(loose) {
      assert CodeCharacter(typed[i]);
    }
  }

  /** Empty, or with one foreign character, or one character too long: one edit makes it a code. */
  predicate OneEditShort(text: string, alphabet: set<char>) {
    |text| <= LONGEST_CODE + 1
    && if Foreign(text, alphabet) == 0 then text == "" || |text| == LONGEST_CODE + 1 else Foreign(text, alphabet) == 1
  }

  /** A path is given up though a code is one edit from it exactly when it is one edit short of a code. */
  lemma GivesUpTooSoonIff(path: string, loose: bool)
    ensures TypedCode(path, loose) == None && NearACode(Kept(WithoutSlash(path), loose), Alphabet(loose))
      <==> OneEditShort(Kept(WithoutSlash(path), loose), Alphabet(loose))
  {
    hide Foreign, NearACode;
    var typed, kept, alphabet := WithoutSlash(path), Kept(WithoutSlash(path), loose), Alphabet(loose);
    if NearACode(kept, alphabet) {
      NearIsNotTooFar(kept, alphabet);
    }
    assert 'a' in alphabet;
    if |kept| <= LONGEST_CODE + 1 && Foreign(kept, alphabet) <= 1 {
      NotTooFarIsNear(kept, alphabet, 'a');
    }
    NoneForeign(kept, alphabet);
    forall i | 0 <= i < |typed| ensures CodeCharacter(typed[i]) <==> kept[i] in alphabet {
    }
  }

  /** Such as "/abc.d": one edit from "/abcd", and given up for its dot. */
  lemma GivesUpADot()
    ensures TypedCode("/abc.d", true) == None && "abcd" in OneEditAway("abc.d", Alphabet(true))
  {
    var typed := "abc.d";
    assert WithoutSlash("/abc.d") == typed && !CodeCharacter(typed[3]);
    assert "abcd" == typed[..3] + typed[4..];
    assert "abcd" in Deleted(typed);
  }
}
