/** GROUP BY: the distinct keys of rows, and sums over them that lose no row. */
module Grouping {
  import opened Rows

  ghost predicate Distinct<K>(keys: seq<K>) {
    forall j, k :: 0 <= j < k < |keys| ==> keys[j] != keys[k]
  }

  /** The distinct keys of rows, as first met. */
  function Keys<R, K(==)>(rows: seq<R>, key: R -> K): (keys: seq<K>)
    ensures Distinct(keys)
    ensures forall row | row in rows :: key(row) in keys
    ensures forall k | k in keys :: exists row :: row in rows && key(row) == k
  {
    if rows == [] then []
    else
      var before, last := Keys(rows[..|rows| - 1], key), rows[|rows| - 1];
      assert rows == rows[..|rows| - 1] + [last];
      if key(last) in before then before else before + [key(last)]
  }

  function SumOver<K>(keys: seq<K>, f: K -> nat): nat {
    if keys == [] then 0 else SumOver(keys[..|keys| - 1], f) + f(keys[|keys| - 1])
  }

  /** The rows of a group that some condition keeps. */
  function InGroup<R, K(==)>(key: R -> K, k: K, keep: R -> bool): R -> bool {
    (row: R) => key(row) == k && keep(row)
  }

  function GroupCount<R, K(==)>(rows: seq<R>, key: R -> K, keep: R -> bool): K -> nat {
    (k: K) => Count(rows, InGroup(key, k, keep))
  }

  lemma SumOverNothing<K>(f: K -> nat)
    ensures SumOver([], f) == 0
  {
  }

  lemma SumOverNext<K>(keys: seq<K>, next: K, f: K -> nat)
    ensures SumOver(keys + [next], f) == SumOver(keys, f) + f(next)
  {
    assert (keys + [next])[..|keys|] == keys;
  }

  lemma {:induction false} SumOverSame<K>(keys: seq<K>, f: K -> nat, g: K -> nat)
    requires forall k | k in keys :: f(k) == g(k)
    ensures SumOver(keys, f) == SumOver(keys, g)
  {
    if keys != [] {
      SumOverSame(keys[..|keys| - 1], f, g);
    }
  }

  /** More of one key is that much more of the sum. */
  lemma {:induction false} SumOverOneMore<K>(keys: seq<K>, f: K -> nat, g: K -> nat, one: K, more: nat)
    requires Distinct(keys) && one in keys && g(one) == f(one) + more
    requires forall k | k in keys && k != one :: f(k) == g(k)
    ensures SumOver(keys, g) == SumOver(keys, f) + more
  {
    var before, last := keys[..|keys| - 1], keys[|keys| - 1];
    if last == one {
      SumOverSame(before, f, g);
    } else {
      SumOverOneMore(before, f, g, one, more);
    }
  }

  /** Every row a condition keeps is in one group: the groups' counts sum to all of them. */
  lemma {:induction false} GroupsLoseNothing<R, K>(rows: seq<R>, key: R -> K, keep: R -> bool)
    ensures SumOver(Keys(rows, key), GroupCount(rows, key, keep)) == Count(rows, keep)
  {
    if rows != [] {
      var before, last := rows[..|rows| - 1], rows[|rows| - 1];
      assert rows == before + [last];
      GroupsLoseNothing(before, key, keep);
      var keys, f, g := Keys(before, key), GroupCount(before, key, keep), GroupCount(rows, key, keep);
      var more := if keep(last) then 1 else 0;
      CountSnoc(before, last, keep);
      forall k | k in keys + [key(last)] ensures g(k) == f(k) + if k == key(last) then more else 0 {
        CountSnoc(before, last, InGroup(key, k, keep));
      }
      assert key(last) in keys + [key(last)];
      assert forall k | k in keys :: k in keys + [key(last)];
      if key(last) in keys {
        SumOverOneMore(keys, f, g, key(last), more);
      } else {
        NoGroupYet(before, key, keep, key(last));
        SumOverSame(keys, f, g);
        assert (keys + [key(last)])[..|keys|] == keys;
      }
    }
  }

  lemma NoGroupYet<R, K>(rows: seq<R>, key: R -> K, keep: R -> bool, k: K)
    requires k !in Keys(rows, key)
    ensures GroupCount(rows, key, keep)(k) == 0
  {
    CountNone(rows, InGroup(key, k, keep));
  }

  // ---------------------------------------------------------------- Groups by what they are labelled

  function Labelled<R, K, L(==)>(key: R -> K, name: K -> L, l: L): R -> bool {
    (row: R) => name(key(row)) == l
  }

  function LabelOf<R, K, L>(key: R -> K, name: K -> L): R -> L {
    (row: R) => name(key(row))
  }

  function Counted<L>(counts: map<L, nat>): L -> nat {
    (l: L) => if l in counts then counts[l] else 0
  }

  function Everything<R>(): R -> bool {
    (row: R) => true
  }

  /** The groups' counts that go to one label. */
  function GoingTo<R, K(==), L(==)>(rows: seq<R>, key: R -> K, name: K -> L, l: L): K -> nat {
    (k: K) => if name(k) == l then GroupCount(rows, key, Everything())(k) else 0
  }

  /** The groups a label sums hold exactly the rows it labels. */
  lemma LabelCounts<R, K, L>(rows: seq<R>, key: R -> K, name: K -> L, l: L)
    ensures SumOver(Keys(rows, key), GoingTo(rows, key, name, l)) == Count(rows, Labelled(key, name, l))
  {
    var labelled := Labelled(key, name, l);
    forall k | k in Keys(rows, key) ensures GroupCount(rows, key, labelled)(k) == GoingTo(rows, key, name, l)(k) {
      if name(k) == l {
        CountSame(rows, InGroup(key, k, labelled), InGroup(key, k, Everything()));
      } else {
        CountNone(rows, InGroup(key, k, labelled));
      }
    }
    SumOverSame(Keys(rows, key), GroupCount(rows, key, labelled), GoingTo(rows, key, name, l));
    GroupsLoseNothing(rows, key, labelled);
  }

  lemma NamesOfGroups<R, K, L(!new)>(rows: seq<R>, key: R -> K, name: K -> L)
    ensures (set group | group in Keys(rows, key) :: name(group)) == set row | row in rows :: name(key(row))
  {
    forall row | row in rows ensures name(key(row)) in set group | group in Keys(rows, key) :: name(group) {
      assert key(row) in Keys(rows, key);
    }
  }

  /** Rows grouped in SQL and each group's count added to its label's: as many as the rows with that label. */
  method CountByLabel<R, K(==, !new), L(==, !new)>(rows: seq<R>, key: R -> K, name: K -> L) returns (counts: map<L, nat>)
    ensures forall l :: Counted(counts)(l) == Count(rows, Labelled(key, name, l))
    ensures counts.Keys == set row | row in rows :: name(key(row))
  {
    hide Count, Labelled, GroupCount, SumOver;
    assert forall l :: SumOver([], GoingTo(rows, key, name, l)) == 0 by {
      forall l { SumOverNothing(GoingTo(rows, key, name, l)); }
    }
    var groups := Keys(rows, key);
    counts := map[];
    for i := 0 to |groups|
      invariant forall l :: Counted(counts)(l) == SumOver(groups[..i], GoingTo(rows, key, name, l))
      invariant counts.Keys == set group | group in groups[..i] :: name(group)
    {
      assert groups[..i + 1] == groups[..i] + [groups[i]];
      forall l
        ensures SumOver(groups[..i + 1], GoingTo(rows, key, name, l))
             == SumOver(groups[..i], GoingTo(rows, key, name, l)) + GoingTo(rows, key, name, l)(groups[i])
      {
        SumOverNext(groups[..i], groups[i], GoingTo(rows, key, name, l));
      }
      var group := groups[i];
      counts := counts[name(group) := Counted(counts)(name(group)) + GroupCount(rows, key, Everything())(group)];
    }
    assert groups[..|groups|] == groups;
    NamesOfGroups(rows, key, name);
    forall l ensures Counted(counts)(l) == Count(rows, Labelled(key, name, l)) {
      LabelCounts(rows, key, name, l);
    }
  }

  /** A sum over a set of keys, in whatever order. */
  ghost function Total<K>(keys: set<K>, f: K -> nat): nat {
    if keys == {} then 0
    else
      var one :| one in keys;
      f(one) + Total(keys - {one}, f)
  }

  lemma {:induction false} AnyKeyFirst<K>(keys: set<K>, f: K -> nat, first: K)
    requires first in keys
    ensures Total(keys, f) == f(first) + Total(keys - {first}, f)
  {
    var one :| one in keys && Total(keys, f) == f(one) + Total(keys - {one}, f);
    if one != first {
      AnyKeyFirst(keys - {one}, f, first);
      AnyKeyFirst(keys - {first}, f, one);
      assert keys - {one} - {first} == keys - {first} - {one};
    }
  }

  lemma {:induction false} TotalOfListed<K>(listed: seq<K>, keys: set<K>, f: K -> nat)
    requires Distinct(listed) && keys == set k | k in listed
    ensures Total(keys, f) == SumOver(listed, f)
  {
    if listed != [] {
      var before, last := listed[..|listed| - 1], listed[|listed| - 1];
      assert listed == before + [last];
      AnyKeyFirst(keys, f, last);
      assert keys - {last} == set k | k in before;
      TotalOfListed(before, keys - {last}, f);
    }
  }

  /** A table's counts, summed. */
  method SumOf<L(==)>(counts: map<L, nat>) returns (sum: nat)
    ensures sum == Total(counts.Keys, Counted(counts))
  {
    sum := 0;
    var left := counts.Keys;
    while left != {}
      invariant left <= counts.Keys
      invariant sum + Total(left, Counted(counts)) == Total(counts.Keys, Counted(counts))
      decreases left
    {
      var one :| one in left;
      AnyKeyFirst(left, Counted(counts), one);
      sum := sum + counts[one];
      left := left - {one};
    }
  }

  /** Summed over its labels, such a table counts every row. */
  lemma LabelsLoseNothing<R, K, L(!new)>(rows: seq<R>, key: R -> K, name: K -> L, counts: map<L, nat>)
    requires forall l :: Counted(counts)(l) == Count(rows, Labelled(key, name, l))
    requires counts.Keys == set row | row in rows :: name(key(row))
    ensures Total(counts.Keys, Counted(counts)) == |rows|
  {
    var labels := Keys(rows, LabelOf(key, name));
    forall l | l in labels ensures Counted(counts)(l) == GroupCount(rows, LabelOf(key, name), Everything())(l) {
      CountSame(rows, Labelled(key, name, l), InGroup(LabelOf(key, name), l, Everything()));
    }
    SumOverSame(labels, Counted(counts), GroupCount(rows, LabelOf(key, name), Everything()));
    GroupsLoseNothing(rows, LabelOf(key, name), Everything());
    CountKept(rows, Everything());
    FilterAll(rows, Everything());
    assert counts.Keys == set l | l in labels by {
      NamesAreKeys(rows, key, name);
    }
    TotalOfListed(labels, counts.Keys, Counted(counts));
  }

  lemma NamesAreKeys<R, K, L(!new)>(rows: seq<R>, key: R -> K, name: K -> L)
    ensures (set row | row in rows :: name(key(row))) == set l | l in Keys(rows, LabelOf(key, name))
  {
    forall row | row in rows ensures name(key(row)) in Keys(rows, LabelOf(key, name)) {
      assert LabelOf(key, name)(row) in Keys(rows, LabelOf(key, name));
    }
  }
}
