/** Shared vocabulary: optional values, and the filters and counts that stand for queries over rows. */
module Rows {
  datatype Option<+T> = None | Some(value: T)

  /** The rows a WHERE clause keeps, in table order. */
  function Filter<T>(rows: seq<T>, keep: T -> bool): (kept: seq<T>)
  {
    if rows == [] then []
    else (if keep(rows[0]) then [rows[0]] else []) + Filter(rows[1..], keep)
  }

  /** How many rows a WHERE clause keeps. */
  function Count<T>(rows: seq<T>, keep: T -> bool): (n: nat)
    ensures n <= |rows|
  {
    if rows == [] then 0
    else (if keep(rows[0]) then 1 else 0) + Count(rows[1..], keep)
  }

  /** `OFFSET skip LIMIT limit`. */
  function Page<T>(rows: seq<T>, skip: nat, limit: nat): (page: seq<T>)
    ensures |page| <= limit && page <= if skip <= |rows| then rows[skip..] else []
  {
    var left := if skip <= |rows| then rows[skip..] else [];
    if limit <= |left| then left[..limit] else left
  }

  /** Counting looks only at which rows are kept. */
  lemma {:induction false} CountSame<T>(rows: seq<T>, p: T -> bool, q: T -> bool)
    requires forall row | row in rows :: p(row) == q(row)
    ensures Count(rows, p) == Count(rows, q)
  {
    if rows != [] {
      CountSame(rows[1..], p, q);
    }
  }

  /** Rows paired one to one, kept together, count the same. */
  lemma {:induction false} CountPaired<S, T>(a: seq<S>, b: seq<T>, p: S -> bool, q: T -> bool)
    requires |a| == |b| && forall k :: 0 <= k < |b| ==> q(b[k]) == p(a[k])
    ensures Count(a, p) == Count(b, q)
  {
    if a != [] {
      CountPaired(a[1..], b[1..], p, q);
    }
  }

  lemma {:induction false} CountNone<T>(rows: seq<T>, p: T -> bool)
    requires forall row | row in rows :: !p(row)
    ensures Count(rows, p) == 0
  {
    if rows != [] {
      CountNone(rows[1..], p);
    }
  }

  /** Counting what a filter kept is counting both conditions at once. */
  lemma {:induction false} CountFilter<T>(rows: seq<T>, keep: T -> bool, p: T -> bool, both: T -> bool)
    requires forall row | row in rows :: both(row) == (keep(row) && p(row))
    ensures Count(Filter(rows, keep), p) == Count(rows, both)
  {
    if rows != [] {
      CountFilter(rows[1..], keep, p, both);
      var rest := Filter(rows[1..], keep);
      assert keep(rows[0]) ==> ([rows[0]] + rest)[1..] == rest;
      assert !keep(rows[0]) ==> [] + rest == rest;
    }
  }

  /** Two conditions no row meets at once count as their union. */
  lemma {:induction false} CountUnion<T>(rows: seq<T>, p: T -> bool, q: T -> bool, either: T -> bool)
    requires forall row | row in rows :: !(p(row) && q(row))
    requires forall row | row in rows :: either(row) == (p(row) || q(row))
    ensures Count(rows, either) == Count(rows, p) + Count(rows, q)
  {
    if rows != [] {
      CountUnion(rows[1..], p, q, either);
    }
  }

  lemma {:induction false} CountConcat<T>(a: seq<T>, b: seq<T>, p: T -> bool)
    ensures Count(a + b, p) == Count(a, p) + Count(b, p)
  {
    if a == [] {
      assert a + b == b;
    } else {
      CountConcat(a[1..], b, p);
      assert (a + b)[1..] == a[1..] + b;
    }
  }

  /** Adding a row at the end, as an INSERT does. */
  lemma CountSnoc<T>(rows: seq<T>, row: T, p: T -> bool)
    ensures Count(rows + [row], p) == Count(rows, p) + if p(row) then 1 else 0
  {
    CountConcat(rows, [row], p);
    assert Count([row], p) == (if p(row) then 1 else 0) + Count([row][1..], p);
  }

  lemma {:induction false} KeptRows<T>(rows: seq<T>, keep: T -> bool, row: T)
    requires row in Filter(rows, keep)
    ensures row in rows && keep(row)
  {
    if row in Filter(rows[1..], keep) {
      KeptRows(rows[1..], keep, row);
    }
  }

  /** Counting is how many a filter keeps. */
  lemma {:induction false} CountKept<T>(rows: seq<T>, keep: T -> bool)
    ensures |Filter(rows, keep)| == Count(rows, keep)
  {
    if rows != [] {
      CountKept(rows[1..], keep);
    }
  }

  lemma {:induction false} FilterKeeps<T>(rows: seq<T>, keep: T -> bool, row: T)
    requires row in rows && keep(row)
    ensures row in Filter(rows, keep)
  {
    if row != rows[0] {
      FilterKeeps(rows[1..], keep, row);
    }
  }

  lemma {:induction false} FilterNone<T>(rows: seq<T>, keep: T -> bool)
    requires forall row | row in rows :: !keep(row)
    ensures Filter(rows, keep) == []
  {
    if rows != [] {
      FilterNone(rows[1..], keep);
    }
  }

  lemma {:induction false} FilterAll<T>(rows: seq<T>, keep: T -> bool)
    requires forall row | row in rows :: keep(row)
    ensures Filter(rows, keep) == rows
  {
    if rows != [] {
      FilterAll(rows[1..], keep);
    }
  }

  lemma {:induction false} FilterSame<T>(rows: seq<T>, p: T -> bool, q: T -> bool)
    requires forall row | row in rows :: p(row) == q(row)
    ensures Filter(rows, p) == Filter(rows, q)
  {
    if rows != [] {
      FilterSame(rows[1..], p, q);
    }
  }

  lemma {:induction false} FilterConcat<T>(a: seq<T>, b: seq<T>, keep: T -> bool)
    ensures Filter(a + b, keep) == Filter(a, keep) + Filter(b, keep)
  {
    if a == [] {
      assert a + b == b;
    } else {
      FilterConcat(a[1..], b, keep);
      assert (a + b)[1..] == a[1..] + b && (a + b)[0] == a[0];
      var first := if keep(a[0]) then [a[0]] else [];
      assert first + (Filter(a[1..], keep) + Filter(b, keep)) == (first + Filter(a[1..], keep)) + Filter(b, keep);
    }
  }

  lemma FilterSnoc<T>(rows: seq<T>, row: T, keep: T -> bool)
    ensures Filter(rows + [row], keep) == Filter(rows, keep) + if keep(row) then [row] else []
  {
    FilterConcat(rows, [row], keep);
    assert Filter([row][1..], keep) == [];
  }

  lemma {:induction false} FilterTwice<T>(rows: seq<T>, first: T -> bool, second: T -> bool, both: T -> bool)
    requires forall row | row in rows :: both(row) == (first(row) && second(row))
    ensures Filter(Filter(rows, first), second) == Filter(rows, both)
  {
    if rows != [] {
      FilterTwice(rows[1..], first, second, both);
      FilterConcat(if first(rows[0]) then [rows[0]] else [], Filter(rows[1..], first), second);
      assert Filter([rows[0]][1..], second) == [];
    }
  }

  lemma {:induction false} FilterMultiset<T>(rows: seq<T>, keep: T -> bool, row: T)
    ensures multiset(Filter(rows, keep))[row] == if keep(row) then multiset(rows)[row] else 0
  {
    if rows != [] {
      FilterMultiset(rows[1..], keep, row);
      assert rows == [rows[0]] + rows[1..];
    }
  }

  lemma {:induction false} SubsetSize<T>(a: set<T>, b: set<T>)
    requires a <= b
    ensures |a| <= |b|
  {
    if a != {} {
      var x :| x in a;
      SubsetSize(a - {x}, b - {x});
    }
  }

  /** The pages from one on, one after another. */
  function Pages<T>(rows: seq<T>, skip: nat, limit: nat): seq<T>
    requires limit > 0
    decreases |rows| - skip
  {
    if skip >= |rows| then [] else Page(rows, skip, limit) + Pages(rows, skip + limit, limit)
  }

  /** Paging through loses nothing and repeats nothing. */
  lemma {:induction false} PagesAreTheRows<T>(rows: seq<T>, skip: nat, limit: nat)
    requires limit > 0 && skip <= |rows|
    ensures Pages(rows, skip, limit) == rows[skip..]
    decreases |rows| - skip
  {
    if skip < |rows| {
      if skip + limit <= |rows| {
        PagesAreTheRows(rows, skip + limit, limit);
        assert rows[skip..] == rows[skip..][..limit] + rows[skip + limit..];
      } else {
        assert Pages(rows, skip + limit, limit) == [];
      }
    }
  }
}
