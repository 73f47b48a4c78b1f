/** ORDER BY: rows sorted by a relation, rows alike in it kept in table order; and the order of texts. */
module Sorting {
  /** A row put among later ones: before the first it may precede. */
  function PutIn<T>(row: T, rows: seq<T>, before: (T, T) -> bool): seq<T> {
    if rows == [] || before(row, rows[0]) then [row] + rows else [rows[0]] + PutIn(row, rows[1..], before)
  }

  function Sorted<T>(rows: seq<T>, before: (T, T) -> bool): seq<T> {
    if rows == [] then [] else PutIn(rows[0], Sorted(rows[1..], before), before)
  }

  ghost predicate InOrder<T>(rows: seq<T>, before: (T, T) -> bool) {
    forall j, k :: 0 <= j < k < |rows| ==> before(rows[j], rows[k])
  }

  ghost predicate Transitive<T(!new)>(before: (T, T) -> bool) {
    forall a, b, c :: before(a, b) && before(b, c) ==> before(a, c)
  }

  lemma {:induction false} PutInKeepsRows<T>(row: T, rows: seq<T>, before: (T, T) -> bool)
    ensures multiset(PutIn(row, rows, before)) == multiset(rows) + multiset{row}
  {
    if rows != [] {
      assert rows == [rows[0]] + rows[1..];
      PutInKeepsRows(row, rows[1..], before);
    }
  }

  lemma {:induction false} PutInKeepsOrder<T(!new)>(row: T, rows: seq<T>, before: (T, T) -> bool)
    requires InOrder(rows, before) && Transitive(before)
    requires forall other | other in rows :: before(row, other) || before(other, row)
    ensures InOrder(PutIn(row, rows, before), before)
  {
    if rows != [] {
      if before(row, rows[0]) {
        forall k | 0 < k < |rows| ensures before(row, rows[k]) {
          assert before(rows[0], rows[k]);
        }
      } else {
        var rest := PutIn(row, rows[1..], before);
        PutInKeepsOrder(row, rows[1..], before);
        PutInKeepsRows(row, rows[1..], before);
        forall k | 0 <= k < |rest| ensures before(rows[0], rest[k]) {
          assert rest[k] in multiset(rest);
          hide PutIn;
        }
      }
    }
  }

  /** Sorting keeps the rows, each as often as it was. */
  lemma {:induction false} SortedKeepsRows<T>(rows: seq<T>, before: (T, T) -> bool)
    ensures multiset(Sorted(rows, before)) == multiset(rows)
  {
    if rows != [] {
      SortedKeepsRows(rows[1..], before);
      PutInKeepsRows(rows[0], Sorted(rows[1..], before), before);
      assert rows == [rows[0]] + rows[1..];
    }
  }

  /** And puts them in order, when any two of them are one way or the other. */
  lemma {:induction false} SortedIsInOrder<T(!new)>(rows: seq<T>, before: (T, T) -> bool)
    requires Transitive(before)
    requires forall j, k :: 0 <= j < k < |rows| ==> before(rows[j], rows[k]) || before(rows[k], rows[j])
    ensures InOrder(Sorted(rows, before), before)
  {
    if rows != [] {
      var rest := Sorted(rows[1..], before);
      SortedIsInOrder(rows[1..], before);
      SortedKeepsRows(rows[1..], before);
      forall other | other in rest ensures before(rows[0], other) || before(other, rows[0]) {
        assert other in multiset(rest);
        assert other in rows[1..];
      }
      PutInKeepsOrder(rows[0], rest, before);
    }
  }

  // ---------------------------------------------------------------- Texts

  /** Texts in order, character by character. */
  predicate TextBefore(a: string, b: string) {
    b != "" && (a == "" || a[0] < b[0] || (a[0] == b[0] && TextBefore(a[1..], b[1..])))
  }

  lemma {:induction false} TextOrder(a: string, b: string)
    ensures a == b ==> !TextBefore(a, b)
    ensures a != b ==> TextBefore(a, b) != TextBefore(b, a)
  {
    if a != "" && b != "" && a[0] == b[0] {
      TextOrder(a[1..], b[1..]);
      assert a == [a[0]] + a[1..] && b == [b[0]] + b[1..];
    }
  }

  lemma {:induction false} TextOrderTransitive(a: string, b: string, c: string)
    requires TextBefore(a, b) && TextBefore(b, c)
    ensures TextBefore(a, c)
  {
    if a != "" && a[0] == b[0] == c[0] {
      TextOrderTransitive(a[1..], b[1..], c[1..]);
    }
  }

  /** One comes first where they first differ, or by ending there. */
  lemma {:induction false} TextBeforeIff(a: string, b: string)
    ensures TextBefore(a, b) <==> exists k :: DifferAt(a, b, k)
  {
    if a != "" && b != "" && a[0] == b[0] {
      TextBeforeIff(a[1..], b[1..]);
      if TextBefore(a, b) {
        var k :| DifferAt(a[1..], b[1..], k);
        assert a[..k + 1] == [a[0]] + a[1..][..k] && b[..k + 1] == [b[0]] + b[1..][..k];
        assert DifferAt(a, b, k + 1);
      }
      forall k | DifferAt(a, b, k) ensures DifferAt(a[1..], b[1..], k - 1) {
        assert a[..k] == b[..k] && (k > 0 ==> a[1..][..k - 1] == a[..k][1..] && b[1..][..k - 1] == b[..k][1..]);
      }
    } else if TextBefore(a, b) {
      assert DifferAt(a, b, 0);
    }
  }

  predicate DifferAt(a: string, b: string, k: int) {
    0 <= k <= |a| && k < |b| && a[..k] == b[..k] && (k == |a| || a[k] < b[k])
  }
}
