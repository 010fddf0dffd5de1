/**
 * The column order `columns.sort((a, b) => a.order - b.order)`: ascending by
 * `order`. `SortByOrder` is a stable insertion sort standing in for
 * `Array.prototype.sort`, which is stable as well; what the handlers rely on is
 * its postcondition: sorted by `order`, the same columns, nothing reordered
 * when the array is already in order.
 */
module ColumnOrder {
  import opened KanbanTypes
  import opened Keyed

  /** Ascending by `order` (ties in any order). */
  predicate SortedByOrder(s: seq<Column>) {
    forall i, j :: 0 <= i < j < |s| ==> s[i].order <= s[j].order
  }

  /** Puts `c` after every column of `s` whose order is not greater than its own. */
  function InsertByOrder(s: seq<Column>, c: Column): (r: seq<Column>)
    ensures |r| == |s| + 1
    ensures multiset(r) == multiset(s) + multiset{c}
    ensures SortedByOrder(s) ==> SortedByOrder(r)
  {
    if s == [] then [c]
    else if s[|s| - 1].order <= c.order then s + [c]
    else
      var front, last := s[..|s| - 1], s[|s| - 1];
      var r' := InsertByOrder(front, c);
      assert s == front + [last];
      assert SortedByOrder(s) ==> SortedByOrder(r' + [last]) by {
        if SortedByOrder(s) {
          AppendUpperBound(r', front + [c], last);
        }
      }
      r' + [last]
  }

  /**
   * A sorted array holding the same columns as `t`, all of order at most
   * `last.order`, stays sorted with `last` appended.
   */
  lemma AppendUpperBound(r: seq<Column>, t: seq<Column>, last: Column)
    requires SortedByOrder(r) && multiset(r) == multiset(t)
    requires forall x :: x in t ==> x.order <= last.order
    ensures SortedByOrder(r + [last])
  {
    forall k | 0 <= k < |r| ensures r[k].order <= last.order {
      assert r[k] in multiset(t);
    }
  }

  /** The columns of `s` rearranged ascending by `order`. */
  function SortByOrder(s: seq<Column>): (r: seq<Column>)
    ensures |r| == |s|
    ensures multiset(r) == multiset(s)
    ensures SortedByOrder(r)
  {
    if s == [] then []
    else
      assert s == s[..|s| - 1] + [s[|s| - 1]];
      InsertByOrder(SortByOrder(s[..|s| - 1]), s[|s| - 1])
  }

  /** A column array that is already in order is left exactly as it is. */
  lemma {:induction false} SortSortedIsIdentity(s: seq<Column>)
    requires SortedByOrder(s)
    ensures SortByOrder(s) == s
  {
    if s != [] {
      var front, last := s[..|s| - 1], s[|s| - 1];
      assert SortedByOrder(front);
      SortSortedIsIdentity(front);
      assert SortByOrder(s) == InsertByOrder(front, last);
      assert front != [] ==> front[|front| - 1].order <= last.order;
      assert s == front + [last];
    }
  }

  /**
   * Appending to a sorted array a column whose order is not below any other
   * and sorting leaves the new column last, as `createColumn`'s default
   * `max(order) + 1` does.
   */
  lemma AppendLargestStaysLast(s: seq<Column>, c: Column)
    requires SortedByOrder(s)
    requires forall x :: x in s ==> x.order <= c.order
    ensures SortByOrder(s + [c]) == s + [c]
  {
    SortSortedIsIdentity(s + [c]);
  }

  /** Sorting neither adds nor drops an id, and keeps ids unique. */
  lemma {:induction false} SortKeepsKeys(s: seq<Column>, id: Id)
    ensures HasKey(SortByOrder(s), ColumnId, id) <==> HasKey(s, ColumnId, id)
    ensures UniqueKeys(s, ColumnId) ==> UniqueKeys(SortByOrder(s), ColumnId)
  {
    SameElementsSameKeys(s, SortByOrder(s), ColumnId, id);
    if UniqueKeys(s, ColumnId) {
      SortKeepsUnique(s);
    }
  }

  lemma {:induction false} SortKeepsUnique(s: seq<Column>)
    requires UniqueKeys(s, ColumnId)
    ensures UniqueKeys(SortByOrder(s), ColumnId)
  {
    if s != [] {
      var front, last := s[..|s| - 1], s[|s| - 1];
      assert UniqueKeys(front, ColumnId);
      SortKeepsUnique(front);
      assert !HasKey(front, ColumnId, last.id) by {
        assert forall j :: 0 <= j < |front| ==> front[j] == s[j];
      }
      SameElementsSameKeys(front, SortByOrder(front), ColumnId, last.id);
      InsertKeepsUnique(SortByOrder(front), last);
    }
  }

  lemma {:induction false} InsertKeepsUnique(s: seq<Column>, c: Column)
    requires UniqueKeys(s, ColumnId) && !HasKey(s, ColumnId, c.id)
    ensures UniqueKeys(InsertByOrder(s, c), ColumnId)
  {
    if s == [] {
    } else if s[|s| - 1].order <= c.order {
      AppendKeepsUnique(s, ColumnId, c);
    } else {
      var front, last := s[..|s| - 1], s[|s| - 1];
      assert UniqueKeys(front, ColumnId);
      assert !HasKey(front, ColumnId, c.id) by {
        assert forall j :: 0 <= j < |front| ==> front[j] == s[j];
      }
      InsertKeepsUnique(front, c);
      var r' := InsertByOrder(front, c);
      assert !HasKey(front + [c], ColumnId, last.id) by {
        assert forall j :: 0 <= j < |front| ==> front[j] == s[j];
        assert last.id != c.id by { assert s[|s| - 1] == last; }
      }
      assert multiset(r') == multiset(front + [c]);
      SameElementsSameKeys(r', front + [c], ColumnId, last.id);
      AppendKeepsUnique(r', ColumnId, last);
    }
  }
}
