/**
 * Searching a collection by identifier, the way the handlers do with
 * `Array.prototype.some` and `Array.prototype.findIndex`, and removing one
 * element with `splice(index, 1)`.
 */
module Keyed {
  import opened KanbanTypes

  /** `s.some(x => key(x) === id)` */
  predicate HasKey<T>(s: seq<T>, key: T -> Id, id: Id)
    ensures HasKey(s, key, id) <==> exists x :: x in s && key(x) == id
  {
    exists j :: 0 <= j < |s| && key(s[j]) == id
  }

  /** No two elements share an identifier. */
  predicate UniqueKeys<T>(s: seq<T>, key: T -> Id) {
    forall i, j :: 0 <= i < j < |s| ==> key(s[i]) != key(s[j])
  }

  /** `s.findIndex(x => key(x) === id)`: the first index holding `id`, or -1. */
  function IndexOf<T>(s: seq<T>, key: T -> Id, id: Id): (r: int)
    ensures -1 <= r < |s|
    ensures r == -1 <==> !HasKey(s, key, id)
    ensures r != -1 ==> key(s[r]) == id
    ensures forall j :: 0 <= j < r ==> key(s[j]) != id
  {
    if |s| == 0 then -1
    else if key(s[0]) == id then 0
    else
      var k := IndexOf(s[1..], key, id);
      assert forall j :: 1 <= j < |s| ==> s[j] == s[1..][j - 1];
      if k == -1 then -1 else k + 1
  }

  /** `s.splice(i, 1)` */
  function RemoveAt<T>(s: seq<T>, i: nat): (r: seq<T>)
    requires i < |s|
    ensures |r| == |s| - 1
    ensures forall k :: 0 <= k < i ==> r[k] == s[k]
    ensures forall k :: i <= k < |r| ==> r[k] == s[k + 1]
    ensures multiset(r) + multiset{s[i]} == multiset(s)
  {
    assert s == s[..i] + [s[i]] + s[i + 1..];
    s[..i] + s[i + 1..]
  }

  /** In a collection with unique ids, an id is found at exactly one index. */
  lemma UniqueKeyAtIndexOf<T>(s: seq<T>, key: T -> Id, j: nat)
    requires UniqueKeys(s, key) && j < |s|
    ensures IndexOf(s, key, key(s[j])) == j
  {
  }

  /**
   * Removing the element at `i` keeps ids unique, keeps every other id, and
   * (when ids were unique) leaves no element with the removed id.
   */
  lemma RemoveAtKeys<T>(s: seq<T>, key: T -> Id, i: nat, id: Id)
    requires i < |s|
    ensures UniqueKeys(s, key) ==> UniqueKeys(RemoveAt(s, i), key)
    ensures HasKey(RemoveAt(s, i), key, id) ==> HasKey(s, key, id)
    ensures UniqueKeys(s, key) ==> (HasKey(RemoveAt(s, i), key, id) <==> HasKey(s, key, id) && id != key(s[i]))
  {
    var r := RemoveAt(s, i);
    assert forall k :: 0 <= k < |r| ==> r[k] == if k < i then s[k] else s[k + 1];
    if HasKey(s, key, id) && id != key(s[i]) {
      var j :| 0 <= j < |s| && key(s[j]) == id;
      assert key(r[if j < i then j else j - 1]) == id;
    }
  }

  /** Appending an element whose id is new keeps ids unique. */
  lemma AppendKeepsUnique<T>(s: seq<T>, key: T -> Id, x: T)
    requires UniqueKeys(s, key) && !HasKey(s, key, key(x))
    ensures UniqueKeys(s + [x], key)
  {
    var r := s + [x];
    forall i, j | 0 <= i < j < |r| ensures key(r[i]) != key(r[j]) {
      if j == |s| {
        assert key(s[i]) != key(x);
      }
    }
  }

  /** Overwriting an element by one with the same id keeps ids unique and the set of ids. */
  lemma ReplaceKeepsKeys<T>(s: seq<T>, key: T -> Id, i: nat, x: T, id: Id)
    requires i < |s| && key(x) == key(s[i])
    ensures UniqueKeys(s, key) ==> UniqueKeys(s[i := x], key)
    ensures HasKey(s[i := x], key, id) <==> HasKey(s, key, id)
  {
    var r := s[i := x];
    if HasKey(s, key, id) {
      var j :| 0 <= j < |s| && key(s[j]) == id;
      assert key(r[j]) == id;
    }
    if HasKey(r, key, id) {
      var j :| 0 <= j < |r| && key(r[j]) == id;
      assert key(s[j]) == id;
    }
  }

  /** Two collections with the same elements and multiplicities have the same ids. */
  lemma SameElementsSameKeys<T>(a: seq<T>, b: seq<T>, key: T -> Id, id: Id)
    requires multiset(a) == multiset(b)
    ensures HasKey(a, key, id) <==> HasKey(b, key, id)
  {
    if HasKey(a, key, id) {
      var j :| 0 <= j < |a| && key(a[j]) == id;
      assert a[j] in multiset(b);
      var k :| 0 <= k < |b| && b[k] == a[j];
    }
    if HasKey(b, key, id) {
      var j :| 0 <= j < |b| && key(b[j]) == id;
      assert b[j] in multiset(a);
      var k :| 0 <= k < |a| && a[k] == b[j];
    }
  }
}
