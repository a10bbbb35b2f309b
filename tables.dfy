/**
 * Tables of the relational store, as the services see them: rows in insertion order,
 * each with an id drawn from an identity counter, and the filtering every derived query does.
 */
module Tables {
  import opened Common

  /** Ids strictly increase along the table, so no id occurs twice. */
  ghost predicate Increasing<T>(rows: seq<T>, idOf: T -> nat) {
    forall i, j :: 0 <= i < j < |rows| ==> idOf(rows[i]) < idOf(rows[j])
  }

  /** Every id is positive and no greater than the last value the identity counter handed out. */
  ghost predicate Bounded<T>(rows: seq<T>, idOf: T -> nat, lastId: nat) {
    forall i :: 0 <= i < |rows| ==> 0 < idOf(rows[i]) <= lastId
  }

  ghost predicate WellFormed<T>(rows: seq<T>, idOf: T -> nat, lastId: nat) {
    Increasing(rows, idOf) && Bounded(rows, idOf, lastId)
  }

  /** The position of the first row with the given id. */
  function IndexOf<T>(rows: seq<T>, id: nat, idOf: T -> nat): (r: Option<nat>)
    ensures r.Some? ==> r.value < |rows| && idOf(rows[r.value]) == id
    ensures r.Some? ==> forall k :: 0 <= k < r.value ==> idOf(rows[k]) != id
    ensures r.None? <==> forall k :: 0 <= k < |rows| ==> idOf(rows[k]) != id
  {
    if rows == [] then None
    else if idOf(rows[0]) == id then Some(0)
    else match IndexOf(rows[1..], id, idOf)
      case None => None
      case Some(k) => Some(k + 1)
  }

  /** findById: the row with the given id, if any. */
  function Find<T>(rows: seq<T>, id: nat, idOf: T -> nat): (r: Option<T>)
    ensures r.Some? ==> r.value in rows && idOf(r.value) == id
    ensures r.None? <==> forall k :: 0 <= k < |rows| ==> idOf(rows[k]) != id
  {
    match IndexOf(rows, id, idOf)
    case None => None
    case Some(k) => Some(rows[k])
  }

  /** In a table with unique ids, the row at position k is the one found by its id. */
  lemma FindAt<T>(rows: seq<T>, idOf: T -> nat, k: nat)
    requires Increasing(rows, idOf)
    requires k < |rows|
    ensures IndexOf(rows, idOf(rows[k]), idOf) == Some(k)
    ensures Find(rows, idOf(rows[k]), idOf) == Some(rows[k])
  {
  }

  /** A row appended with an id above every stored id becomes findable, and nothing else changes. */
  lemma FindAfterAppend<T>(rows: seq<T>, idOf: T -> nat, lastId: nat, row: T, id: nat)
    requires WellFormed(rows, idOf, lastId)
    requires idOf(row) == lastId + 1
    ensures WellFormed(rows + [row], idOf, lastId + 1)
    ensures Find(rows + [row], id, idOf) == if id == lastId + 1 then Some(row) else Find(rows, id, idOf)
  {
    var rows' := rows + [row];
    if id == lastId + 1 {
      FindAt(rows', idOf, |rows|);
    } else {
      match IndexOf(rows, id, idOf)
      case None =>
      case Some(k) =>
        FindAt(rows', idOf, k);
    }
  }

  /** Replacing the row at position k by a row with the same id keeps the table well formed. */
  lemma FindAfterReplace<T>(rows: seq<T>, idOf: T -> nat, lastId: nat, k: nat, row: T, id: nat)
    requires WellFormed(rows, idOf, lastId)
    requires k < |rows| && idOf(row) == idOf(rows[k])
    ensures WellFormed(rows[k := row], idOf, lastId)
    ensures Find(rows[k := row], id, idOf) == if id == idOf(row) then Some(row) else Find(rows, id, idOf)
  {
    var rows' := rows[k := row];
    assert forall i :: 0 <= i < |rows| ==> idOf(rows'[i]) == idOf(rows[i]);
    if id == idOf(row) {
      FindAt(rows', idOf, k);
    } else {
      match IndexOf(rows, id, idOf)
      case None =>
      case Some(j) =>
        FindAt(rows', idOf, j);
    }
  }

  /** Removing the row at position k keeps the table well formed; the other rows close up around it. */
  lemma RemoveWellFormed<T>(rows: seq<T>, idOf: T -> nat, lastId: nat, k: nat)
    requires WellFormed(rows, idOf, lastId)
    requires k < |rows|
    ensures WellFormed(rows[..k] + rows[k + 1..], idOf, lastId)
    ensures forall i :: 0 <= i < |rows| - 1 ==> (rows[..k] + rows[k + 1..])[i] == rows[Skip(i, k)]
  {
    var rest := rows[..k] + rows[k + 1..];
    assert forall i :: 0 <= i < |rest| ==> rest[i] == rows[Skip(i, k)];
    forall i, j | 0 <= i < j < |rest|
      ensures idOf(rest[i]) < idOf(rest[j])
    {
      assert Skip(i, k) < Skip(j, k);
    }
  }

  /** After removing the row at position k, only that row's id stops being found. */
  lemma FindAfterRemove<T>(rows: seq<T>, idOf: T -> nat, lastId: nat, k: nat, id: nat)
    requires WellFormed(rows, idOf, lastId)
    requires k < |rows|
    ensures WellFormed(rows[..k] + rows[k + 1..], idOf, lastId)
    ensures Find(rows[..k] + rows[k + 1..], id, idOf) == if id == idOf(rows[k]) then None else Find(rows, id, idOf)
  {
    var rest := rows[..k] + rows[k + 1..];
    RemoveWellFormed(rows, idOf, lastId, k);
    if id == idOf(rows[k]) {
      forall i | 0 <= i < |rest|
        ensures idOf(rest[i]) != id
      {
        assert Skip(i, k) != k;
      }
    } else {
      match IndexOf(rows, id, idOf)
      case None =>
      case Some(j) =>
        var at := if j < k then j else j - 1;
        assert Skip(at, k) == j;
        FindAt(rest, idOf, at);
    }
  }

  /** The position in the table of position i once position k is removed. */
  function Skip(i: nat, k: nat): (r: nat)
    ensures r != k && (r < k <==> i < k)
    ensures i < k ==> r == i
    ensures i >= k ==> r == i + 1
  {
    if i < k then i else i + 1
  }

  /**
   * The rows satisfying p, in table order: each qualifying row as many times as it is
   * stored, every other row not at all.
   */
  function Filter<T(!new)>(s: seq<T>, p: T -> bool): (r: seq<T>)
    ensures |r| <= |s|
    ensures forall x :: multiset(r)[x] == if p(x) then multiset(s)[x] else 0
    ensures forall x :: x in r <==> x in s && p(x)
  {
    if s == [] then []
    else
      var rest := Filter(s[1..], p);
      assert s == [s[0]] + s[1..];
      if p(s[0]) then [s[0]] + rest else rest
  }

  /**
   * The ids of a list of rows, as the key set of a map keyed by id or a list of the rows' ids:
   * exactly the ids of the listed rows.
   */
  function IdsOf<T>(rows: seq<T>, idOf: T -> nat): (r: set<nat>)
    ensures forall k :: 0 <= k < |rows| ==> idOf(rows[k]) in r
    ensures forall id :: id in r ==> exists k :: 0 <= k < |rows| && idOf(rows[k]) == id
  {
    set k | 0 <= k < |rows| :: idOf(rows[k])
  }

  /** A filter keeps the order of the rows it selects: it commutes with splitting the table. */
  lemma {:induction false} FilterAppend<T(!new)>(s: seq<T>, t: seq<T>, p: T -> bool)
    ensures Filter(s + t, p) == Filter(s, p) + Filter(t, p)
  {
    if s == [] {
      assert s + t == t;
    } else {
      var st := s + t;
      assert st[0] == s[0] && st[1..] == s[1..] + t;
      FilterAppend(s[1..], t, p);
      if p(s[0]) {
        calc {
          Filter(st, p);
          [s[0]] + Filter(s[1..] + t, p);
          [s[0]] + (Filter(s[1..], p) + Filter(t, p));
          ([s[0]] + Filter(s[1..], p)) + Filter(t, p);
        }
      }
    }
  }

  /** Filtering by a narrower condition after a broader one is filtering by the narrower one. */
  lemma {:induction false} FilterOfFilter<T(!new)>(s: seq<T>, p: T -> bool, q: T -> bool)
    requires forall x :: q(x) ==> p(x)
    ensures Filter(Filter(s, p), q) == Filter(s, q)
  {
    if s != [] {
      FilterOfFilter(s[1..], p, q);
      if p(s[0]) {
        var f := Filter(s, p);
        assert f == [s[0]] + Filter(s[1..], p);
        assert f[0] == s[0] && f[1..] == Filter(s[1..], p);
      }
    }
  }

  /** A sequence's size is the size of its multiset; multiset inclusion bounds the size. */
  lemma MultisetSizeBound<T>(a: multiset<T>, b: multiset<T>)
    requires a <= b
    ensures |a| <= |b|
  {
    var d := b - a;
    assert a + d == b;
  }
}
