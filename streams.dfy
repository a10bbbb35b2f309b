/**
 * filter(p).max(comparing(key)) over a list, as a left reduction with BinaryOperator.maxBy:
 * the accumulated element is kept unless the next one has a strictly greater key, so on a
 * tie the earlier element wins. min(comparing(key)) is the same reduction on the negated key.
 */
module Streams {
  import opened Common

  /** The reduction from an accumulated element acc over the rest s. */
  function MaxFrom<T>(acc: Option<T>, s: seq<T>, p: T -> bool, key: T -> int): (r: Option<T>)
    requires acc.Some? ==> p(acc.value)
    ensures r.Some? ==> p(r.value)
    decreases |s|
  {
    if s == [] then acc
    else
      var next := if !p(s[0]) || (acc.Some? && key(acc.value) >= key(s[0])) then acc else Some(s[0]);
      MaxFrom(next, s[1..], p, key)
  }

  /** What the reduction promises: the first element of greatest key among those kept. */
  lemma {:induction false} MaxFromSpec<T>(acc: Option<T>, s: seq<T>, p: T -> bool, key: T -> int)
    requires acc.Some? ==> p(acc.value)
    ensures var r := MaxFrom(acc, s, p, key);
      && (r.None? <==> acc.None? && forall k :: 0 <= k < |s| ==> !p(s[k]))
      && (r.Some? ==> forall k :: 0 <= k < |s| && p(s[k]) ==> key(s[k]) <= key(r.value))
      && (acc.Some? ==> key(acc.value) <= key(r.value))
      && (r.Some? && r != acc ==>
            && (acc.Some? ==> key(acc.value) < key(r.value))
            && exists i :: 0 <= i < |s| && s[i] == r.value
                           && forall k :: 0 <= k < i && p(s[k]) ==> key(s[k]) < key(r.value))
    decreases |s|
  {
    if s != [] {
      var next := if !p(s[0]) || (acc.Some? && key(acc.value) >= key(s[0])) then acc else Some(s[0]);
      var r := MaxFrom(acc, s, p, key);
      assert r == MaxFrom(next, s[1..], p, key);
      MaxFromSpec(next, s[1..], p, key);
      if r.Some? && r != acc {
        if r == next {
          assert s[0] == r.value;
        } else {
          var i :| 0 <= i < |s[1..]| && s[1..][i] == r.value
                   && forall k :: 0 <= k < i && p(s[1..][k]) ==> key(s[1..][k]) < key(r.value);
          assert s[i + 1] == r.value;
          forall k | 0 <= k < i + 1 && p(s[k])
            ensures key(s[k]) < key(r.value)
          {
            if k > 0 {
              assert s[k] == s[1..][k - 1];
            }
          }
        }
      }
      forall k | 0 <= k < |s| && p(s[k]) && r.Some?
        ensures key(s[k]) <= key(r.value)
      {
        if k > 0 {
          assert s[k] == s[1..][k - 1];
        }
      }
    }
  }

  /** stream.filter(p).max(comparing(key)), with an empty Optional as None. */
  function Max<T>(s: seq<T>, p: T -> bool, key: T -> int): (r: Option<T>)
    ensures r.Some? ==> p(r.value)
  {
    MaxFrom(None, s, p, key)
  }

  /** The maximum exists iff some element passes the filter; it is the first element of greatest key. */
  lemma MaxSpec<T>(s: seq<T>, p: T -> bool, key: T -> int)
    ensures var r := Max(s, p, key);
      && (r.None? <==> forall k :: 0 <= k < |s| ==> !p(s[k]))
      && (r.Some? ==> exists i :: && 0 <= i < |s| && s[i] == r.value
                                  && (forall k :: 0 <= k < |s| && p(s[k]) ==> key(s[k]) <= key(r.value))
                                  && (forall k :: 0 <= k < i && p(s[k]) ==> key(s[k]) < key(r.value)))
  {
    MaxFromSpec(None, s, p, key);
  }
}
