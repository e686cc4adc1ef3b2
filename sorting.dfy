/**
 * DataFrame.sort_values: the rows end up ordered by the sort key and are a
 * rearrangement of the input. The sort below is stable: rows with equal
 * keys keep their input order (SortStable). pandas sorts on several keys
 * stably; on a single key its default sort is not stable, and there the
 * order of rows with equal keys is no part of what the callers promise.
 */
module Sorting {

  /** `le` orders any two values and is transitive. */
  ghost predicate TotalPreorder<T(!new)>(le: (T, T) -> bool)
  {
    (forall a, b :: le(a, b) || le(b, a)) &&
    (forall a, b, c :: le(a, b) && le(b, c) ==> le(a, c))
  }

  predicate SortedBy<T>(s: seq<T>, le: (T, T) -> bool)
  {
    forall i, j :: 0 <= i < j < |s| ==> le(s[i], s[j])
  }

  /** Puts x in front of the first element it does not follow. */
  function Insert<T(!new)>(x: T, s: seq<T>, le: (T, T) -> bool): (r: seq<T>)
    requires TotalPreorder(le) && SortedBy(s, le)
    ensures SortedBy(r, le)
    ensures multiset(r) == multiset(s) + multiset{x}
  {
    if s == [] || le(x, s[0]) then
      [x] + s
    else
      SortedTail(s, le);
      var t := Insert(x, s[1..], le);
      InsertHead(x, s, t, le);
      [s[0]] + t
  }

  /** When x goes behind s[0], s[0] in front of the insertion into the rest is sorted and adds x. */
  lemma InsertHead<T(!new)>(x: T, s: seq<T>, t: seq<T>, le: (T, T) -> bool)
    requires TotalPreorder(le) && SortedBy(s, le) && s != [] && !le(x, s[0])
    requires SortedBy(t, le) && multiset(t) == multiset(s[1..]) + multiset{x}
    ensures SortedBy([s[0]] + t, le)
    ensures multiset([s[0]] + t) == multiset(s) + multiset{x}
  {
    assert s == [s[0]] + s[1..];
    forall k | 0 <= k < |t|
      ensures le(s[0], t[k])
    {
      assert t[k] in multiset(t);
      if t[k] != x {
        assert t[k] in multiset(s[1..]);
        var m :| 0 <= m < |s[1..]| && s[1..][m] == t[k];
        assert s[m + 1] == t[k];
      }
    }
    var r := [s[0]] + t;
    forall i, j | 0 <= i < j < |r|
      ensures le(r[i], r[j])
    {
      assert r[j] == t[j - 1];
      if i > 0 {
        assert r[i] == t[i - 1];
      }
    }
  }

  /** `sort_values` on one key. */
  function Sort<T(!new)>(s: seq<T>, le: (T, T) -> bool): (r: seq<T>)
    requires TotalPreorder(le)
    ensures SortedBy(r, le)
    ensures multiset(r) == multiset(s)
  {
    if s == [] then []
    else
      assert s == [s[0]] + s[1..];
      Insert(s[0], Sort(s[1..], le), le)
  }

  /** The elements of s whose key equals the key of y, in their order in s. */
  function SameKey<T>(s: seq<T>, le: (T, T) -> bool, y: T): (r: seq<T>)
    ensures |r| <= |s|
  {
    if s == [] then []
    else (if le(s[0], y) && le(y, s[0]) then [s[0]] else []) + SameKey(s[1..], le, y)
  }

  /** Insert puts x after nothing of its own key: x comes first among the elements with x's key. */
  lemma {:induction false} InsertStable<T(!new)>(x: T, s: seq<T>, le: (T, T) -> bool, y: T)
    requires TotalPreorder(le) && SortedBy(s, le)
    ensures SameKey(Insert(x, s, le), le, y) ==
      (if le(x, y) && le(y, x) then [x] else []) + SameKey(s, le, y)
  {
    if s == [] || le(x, s[0]) {
      SameKeyCons(x, s, le, y);
    } else {
      SortedTail(s, le);
      InsertStable(x, s[1..], le, y);
      InsertBehind(x, s, le, y);
    }
  }

  /** The step of InsertStable when x goes behind s[0]: s[0] does not have x's key, so the two commute. */
  lemma InsertBehind<T(!new)>(x: T, s: seq<T>, le: (T, T) -> bool, y: T)
    requires TotalPreorder(le) && SortedBy(s, le) && s != [] && !le(x, s[0]) && SortedBy(s[1..], le)
    requires SameKey(Insert(x, s[1..], le), le, y) ==
      (if le(x, y) && le(y, x) then [x] else []) + SameKey(s[1..], le, y)
    ensures SameKey(Insert(x, s, le), le, y) ==
      (if le(x, y) && le(y, x) then [x] else []) + SameKey(s, le, y)
  {
    var t := Insert(x, s[1..], le);
    var ex := if le(x, y) && le(y, x) then [x] else [];
    var es := if le(s[0], y) && le(y, s[0]) then [s[0]] else [];
    var rest := SameKey(s[1..], le, y);
    assert Insert(x, s, le) == [s[0]] + t;
    SameKeyCons(s[0], t, le, y);
    assert SameKey(s, le, y) == es + rest;
    if ex != [] {
      // x does not come before s[0], so neither does anything with x's key
      assert !le(y, s[0]);
    }
    SwapDisjoint(es, ex, rest);
  }

  lemma SwapDisjoint<T>(a: seq<T>, b: seq<T>, r: seq<T>)
    requires a == [] || b == []
    ensures a + (b + r) == b + (a + r)
  {
    if a == [] {
      assert a + (b + r) == b + r == b + (a + r);
    } else {
      assert a + (b + r) == a + r == b + (a + r);
    }
  }

  lemma SortedTail<T>(s: seq<T>, le: (T, T) -> bool)
    requires SortedBy(s, le) && s != []
    ensures SortedBy(s[1..], le)
  {
  }

  lemma SameKeyCons<T>(z: T, t: seq<T>, le: (T, T) -> bool, y: T)
    ensures SameKey([z] + t, le, y) == (if le(z, y) && le(y, z) then [z] else []) + SameKey(t, le, y)
  {
    assert ([z] + t)[1..] == t;
  }

  /** Sort is stable: for every key, the elements with that key appear in the same order as in the input. */
  lemma {:induction false} SortStable<T(!new)>(s: seq<T>, le: (T, T) -> bool, y: T)
    requires TotalPreorder(le)
    ensures SameKey(Sort(s, le), le, y) == SameKey(s, le, y)
  {
    if s != [] {
      SortStable(s[1..], le, y);
      InsertStable(s[0], Sort(s[1..], le), le, y);
    }
  }

  /** A sorted rearrangement of a sequence is unique up to the order of equal keys: in particular, sorting a sorted sequence by a strict key leaves it as it is. */
  lemma {:induction false} SortSorted<T(!new)>(s: seq<T>, le: (T, T) -> bool)
    requires TotalPreorder(le) && SortedBy(s, le)
    requires forall i, j :: 0 <= i < |s| && 0 <= j < |s| && le(s[i], s[j]) && le(s[j], s[i]) ==> s[i] == s[j]
    ensures Sort(s, le) == s
  {
    if s != [] {
      SortSorted(s[1..], le);
      assert Sort(s[1..], le) == s[1..];
      assert s == [s[0]] + s[1..];
    }
  }
}
