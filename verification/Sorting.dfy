/** The stable sort that the packet gateway and the access control lists rely on. */
module Sorting {
  import opened Wrappers

  ghost predicate Sorted<T>(s: seq<T>, key: T -> int) {
    forall i, j :: 0 <= i < j < |s| ==> key(s[i]) <= key(s[j])
  }

  /** Puts `x` before every element whose key is at least its own. */
  function Insert<T>(x: T, s: seq<T>, key: T -> int): (r: seq<T>)
    ensures |r| == |s| + 1
    ensures multiset(r) == multiset{x} + multiset(s)
  {
    if s == [] then [x]
    else if key(x) <= key(s[0]) then [x] + s
    else
      assert s == [s[0]] + s[1..];
      [s[0]] + Insert(x, s[1..], key)
  }

  lemma {:induction false} InsertedIsMember<T>(x: T, s: seq<T>, key: T -> int, i: nat)
    requires i <= |s|
    ensures var y := Insert(x, s, key)[i]; y == x || y in s
  {
    assert Insert(x, s, key)[i] in multiset(Insert(x, s, key));
  }

  lemma {:induction false} InsertKeepsSorted<T>(x: T, s: seq<T>, key: T -> int)
    requires Sorted(s, key)
    ensures Sorted(Insert(x, s, key), key)
  {
    if s != [] && key(s[0]) < key(x) {
      InsertKeepsSorted(x, s[1..], key);
      var rest := Insert(x, s[1..], key);
      forall i | 0 <= i < |rest| ensures key(s[0]) <= key(rest[i]) {
        InsertedIsMember(x, s[1..], key, i);
      }
    }
  }

  /** Insertion sort: ascending by key, equal keys in their original order. */
  function SortBy<T>(s: seq<T>, key: T -> int): (r: seq<T>)
    ensures |r| == |s|
    ensures multiset(r) == multiset(s)
    ensures Sorted(r, key)
  {
    if s == [] then []
    else
      assert s == [s[0]] + s[1..];
      InsertKeepsSorted(s[0], SortBy(s[1..], key), key);
      Insert(s[0], SortBy(s[1..], key), key)
  }

  function FirstMatch<T>(s: seq<T>, matches: T -> bool): Option<T> {
    if s == [] then None
    else if matches(s[0]) then Some(s[0])
    else FirstMatch(s[1..], matches)
  }

  /** `s[i]` matches, has the least key of all matches, and is the first of those. */
  ghost predicate IsBest<T>(s: seq<T>, matches: T -> bool, key: T -> int, i: int) {
    && 0 <= i < |s| && matches(s[i])
    && forall j :: 0 <= j < |s| && matches(s[j]) ==> key(s[i]) < key(s[j]) || (key(s[i]) == key(s[j]) && i <= j)
  }

  lemma {:induction false} FirstMatchIsMember<T>(s: seq<T>, matches: T -> bool)
    ensures FirstMatch(s, matches).None? <==> forall x :: x in s ==> !matches(x)
    ensures var m := FirstMatch(s, matches); m.Some? ==> m.value in s && matches(m.value)
  {
    if s != [] {
      FirstMatchIsMember(s[1..], matches);
      assert s == [s[0]] + s[1..];
    }
  }

  lemma {:induction false} FirstMatchOfInsert<T>(x: T, s: seq<T>, matches: T -> bool, key: T -> int)
    requires Sorted(s, key)
    ensures var m := FirstMatch(s, matches);
            FirstMatch(Insert(x, s, key), matches)
            == if matches(x) && (m.None? || key(x) <= key(m.value)) then Some(x) else m
  {
    FirstMatchIsMember(s, matches);
    if s != [] {
      if key(x) <= key(s[0]) {
        assert ([x] + s)[1..] == s;
      } else {
        FirstMatchOfInsert(x, s[1..], matches, key);
        var rest := Insert(x, s[1..], key);
        assert ([s[0]] + rest)[1..] == rest;
      }
    }
  }

  /** A best match of the tail, or the new head, is the best match of the longer list. */
  lemma {:induction false} BestOfCons<T>(x: T, rest: seq<T>, matches: T -> bool, key: T -> int, i: int)
    requires IsBest(rest, matches, key, i)
    ensures IsBest([x] + rest, matches, key, if matches(x) && key(x) <= key(rest[i]) then 0 else i + 1)
  {
    var s := [x] + rest;
    forall j | 0 < j < |s| && matches(s[j])
      ensures key(rest[i]) < key(s[j]) || (key(rest[i]) == key(s[j]) && i + 1 <= j)
    {
      assert s[j] == rest[j - 1];
    }
  }

  lemma {:induction false} NoMatchInEmpty<T>(matches: T -> bool)
    ensures FirstMatch<T>([], matches) == None
  {}

  /** Scanning the sorted list finds the best match of the unsorted one. */
  lemma {:induction false} FirstMatchOfSorted<T>(s: seq<T>, matches: T -> bool, key: T -> int)
    ensures var m := FirstMatch(SortBy(s, key), matches);
            if m.Some? then exists i :: IsBest(s, matches, key, i) && m.value == s[i]
            else forall x :: x in s ==> !matches(x)
  {
    hide Insert, FirstMatch, Sorted;
    if s == [] {
      NoMatchInEmpty(matches);
    } else {
      var x, rest := s[0], s[1..];
      FirstMatchOfSorted(rest, matches, key);
      FirstMatchOfInsert(x, SortBy(rest, key), matches, key);
      var m := FirstMatch(SortBy(rest, key), matches);
      assert s == [x] + rest;
      if m.Some? {
        var i :| IsBest(rest, matches, key, i) && m.value == rest[i];
        BestOfCons(x, rest, matches, key, i);
      } else if matches(x) {
        assert forall j :: 0 < j < |s| ==> s[j] in rest;
        assert IsBest(s, matches, key, 0);
      }
    }
  }
}
