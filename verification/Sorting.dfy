/** Sorting by a time and, among equal times, by an id. */
module Sorting {
  datatype Key = Key(time: int, id: int)

  predicate Before(a: Key, b: Key) {
    a.time < b.time || (a.time == b.time && a.id <= b.id)
  }

  function InsertBy<T>(x: T, s: seq<T>, key: T -> Key): seq<T> {
    if s == [] || Before(key(x), key(s[0])) then [x] + s else [s[0]] + InsertBy(x, s[1..], key)
  }

  function SortBy<T>(s: seq<T>, key: T -> Key): seq<T> {
    if s == [] then [] else InsertBy(s[0], SortBy(s[1..], key), key)
  }

  ghost predicate Ascending<T>(s: seq<T>, key: T -> Key) {
    forall i, j :: 0 <= i < j < |s| ==> Before(key(s[i]), key(s[j]))
  }

  lemma {:induction false} InsertHolds<T>(x: T, s: seq<T>, key: T -> Key)
    ensures multiset(InsertBy(x, s, key)) == multiset(s) + multiset{x}
  {
    if s != [] {
      assert s == [s[0]] + s[1..];
      if !Before(key(x), key(s[0])) {
        InsertHolds(x, s[1..], key);
      }
    }
  }

  lemma {:induction false} InsertSorts<T>(x: T, s: seq<T>, key: T -> Key)
    requires Ascending(s, key)
    ensures Ascending(InsertBy(x, s, key), key)
  {
    if s != [] && !Before(key(x), key(s[0])) {
      var rest := InsertBy(x, s[1..], key);
      InsertSorts(x, s[1..], key);
      InsertHolds(x, s[1..], key);
      forall i | 0 <= i < |rest| ensures Before(key(s[0]), key(rest[i])) {
        assert rest[i] in multiset(rest);
        if rest[i] != x {
          assert rest[i] in s[1..];
        }
      }
    }
  }

  lemma {:induction false} SortSorts<T>(s: seq<T>, key: T -> Key)
    ensures Ascending(SortBy(s, key), key) && multiset(SortBy(s, key)) == multiset(s)
  {
    if s != [] {
      SortSorts(s[1..], key);
      InsertSorts(s[0], SortBy(s[1..], key), key);
      InsertHolds(s[0], SortBy(s[1..], key), key);
      assert s == [s[0]] + s[1..];
    }
  }

  /** Sorting what is sorted changes nothing. */
  lemma {:induction false} SortedStays<T>(s: seq<T>, key: T -> Key)
    requires Ascending(s, key)
    ensures SortBy(s, key) == s
  {
    if s != [] {
      SortedStays(s[1..], key);
      assert s == [s[0]] + s[1..];
    }
  }

  /** Elements with different keys come out in strictly ascending order. */
  lemma {:induction false} SortIsStrict<T(!new)>(s: seq<T>, key: T -> Key, i: nat, j: nat)
    requires i < j < |SortBy(s, key)|
    requires forall a, b :: 0 <= a < b < |s| ==> key(s[a]) != key(s[b])
    ensures key(SortBy(s, key)[i]) != key(SortBy(s, key)[j])
  {
    var r := SortBy(s, key);
    SortSorts(s, key);
    if key(r[i]) == key(r[j]) {
      assert r[i] in multiset(r) && r[j] in multiset(r);
      assert r[i] in s && r[j] in s;
      assert r[i] == r[j];
      Twice(r, i, j);
      Once(s, key, r[i]);
      assert false;
    }
  }

  lemma Twice<T>(s: seq<T>, i: nat, j: nat)
    requires i < j < |s| && s[i] == s[j]
    ensures multiset(s)[s[i]] >= 2
  {
    assert s == s[..j] + s[j..];
    assert s[i] in s[..j] && s[j] in s[j..];
  }

  lemma {:induction false} Once<T(!new)>(s: seq<T>, key: T -> Key, x: T)
    requires forall a, b :: 0 <= a < b < |s| ==> key(s[a]) != key(s[b])
    ensures multiset(s)[x] <= 1
  {
    if s != [] {
      var last := s[|s| - 1];
      Once(s[..|s| - 1], key, x);
      assert s == s[..|s| - 1] + [last];
      if x == last && x in s[..|s| - 1] { assert false; }
    }
  }
}
