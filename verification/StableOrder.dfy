/** The order of stored rows, event time first and event identity second, and stable sorting by it.
    Event identities are 16 bytes compared lexicographically, written here as the number those bytes
    spell in big-endian order. */
module StableOrder {
  datatype RowKey = RowKey(eventTime: int, eventId: nat)

  predicate AtMost(a: RowKey, b: RowKey) {
    a.eventTime < b.eventTime || (a.eventTime == b.eventTime && a.eventId <= b.eventId)
  }

  /** By event time, and by event identity where the times are equal. */
  predicate Sorted<T>(s: seq<T>, key: T -> RowKey) {
    forall i, j :: 0 <= i < j < |s| ==>
      || key(s[i]).eventTime < key(s[j]).eventTime
      || (key(s[i]).eventTime == key(s[j]).eventTime && key(s[i]).eventId <= key(s[j]).eventId)
  }

  /** Puts `x` in front of every element that is not below it. */
  function Insert<T>(x: T, s: seq<T>, key: T -> RowKey): seq<T> {
    if s == [] || AtMost(key(x), key(s[0])) then [x] + s else [s[0]] + Insert(x, s[1..], key)
  }

  /** Stable sorting: equal keys keep their order. */
  function StableSort<T>(s: seq<T>, key: T -> RowKey): seq<T> {
    if s == [] then [] else Insert(s[0], StableSort(s[1..], key), key)
  }

  function WithKey<T>(s: seq<T>, key: T -> RowKey, k: RowKey): seq<T> {
    if s == [] then []
    else (if key(s[0]) == k then [s[0]] else []) + WithKey(s[1..], key, k)
  }

  lemma {:induction false} InsertPermutes<T>(x: T, s: seq<T>, key: T -> RowKey)
    ensures multiset(Insert(x, s, key)) == multiset{x} + multiset(s)
  {
    if s != [] && !AtMost(key(x), key(s[0])) {
      InsertPermutes(x, s[1..], key);
      assert s == [s[0]] + s[1..];
    }
  }

  lemma {:induction false} InsertSorted<T>(x: T, s: seq<T>, key: T -> RowKey)
    requires Sorted(s, key)
    ensures Sorted(Insert(x, s, key), key)
  {
    if s != [] && !AtMost(key(x), key(s[0])) {
      var rest := Insert(x, s[1..], key);
      InsertSorted(x, s[1..], key);
      InsertPermutes(x, s[1..], key);
      forall i | 0 <= i < |rest| ensures AtMost(key(s[0]), key(rest[i])) {
        assert rest[i] in multiset(rest);
        assert rest[i] == x || rest[i] in s[1..];
      }
    }
  }

  lemma {:induction false} InsertStable<T>(x: T, s: seq<T>, key: T -> RowKey, k: RowKey)
    requires Sorted(s, key)
    ensures WithKey(Insert(x, s, key), key, k) == (if key(x) == k then [x] else []) + WithKey(s, key, k)
  {
    if s == [] || AtMost(key(x), key(s[0])) {
      assert ([x] + s)[1..] == s;
    } else {
      InsertStable(x, s[1..], key, k);
      assert Insert(x, s, key)[1..] == Insert(x, s[1..], key);
    }
  }

  /** What makes `StableSort` a stable sort: sorted, a permutation, and equal keys keep their order. */
  lemma {:induction false} StableSortCorrect<T>(s: seq<T>, key: T -> RowKey)
    ensures Sorted(StableSort(s, key), key)
    ensures multiset(StableSort(s, key)) == multiset(s)
    ensures |StableSort(s, key)| == |s|
    ensures forall k :: WithKey(StableSort(s, key), key, k) == WithKey(s, key, k)
  {
    if s != [] {
      StableSortCorrect(s[1..], key);
      InsertPermutes(s[0], StableSort(s[1..], key), key);
      InsertSorted(s[0], StableSort(s[1..], key), key);
      assert s == [s[0]] + s[1..];
      forall k ensures WithKey(StableSort(s, key), key, k) == WithKey(s, key, k) {
        InsertStable(s[0], StableSort(s[1..], key), key, k);
      }
    }
    assert |multiset(StableSort(s, key))| == |multiset(s)|;
  }

  /** A least element that no earlier element ties is what stable sorting puts first. */
  lemma {:induction false} LeastComesFirst<T>(s: seq<T>, key: T -> RowKey, j: nat)
    requires j < |s|
    requires forall i :: 0 <= i < j ==> !AtMost(key(s[i]), key(s[j]))
    requires forall i :: j <= i < |s| ==> AtMost(key(s[j]), key(s[i]))
    ensures StableSort(s, key) == [s[j]] + StableSort(s[..j] + s[j + 1..], key)
  {
    if j == 0 {
      assert s[..0] + s[1..] == s[1..];
      StableSortCorrect(s[1..], key);
      var rest := StableSort(s[1..], key);
      if rest != [] {
        assert rest[0] in multiset(rest);
        assert rest[0] in s[1..];
      }
    } else {
      LeastComesFirst(s[1..], key, j - 1);
      var without := s[..j] + s[j + 1..];
      assert without[1..] == s[1..][..j - 1] + s[1..][j..];
      assert without[0] == s[0];
    }
  }
}
