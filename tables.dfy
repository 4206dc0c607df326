/** Selections of table rows by a key column, as the store's WHERE clauses
    use them. `key` is the column: a booking's id, a child's BookingID, a
    booking's UserID. */
module Tables {

  /** The values the key column takes in s. */
  function Keys<T(==,!new)>(s: seq<T>, key: T -> int): set<int> {
    set x | x in s :: key(x)
  }

  /** `WHERE key = k`: the rows whose key is k, in table order. */
  function Matching<T(==,!new)>(s: seq<T>, key: T -> int, k: int): (r: seq<T>)
    ensures |r| <= |s|
    ensures forall x :: x in r <==> x in s && key(x) == k
  {
    if s == [] then []
    else (if key(s[0]) == k then [s[0]] else []) + Matching(s[1..], key, k)
  }

  /** The rows left after deleting those whose key is in gone, in table order. */
  function Excluding<T(==,!new)>(s: seq<T>, key: T -> int, gone: set<int>): (r: seq<T>)
    ensures |r| <= |s|
    ensures forall x :: x in r <==> x in s && key(x) !in gone
  {
    if s == [] then []
    else (if key(s[0]) !in gone then [s[0]] else []) + Excluding(s[1..], key, gone)
  }

  lemma {:induction false} MatchingAppend<T(!new)>(a: seq<T>, b: seq<T>, key: T -> int, k: int)
    ensures Matching(a + b, key, k) == Matching(a, key, k) + Matching(b, key, k)
  {
    if a == [] {
      assert a + b == b;
    } else {
      assert (a + b)[1..] == a[1..] + b;
      MatchingAppend(a[1..], b, key, k);
    }
  }

  /** Selecting a key that every row has keeps the whole table. */
  lemma {:induction false} MatchingAll<T(!new)>(s: seq<T>, key: T -> int, k: int)
    requires forall x :: x in s ==> key(x) == k
    ensures Matching(s, key, k) == s
  {
    if s != [] {
      MatchingAll(s[1..], key, k);
    }
  }

  /** Selecting a key that no row has gives nothing. */
  lemma MatchingNone<T(!new)>(s: seq<T>, key: T -> int, k: int)
    requires k !in Keys(s, key)
    ensures Matching(s, key, k) == []
  {
  }

  /** Deleting keys that no row has changes nothing. */
  lemma {:induction false} ExcludingNone<T(!new)>(s: seq<T>, key: T -> int, gone: set<int>)
    requires forall x :: x in s ==> key(x) !in gone
    ensures Excluding(s, key, gone) == s
  {
    if s != [] {
      ExcludingNone(s[1..], key, gone);
    }
  }

  lemma {:induction false} ExcludingAppend<T(!new)>(a: seq<T>, b: seq<T>, key: T -> int, gone: set<int>)
    ensures Excluding(a + b, key, gone) == Excluding(a, key, gone) + Excluding(b, key, gone)
  {
    if a == [] {
      assert a + b == b;
    } else {
      assert (a + b)[1..] == a[1..] + b;
      ExcludingAppend(a[1..], b, key, gone);
    }
  }

  /** Two deletions in a row are one deletion of both key sets. */
  lemma {:induction false} ExcludingTwice<T(!new)>(s: seq<T>, key: T -> int, a: set<int>, b: set<int>)
    ensures Excluding(Excluding(s, key, a), key, b) == Excluding(s, key, a + b)
  {
    if s != [] {
      var head := if key(s[0]) !in a then [s[0]] else [];
      ExcludingAppend(head, Excluding(s[1..], key, a), key, b);
      ExcludingTwice(s[1..], key, a, b);
    }
  }

  /** Deletions that take the same rows leave the same table, whatever
      column and key sets they are phrased in. */
  lemma {:induction false} ExcludingSameRows<T(!new)>(s: seq<T>, key1: T -> int, gone1: set<int>,
                                                key2: T -> int, gone2: set<int>)
    requires forall x :: x in s ==> (key1(x) in gone1 <==> key2(x) in gone2)
    ensures Excluding(s, key1, gone1) == Excluding(s, key2, gone2)
  {
    if s != [] {
      ExcludingSameRows(s[1..], key1, gone1, key2, gone2);
    }
  }

  /** A deletion removes a row exactly when some row has one of its keys. */
  lemma {:induction false} ExcludingShrinks<T(!new)>(s: seq<T>, key: T -> int, gone: set<int>)
    ensures |Excluding(s, key, gone)| < |s| <==> exists x :: x in s && key(x) in gone
  {
    if s != [] {
      ExcludingShrinks(s[1..], key, gone);
      assert s == [s[0]] + s[1..];
      if key(s[0]) in gone {
        assert s[0] in s;
      }
    }
  }

  lemma KeyIn<T(!new)>(s: seq<T>, key: T -> int, i: int)
    requires 0 <= i < |s|
    ensures key(s[i]) in Keys(s, key)
  {
    assert s[i] in s;
  }

  lemma KeyWitness<T(!new)>(s: seq<T>, key: T -> int, k: int) returns (i: int)
    requires k in Keys(s, key)
    ensures 0 <= i < |s| && key(s[i]) == k
  {
    var x :| x in s && key(x) == k;
    i :| 0 <= i < |s| && s[i] == x;
  }

  lemma KeysAppend<T(!new)>(a: seq<T>, b: seq<T>, key: T -> int)
    ensures Keys(a + b, key) == Keys(a, key) + Keys(b, key)
  {
    forall x | x in a + b ensures x in a || x in b {
    }
    forall x | x in a ensures x in a + b {
    }
    forall x | x in b ensures x in a + b {
    }
  }

  /** Tables whose rows have the same keys position by position have the same key set. */
  lemma KeysPointwise<T(!new), U(!new)>(a: seq<T>, keyA: T -> int, b: seq<U>, keyB: U -> int)
    requires |a| == |b|
    requires forall i :: 0 <= i < |a| ==> keyA(a[i]) == keyB(b[i])
    ensures Keys(a, keyA) == Keys(b, keyB)
  {
    forall k | k in Keys(a, keyA) ensures k in Keys(b, keyB) {
      var i := KeyWitness(a, keyA, k);
      KeyIn(b, keyB, i);
    }
    forall k | k in Keys(b, keyB) ensures k in Keys(a, keyA) {
      var i := KeyWitness(b, keyB, k);
      KeyIn(a, keyA, i);
    }
  }

  /** Appending rows that all have key k to a table with no such row: the
      selection of k is exactly the appended rows. */
  lemma MatchingAppended<T(!new)>(s: seq<T>, key: T -> int, k: int, added: seq<T>)
    requires k !in Keys(s, key)
    requires forall x :: x in added ==> key(x) == k
    ensures Matching(s + added, key, k) == added
  {
    MatchingNone(s, key, k);
    MatchingAppend(s, added, key, k);
    MatchingAll(added, key, k);
  }

  /** Replacing every row with key k by new ones: the selection of k is
      exactly the new rows. */
  lemma MatchingReplaced<T(!new)>(s: seq<T>, key: T -> int, k: int, added: seq<T>)
    requires forall x :: x in added ==> key(x) == k
    ensures Matching(Excluding(s, key, {k}) + added, key, k) == added
  {
    var kept := Excluding(s, key, {k});
    MatchingAppended(kept, key, k, added);
  }

  /** Deleting the rows of some keys leaves the rows of every other key as they were. */
  lemma {:induction false} MatchingExcludingOther<T(!new)>(s: seq<T>, key: T -> int, k: int, gone: set<int>)
    requires k !in gone
    ensures Matching(Excluding(s, key, gone), key, k) == Matching(s, key, k)
  {
    if s != [] {
      var head := if key(s[0]) !in gone then [s[0]] else [];
      MatchingAppend(head, Excluding(s[1..], key, gone), key, k);
      MatchingExcludingOther(s[1..], key, k, gone);
    }
  }

  /** Appending rows of other keys leaves the rows of k as they were. */
  lemma MatchingOther<T(!new)>(s: seq<T>, key: T -> int, k: int, added: seq<T>)
    requires forall x :: x in added ==> key(x) != k
    ensures Matching(s + added, key, k) == Matching(s, key, k)
  {
    MatchingAppend(s, added, key, k);
    MatchingNone(added, key, k);
  }
}
