/**
 * `Array.prototype.sort` on strings, ordered character by character (the
 * order of UTF-16 code units for characters in the Basic Multilingual
 * Plane), and the rank that `indexOf` then finds in the sorted list.
 */
module Sorting {
  import opened Wrappers
  import opened JsValues
  import Operations

  /** Non-decreasing in the order of `<` on strings. */
  predicate SortedStrings(s: seq<string>)
  {
    forall i, j :: 0 <= i < j < |s| ==> !StringLess(s[j], s[i])
  }

  function Insert(x: string, s: seq<string>): (r: seq<string>)
    requires SortedStrings(s)
    ensures SortedStrings(r)
    ensures multiset(r) == multiset(s) + multiset{x}
  {
    if |s| == 0 then [x]
    else if !StringLess(s[0], x) then
      InsertFront(x, s);
      [x] + s
    else
      var rest := Insert(x, s[1..]);
      assert s == [s[0]] + s[1..];
      InsertAfter(s[0], x, s[1..], rest);
      [s[0]] + rest
  }

  lemma InsertFront(x: string, s: seq<string>)
    requires SortedStrings(s) && |s| > 0 && !StringLess(s[0], x)
    ensures SortedStrings([x] + s)
  {
    var r := [x] + s;
    forall i, j | 0 <= i < j < |r|
      ensures !StringLess(r[j], r[i])
    {
      if i == 0 && j > 1 && StringLess(s[j - 1], x) {
        StringLessTotal(s[0], s[j - 1]);
        if s[0] != s[j - 1] && StringLess(s[0], s[j - 1]) {
          StringLessTransitive(s[0], s[j - 1], x);
        }
        assert false;
      }
    }
  }

  lemma InsertAfter(head: string, x: string, tail: seq<string>, rest: seq<string>)
    requires SortedStrings([head] + tail) && StringLess(head, x)
    requires SortedStrings(rest) && multiset(rest) == multiset(tail) + multiset{x}
    ensures SortedStrings([head] + rest)
  {
    var r := [head] + rest;
    forall j | 0 < j < |r|
      ensures !StringLess(r[j], head)
    {
      assert r[j] == rest[j - 1];
      assert rest[j - 1] in multiset(rest);
      if r[j] == x {
        StringLessAsymmetric(head, x);
      } else {
        assert r[j] in multiset(tail);
        var k :| 0 <= k < |tail| && tail[k] == r[j];
        assert ([head] + tail)[0] == head && ([head] + tail)[k + 1] == tail[k];
      }
    }
  }

  /** A sorted permutation of `s`, as the default sort of a list of names produces. */
  function Sort(s: seq<string>): (r: seq<string>)
    ensures SortedStrings(r)
    ensures multiset(r) == multiset(s)
  {
    if |s| == 0 then []
    else
      assert s == [s[0]] + s[1..];
      Insert(s[0], Sort(s[1..]))
  }

  /** How many entries of `s` are strictly less than `x`. */
  function CountLess(s: seq<string>, x: string): (r: nat)
    ensures r <= |s|
  {
    if |s| == 0 then 0
    else (if StringLess(s[0], x) then 1 else 0) + CountLess(s[1..], x)
  }

  lemma {:induction false} CountLessConcat(a: seq<string>, b: seq<string>, x: string)
    ensures CountLess(a + b, x) == CountLess(a, x) + CountLess(b, x)
  {
    if |a| > 0 {
      assert (a + b)[0] == a[0] && (a + b)[1..] == a[1..] + b;
      CountLessConcat(a[1..], b, x);
    } else {
      assert a + b == b;
    }
  }

  /** The count depends only on which entries occur, and how often. */
  lemma {:induction false} CountLessPermutation(s: seq<string>, t: seq<string>, x: string)
    requires multiset(s) == multiset(t)
    ensures CountLess(s, x) == CountLess(t, x)
    decreases |s|
  {
    if |s| > 0 {
      assert s[0] in multiset(t);
      var j :| 0 <= j < |t| && t[j] == s[0];
      var t' := t[..j] + t[j + 1..];
      assert t == t[..j] + [t[j]] + t[j + 1..];
      assert s == [s[0]] + s[1..];
      assert multiset(t) == multiset(t[..j]) + multiset{t[j]} + multiset(t[j + 1..]);
      assert multiset(s) == multiset{s[0]} + multiset(s[1..]);
      assert multiset(t') == multiset(t[..j]) + multiset(t[j + 1..]);
      forall y
        ensures multiset(s[1..])[y] == multiset(t')[y]
      {
        assert multiset(s)[y] == multiset(t)[y];
      }
      assert multiset(s[1..]) == multiset(t');
      CountLessPermutation(s[1..], t', x);
      CountLessConcat(t[..j] + [t[j]], t[j + 1..], x);
      CountLessConcat(t[..j], [t[j]], x);
      CountLessConcat(t[..j], t[j + 1..], x);
    }
  }

  lemma {:induction false} CountLessPrefix(s: seq<string>, x: string, k: nat)
    requires k <= |s|
    requires forall i :: 0 <= i < k ==> StringLess(s[i], x)
    requires forall i :: k <= i < |s| ==> !StringLess(s[i], x)
    ensures CountLess(s, x) == k
  {
    if |s| > 0 {
      if k > 0 {
        CountLessPrefix(s[1..], x, k - 1);
      } else {
        CountLessPrefix(s[1..], x, 0);
      }
    }
  }

  /**
   * The position of a name in the sorted list is the number of names that
   * sort strictly before it; a name that does not occur has no position.
   */
  lemma SortedIndexIsRank(s: seq<string>, x: string)
    ensures x in s ==> Operations.IndexOf(Sort(s), x) == Some(CountLess(s, x))
    ensures x !in s ==> Operations.IndexOf(Sort(s), x).None?
  {
    var r := Sort(s);
    assert x in s <==> x in multiset(r);
    if x in s {
      var k := Operations.IndexOf(r, x).value;
      forall i | 0 <= i < k
        ensures StringLess(r[i], x)
      {
        StringLessTotal(r[i], x);
      }
      forall i | k <= i < |r|
        ensures !StringLess(r[i], x)
      {
        if i == k {
          StringLessIrreflexive(x);
        }
      }
      CountLessPrefix(r, x, k);
      CountLessPermutation(r, s, x);
    }
  }
}
