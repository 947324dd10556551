/** Sorting records by a byte-string key, and why a strictly sorted order is unique. */
module Sorting {
  import opened Bytes

  predicate Distinct<T>(key: T -> seq<byte>, s: seq<T>) {
    forall i, j :: 0 <= i < j < |s| ==> key(s[i]) != key(s[j])
  }

  predicate StrictlySorted<T>(key: T -> seq<byte>, s: seq<T>) {
    forall i, j :: 0 <= i < j < |s| ==> Less(key(s[i]), key(s[j]))
  }

  lemma DistinctSnoc<T>(key: T -> seq<byte>, s: seq<T>, last: T)
    ensures Distinct(key, s + [last]) <==> Distinct(key, s) && forall x :: x in s ==> key(x) != key(last)
  {
    var t := s + [last];
    assert forall i :: 0 <= i < |s| ==> t[i] == s[i];
    if Distinct(key, t) {
      forall x | x in s ensures key(x) != key(last) {
        var i :| 0 <= i < |s| && s[i] == x;
        assert key(t[i]) != key(t[|s|]);
      }
    }
  }

  predicate Adjacent<T>(key: T -> seq<byte>, s: seq<T>) {
    forall i :: 1 <= i < |s| ==> Less(key(s[i - 1]), key(s[i]))
  }

  function Insert<T>(key: T -> seq<byte>, x: T, s: seq<T>): (r: seq<T>)
    ensures multiset(r) == multiset(s) + multiset{x}
  {
    if s == [] || !Less(key(s[0]), key(x)) then
      assert [x] + s == [x] + s[..];
      [x] + s
    else
      var rest := Insert(key, x, s[1..]);
      assert s == [s[0]] + s[1..];
      [s[0]] + rest
  }

  /** A stable sort, as Array.prototype.sort is. */
  function Sort<T>(key: T -> seq<byte>, s: seq<T>): (r: seq<T>)
    ensures multiset(r) == multiset(s)
    ensures |r| == |s|
  {
    if s == [] then []
    else
      assert s == [s[0]] + s[1..];
      var r := Insert(key, s[0], Sort(key, s[1..]));
      assert |r| == |multiset(r)|;
      r
  }

  lemma {:induction false} InsertKeepsSorted<T>(key: T -> seq<byte>, x: T, s: seq<T>)
    requires StrictlySorted(key, s)
    requires forall y :: y in s ==> key(y) != key(x)
    ensures StrictlySorted(key, Insert(key, x, s))
  {
    if s == [] {
    } else if !Less(key(s[0]), key(x)) {
      forall j | 0 <= j < |s| ensures Less(key(x), key(s[j])) {
        assert s[0] in s;
        LessTotal(key(s[0]), key(x));
        if j > 0 {
          LessTransitive(key(x), key(s[0]), key(s[j]));
        }
      }
    } else {
      InsertKeepsSorted(key, x, s[1..]);
      var rest := Insert(key, x, s[1..]);
      forall j | 0 <= j < |rest| ensures Less(key(s[0]), key(rest[j])) {
        assert rest[j] in multiset(rest);
        assert rest[j] == x || rest[j] in s[1..];
      }
    }
  }

  /** Take the first record of b out of a. */
  lemma RemoveFirst<T>(a: seq<T>, b: seq<T>) returns (i: nat)
    requires multiset(a) == multiset(b) && b != []
    ensures i < |a| && a[i] == b[0]
    ensures multiset(a[..i] + a[i + 1..]) == multiset(b[1..])
  {
    assert b[0] in multiset(a);
    i :| i < |a| && a[i] == b[0];
    assert multiset(a) == multiset(a[..i] + a[i + 1..]) + multiset{b[0]} by {
      assert a == a[..i] + [a[i]] + a[i + 1..];
    }
    assert multiset(b) == multiset{b[0]} + multiset(b[1..]) by {
      assert b == [b[0]] + b[1..];
    }
    assert multiset(a[..i] + a[i + 1..]) == multiset(a) - multiset{b[0]};
    assert multiset(b[1..]) == multiset(b) - multiset{b[0]};
  }

  lemma {:induction false} DistinctOfMultiset<T>(key: T -> seq<byte>, a: seq<T>, b: seq<T>)
    requires multiset(a) == multiset(b) && Distinct(key, a)
    ensures Distinct(key, b)
    decreases |b|
  {
    if b != [] {
      var i := RemoveFirst(a, b);
      var others := a[..i] + a[i + 1..];
      DistinctOfMultiset(key, others, b[1..]);
      forall q | 1 <= q < |b| ensures key(b[q]) != key(b[0]) {
        assert b[1..][q - 1] == b[q];
        assert b[q] in multiset(b[1..]);
        assert b[q] in multiset(others);
        var k :| 0 <= k < |others| && others[k] == b[q];
        assert others[k] == a[if k < i then k else k + 1];
      }
      forall p, q | 0 <= p < q < |b| ensures key(b[p]) != key(b[q]) {
        if p > 0 {
          assert b[1..][p - 1] == b[p] && b[1..][q - 1] == b[q];
        }
      }
    }
  }

  lemma {:induction false} SortSorts<T>(key: T -> seq<byte>, s: seq<T>)
    requires Distinct(key, s)
    ensures StrictlySorted(key, Sort(key, s))
  {
    if s != [] {
      SortSorts(key, s[1..]);
      forall y | y in Sort(key, s[1..]) ensures key(y) != key(s[0]) {
        assert y in multiset(Sort(key, s[1..]));
        var j :| 0 <= j < |s[1..]| && s[1..][j] == y;
        assert y == s[j + 1];
      }
      InsertKeepsSorted(key, s[0], Sort(key, s[1..]));
    }
  }

  lemma SortedIsDistinct<T>(key: T -> seq<byte>, s: seq<T>)
    requires StrictlySorted(key, s)
    ensures Distinct(key, s)
  {
    forall i, j | 0 <= i < j < |s| ensures key(s[i]) != key(s[j]) {
      LessTotal(key(s[i]), key(s[j]));
    }
  }

  lemma SameFirst<T>(key: T -> seq<byte>, a: seq<T>, b: seq<T>)
    requires StrictlySorted(key, a) && StrictlySorted(key, b)
    requires a != [] && b != [] && a[0] in b && b[0] in a
    ensures a[0] == b[0]
  {
    var i :| 0 <= i < |a| && a[i] == b[0];
    var j :| 0 <= j < |b| && b[j] == a[0];
    if i > 0 && j > 0 {
      assert Less(key(a[0]), key(b[0])) && Less(key(b[0]), key(a[0]));
      LessTotal(key(a[0]), key(b[0]));
      assert false;
    }
  }

  /** The heart of canonicality: there is only one strictly sorted arrangement of the same records. */
  lemma {:induction false} SortedIsUnique<T>(key: T -> seq<byte>, a: seq<T>, b: seq<T>)
    requires StrictlySorted(key, a) && StrictlySorted(key, b) && multiset(a) == multiset(b)
    ensures a == b
  {
    hide Less;
    assert |a| == |multiset(a)| == |multiset(b)| == |b|;
    if a != [] {
      assert a[0] in multiset(b) && b[0] in multiset(a);
      SameFirst(key, a, b);
      assert a == [a[0]] + a[1..] && b == [b[0]] + b[1..];
      assert multiset(a[1..]) == multiset(b[1..]) by {
        assert multiset(a) == multiset{a[0]} + multiset(a[1..]);
        assert multiset(b) == multiset{b[0]} + multiset(b[1..]);
        assert multiset(a[1..]) == multiset(a) - multiset{a[0]};
      }
      SortedIsUnique(key, a[1..], b[1..]);
    }
  }

  lemma SortOfSorted<T>(key: T -> seq<byte>, s: seq<T>)
    requires StrictlySorted(key, s)
    ensures Sort(key, s) == s
  {
    SortedIsDistinct(key, s);
    SortSorts(key, s);
    SortedIsUnique(key, Sort(key, s), s);
  }

  /** Comparing neighbours is enough. */
  lemma {:induction false} AdjacentMeansSorted<T>(key: T -> seq<byte>, s: seq<T>)
    ensures Adjacent(key, s) <==> StrictlySorted(key, s)
  {
    if Adjacent(key, s) && s != [] {
      var front := s[..|s| - 1];
      AdjacentMeansSorted(key, front);
      forall i, j | 0 <= i < j < |s| ensures Less(key(s[i]), key(s[j])) {
        if j < |s| - 1 {
          assert front[i] == s[i] && front[j] == s[j];
        } else if i < j - 1 {
          assert front[i] == s[i] && front[j - 1] == s[j - 1];
          LessTransitive(key(s[i]), key(s[j - 1]), key(s[j]));
        }
      }
    }
  }
}
