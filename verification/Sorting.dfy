// Sorting by a string key: what the entry lists and the change lists share.

module Sorting {
  import opened Basics

  // In order, allowing equal keys.
  ghost predicate OrderedBy<T(!new)>(key: T -> string, s: seq<T>) {
    forall i, j :: 0 <= i < j < |s| ==> !Less(key(s[j]), key(s[i]))
  }

  ghost predicate StrictBy<T(!new)>(key: T -> string, s: seq<T>) {
    forall i, j :: 0 <= i < j < |s| ==> Less(key(s[i]), key(s[j]))
  }

  ghost predicate DistinctBy<T(!new)>(key: T -> string, s: seq<T>) {
    forall i, j :: 0 <= i < j < |s| ==> key(s[i]) != key(s[j])
  }

  /** Puts s into key order, leaving equals as they came. */
  function SortBy<T(!new)>(key: T -> string, s: seq<T>): (r: seq<T>)
    ensures |r| == |s|
    ensures forall x :: x in r <==> x in s
  {
    if s == [] then []
    else
      assert s == [s[0]] + s[1..];
      InsertBy(key, s[0], SortBy(key, s[1..]))
  }

  function InsertBy<T(!new)>(key: T -> string, x: T, s: seq<T>): (r: seq<T>)
    ensures |r| == |s| + 1
    ensures forall y :: y in r <==> y == x || y in s
  {
    if s == [] || !Less(key(s[0]), key(x)) then [x] + s
    else
      assert s == [s[0]] + s[1..];
      [s[0]] + InsertBy(key, x, s[1..])
  }

  // Nothing is lost and nothing comes twice.
  lemma {:induction false} SortByKeeps<T(!new)>(key: T -> string, s: seq<T>)
    ensures multiset(SortBy(key, s)) == multiset(s)
  {
    if s != [] {
      SortByKeeps(key, s[1..]);
      InsertByKeeps(key, s[0], SortBy(key, s[1..]));
      assert s == [s[0]] + s[1..];
    }
  }

  lemma {:induction false} InsertByKeeps<T(!new)>(key: T -> string, x: T, s: seq<T>)
    ensures multiset(InsertBy(key, x, s)) == multiset(s) + multiset{x}
  {
    if s != [] && Less(key(s[0]), key(x)) {
      InsertByKeeps(key, x, s[1..]);
      assert s == [s[0]] + s[1..];
    }
  }

  lemma NotLessTransitive(a: string, b: string, c: string)
    requires !Less(a, b) && !Less(b, c)
    ensures !Less(a, c)
  {
    CmpAntisymmetric(a, b);
    CmpAntisymmetric(b, c);
    CmpIsEquality(a, b);
    CmpIsEquality(b, c);
    if Less(a, c) && b != c {
      LessTransitive(a, c, b);
    }
  }

  lemma {:induction false} InsertByOrdered<T(!new)>(key: T -> string, x: T, s: seq<T>)
    requires OrderedBy(key, s)
    ensures OrderedBy(key, InsertBy(key, x, s))
  {
    var r := InsertBy(key, x, s);
    if s == [] {
    } else if !Less(key(s[0]), key(x)) {
      forall i, j | 0 <= i < j < |r| ensures !Less(key(r[j]), key(r[i])) {
        if i == 0 && j > 1 {
          NotLessTransitive(key(s[j - 1]), key(s[0]), key(x));
        }
      }
    } else {
      var t := InsertBy(key, x, s[1..]);
      InsertByOrdered(key, x, s[1..]);
      forall j | 0 <= j < |t| ensures !Less(key(t[j]), key(s[0])) {
        CmpAntisymmetric(key(s[0]), key(x));
        if t[j] in s[1..] {
          var k :| 0 <= k < |s[1..]| && s[1..][k] == t[j];
          assert s[k + 1] == t[j];
        }
      }
    }
  }

  lemma {:induction false} SortByOrders<T(!new)>(key: T -> string, s: seq<T>)
    ensures OrderedBy(key, SortBy(key, s))
  {
    if s != [] {
      SortByOrders(key, s[1..]);
      InsertByOrdered(key, s[0], SortBy(key, s[1..]));
    }
  }

  // What is already in order is left exactly as it is.
  lemma {:induction false} SortByFixesOrdered<T(!new)>(key: T -> string, s: seq<T>)
    requires OrderedBy(key, s)
    ensures SortBy(key, s) == s
  {
    if s != [] {
      SortByFixesOrdered(key, s[1..]);
      assert |s| > 1 ==> !Less(key(s[1]), key(s[0]));
    }
  }

  // Sorting by one key keeps another's values apart.
  lemma {:induction false} SortByDistinct<T(!new)>(key: T -> string, mark: T -> string, s: seq<T>)
    requires DistinctBy(mark, s)
    ensures DistinctBy(mark, SortBy(key, s))
  {
    if s != [] {
      SortByDistinct(key, mark, s[1..]);
      InsertByDistinct(key, mark, s[0], SortBy(key, s[1..]));
    }
  }

  lemma {:induction false} InsertByDistinct<T(!new)>(key: T -> string, mark: T -> string, x: T, s: seq<T>)
    requires DistinctBy(mark, s) && forall y :: y in s ==> mark(y) != mark(x)
    ensures DistinctBy(mark, InsertBy(key, x, s))
  {
    if s != [] && Less(key(s[0]), key(x)) {
      var t := InsertBy(key, x, s[1..]);
      InsertByDistinct(key, mark, x, s[1..]);
      forall j | 0 <= j < |t| ensures mark(t[j]) != mark(s[0]) {
        if t[j] in s[1..] {
          var k :| 0 <= k < |s[1..]| && s[1..][k] == t[j];
          assert s[k + 1] == t[j];
        }
      }
    }
  }

  lemma OrderedDistinctIsStrict<T(!new)>(key: T -> string, s: seq<T>)
    requires OrderedBy(key, s) && DistinctBy(key, s)
    ensures StrictBy(key, s)
  {
    forall i, j | 0 <= i < j < |s| ensures Less(key(s[i]), key(s[j])) {
      CmpAntisymmetric(key(s[i]), key(s[j]));
      CmpIsEquality(key(s[i]), key(s[j]));
    }
  }

  // A strictly ordered list is determined by its members.
  lemma {:induction false} StrictUnique<T(!new)>(key: T -> string, a: seq<T>, b: seq<T>)
    requires StrictBy(key, a) && StrictBy(key, b)
    requires forall x :: x in a <==> x in b
    ensures a == b
  {
    assert b != [] ==> b[0] in a;
    if a != [] {
      assert a[0] in b;
      var i :| 0 <= i < |b| && b[i] == a[0];
      var j :| 0 <= j < |a| && a[j] == b[0];
      CmpAntisymmetric(key(a[0]), key(b[0]));
      CmpIsEquality(key(a[0]), key(a[0]));
      assert a[0] == b[0];
      forall x ensures x in a[1..] <==> x in b[1..] {
        StrictTail(key, a, x);
        StrictTail(key, b, x);
      }
      StrictUnique(key, a[1..], b[1..]);
    }
  }

  lemma StrictTail<T(!new)>(key: T -> string, a: seq<T>, x: T)
    requires StrictBy(key, a) && a != []
    ensures x in a[1..] <==> x in a && x != a[0]
  {
    CmpIsEquality(key(a[0]), key(a[0]));
    assert a == [a[0]] + a[1..];
    forall k | 0 <= k < |a[1..]| ensures a[1..][k] != a[0] {
      assert Less(key(a[0]), key(a[k + 1]));
    }
  }
}
