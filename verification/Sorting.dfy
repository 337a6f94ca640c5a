/** Sorting by a string key, and why the result does not depend on the algorithm. */
module Sorting {

  /** strings.Compare(a, b) <= 0: the order of code points, which is also that of UTF-8 bytes. */
  predicate LessOrEqual(a: string, b: string) {
    a == [] || (b != [] && (a[0] < b[0] || (a[0] == b[0] && LessOrEqual(a[1..], b[1..]))))
  }

  lemma {:induction false} Antisymmetric(a: string, b: string)
    requires LessOrEqual(a, b) && LessOrEqual(b, a)
    ensures a == b
  {
    if a == [] {
    } else {
      Antisymmetric(a[1..], b[1..]);
      assert a == [a[0]] + a[1..] && b == [b[0]] + b[1..];
    }
  }

  lemma {:induction false} Transitive(a: string, b: string, c: string)
    requires LessOrEqual(a, b) && LessOrEqual(b, c)
    ensures LessOrEqual(a, c)
  {
    if a == [] {
    } else if a[0] == b[0] && b[0] == c[0] {
      Transitive(a[1..], b[1..], c[1..]);
    }
  }

  lemma {:induction false} Total(a: string, b: string)
    ensures LessOrEqual(a, b) || LessOrEqual(b, a)
  {
    if a == [] || b == [] {
    } else {
      Total(a[1..], b[1..]);
    }
  }

  predicate IsSorted<T>(s: seq<T>, key: T -> string) {
    forall i, j :: 0 <= i < j < |s| ==> LessOrEqual(key(s[i]), key(s[j]))
  }

  predicate DistinctKeys<T>(s: seq<T>, key: T -> string) {
    forall i, j :: 0 <= i < j < |s| ==> key(s[i]) != key(s[j])
  }

  function Insert<T>(s: seq<T>, x: T, key: T -> string): seq<T> {
    if s == [] then [x]
    else if LessOrEqual(key(x), key(s[0])) then [x] + s
    else [s[0]] + Insert(s[1..], x, key)
  }

  function Sort<T>(s: seq<T>, key: T -> string): seq<T> {
    if s == [] then [] else Insert(Sort(s[1..], key), s[0], key)
  }

  lemma {:induction false} InsertPermutes<T>(s: seq<T>, x: T, key: T -> string)
    ensures multiset(Insert(s, x, key)) == multiset(s) + multiset{x}
  {
    if s == [] || LessOrEqual(key(x), key(s[0])) {
    } else {
      InsertPermutes(s[1..], x, key);
      assert s == [s[0]] + s[1..];
    }
  }

  lemma {:induction false} InsertKeepsSorted<T>(s: seq<T>, x: T, key: T -> string)
    requires IsSorted(s, key)
    ensures IsSorted(Insert(s, x, key), key)
  {
    var inserted := Insert(s, x, key);
    if s == [] {
    } else if LessOrEqual(key(x), key(s[0])) {
      forall i | 0 < i < |inserted|
        ensures LessOrEqual(key(x), key(inserted[i]))
      {
        if i > 1 {
          Transitive(key(x), key(s[0]), key(s[i - 1]));
        }
      }
    } else {
      Total(key(x), key(s[0]));
      InsertKeepsSorted(s[1..], x, key);
      InsertPermutes(s[1..], x, key);
      var rest := Insert(s[1..], x, key);
      forall i | 0 <= i < |rest|
        ensures LessOrEqual(key(s[0]), key(rest[i]))
      {
        assert rest[i] in multiset(rest);
        if rest[i] != x {
          assert rest[i] in s[1..];
          var j :| 0 <= j < |s[1..]| && s[1..][j] == rest[i];
          assert s[j + 1] == rest[i];
        }
      }
    }
  }

  lemma {:induction false} SortSorts<T>(s: seq<T>, key: T -> string)
    ensures multiset(Sort(s, key)) == multiset(s) && IsSorted(Sort(s, key), key)
  {
    if s == [] {
    } else {
      SortSorts(s[1..], key);
      InsertPermutes(Sort(s[1..], key), s[0], key);
      InsertKeepsSorted(Sort(s[1..], key), s[0], key);
      assert s == [s[0]] + s[1..];
    }
  }

  lemma SameKeySameElement<T>(s: seq<T>, key: T -> string, x: T, y: T)
    requires DistinctKeys(s, key) && x in s && y in s && key(x) == key(y)
    ensures x == y
  {
    var i :| 0 <= i < |s| && s[i] == x;
    var j :| 0 <= j < |s| && s[j] == y;
    assert !(i < j) && !(j < i);
  }

  lemma FirstIsLeast<T>(s: seq<T>, key: T -> string, x: T)
    requires IsSorted(s, key) && x in s
    ensures LessOrEqual(key(s[0]), key(x))
  {
    var i :| 0 <= i < |s| && s[i] == x;
    if i == 0 {
      Total(key(x), key(x));
    }
  }

  lemma SameFirst<T>(a: seq<T>, b: seq<T>, key: T -> string)
    requires IsSorted(a, key) && IsSorted(b, key) && DistinctKeys(a, key) && multiset(a) == multiset(b)
    requires a != [] && b != []
    ensures a[0] == b[0]
  {
    assert b[0] in multiset(b) && a[0] in multiset(a);
    FirstIsLeast(a, key, b[0]);
    FirstIsLeast(b, key, a[0]);
    Antisymmetric(key(a[0]), key(b[0]));
    SameKeySameElement(a, key, a[0], b[0]);
  }

  lemma RestPermutes<T>(a: seq<T>, b: seq<T>)
    requires a != [] && b != [] && a[0] == b[0] && multiset(a) == multiset(b)
    ensures multiset(a[1..]) == multiset(b[1..])
  {
    assert a == [a[0]] + a[1..] && b == [b[0]] + b[1..];
    assert multiset(a[1..]) == multiset(a) - multiset{a[0]};
  }

  /** There is only one way to sort a list with distinct keys. */
  lemma {:induction false} SortingIsUnique<T>(a: seq<T>, b: seq<T>, key: T -> string)
    requires IsSorted(a, key) && IsSorted(b, key) && DistinctKeys(a, key) && multiset(a) == multiset(b)
    ensures a == b
  {
    assert |a| == |multiset(a)| == |multiset(b)| == |b|;
    if a == [] {
    } else {
      SameFirst(a, b, key);
      RestPermutes(a, b);
      SortingIsUnique(a[1..], b[1..], key);
      assert a == [a[0]] + a[1..] && b == [b[0]] + b[1..];
    }
  }

  lemma {:induction false} PermutationKeepsKeysDistinct<T>(a: seq<T>, b: seq<T>, key: T -> string)
    requires DistinctKeys(a, key) && multiset(a) == multiset(b)
    ensures DistinctKeys(b, key)
  {
    forall i, j | 0 <= i < j < |b|
      ensures key(b[i]) != key(b[j])
    {
      assert b[i] in multiset(b) && b[j] in multiset(b);
      if key(b[i]) == key(b[j]) {
        SameKeySameElement(a, key, b[i], b[j]);
        TwiceIsTwice(b, i, j);
        OnceIsOnce(a, key, b[i]);
      }
    }
  }

  lemma TwiceIsTwice<T>(s: seq<T>, i: nat, j: nat)
    requires i < j < |s| && s[i] == s[j]
    ensures multiset(s)[s[i]] >= 2
  {
    assert s == s[..i] + [s[i]] + s[i + 1..j] + [s[j]] + s[j + 1..];
  }

  lemma OnceIsOnce<T>(s: seq<T>, key: T -> string, x: T)
    requires DistinctKeys(s, key)
    ensures multiset(s)[x] <= 1
  {
    if multiset(s)[x] >= 1 {
      var i :| 0 <= i < |s| && s[i] == x;
      assert s == s[..i] + [s[i]] + s[i + 1..];
      assert x !in s[..i] && x !in s[i + 1..];
    }
  }

  /** Sorting a permutation of a list with distinct keys gives the same list. */
  lemma SortIgnoresOrder<T>(a: seq<T>, b: seq<T>, key: T -> string)
    requires DistinctKeys(a, key) && multiset(a) == multiset(b)
    ensures Sort(a, key) == Sort(b, key) && DistinctKeys(Sort(a, key), key)
  {
    SortSorts(a, key);
    SortSorts(b, key);
    PermutationKeepsKeysDistinct(a, Sort(a, key), key);
    SortingIsUnique(Sort(a, key), Sort(b, key), key);
  }
}
