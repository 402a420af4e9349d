/**
 * Go's string order and the sorting the lobby relies on (sort.Strings and
 * sort.Slice by client ID). Go compares strings byte by byte in UTF-8;
 * UTF-8 preserves code point order, so comparing characters by code point
 * gives the same answer.
 */
module GoSort {

  /** Go's a < b on strings: lexicographic, a proper prefix first. */
  predicate Below(a: string, b: string)
  {
    if |a| == 0 then |b| > 0
    else if |b| == 0 then false
    else if a[0] != b[0] then a[0] < b[0]
    else Below(a[1..], b[1..])
  }

  /** s is in ascending order of key. */
  ghost predicate SortedBy<T>(s: seq<T>, key: T -> string)
  {
    forall i, j :: 0 <= i < j < |s| ==> !Below(key(s[j]), key(s[i]))
  }

  /** x placed before the first element whose key is not below x's. */
  function Insert<T>(x: T, s: seq<T>, key: T -> string): (r: seq<T>)
    ensures multiset(r) == multiset(s) + multiset{x}
    ensures |r| == |s| + 1
  {
    if |s| == 0 then [x]
    else
      assert s == [s[0]] + s[1..];
      if Below(key(s[0]), key(x)) then [s[0]] + Insert(x, s[1..], key) else [x] + s
  }

  /** An insertion sort by key: the order sort.Strings and sort.Slice produce, up to equal keys. */
  function SortBy<T>(s: seq<T>, key: T -> string): (r: seq<T>)
    ensures multiset(r) == multiset(s) && |r| == |s|
  {
    if |s| == 0 then []
    else
      assert s == s[..|s| - 1] + [s[|s| - 1]];
      Insert(s[|s| - 1], SortBy(s[..|s| - 1], key), key)
  }

  // ---------------------------------------------------------------------
  // Lemmas

  lemma {:induction false} BelowIrreflexive(a: string)
    ensures !Below(a, a)
  {
    if |a| > 0 {
      BelowIrreflexive(a[1..]);
    }
  }

  lemma {:induction false} BelowTransitive(a: string, b: string, c: string)
    requires Below(a, b) && Below(b, c)
    ensures Below(a, c)
  {
    if |a| > 0 && a[0] == b[0] && b[0] == c[0] {
      BelowTransitive(a[1..], b[1..], c[1..]);
    }
  }

  /** Any two different strings are ordered one way. */
  lemma {:induction false} BelowTotal(a: string, b: string)
    requires a != b
    ensures Below(a, b) || Below(b, a)
  {
    if |a| > 0 && |b| > 0 && a[0] == b[0] {
      assert a == [a[0]] + a[1..] && b == [b[0]] + b[1..];
      BelowTotal(a[1..], b[1..]);
    }
  }

  lemma BelowAsymmetric(a: string, b: string)
    requires Below(a, b)
    ensures !Below(b, a)
  {
    if Below(b, a) {
      BelowTransitive(a, b, a);
      BelowIrreflexive(a);
    }
  }

  /** Not below is transitive too: the order is total. */
  lemma NotBelowTransitive(a: string, b: string, c: string)
    requires !Below(b, a) && !Below(c, b)
    ensures !Below(c, a)
  {
    if a != b {
      BelowTotal(a, b);
    }
    if b != c {
      BelowTotal(b, c);
    }
    if a != b && b != c {
      BelowTransitive(a, b, c);
      BelowAsymmetric(a, c);
    }
  }

  /** Inserting into a sorted sequence keeps it sorted. */
  lemma {:induction false} InsertSorted<T>(x: T, s: seq<T>, key: T -> string)
    requires SortedBy(s, key)
    ensures SortedBy(Insert(x, s, key), key)
  {
    var r := Insert(x, s, key);
    if |s| == 0 {
    } else if Below(key(s[0]), key(x)) {
      InsertSorted(x, s[1..], key);
      var t := Insert(x, s[1..], key);
      assert r == [s[0]] + t;
      forall j | 0 < j < |r|
        ensures !Below(key(r[j]), key(s[0]))
      {
        assert r[j] in multiset(t);
        assert r[j] in multiset(s[1..]) + multiset{x};
        if r[j] == x {
          BelowAsymmetric(key(s[0]), key(x));
        } else {
          assert r[j] in s[1..];
          var k :| 0 <= k < |s[1..]| && s[1..][k] == r[j];
          assert s[k + 1] == r[j];
        }
      }
    } else {
      assert r == [x] + s;
      forall i, j | 0 <= i < j < |r|
        ensures !Below(key(r[j]), key(r[i]))
      {
        if i == 0 && j > 1 {
          NotBelowTransitive(key(x), key(s[0]), key(s[j - 1]));
        }
      }
    }
  }

  /** SortBy sorts. */
  lemma {:induction false} SortBySorted<T>(s: seq<T>, key: T -> string)
    ensures SortedBy(SortBy(s, key), key)
  {
    if |s| > 0 {
      SortBySorted(s[..|s| - 1], key);
      InsertSorted(s[|s| - 1], SortBy(s[..|s| - 1], key), key);
    }
  }

  /** The first element of a non-empty sorted sequence has the least key. */
  lemma SortedHeadLeast<T>(s: seq<T>, key: T -> string, x: T)
    requires SortedBy(s, key) && x in s
    ensures !Below(key(x), key(s[0]))
  {
    var k :| 0 <= k < |s| && s[k] == x;
    if k > 0 {
      assert !Below(key(s[k]), key(s[0]));
    } else {
      BelowIrreflexive(key(x));
    }
  }
}
