/**
 * Draw lists: the index list both assignRoles variants permute while they
 * draw (internal/game/model.go:154-244, internal/game/game.go:92-209), and
 * the roles read along it. Reading a sequence along a permutation of its
 * indices keeps its multiset, which turns a statement about positions of
 * the draw list into one about role counts.
 */
module DrawOrder {
  import opened GamePlayer

  /** The indices 0 .. n-1 in order: the draw list before any draw. */
  function Range(n: nat): (r: seq<int>)
    ensures |r| == n && forall i :: 0 <= i < n ==> r[i] == i
  {
    if n == 0 then [] else Range(n - 1) + [n - 1]
  }

  /** order lists every index below n exactly once. */
  predicate IsPermutation(order: seq<int>, n: nat)
  {
    |order| == n && multiset(order) == multiset(Range(n))
  }

  predicate InRange(order: seq<int>, n: nat)
  {
    forall j :: 0 <= j < |order| ==> 0 <= order[j] < n
  }

  /** The roles of the players in ps. */
  function Roles(ps: seq<Player>): (rs: seq<Role>)
    ensures |rs| == |ps| && forall i :: 0 <= i < |ps| ==> rs[i] == ps[i].role
  {
    seq(|ps|, i requires 0 <= i < |ps| => ps[i].role)
  }

  /** rs read in the order the index list gives. */
  function Along(rs: seq<Role>, order: seq<int>): (a: seq<Role>)
    requires InRange(order, |rs|)
    ensures |a| == |order| && forall j :: 0 <= j < |order| ==> a[j] == rs[order[j]]
  {
    seq(|order|, j requires 0 <= j < |order| => rs[order[j]])
  }

  /** No entry appears twice. */
  predicate Distinct<T(==)>(s: seq<T>)
  {
    forall a, b :: 0 <= a < b < |s| ==> s[a] != s[b]
  }

  /**
   * deleteIndex as it acts on the backing array the pool slice shares: entry
   * i trades places with the last pool entry n-1; the caller then shrinks
   * the pool to n-1, so the drawn entry stays in the array just past the pool.
   */
  function DeleteIndex<T(==)>(arr: seq<T>, n: int, i: int): (r: seq<T>)
    requires 0 <= i < n <= |arr|
    ensures |r| == |arr| && multiset(r) == multiset(arr)
    ensures r[n - 1] == arr[i] && r[i] == arr[n - 1]
    ensures forall j :: 0 <= j < |arr| && j != i && j != n - 1 ==> r[j] == arr[j]
  {
    var r := arr[i := arr[n - 1]][n - 1 := arr[i]];
    assert r[n - 1] == arr[i] && r[i] == arr[n - 1];
    assert multiset(r) == multiset(arr) by {
      SwapPermutes(arr, i, n - 1);
    }
    r
  }

  lemma DeleteIndexDistinct<T>(arr: seq<T>, n: int, i: int)
    requires 0 <= i < n <= |arr| && Distinct(arr)
    ensures Distinct(DeleteIndex(arr, n, i))
  {
    var r := DeleteIndex(arr, n, i);
    forall a, b | 0 <= a < b < |r|
      ensures r[a] != r[b]
    {
      var a' := if a == i then n - 1 else if a == n - 1 then i else a;
      var b' := if b == i then n - 1 else if b == n - 1 then i else b;
      assert r[a] == arr[a'] && r[b] == arr[b'] && a' != b';
    }
  }

  /** Exchanging two entries keeps a sequence's multiset. */
  lemma SwapPermutes<T>(s: seq<T>, a: int, b: int)
    requires 0 <= a < |s| && 0 <= b < |s|
    ensures multiset(s[a := s[b]][b := s[a]]) == multiset(s)
  {
  }

  lemma PermutationInRange(order: seq<int>, n: nat)
    requires IsPermutation(order, n)
    ensures InRange(order, n)
  {
    forall j | 0 <= j < |order|
      ensures 0 <= order[j] < n
    {
      assert order[j] in multiset(order);
    }
  }

  lemma RangeLast(n: nat)
    requires n > 0
    ensures multiset(Range(n)) == multiset(Range(n - 1)) + multiset{n - 1}
  {
    assert Range(n) == Range(n - 1) + [n - 1];
  }

  lemma CancelLast(rest: seq<int>, n: nat)
    requires n > 0 && multiset(rest) + multiset{n - 1} == multiset(Range(n))
    ensures multiset(rest) == multiset(Range(n - 1))
  {
    RangeLast(n);
    var a, b := multiset(rest), multiset(Range(n - 1));
    forall x
      ensures a[x] == b[x]
    {
      assert (a + multiset{n - 1})[x] == (b + multiset{n - 1})[x];
    }
  }

  /** Swapping the largest index to the end and cutting it off leaves the other indices. */
  lemma SwapOutLast(order: seq<int>, p: int, n: int)
    requires 0 <= p < n == |order| && order[p] == n - 1
    ensures multiset(order[p := order[n - 1]][..n - 1]) + multiset{n - 1} == multiset(order)
  {
    var sw := order[p := order[n - 1]][n - 1 := order[p]];
    assert sw == order[p := order[n - 1]][..n - 1] + [n - 1];
    SwapPermutes(order, p, n - 1);
  }

  /** The position of the largest index, and the permutation of the smaller ones that remains once it is swapped out. */
  lemma PeelLast(order: seq<int>, n: nat) returns (p: int, rest: seq<int>)
    requires n > 0 && IsPermutation(order, n)
    ensures 0 <= p < n && order[p] == n - 1
    ensures rest == order[p := order[n - 1]][..n - 1]
    ensures IsPermutation(rest, n - 1)
  {
    RangeLast(n);
    assert n - 1 in multiset(order);
    p :| 0 <= p < n && order[p] == n - 1;
    rest := order[p := order[n - 1]][..n - 1];
    SwapOutLast(order, p, n);
    CancelLast(rest, n);
  }

  /** Reading along the permutation with the largest index swapped to the end. */
  lemma AlongPeeled(rs: seq<Role>, order: seq<int>, p: int, rest: seq<int>)
    requires |rs| > 0 && |order| == |rs| && InRange(order, |rs|) && InRange(rest, |rs| - 1)
    requires 0 <= p < |rs| && order[p] == |rs| - 1
    requires rest == order[p := order[|rs| - 1]][..|rs| - 1]
    ensures multiset(Along(rs, order)) == multiset(Along(rs[..|rs| - 1], rest)) + multiset{rs[|rs| - 1]}
  {
    var n := |rs|;
    var a := Along(rs, order);
    var b := Along(rs[..n - 1], rest) + [rs[n - 1]];
    var sw := a[p := a[n - 1]][n - 1 := a[p]];
    forall j | 0 <= j < n
      ensures b[j] == sw[j]
    {
      if j < n - 1 {
        assert rest[j] == if j == p then order[n - 1] else order[j];
      }
    }
    assert b == sw;
    SwapPermutes(a, p, n - 1);
  }

  /** One induction step: the claim for rs follows from the claim for rs without its last element. */
  lemma AlongStep(rs: seq<Role>, order: seq<int>, p: int, rest: seq<int>)
    requires |rs| > 0 && |order| == |rs| && InRange(order, |rs|) && InRange(rest, |rs| - 1)
    requires 0 <= p < |rs| && order[p] == |rs| - 1
    requires rest == order[p := order[|rs| - 1]][..|rs| - 1]
    requires multiset(Along(rs[..|rs| - 1], rest)) == multiset(rs[..|rs| - 1])
    ensures multiset(Along(rs, order)) == multiset(rs)
  {
    AlongPeeled(rs, order, p, rest);
    assert rs == rs[..|rs| - 1] + [rs[|rs| - 1]];
  }

  /** Reading a sequence along a permutation of its indices keeps its multiset. */
  lemma {:induction false} AlongPermutes(rs: seq<Role>, order: seq<int>)
    requires IsPermutation(order, |rs|)
    ensures InRange(order, |rs|) && multiset(Along(rs, order)) == multiset(rs)
  {
    PermutationInRange(order, |rs|);
    if |rs| > 0 {
      var p, rest := PeelLast(order, |rs|);
      PermutationInRange(rest, |rs| - 1);
      AlongPermutes(rs[..|rs| - 1], rest);
      AlongStep(rs, order, p, rest);
    }
  }
}
