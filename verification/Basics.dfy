/**
 What several components share: a constant of xv6/param.h and the size of a
 machine word, least and greatest numbers, lists without repeats, and the sizes of
 sets of numbers.
 */
module Basics {

  const MAXOPBLOCKS := 10          // blocks a file system call may write
  const UINT_LIMIT := 0x1_0000_0000

  function Min(a: int, b: int): (m: int)
    ensures m <= a && m <= b && (m == a || m == b)
  {
    if a < b then a else b
  }

  function Max(a: int, b: int): (m: int)
    ensures a <= m && b <= m && (m == a || m == b)
  {
    if a < b then b else a
  }

  predicate Distinct<T(==)>(s: seq<T>) { forall i, j :: 0 <= i < j < |s| ==> s[i] != s[j] }

  // The numbers from a up to b - 1.
  function Range(a: nat, b: nat): (s: set<nat>)
    ensures forall x: nat :: x in s <==> a <= x < b
    decreases b
  {
    if b <= a then {} else Range(a, b - 1) + {b - 1}
  }

  lemma {:induction false} RangeSize(a: nat, b: nat)
    requires a <= b
    ensures |Range(a, b)| == b - a
    decreases b
  {
    if a < b {
      RangeSize(a, b - 1);
    }
  }

  function Elements(q: seq<nat>): (s: set<nat>)
    ensures forall x :: x in s <==> x in q
  {
    if q == [] then {} else Elements(q[..|q| - 1]) + {q[|q| - 1]}
  }

  lemma {:induction false} ListSize(q: seq<nat>)
    requires Distinct(q)
    ensures |Elements(q)| == |q|
  {
    if q != [] {
      var rest, last := q[..|q| - 1], q[|q| - 1];
      ListSize(rest);
      assert last !in rest;
    }
  }

  lemma Apart(a: set<nat>, b: set<nat>)
    requires a !! b
    ensures |a + b| == |a| + |b|
  {
    assert a * b == {};
  }

  lemma Inside(a: set<nat>, b: set<nat>)
    requires a <= b
    ensures |b - a| == |b| - |a| && |a| <= |b|
  {
    Apart(a, b - a);
    assert a + (b - a) == b;
  }

  // A one-to-one map takes its keys to a set at most, and if onto exactly, as large.
  lemma {:induction false} ImageSize(g: map<nat, nat>, s: set<nat>)
    requires forall x, y :: x in g && y in g && x != y ==> g[x] != g[y]
    requires forall x :: x in g ==> g[x] in s
    ensures |g| <= |s|
    ensures (forall y :: y in s ==> exists x :: x in g && g[x] == y) ==> |g| == |s|
    decreases |g|
  {
    if g == map[] {
      if forall y :: y in s ==> exists x :: x in g && g[x] == y {
        assert s == {};
      }
    } else {
      var x :| x in g;
      var g', s' := g - {x}, s - {g[x]};
      assert g.Keys == g'.Keys + {x};
      ImageSize(g', s');
      if forall y :: y in s ==> exists z :: z in g && g[z] == y {
        forall y | y in s'
          ensures exists z :: z in g' && g'[z] == y
        {
          var z :| z in g && g[z] == y;
          assert z in g' && g'[z] == y;
        }
      }
    }
  }
}
