/** Finite sets of numbers in ascending order: least element, sorted listing, dropping the lowest. */
module Collections {

  datatype Option<+T> = None | Some(value: T)

  datatype Result<+T> = Ok(value: T) | Err(error: Error)

  /** The exceptions the modelled code raises. */
  datatype Error = ValueError | IndexError | ReedSolomonError

  function Max(a: nat, b: nat): nat {
    if a < b then b else a
  }

  function Min(a: nat, b: nat): nat {
    if a < b then a else b
  }

  lemma MinExists(s: set<nat>)
    requires s != {}
    ensures exists m :: m in s && forall x | x in s :: m <= x
  {
    var y :| y in s;
    if forall x | x in s :: y <= x {
    } else {
      var z :| z in s && z < y;
      MinBelow(s, y, z);
    }
  }

  lemma MinBelow(s: set<nat>, y: nat, z: nat)
    requires y in s && z in s && z < y
    ensures exists m :: m in s && forall x | x in s :: m <= x
    decreases z
  {
    if w :| w in s && w < z {
      MinBelow(s, z, w);
    }
  }

  function MinOf(s: set<nat>): (m: nat)
    requires s != {}
    ensures m in s && forall x | x in s :: m <= x
  {
    MinExists(s);
    var m :| m in s && forall x | x in s :: m <= x;
    m
  }

  lemma LeastFirst(s: set<nat>, m: nat, rest: seq<nat>)
    requires forall x | x in s :: m <= x
    requires forall x :: x in rest <==> x in s - {m}
    ensures forall i | 0 <= i < |rest| :: m < rest[i]
  {
    forall i | 0 <= i < |rest| ensures m < rest[i] {
      assert rest[i] in rest;
    }
  }

  /** The elements of s in ascending order. */
  function SortedSeq(s: set<nat>): (r: seq<nat>)
    ensures |r| == |s|
    ensures forall x :: x in r <==> x in s
    ensures forall i, j | 0 <= i < j < |r| :: r[i] < r[j]
  {
    if s == {} then [] else
      var m := MinOf(s);
      var rest := SortedSeq(s - {m});
      LeastFirst(s, m, rest);
      [m] + rest
  }

  /** r consists of the highest elements of s. */
  ghost predicate UpperPart(s: set<nat>, r: set<nat>) {
    r <= s && forall x, y | x in r && y in s && y !in r :: y < x
  }

  /** s without its k lowest elements. */
  ghost function DropLowest(s: set<nat>, k: nat): (r: set<nat>)
    requires k <= |s|
    ensures |r| == |s| - k && UpperPart(s, r)
  {
    SortedTail(s, k);
    var r :| |r| == |s| - k && UpperPart(s, r);
    r
  }

  /** Sorting and slicing: what the code does. */
  method SortAndDrop(s: set<nat>, k: nat) returns (r: set<nat>)
    requires k <= |s|
    ensures r == DropLowest(s, k)
  {
    var q := SortedSeq(s);
    r := set x | x in q[k..];
    SortedTail(s, k);
    UpperPartUnique(s, r, DropLowest(s, k));
  }

  lemma SortedTail(s: set<nat>, k: nat)
    requires k <= |s|
    ensures var r := set x | x in SortedSeq(s)[k..];
            |r| == |s| - k && UpperPart(s, r)
  {
    hide SortedSeq, MinOf;
    var q := SortedSeq(s);
    var r := set x | x in q[k..];
    DistinctCount(q[k..], r);
    forall i | k <= i < |q| ensures q[i] in r {
      assert q[k..][i - k] == q[i];
    }
    forall x, y | x in r && y in s && y !in r ensures y < x {
      var i :| k <= i < |q| && q[i] == x;
      var j :| 0 <= j < |q| && q[j] == y;
    }
  }

  /** No element occurs twice. */
  ghost predicate Distinct<T>(q: seq<T>) {
    forall i, j :: 0 <= i < j < |q| ==> q[i] != q[j]
  }

  lemma DistinctCount(q: seq<nat>, s: set<nat>)
    requires forall x :: x in q <==> x in s
    requires Distinct(q)
    ensures |s| == |q|
  {
    if q == [] {
      assert s == {};
    } else {
      assert q[0] !in q[1..];
      DistinctCount(q[1..], s - {q[0]});
    }
  }

  /** The upper part of a set of a given size is unique. */
  lemma UpperPartUnique(s: set<nat>, a: set<nat>, b: set<nat>)
    requires UpperPart(s, a) && UpperPart(s, b) && |a| == |b|
    ensures a == b
  {
    if x :| x in a && x !in b {
      forall y | y in b ensures y in a {
        if y !in a { UpperParts(s, a, b, x, y); }
      }
      ProperSubsetSize(b, a, x);
    } else if x :| x in b && x !in a {
      ProperSubsetSize(a, b, x);
    }
  }

  /** Two upper parts never cross. */
  lemma UpperParts(s: set<nat>, a: set<nat>, b: set<nat>, x: nat, y: nat)
    requires UpperPart(s, a) && UpperPart(s, b)
    requires x in a && y in b
    ensures x in b || y in a
  {
  }

  /** Without its least element, an upper part is still one. */
  lemma UpperPartWithoutMin(s: set<nat>, r: set<nat>)
    requires UpperPart(s, r) && r != {}
    ensures UpperPart(s, r - {MinOf(r)}) && |r - {MinOf(r)}| == |r| - 1
  {
  }

  /** A number above everything joins the upper part. */
  lemma UpperPartWithMax(s: set<nat>, r: set<nat>, x: nat)
    requires UpperPart(s, r) && forall y :: y in s ==> y < x
    ensures UpperPart(s + {x}, r + {x}) && |r + {x}| == |r| + 1 && |s + {x}| == |s| + 1
  {
    assert x !in s && x !in r;
  }

  lemma ProperSubsetSize(a: set<nat>, b: set<nat>, x: nat)
    requires a <= b && x in b && x !in a
    ensures |a| < |b|
  {
    assert b == a + (b - a);
    assert |b - a| > 0 by { assert x in b - a; }
  }

  lemma SubsetSize<T>(a: set<T>, b: set<T>)
    requires a <= b
    ensures |a| <= |b|
    ensures |a| == |b| ==> a == b
  {
    assert b == a + (b - a);
  }

  lemma MapMinusTwice<V>(m: map<nat, V>, a: set<nat>, b: set<nat>)
    ensures m - a - b == m - (a + b)
  {
  }

  /** The numbers lo, lo + 1, ..., hi - 1. */
  function Range(lo: nat, hi: nat): (s: set<nat>)
    requires lo <= hi
    ensures forall x :: x in s <==> lo <= x < hi
    ensures |s| == hi - lo
  {
    if lo == hi then {} else Range(lo, hi - 1) + {hi - 1}
  }

  lemma OneMoreInRange(n: nat)
    ensures Range(0, n + 1) == Range(0, n) + {n} && n !in Range(0, n)
    ensures forall i :: 0 <= i < n ==> i in Range(0, n)
  {
  }
}
