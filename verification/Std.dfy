/** Shared vocabulary: optional values, counting, and the meaning of SQL's ORDER BY ... LIMIT. */
module Std {

  datatype Option<+T> = None | Some(value: T)

  // ---------- counting ----------

  function Count<T>(s: seq<T>, p: T -> bool): nat {
    if s == [] then 0 else Count(s[..|s| - 1], p) + (if p(s[|s| - 1]) then 1 else 0)
  }

  lemma CountPush<T>(s: seq<T>, x: T, p: T -> bool)
    ensures Count(s + [x], p) == Count(s, p) + (if p(x) then 1 else 0)
  {
    assert (s + [x])[..|s|] == s;
  }

  lemma {:induction false} CountUpdate<T>(s: seq<T>, i: nat, x: T, p: T -> bool)
    requires i < |s|
    ensures Count(s[i := x], p) + (if p(s[i]) then 1 else 0) == Count(s, p) + (if p(x) then 1 else 0)
  {
    var n := |s| - 1;
    if i == n {
      assert s[i := x][..n] == s[..n];
    } else {
      assert s[i := x][..n] == s[..n][i := x];
      CountUpdate(s[..n], i, x, p);
    }
  }

  lemma {:induction false} CountNone<T>(s: seq<T>, p: T -> bool)
    requires forall i :: 0 <= i < |s| ==> !p(s[i])
    ensures Count(s, p) == 0
  {
    if s != [] {
      CountNone(s[..|s| - 1], p);
    }
  }

  /** At most one element satisfies p when no two positions do. */
  lemma {:induction false} CountAtMostOne<T>(s: seq<T>, p: T -> bool)
    requires forall i, j :: 0 <= i < j < |s| ==> !(p(s[i]) && p(s[j]))
    ensures Count(s, p) <= 1
  {
    if s != [] {
      var n := |s| - 1;
      if p(s[n]) {
        CountNone(s[..n], p);
      } else {
        CountAtMostOne(s[..n], p);
      }
    }
  }

  lemma {:induction false} CountHit<T>(s: seq<T>, p: T -> bool, i: nat)
    requires i < |s| && p(s[i])
    ensures Count(s, p) >= 1
  {
    if i < |s| - 1 {
      CountHit(s[..|s| - 1], p, i);
    }
  }

  lemma {:induction false} CountTwoHits<T>(s: seq<T>, p: T -> bool, i: nat, j: nat)
    requires i < j < |s| && p(s[i]) && p(s[j])
    ensures Count(s, p) >= 2
  {
    if j < |s| - 1 {
      CountTwoHits(s[..|s| - 1], p, i, j);
    } else {
      CountHit(s[..|s| - 1], p, i);
    }
  }

  // ---------- ORDER BY key ASC LIMIT limit ----------

  function Min(a: nat, b: nat): nat { if a < b then a else b }

  predicate Distinct<T(==)>(s: seq<T>) {
    forall i, j :: 0 <= i < j < |s| ==> s[i] != s[j]
  }

  function Elements<T>(s: seq<T>): set<T> { set x | x in s }

  /** `pick` is a possible answer to SELECT ... ORDER BY key ASC LIMIT limit over the rows `from`:
      ties may come in any order. */
  predicate IsTop(from: set<nat>, key: nat -> int, limit: nat, pick: seq<nat>) {
    && Distinct(pick)
    && |pick| == Min(limit, |from|)
    && (forall i :: 0 <= i < |pick| ==> pick[i] in from)
    && (forall i, j :: 0 <= i < j < |pick| ==> key(pick[i]) <= key(pick[j]))
    && (forall i, x :: 0 <= i < |pick| && x in from && x !in pick ==> key(pick[i]) <= key(x))
  }

  lemma {:induction false} ElementsSize<T>(s: seq<T>)
    requires Distinct(s)
    ensures |Elements(s)| == |s|
  {
    if s != [] {
      var n := |s| - 1;
      ElementsSize(s[..n]);
      assert Elements(s) == Elements(s[..n]) + {s[n]};
      assert s[n] !in s[..n];
    }
  }

  lemma SubsetSize<T>(a: set<T>, b: set<T>)
    requires a <= b
    ensures |a| <= |b|
    ensures |a| == |b| ==> a == b
    ensures |b - a| == |b| - |a|
  {
    assert b == a + (b - a);
  }

  /** When the limit does not cut, the answer lists every row. */
  lemma TopTakesAll(from: set<nat>, key: nat -> int, limit: nat, pick: seq<nat>)
    requires IsTop(from, key, limit, pick) && |from| <= limit
    ensures Elements(pick) == from
  {
    ElementsSize(pick);
    SubsetSize(Elements(pick), from);
  }

  /** A row is left out only by a limit that is used up. */
  lemma TopMisses(from: set<nat>, key: nat -> int, limit: nat, pick: seq<nat>, x: nat)
    requires IsTop(from, key, limit, pick) && x in from && x !in pick
    ensures |pick| == limit
  {
    ElementsSize(pick);
    SubsetSize(Elements(pick) + {x}, from);
  }

  /** A listed row does not come after any row that is not listed before it. */
  lemma TopIsLeast(from: set<nat>, key: nat -> int, limit: nat, pick: seq<nat>, j: nat, x: nat)
    requires IsTop(from, key, limit, pick) && j < |pick| && x in from
    requires forall k :: 0 <= k < j ==> pick[k] != x
    ensures key(pick[j]) <= key(x)
  {
    if x in pick {
      var k :| 0 <= k < |pick| && pick[k] == x;
    }
  }

  method FindLeast(from: set<nat>, key: nat -> int) returns (least: nat)
    requires from != {}
    ensures least in from && forall x :: x in from ==> key(least) <= key(x)
  {
    least :| least in from;
    var unseen := from - {least};
    while unseen != {}
      invariant least in from && unseen <= from
      invariant forall x :: x in from && x !in unseen ==> key(least) <= key(x)
      decreases unseen
    {
      var x :| x in unseen;
      if key(x) < key(least) { least := x; }
      unseen := unseen - {x};
    }
  }

  /** Runs such a query; every one has an answer, so a step that waits for it is never blocked. */
  method Select(from: set<nat>, key: nat -> int, limit: nat) returns (pick: seq<nat>)
    ensures IsTop(from, key, limit, pick)
  {
    pick := [];
    var rest := from;
    while |pick| < limit && rest != {}
      invariant |pick| <= limit && |pick| + |rest| == |from| && rest <= from
      invariant forall x :: x in from ==> (x in rest <==> x !in pick)
      invariant Distinct(pick) && forall i :: 0 <= i < |pick| ==> pick[i] in from
      invariant forall i, j :: 0 <= i < j < |pick| ==> key(pick[i]) <= key(pick[j])
      invariant forall i, x :: 0 <= i < |pick| && x in rest ==> key(pick[i]) <= key(x)
      decreases rest
    {
      var least := FindLeast(rest, key);
      pick := pick + [least];
      rest := rest - {least};
    }
  }
}
