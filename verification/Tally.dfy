/**
 Counting the elements of a sequence that satisfy a predicate, and how the count
 moves when one element is replaced. Every conservation law of the concurrent
 protocols is stated with these counts.
 */
module Tally {

  function Count<T>(s: seq<T>, p: T -> bool): (n: nat)
    ensures n <= |s|
  {
    if s == [] then 0 else Count(s[1..], p) + (if p(s[0]) then 1 else 0)
  }

  function Bit(b: bool): nat {
    if b then 1 else 0
  }

  /** Replacing one element moves the count by exactly the difference of the two. */
  lemma {:induction false} CountUpdate<T>(s: seq<T>, i: nat, x: T, p: T -> bool)
    requires i < |s|
    ensures Count(s[i := x], p) + Bit(p(s[i])) == Count(s, p) + Bit(p(x))
  {
    if i == 0 {
      assert s[i := x][1..] == s[1..];
    } else {
      assert s[i := x][1..] == s[1..][i - 1 := x];
      CountUpdate(s[1..], i - 1, x, p);
    }
  }

  /** A member that satisfies the predicate is counted. */
  lemma {:induction false} CountMember<T>(s: seq<T>, i: nat, p: T -> bool)
    requires i < |s| && p(s[i])
    ensures Count(s, p) >= 1
  {
    if i != 0 {
      CountMember(s[1..], i - 1, p);
    }
  }

  /** Two distinct members that satisfy the predicate are both counted. */
  lemma {:induction false} CountPair<T>(s: seq<T>, i: nat, j: nat, p: T -> bool)
    requires i < j < |s| && p(s[i]) && p(s[j])
    ensures Count(s, p) >= 2
  {
    if i == 0 {
      CountMember(s[1..], j - 1, p);
    } else {
      CountPair(s[1..], i - 1, j - 1, p);
    }
  }

  /** A positive count has a witness. */
  lemma {:induction false} CountWitness<T>(s: seq<T>, p: T -> bool) returns (i: nat)
    requires Count(s, p) > 0
    ensures i < |s| && p(s[i])
  {
    if p(s[0]) {
      i := 0;
    } else {
      var k := CountWitness(s[1..], p);
      i := k + 1;
    }
  }

  /** A predicate no member satisfies counts zero. */
  lemma {:induction false} CountNone<T>(s: seq<T>, p: T -> bool)
    requires forall i :: 0 <= i < |s| ==> !p(s[i])
    ensures Count(s, p) == 0
  {
    if s != [] {
      CountNone(s[1..], p);
    }
  }

  /** Counting every member gives the length, and only then. */
  lemma {:induction false} CountAll<T>(s: seq<T>, p: T -> bool)
    ensures Count(s, p) == |s| <==> forall i :: 0 <= i < |s| ==> p(s[i])
  {
    if s != [] {
      CountAll(s[1..], p);
      assert forall i :: 0 < i < |s| ==> s[i] == s[1..][i - 1];
    }
  }

  /** Total weight of a sequence. */
  function Weigh<T>(s: seq<T>, w: T -> nat): nat {
    if s == [] then 0 else Weigh(s[1..], w) + w(s[0])
  }

  lemma {:induction false} WeighUpdate<T>(s: seq<T>, i: nat, x: T, w: T -> nat)
    requires i < |s|
    ensures Weigh(s[i := x], w) + w(s[i]) == Weigh(s, w) + w(x)
  {
    if i == 0 {
      assert s[i := x][1..] == s[1..];
    } else {
      assert s[i := x][1..] == s[1..][i - 1 := x];
      WeighUpdate(s[1..], i - 1, x, w);
    }
  }
}
