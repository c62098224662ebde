/**
 Repair of a nearly sorted array (elim_disturb and elim_disturb2). The comparison
 callback is a total preorder, given as a rank into the integers.
 */
module NearlySorted {
  import opened Sequences
  import opened Tally

  predicate Sorted<T>(s: seq<T>, rank: T -> int) {
    forall i, j :: 0 <= i < j < |s| ==> rank(s[i]) <= rank(s[j])
  }

  /** Take the element at p out and put it back at q. */
  function Moved<T>(s: seq<T>, p: nat, q: nat): (r: seq<T>)
    requires p < |s| && q < |s|
    ensures |r| == |s| && r[q] == s[p]
    ensures forall i {:trigger r[i]} :: 0 <= i < q ==> r[i] == Without(s, p)[i]
    ensures forall i :: q < i < |s| ==> r[i] == Without(s, p)[i - 1]
  {
    Without(s, p)[..q] + [s[p]] + Without(s, p)[q..]
  }

  /** Sorted but for one element. */
  ghost predicate OneOff<T>(s: seq<T>, rank: T -> int) {
    |s| > 0 ==> exists d :: 0 <= d < |s| && Sorted(Without(s, d), rank)
  }

  lemma WithoutMultiset<T>(s: seq<T>, p: nat)
    requires p < |s|
    ensures multiset(s) == multiset(Without(s, p)) + multiset{s[p]}
  {
    assert s == s[..p] + [s[p]] + s[p + 1..];
  }

  lemma MovedMultiset<T>(s: seq<T>, p: nat, q: nat)
    requires p < |s| && q < |s|
    ensures multiset(Moved(s, p, q)) == multiset(s)
  {
    WithoutMultiset(s, p);
    var r := Without(s, p);
    assert r == r[..q] + r[q..];
  }

  /** Moving an element next to smaller and larger neighbours completes the order. */
  lemma MovedSorted<T>(s: seq<T>, p: nat, q: nat, rank: T -> int)
    requires p < |s| && q < |s| && Sorted(Without(s, p), rank)
    requires q > 0 ==> rank(Without(s, p)[q - 1]) <= rank(s[p])
    requires q < |s| - 1 ==> rank(s[p]) <= rank(Without(s, p)[q])
    ensures Sorted(Moved(s, p, q), rank)
  {
  }

  /** Swapping an element with its neighbour moves it on by one. */
  lemma SwapUp<T>(s: seq<T>, p: nat, i: nat)
    requires p <= i < |s| - 1
    ensures Moved(s, p, i)[i := Moved(s, p, i)[i + 1]][i + 1 := s[p]] == Moved(s, p, i + 1)
  {
  }

  lemma SwapDown<T>(s: seq<T>, p: nat, i: nat)
    requires 0 < i <= p < |s|
    ensures Moved(s, p, i)[i := Moved(s, p, i)[i - 1]][i - 1 := s[p]] == Moved(s, p, i - 1)
  {
  }

  /** Which of the two elements at the first descent is out of place. */
  function Culprit<T>(s: seq<T>, rank: T -> int, i: nat): (pos: nat)
    requires i + 1 < |s|
    ensures pos == i || pos == i + 1
  {
    if i + 2 < |s| && rank(s[i]) > rank(s[i + 2]) then i else i + 1
  }

  lemma DescentKept<T>(s: seq<T>, rank: T -> int, d: nat, i: nat)
    requires d < |s| && i + 1 < |s| && rank(s[i]) > rank(s[i + 1]) && d != i && d != i + 1
    ensures !Sorted(Without(s, d), rank)
  {
    var w := Without(s, d);
    if d < i {
      assert w[i - 1] == s[i] && w[i] == s[i + 1];
    } else {
      assert w[i] == s[i] && w[i + 1] == s[i + 1];
    }
  }

  /** Deleting the culprit leaves a sorted array whenever deleting some element does. */
  lemma CulpritFound<T>(s: seq<T>, rank: T -> int, i: nat)
    requires OneOff(s, rank) && i + 1 < |s| && rank(s[i]) > rank(s[i + 1])
    ensures Sorted(Without(s, Culprit(s, rank, i)), rank)
  {
    var d :| 0 <= d < |s| && Sorted(Without(s, d), rank);
    var w := Without(s, d);
    if d != i && d != i + 1 {
      DescentKept(s, rank, d, i);
    }
    if d == i + 1 {
      assert i + 2 < |s| ==> w[i] == s[i] && w[i + 1] == s[i + 2];
    } else if Culprit(s, rank, i) == i + 1 {
      var v := Without(s, i + 1);
      assert forall k :: 0 <= k < |v| && k != i ==> v[k] == w[k];
      assert v[i] == s[i] && w[i] == s[i + 1];
      assert i + 1 < |v| ==> w[i + 1] == s[i + 2];
      forall a, b | 0 <= a < b < |v| ensures rank(v[a]) <= rank(v[b]) {
        assert rank(w[a]) <= rank(w[b]);
        if a == i { assert rank(w[i + 1]) <= rank(w[b]) || b == i + 1; }
      }
    }
  }

  /** The rank profile of a sorted arrangement is determined by what it holds. */
  lemma {:induction false} CountPermuted<T>(s: seq<T>, t: seq<T>, p: T -> bool)
    requires multiset(s) == multiset(t)
    ensures Count(s, p) == Count(t, p)
    decreases |s|
  {
    if s == [] {
      assert |multiset(t)| == 0;
    } else {
      assert s[0] in multiset(t);
      var j :| 0 <= j < |t| && t[j] == s[0];
      WithoutMultiset(s, 0);
      WithoutMultiset(t, j);
      assert multiset(Without(s, 0)) == multiset(s) - multiset{s[0]};
      assert multiset(Without(t, j)) == multiset(t) - multiset{s[0]};
      CountPermuted(Without(s, 0), Without(t, j), p);
      CountWithout(s, 0, p);
      CountWithout(t, j, p);
    }
  }

  lemma {:induction false} CountWithout<T>(s: seq<T>, j: nat, p: T -> bool)
    requires j < |s|
    ensures Count(s, p) == Count(Without(s, j), p) + Bit(p(s[j]))
  {
    if j == 0 {
      assert Without(s, 0) == s[1..];
    } else {
      assert Without(s, j)[1..] == Without(s[1..], j - 1);
      CountWithout(s[1..], j - 1, p);
    }
  }

  lemma {:induction false} SortedCount<T>(s: seq<T>, rank: T -> int, r: int, i: nat)
    requires Sorted(s, rank) && i < |s|
    ensures rank(s[i]) <= r <==> i < Count(s, x => rank(x) <= r)
  {
    var p := x => rank(x) <= r;
    if i == 0 {
      if rank(s[0]) > r { CountNone(s, p); }
    } else {
      SortedCount(s[1..], rank, r, i - 1);
    }
  }

  lemma SortedUnique<T>(s: seq<T>, t: seq<T>, rank: T -> int, i: nat)
    requires Sorted(s, rank) && Sorted(t, rank) && multiset(s) == multiset(t) && i < |s|
    ensures |s| == |t| && rank(s[i]) == rank(t[i])
  {
    assert |multiset(s)| == |multiset(t)|;
    var u, v := rank(s[i]), rank(t[i]);
    SortedCount(s, rank, u, i);
    SortedCount(t, rank, u, i);
    SortedCount(s, rank, v, i);
    SortedCount(t, rank, v, i);
    CountPermuted(s, t, x => rank(x) <= u);
    CountPermuted(s, t, x => rank(x) <= v);
  }

  /** The upward swaps of elim_disturb. */
  method Raise<T>(a: array<T>, rank: T -> int, pos: nat) returns (ghost q: nat)
    requires pos < a.Length
    modifies a
    ensures pos <= q < a.Length && a[..] == Moved(old(a[..]), pos, q)
    ensures q > pos ==> rank(Without(old(a[..]), pos)[q - 1]) < rank(old(a[pos]))
    ensures q < a.Length - 1 ==> rank(old(a[pos])) <= rank(Without(old(a[..]), pos)[q])
  {
    ghost var s := a[..];
    var i := pos;
    assert a[..] == Moved(s, pos, pos);
    while i < a.Length - 1 && rank(a[i]) > rank(a[i + 1])
      invariant pos <= i < a.Length && a[..] == Moved(s, pos, i)
      invariant i > pos ==> rank(Without(s, pos)[i - 1]) < rank(s[pos])
    {
      SwapUp(s, pos, i);
      assert a[..][i] == s[pos] && a[..][i + 1] == Without(s, pos)[i];
      ghost var t := a[..];
      a[i], a[i + 1] := a[i + 1], a[i];
      assert a[..] == t[i := t[i + 1]][i + 1 := s[pos]];
      i := i + 1;
    }
    assert a[..][i] == s[pos];
    assert i < a.Length - 1 ==> a[..][i + 1] == Without(s, pos)[i];
    q := i;
  }

  /** The downward swaps of elim_disturb. */
  method Lower<T>(a: array<T>, rank: T -> int, pos: nat) returns (ghost q: nat)
    requires pos < a.Length
    modifies a
    ensures q <= pos && a[..] == Moved(old(a[..]), pos, q)
    ensures q > 0 ==> rank(Without(old(a[..]), pos)[q - 1]) <= rank(old(a[pos]))
    ensures q < pos ==> rank(old(a[pos])) < rank(Without(old(a[..]), pos)[q])
  {
    ghost var s := a[..];
    var i := pos;
    assert a[..] == Moved(s, pos, pos);
    while i > 0 && rank(a[i - 1]) > rank(a[i])
      invariant 0 <= i <= pos && a[..] == Moved(s, pos, i)
      invariant i < pos ==> rank(s[pos]) < rank(Without(s, pos)[i])
    {
      SwapDown(s, pos, i);
      assert a[..][i] == s[pos] && a[..][i - 1] == Without(s, pos)[i - 1];
      ghost var t := a[..];
      a[i - 1], a[i] := a[i], a[i - 1];
      assert a[..] == t[i := t[i - 1]][i - 1 := s[pos]];
      i := i - 1;
    }
    assert a[..][i] == s[pos];
    assert i > 0 ==> a[..][i - 1] == Without(s, pos)[i - 1];
    q := i;
  }

  /** Raising or lowering the culprit only, the array is permuted; if one element was
      out of place it ends up sorted. */
  method ElimDisturb<T>(a: array<T>, rank: T -> int)
    modifies a
    ensures multiset(a[..]) == multiset(old(a[..]))
    ensures OneOff(old(a[..]), rank) ==> Sorted(a[..], rank)
    ensures Sorted(old(a[..]), rank) ==> a[..] == old(a[..])
  {
    ghost var s := a[..];
    var i := 0;
    while i + 1 < a.Length && rank(a[i]) <= rank(a[i + 1])
      invariant i <= a.Length && (i == a.Length ==> i == 0) && a[..] == s
      invariant Sorted(s[..if i < a.Length then i + 1 else 0], rank)
    {
      i := i + 1;
    }
    if i + 1 >= a.Length {
      assert s == s[..if i < a.Length then i + 1 else 0];
      return;
    }
    assert rank(s[i]) > rank(s[i + 1]);
    ghost var q;
    if i + 2 < a.Length && rank(a[i]) > rank(a[i + 2]) {
      q := Raise(a, rank, i);
    } else {
      q := Lower(a, rank, i + 1);
    }
    Repaired(s, rank, i, q);
  }

  lemma Repaired<T>(s: seq<T>, rank: T -> int, i: nat, q: nat)
    requires i + 1 < |s| && q < |s| && rank(s[i]) > rank(s[i + 1])
    requires var p := Culprit(s, rank, i); var w := Without(s, p);
      if p == i then
        p <= q && (q > p ==> rank(w[q - 1]) < rank(s[p])) && (q < |w| ==> rank(s[p]) <= rank(w[q]))
      else
        q <= p && (q > 0 ==> rank(w[q - 1]) <= rank(s[p])) && (q < p ==> rank(s[p]) < rank(w[q]))
    ensures multiset(Moved(s, Culprit(s, rank, i), q)) == multiset(s)
    ensures OneOff(s, rank) ==> Sorted(Moved(s, Culprit(s, rank, i), q), rank)
  {
    var p := Culprit(s, rank, i);
    MovedMultiset(s, p, q);
    if OneOff(s, rank) {
      CulpritFound(s, rank, i);
      MovedSorted(s, p, q, rank);
    }
  }

  /** Whether elim_disturb2 finds a place inside the array: otherwise the element is
      larger than all others and larger than the slot past the end, which is read too. */
  predicate Fits<T>(s: seq<T>, num: nat, rank: T -> int)
    requires 1 <= num < |s|
  {
    num == 1 || rank(s[0]) <= rank(s[num - 1]) || rank(s[0]) <= rank(s[num])
  }

  /** The binary search of elim_disturb2. */
  method FindSlot<T>(a: array<T>, num: nat, rank: T -> int) returns (pos: nat)
    requires 2 <= num < a.Length && Sorted(a[1..num], rank)
    ensures 1 <= pos <= num + 1
    ensures forall k :: 1 <= k < pos && k < num ==> rank(a[k]) <= rank(a[0])
    ensures forall k :: pos <= k < num ==> rank(a[0]) <= rank(a[k])
    ensures pos == num + 1 <==> !Fits(a[..], num, rank)
  {
    ghost var s := a[1..num];
    assert forall k :: 1 <= k < num ==> a[k] == s[k - 1];
    var lb, rb := 1, num;
    while rb - lb != 1
      invariant 1 <= lb < rb <= num
      invariant lb == 1 || rank(a[0]) > rank(a[lb])
      invariant rb == num || rank(a[0]) < rank(a[rb])
      decreases rb - lb
    {
      var med := (rb + lb) / 2;
      if rank(a[0]) < rank(a[med]) {
        rb := med;
      } else if rank(a[0]) > rank(a[med]) {
        lb := med;
      } else {
        return med;
      }
    }
    if rank(a[0]) <= rank(a[lb]) {
      pos := lb;
    } else if rank(a[0]) <= rank(a[rb]) {
      pos := rb;
    } else {
      pos := rb + 1;
    }
  }

  lemma PlacedPrefix<T>(s: seq<T>, num: nat, pos: nat)
    requires 1 <= pos <= num < |s|
    ensures Moved(s, 0, pos - 1)[..num] == Moved(s[..num], 0, pos - 1)
    ensures Moved(s, 0, pos - 1)[num..] == s[num..]
  {
  }

  lemma WithoutFirst<T>(s: seq<T>, num: nat)
    requires 1 <= num <= |s|
    ensures Without(s[..num], 0) == s[1..num]
  {
  }

  lemma Placed<T>(s: seq<T>, num: nat, pos: nat, rank: T -> int)
    requires 1 <= pos <= num < |s| && Sorted(s[1..num], rank)
    requires pos > 1 ==> rank(s[pos - 1]) <= rank(s[0])
    requires pos < num ==> rank(s[0]) <= rank(s[pos])
    ensures Sorted(Moved(s, 0, pos - 1)[..num], rank)
    ensures multiset(Moved(s, 0, pos - 1)[..num]) == multiset(s[..num])
    ensures Moved(s, 0, pos - 1)[num..] == s[num..]
  {
    var u := s[..num];
    PlacedPrefix(s, num, pos);
    WithoutFirst(s, num);
    var w := Without(u, 0);
    assert pos > 1 ==> w[pos - 2] == s[pos - 1];
    assert pos < num ==> w[pos - 1] == s[pos];
    MovedSorted(u, 0, pos - 1, rank);
    MovedMultiset(u, 0, pos - 1);
  }

  /** With no place inside the array, the slot past the end is dragged in and the
      element itself is lost to it. */
  lemma Misplaced<T>(s: seq<T>, num: nat, rank: T -> int)
    requires 1 <= num < |s| && !Fits(s, num, rank)
    ensures Moved(s, 0, num)[num] == s[0]
    ensures multiset(Moved(s, 0, num)[..num]) != multiset(s[..num])
  {
    var u := Moved(s, 0, num)[..num];
    assert u == s[1..num] + [s[num]];
    assert s[..num] == [s[0]] + s[1..num];
    assert multiset(u)[s[0]] == multiset(s[1..num])[s[0]];
  }

  /** The block move of elim_disturb2: the first pos - 1 successors slide down by one. */
  method Shift<T>(a: array<T>, pos: nat)
    requires 1 <= pos <= a.Length
    modifies a
    ensures a[..] == Moved(old(a[..]), 0, pos - 1)
  {
    var tmp := a[0];
    forall k | 0 <= k < pos - 1 {
      a[k] := a[k + 1];
    }
    a[pos - 1] := tmp;
  }

  /** Sorted permutation of the array, and nothing else touched, exactly when the
      element fits. */
  method ElimDisturb2<T>(a: array<T>, num: nat, rank: T -> int)
    requires 1 <= num < a.Length && Sorted(a[1..num], rank)
    modifies a
    ensures Fits(old(a[..]), num, rank) ==> Sorted(a[..][..num], rank) && a[..][num..] == old(a[..][num..])
    ensures Fits(old(a[..]), num, rank) <==> multiset(a[..][..num]) == multiset(old(a[..][..num]))
  {
    ghost var s := a[..];
    if num == 1 {
      return;
    }
    var pos := FindSlot(a, num, rank);
    if pos == num + 1 {
      Misplaced(s, num, rank);
    } else {
      assert s[1..num] == a[1..num];
      Placed(s, num, pos, rank);
    }
    if pos == 1 {
      assert Moved(s, 0, 0) == s;
      return;
    }
    Shift(a, pos);
  }

  /** Both repairs apply to an array whose first element is displaced, and leave the
      same ranks in the same places. */
  lemma RepairsAgree<T>(s: seq<T>, t: seq<T>, u: seq<T>, rank: T -> int, i: nat)
    requires i < |s| && Sorted(s[1..], rank)
    requires multiset(t) == multiset(s) == multiset(u)
    requires OneOff(s, rank) ==> Sorted(t, rank)
    requires Sorted(u, rank)
    ensures |t| == |u| == |s| && rank(t[i]) == rank(u[i])
  {
    assert Without(s, 0) == s[1..];
    assert |multiset(t)| == |multiset(u)| == |multiset(s)|;
    SortedUnique(t, u, rank, i);
  }
}
