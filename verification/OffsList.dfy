/**
 offs_list in place: a doubly linked queue of distinct offsets with a hash index from
 a value to its list element. The chain, the index and the counter describe the same
 sequence after every operation.
 */
module OffsList {
  import opened HashTable
  import opened SeHash
  import opened Sequences
  import Bits

  class Elem {
    const val: int
    var next: Elem?
    var pred: Elem?

    constructor (val: int)
      ensures this.val == val && next == null && pred == null
    {
      this.val, next, pred := val, null, null;
    }
  }

  /** The j-th element of a list, null outside it. */
  ghost function ElemAt(spine: seq<Elem>, j: int): Elem? {
    if 0 <= j < |spine| then spine[j] else null
  }

  /** Each element points to both its neighbours. */
  ghost predicate Linked(spine: seq<Elem>)
    reads spine
  {
    && (forall j {:trigger spine[j].next} :: 0 <= j < |spine| ==> spine[j].next == ElemAt(spine, j + 1))
    && (forall j {:trigger spine[j].pred} :: 0 <= j < |spine| ==> spine[j].pred == ElemAt(spine, j - 1))
  }

  ghost function Values(spine: seq<Elem>): (r: seq<int>)
    ensures |r| == |spine| && forall j :: 0 <= j < |r| ==> r[j] == spine[j].val
  {
    seq(|spine|, j requires 0 <= j < |spine| => spine[j].val)
  }

  /** The index knows exactly the elements of the list, under their values. */
  ghost predicate Covers(m: map<int, Elem>, spine: seq<Elem>) {
    && (forall j :: 0 <= j < |spine| ==> spine[j].val in m && m[spine[j].val] == spine[j])
    && (forall v :: v in m ==> m[v] in spine && m[v].val == v)
  }

  lemma {:induction false} LinkedDistinct(spine: seq<Elem>, i: nat, j: nat)
    requires Linked(spine) && i < j < |spine|
    ensures spine[i] != spine[j]
    decreases |spine| - j
  {
    assert spine[i].next == ElemAt(spine, i + 1) && spine[j].next == ElemAt(spine, j + 1);
    if j + 1 < |spine| { LinkedDistinct(spine, i + 1, j + 1); }
  }

  lemma OnlyElem(spine: seq<Elem>, j: nat)
    requires Linked(spine) && j < |spine|
    ensures forall i :: 0 <= i < |spine| && i != j ==> spine[i] != spine[j]
  {
    forall i | 0 <= i < |spine| && i != j ensures spine[i] != spine[j] {
      if i < j { LinkedDistinct(spine, i, j); } else { LinkedDistinct(spine, j, i); }
    }
  }

  /** Once its neighbours point past the j-th element, the others are linked. */
  lemma CutLinked(was: seq<Elem>, j: nat)
    requires 0 < j < |was| - 1
    requires forall k {:trigger was[k].next} :: 0 <= k < |was| && k != j ==>
      was[k].next == if k == j - 1 then was[j + 1] else ElemAt(was, k + 1)
    requires forall k {:trigger was[k].pred} :: 0 <= k < |was| && k != j ==>
      was[k].pred == if k == j + 1 then was[j - 1] else ElemAt(was, k - 1)
    ensures Linked(Without(was, j))
  {
    var r := Without(was, j);
    forall i | 0 <= i < |r|
      ensures r[i].next == ElemAt(r, i + 1) && r[i].pred == ElemAt(r, i - 1)
    {
      var k := if i < j then i else i + 1;
      assert r[i] == was[k];
      assert was[k].next == (if k == j - 1 then was[j + 1] else ElemAt(was, k + 1));
      assert was[k].pred == (if k == j + 1 then was[j - 1] else ElemAt(was, k - 1));
    }
  }

  lemma CoversPush(m: map<int, Elem>, spine: seq<Elem>, e: Elem)
    requires Covers(m, spine) && e.val !in m
    ensures Covers(m[e.val := e], [e] + spine)
  {
  }

  lemma PushFacts(m: map<int, Elem>, spine: seq<Elem>, e: Elem)
    requires Covers(m, spine) && e.val !in m
    ensures Covers(m[e.val := e], [e] + spine) && Values([e] + spine) == [e.val] + Values(spine)
  {
    CoversPush(m, spine, e);
  }

  lemma CoversRemove(m: map<int, Elem>, spine: seq<Elem>, j: nat)
    requires Covers(m, spine) && j < |spine| && forall i :: 0 <= i < |spine| && i != j ==> spine[i] != spine[j]
    ensures Covers(m - {spine[j].val}, Without(spine, j))
  {
    var m', s' := m - {spine[j].val}, Without(spine, j);
    forall v | v in m' ensures m'[v] in s' && m'[v].val == v {
      var i :| 0 <= i < |spine| && spine[i] == m[v];
      assert i != j;
      assert s'[if i < j then i else i - 1] == m[v];
    }
  }

  /** The linked list proper: what push, pop and find_remove do to the links. */
  class Chain {
    var start: Elem?
    var last: Elem?
    var num: nat
    ghost var spine: seq<Elem>

    ghost predicate Valid()
      reads this, spine
    {
      && num == |spine|
      && start == ElemAt(spine, 0) && last == ElemAt(spine, |spine| - 1)
      && Linked(spine)
    }

    constructor ()
      ensures Valid() && spine == []
    {
      start, last, num, spine := null, null, 0, [];
    }

    method PushFront(tmp: Elem)
      requires Valid() && tmp !in spine
      modifies this, tmp, spine
      ensures Valid() && spine == [tmp] + old(spine)
    {
      tmp.pred := null;
      num := num + 1;
      if start == null {
        tmp.next := null;
        start, last := tmp, tmp;
      } else {
        OnlyElem(spine, 0);
        tmp.next := start;
        start.pred := tmp;
        start := tmp;
      }
      ghost var was := spine;
      spine := [tmp] + was;
      forall i | 0 <= i < |spine|
        ensures spine[i].next == ElemAt(spine, i + 1) && spine[i].pred == ElemAt(spine, i - 1)
      {
        if i > 0 { assert spine[i] == was[i - 1]; }
      }
    }

    method PopBack()
      requires Valid() && last != null
      modifies this, spine
      ensures Valid() && spine == old(spine)[..|old(spine)| - 1]
    {
      num := num - 1;
      OnlyElem(spine, 0);
      if start == last {
        start, last := null, null;
      } else {
        OnlyElem(spine, |spine| - 2);
        last := last.pred;
        last.next := null;
      }
      ghost var was := spine;
      spine := was[..|was| - 1];
      forall i | 0 <= i < |spine|
        ensures spine[i].next == ElemAt(spine, i + 1) && spine[i].pred == ElemAt(spine, i - 1)
      {
        assert spine[i] == was[i];
      }
    }

    /** Take an element out, wherever it is. */
    method Unlink(tmp: Elem, ghost j: nat)
      requires Valid() && j < |spine| && tmp == spine[j]
      modifies this, spine
      ensures Valid() && spine == Without(old(spine), j)
    {
      if tmp.next == null && tmp.pred == null {
        start, last := null, null;
        num := num - 1;
        spine := Without(spine, j);
      } else if tmp.next == null {
        PopBack();
      } else if tmp.pred == null {
        UnlinkFirst(tmp);
      } else {
        UnlinkInside(tmp, j);
      }
    }

    method UnlinkFirst(tmp: Elem)
      requires Valid() && |spine| > 1 && tmp == spine[0]
      modifies this, spine
      ensures Valid() && spine == Without(old(spine), 0)
    {
      OnlyElem(spine, 1);
      num := num - 1;
      start := tmp.next;
      start.pred := null;
      ghost var was := spine;
      spine := Without(was, 0);
      forall i | 0 <= i < |spine|
        ensures spine[i].next == ElemAt(spine, i + 1) && spine[i].pred == ElemAt(spine, i - 1)
      {
        assert spine[i] == was[i + 1];
      }
    }

    method UnlinkInside(tmp: Elem, ghost j: nat)
      requires Valid() && 0 < j < |spine| - 1 && tmp == spine[j]
      modifies this, spine
      ensures Valid() && spine == Without(old(spine), j)
    {
      OnlyElem(spine, j - 1);
      OnlyElem(spine, j + 1);
      num := num - 1;
      ghost var was, r := spine, Without(spine, j);
      var before, after := tmp.pred, tmp.next;
      assert before == was[j - 1] && after == was[j + 1];
      before.next := after;
      after.pred := before;
      CutLinked(was, j);
      spine := r;
    }
  }

  /** The list of offsets with its index: a queue entered at the front and left at the back. */
  class OffsList {
    const chain: Chain
    const tbl: Hash<int, Elem>
    ghost var m: map<int, Elem>

    ghost predicate Valid()
      reads this, chain, chain.spine, tbl, tbl.cells, tbl.nodes
    {
      chain.Valid() && Indexed() && Covers(m, chain.spine)
    }

    /** The hash index represents the map m. */
    ghost predicate Indexed()
      reads this, tbl, tbl.cells, tbl.nodes
    {
      tbl.Valid() && Represents(tbl.View(), tbl.index, m)
    }

    /** The queue, newest value first. */
    ghost function Queue(): seq<int>
      reads chain
    {
      Values(chain.spine)
    }

    constructor (middle: nat, right: nat)
      requires 0 < middle && middle + right <= 32
      ensures Valid() && Queue() == []
    {
      var index := (key: int) => Bits.BucketIndex(key % Bits.WORD, middle, right);
      forall key: int ensures index(key) < Bits.Pow2(middle) {
        Bits.BucketIndexIs(key % Bits.WORD, middle, right);
      }
      chain := new Chain();
      tbl := new Hash<int, Elem>(index, Bits.Pow2(middle));
      m := map[];
      new;
      EmptyRefines(tbl.View(), tbl.index);
    }

    method Size() returns (n: nat)
      requires Valid()
      ensures n == |Queue()|
    {
      n := chain.num;
    }

    /** A value is in the queue exactly when the index knows it. */
    lemma QueueIndexed(v: int)
      requires Valid()
      ensures v in Queue() <==> v in m
    {
      if v in Queue() {
        var j :| 0 <= j < |chain.spine| && Queue()[j] == v;
        assert chain.spine[j].val in m;
      }
      if v in m {
        var j :| 0 <= j < |chain.spine| && chain.spine[j] == m[v];
        assert Queue()[j] == v;
      }
    }

    method Find(v: int) returns (found: bool)
      requires Valid()
      ensures found <==> v in Queue()
    {
      QueueIndexed(v);
      assert Lookedup(tbl.View()[tbl.index(v)], v) == Get(m, v);
      var r := tbl.Find(v);
      found := r.Found?;
    }

    method IndexInsert(v: int, tmp: Elem)
      requires Indexed() && v !in m
      modifies this, tbl, tbl.cells
      ensures Indexed() && m == old(m)[v := tmp] && old(tbl.nodes) <= tbl.nodes && fresh(tbl.nodes - old(tbl.nodes))
    {
      ghost var t := tbl.View();
      InsertRefines(t, tbl.index, m, v, tmp);
      tbl.Insert(v, tmp);
      m := m[v := tmp];
      assert tbl.View() == t[tbl.index(v) := Inserted(t[tbl.index(v)], Entry(v, tmp))];
    }

    /** The list and the index, each right by itself. */
    ghost predicate Parts()
      reads this, chain, chain.spine, tbl, tbl.cells, tbl.nodes
    {
      chain.Valid() && Indexed()
    }

    /** An entry in the index, the list being untouched. */
    method Register(v: int, tmp: Elem)
      requires Parts() && v !in m
      modifies this, tbl, tbl.cells
      ensures Parts() && chain.spine == old(chain.spine) && m == old(m)[v := tmp]
    {
      IndexInsert(v, tmp);
      assert chain.spine == old(chain.spine);
      assert chain.Valid();
    }

    /** First half of push: a new element, known to the index. */
    method NewIndexed(v: int) returns (tmp: Elem)
      requires Parts() && v !in m
      modifies this, tbl, tbl.cells
      ensures fresh(tmp) && tmp.val == v && tmp !in chain.spine
      ensures Parts() && chain.spine == old(chain.spine) && m == old(m)[v := tmp]
    {
      tmp := new Elem(v);
      assert Parts();
      Register(v, tmp);
    }

    /** Second half: link it in front. */
    method LinkFront(tmp: Elem)
      requires Parts() && tmp !in chain.spine
      modifies chain, chain.spine, tmp
      ensures Parts() && m == old(m) && chain.spine == [tmp] + old(chain.spine)
    {
      chain.PushFront(tmp);
    }

    method Push(v: int)
      requires Valid() && v !in Queue()
      modifies this, chain, chain.spine, tbl, tbl.cells
      ensures Valid() && Queue() == [v] + old(Queue())
    {
      QueueIndexed(v);
      var tmp := Enter(v);
      PushFacts(old(m), old(chain.spine), tmp);
    }

    method Enter(v: int) returns (tmp: Elem)
      requires Parts() && v !in m
      modifies this, chain, chain.spine, tbl, tbl.cells
      ensures tmp.val == v && Parts() && chain.spine == [tmp] + old(chain.spine) && m == old(m)[v := tmp]
    {
      tmp := NewIndexed(v);
      LinkFront(tmp);
    }

    method IndexRemove(v: int) returns (r: Lookup<Elem>)
      requires Indexed()
      modifies this, tbl, tbl.cells, tbl.nodes
      ensures Indexed() && m == old(m) - {v} && r == Get(old(m), v)
    {
      ghost var t := tbl.View();
      RemoveRefines(t, tbl.index, m, v);
      assert Lookedup(t[tbl.index(v)], v) == Get(m, v);
      r := tbl.FindRemove(v);
      m := m - {v};
      assert tbl.View() == t[tbl.index(v) := Removed(t[tbl.index(v)], v)];
    }

    /** Forget a value in the index, the list being untouched. */
    method Unindex(v: int) returns (r: Lookup<Elem>)
      requires Parts()
      modifies this, tbl, tbl.cells, tbl.nodes
      ensures Parts() && chain.spine == old(chain.spine) && m == old(m) - {v} && r == Get(old(m), v)
    {
      r := IndexRemove(v);
      assert chain.spine == old(chain.spine);
      assert chain.Valid();
    }

    /** Take an element out of the list, the index being untouched. */
    method UnlinkElem(tmp: Elem, ghost j: nat)
      requires Parts() && j < |chain.spine| && chain.spine[j] == tmp
      modifies chain, chain.spine
      ensures Parts() && m == old(m) && chain.spine == Without(old(chain.spine), j)
    {
      chain.Unlink(tmp, j);
    }

    method UnlinkLast()
      requires Parts() && chain.last != null
      modifies chain, chain.spine
      ensures Parts() && m == old(m) && chain.spine == Without(old(chain.spine), |old(chain.spine)| - 1)
    {
      chain.PopBack();
    }

    /** The oldest value leaves the queue. */
    method Pop() returns (r: Lookup<int>)
      requires Valid()
      modifies this, chain, chain.spine, tbl, tbl.cells, tbl.nodes
      ensures Valid()
      ensures old(Queue()) == [] ==> r == Missing && Queue() == []
      ensures old(Queue()) != [] ==> r == Found(old(Queue())[|old(Queue())| - 1])
      ensures old(Queue()) != [] ==> Queue() == Without(old(Queue()), |old(Queue())| - 1)
    {
      if chain.last == null {
        r := Missing;
      } else {
        var v := PopLast();
        r := Found(v);
      }
    }

    method PopLast() returns (v: int)
      requires Valid() && chain.last != null
      modifies this, chain, chain.spine, tbl, tbl.cells, tbl.nodes
      ensures Valid() && old(Queue()) != [] && v == old(Queue())[|old(Queue())| - 1]
      ensures Queue() == Without(old(Queue()), |old(Queue())| - 1)
    {
      v := chain.last.val;
      LastFacts();
      DropLast(v);
      assert Covers(m, chain.spine);
    }

    method DropLast(v: int)
      requires Parts() && chain.last != null
      modifies this, chain, chain.spine, tbl, tbl.cells, tbl.nodes
      ensures Parts() && chain.spine == Without(old(chain.spine), |old(chain.spine)| - 1) && m == old(m) - {v}
    {
      var _ := Unindex(v);
      UnlinkLast();
    }

    /** Remove a value from anywhere in the queue. */
    method FindRemove(v: int) returns (found: bool)
      requires Valid()
      modifies this, chain, chain.spine, tbl, tbl.cells, tbl.nodes
      ensures Valid() && (found <==> v in old(Queue()))
      ensures Queue() == if found then Without(old(Queue()), Position(old(Queue()), v)) else old(Queue())
    {
      QueueIndexed(v);
      ghost var j := PositionOf(v);
      found := Drop(v, j);
      assert Covers(m, chain.spine);
    }

    method Drop(v: int, ghost j: nat) returns (found: bool)
      requires Parts() && (v in m ==> j < |chain.spine| && chain.spine[j] == m[v])
      modifies this, chain, chain.spine, tbl, tbl.cells, tbl.nodes
      ensures Parts() && (found <==> v in old(m)) && m == old(m) - {v}
      ensures chain.spine == if found then Without(old(chain.spine), j) else old(chain.spine)
    {
      var e := Unindex(v);
      found := e.Found?;
      if found {
        assert e.val == old(m)[v] && chain.spine[j] == e.val;
        UnlinkElem(e.val, j);
      }
    }

    lemma LastFacts()
      requires Valid() && chain.last != null
      ensures var j := |chain.spine| - 1;
              && chain.last.val == Queue()[j]
              && Covers(m - {chain.last.val}, Without(chain.spine, j))
              && Values(Without(chain.spine, j)) == Without(Queue(), j)
    {
      RemoveFacts(m, chain.spine, |chain.spine| - 1);
    }

    /** Where the element of a known value is, and what removing it will leave. */
    lemma PositionOf(v: int) returns (j: nat)
      requires Valid()
      ensures v in m ==> j < |chain.spine| && chain.spine[j] == m[v] && Position(Queue(), v) == j
      ensures v in m ==> Covers(m - {v}, Without(chain.spine, j)) && Values(Without(chain.spine, j)) == Without(Queue(), j)
      ensures v !in m ==> m - {v} == m
    {
      j := 0;
      if v in m {
        j :| j < |chain.spine| && chain.spine[j] == m[v];
        RemoveFacts(m, chain.spine, j);
      }
    }
  }

  lemma RemoveFacts(m: map<int, Elem>, spine: seq<Elem>, j: nat)
    requires Covers(m, spine) && Linked(spine) && j < |spine|
    ensures Covers(m - {spine[j].val}, Without(spine, j))
    ensures Values(Without(spine, j)) == Without(Values(spine), j)
    ensures Position(Values(spine), spine[j].val) == j
  {
    OnlyElem(spine, j);
    CoversRemove(m, spine, j);
    PositionIs(Values(spine), spine[j].val, j, spine, m);
  }

  /** The first position of a value in the queue, or its length. */
  function Position(q: seq<int>, v: int): (n: nat)
    ensures n <= |q| && (v in q ==> n < |q| && q[n] == v)
  {
    if q == [] || q[0] == v then 0 else 1 + Position(q[1..], v)
  }

  /** In an indexed list a value has one position. */
  lemma PositionIs(q: seq<int>, v: int, j: nat, spine: seq<Elem>, m: map<int, Elem>)
    requires Covers(m, spine) && q == Values(spine) && j < |spine| && spine[j].val == v
    requires forall i :: 0 <= i < |spine| && i != j ==> spine[i] != spine[j]
    ensures Position(q, v) == j
  {
    var n := Position(q, v);
    assert q[j] == v;
    assert spine[n].val == v;
  }
}
