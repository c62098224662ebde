/**
 se_hash in place: a table of main cells, each with a linked chain of collision
 cells. Every operation is proved to do to the linked structure what the operation
 of the same name in `HashTable` does to the table of lists.
 */
module SeHash {
  import opened HashTable

  class AddCell<K(==), V> {
    var key: K
    var val: V
    var next: AddCell?<K, V>
    /** The main cell whose chain this cell was made for. */
    ghost const owner: MainCell<K, V>

    constructor (key: K, val: V, next: AddCell?<K, V>, ghost owner: MainCell<K, V>)
      ensures this.key == key && this.val == val && this.next == next && this.owner == owner
    {
      this.key, this.val, this.next, this.owner := key, val, next, owner;
    }
  }

  /** Key and value of a main cell; those of a vacant cell are never looked at. */
  datatype Head<K, V> = Vacant | Present(key: K, val: V)

  /** The j-th cell of a chain, null past its end. */
  ghost function NodeAt<K, V>(chain: seq<AddCell<K, V>>, j: nat): AddCell?<K, V> {
    if j < |chain| then chain[j] else null
  }

  /** Each cell points to the following one, the last one nowhere. */
  ghost predicate Chained<K, V>(chain: seq<AddCell<K, V>>)
    reads chain
  {
    forall j {:trigger chain[j].next} :: 0 <= j < |chain| ==> chain[j].next == NodeAt(chain, j + 1)
  }

  /** The cells of a chain are distinct: equal cells would have equal successors to the end. */
  lemma {:induction false} ChainDistinct<K, V>(chain: seq<AddCell<K, V>>, i: nat, j: nat)
    requires Chained(chain) && i < j < |chain|
    ensures chain[i] != chain[j]
    decreases |chain| - j
  {
    assert chain[i].next == NodeAt(chain, i + 1) && chain[j].next == NodeAt(chain, j + 1);
    if j + 1 < |chain| { ChainDistinct(chain, i + 1, j + 1); }
  }

  lemma OnlyAt<K, V>(chain: seq<AddCell<K, V>>, j: nat)
    requires Chained(chain) && j < |chain|
    ensures forall i :: 0 <= i < |chain| && i != j ==> chain[i] != chain[j]
  {
    forall i | 0 <= i < |chain| && i != j ensures chain[i] != chain[j] {
      if i < j { ChainDistinct(chain, i, j); } else { ChainDistinct(chain, j, i); }
    }
  }

  class MainCell<K(==), V> {
    var head: Head<K, V>
    var next: AddCell?<K, V>
    /** The collision cells reached from `next`. */
    ghost var chain: seq<AddCell<K, V>>
    /** The bucket this cell stands for. */
    ghost var contents: Bucket<K, V>

    ghost predicate Valid()
      reads this, chain
    {
      && |contents| == (if head.Vacant? then 0 else 1 + |chain|)
      && (head.Vacant? ==> chain == [])
      && (head.Present? ==> contents[0] == Entry(head.key, head.val))
      && next == NodeAt(chain, 0)
      && Chained(chain)
      && (forall j :: 0 <= j < |chain| ==> chain[j].owner == this)
      && (forall j :: 0 <= j < |chain| ==> contents[j + 1] == Entry(chain[j].key, chain[j].val))
    }

    constructor ()
      ensures Valid() && contents == [] && chain == []
    {
      head, next, chain, contents := Vacant, null, [], [];
    }

    method Insert(key: K, val: V)
      requires Valid()
      modifies this
      ensures Valid() && contents == Inserted(old(contents), Entry(key, val))
      ensures forall n :: n in chain && n !in old(chain) ==> fresh(n)
    {
      if head.Present? {
        var c := new AddCell(key, val, next, this);
        next := c;
        chain := [c] + chain;
      } else {
        head := Present(key, val);
        next := null;
      }
      contents := Inserted(contents, Entry(key, val));
    }

    method Find(key: K) returns (r: Lookup<V>)
      requires Valid()
      ensures r == Lookedup(contents, key)
    {
      if head.Vacant? { return Missing; }
      if head.key == key { return Found(head.val); }
      var p := next;
      ghost var j := 0;
      while p != null
        invariant 0 <= j <= |chain| && p == NodeAt(chain, j)
        invariant forall i :: 0 <= i <= j ==> contents[i].key != key
        decreases |chain| - j
      {
        if p.key == key {
          FirstAt(contents, key, j + 1);
          return Found(p.val);
        }
        p := p.next;
        j := j + 1;
      }
      r := Missing;
    }

    method Replace(key: K, val: V) returns (r: Lookup<V>)
      requires Valid()
      modifies this, chain
      ensures Valid() && chain == old(chain)
      ensures r == Lookedup(old(contents), key)
      ensures contents == Replaced(old(contents), key, val)
    {
      if head.Vacant? { return Missing; }
      if head.key == key {
        r := Found(head.val);
        head := Present(head.key, val);
        contents := contents[0 := Entry(key, val)];
        return;
      }
      var p := next;
      ghost var j := 0;
      while p != null && p.key != key
        invariant 0 <= j <= |chain| && p == NodeAt(chain, j)
        invariant forall i :: 0 <= i <= j ==> contents[i].key != key
        decreases |chain| - j
        modifies {}
      {
        p := p.next;
        j := j + 1;
      }
      if p == null { return Missing; }
      FirstAt(contents, key, j + 1);
      r := Found(p.val);
      SetVal(p, j, val);
    }

    method SetVal(p: AddCell<K, V>, ghost j: nat, val: V)
      requires Valid() && j < |chain| && p == chain[j]
      modifies this`contents, p`val
      ensures Valid() && contents == old(contents)[j + 1 := Entry(old(contents)[j + 1].key, val)]
    {
      OnlyAt(chain, j);
      p.val := val;
      contents := contents[j + 1 := Entry(p.key, val)];
    }

    /** Remove the first entry with this key; a removed main cell is refilled from its chain. */
    method FindRemove(key: K) returns (r: Lookup<V>)
      requires Valid()
      modifies this, chain
      ensures Valid() && forall n :: n in chain ==> n in old(chain)
      ensures r == Lookedup(old(contents), key)
      ensures contents == Removed(old(contents), key)
    {
      if head.Vacant? { return Missing; }
      if head.key == key {
        r := Found(head.val);
        if next == null {
          head := Vacant;
          contents := [];
        } else {
          head := Present(next.key, next.val);
          DropFirst();
        }
        return;
      }
      if next == null { return Missing; }
      if next.key == key {
        FirstAt(contents, key, 1);
        r := Found(next.val);
        DropFirst();
        return;
      }
      r := RemoveInside(key);
    }

    /** Take the first collision cell out of the chain, whatever the main cell now holds. */
    method DropFirst()
      requires head.Present? && next != null && chain != [] && |contents| == 1 + |chain| && next == chain[0]
      requires Chained(chain) && forall j :: 0 <= j < |chain| ==> chain[j].owner == this
      requires forall j :: 0 <= j < |chain| ==> contents[j + 1] == Entry(chain[j].key, chain[j].val)
      modifies this`next, this`chain, this`contents
      ensures Valid() && chain == old(chain)[1..]
      ensures contents == [Entry(head.key, head.val)] + old(contents)[2..]
    {
      next := next.next;
      chain := chain[1..];
      contents := [Entry(head.key, head.val)] + contents[2..];
    }

    /** The search for a predecessor further down the chain. */
    method RemoveInside(key: K) returns (r: Lookup<V>)
      requires Valid() && head.Present? && head.key != key && next != null && next.key != key
      modifies this, chain
      ensures Valid() && forall n :: n in chain ==> n in old(chain)
      ensures r == Lookedup(old(contents), key)
      ensures contents == Removed(old(contents), key)
    {
      var pred := next;
      var cur := next.next;
      ghost var j := 1;
      while cur != null && cur.key != key
        invariant 1 <= j <= |chain| && pred == chain[j - 1] && cur == NodeAt(chain, j)
        invariant forall i :: 0 <= i <= j ==> contents[i].key != key
        decreases |chain| - j
        modifies {}
      {
        pred := pred.next;
        cur := cur.next;
        j := j + 1;
      }
      if cur == null { return Missing; }
      FirstAt(contents, key, j + 1);
      r := Found(cur.val);
      Unlink(pred, cur, j);
    }

    /** Take one cell out of the chain behind its predecessor. */
    method Unlink(pred: AddCell<K, V>, cur: AddCell<K, V>, ghost j: nat)
      requires Valid() && 1 <= j < |chain| && pred == chain[j - 1] && cur == chain[j]
      modifies this, pred
      ensures Valid() && chain == old(chain)[..j] + old(chain)[j + 1..]
      ensures contents == old(contents)[..j + 1] + old(contents)[j + 2..]
    {
      OnlyAt(chain, j - 1);
      pred.next := cur.next;
      ghost var cs, es := chain, contents;
      chain := cs[..j] + cs[j + 1..];
      contents := es[..j + 1] + es[j + 2..];
      forall i | 0 <= i < |chain|
        ensures chain[i].next == NodeAt(chain, i + 1) && contents[i + 1] == Entry(chain[i].key, chain[i].val)
      {
        if i < j {
          assert chain[i] == cs[i] && contents[i + 1] == es[i + 1];
        } else {
          assert chain[i] == cs[i + 1] && contents[i + 1] == es[i + 2];
        }
      }
    }

    /** Part of clear: drop the entry and the chain. */
    method Reset()
      modifies this
      ensures Valid() && chain == [] && contents == []
    {
      head, next, chain, contents := Vacant, null, [], [];
    }
  }

  lemma FirstAt<K, V>(b: Bucket<K, V>, key: K, n: nat)
    requires n < |b| && b[n].key == key && forall i :: 0 <= i < n ==> b[i].key != key
    ensures IndexOf(b, key) == n
  {
  }

  /** The hash table: `index` is the bucket a key selects, see `BucketIndex`. */
  class Hash<K(==, !new), V> {
    const index: K -> nat
    const cells: seq<MainCell<K, V>>
    var cellNum: nat
    ghost var nodes: set<AddCell<K, V>>

    ghost predicate Valid()
      reads this, cells, nodes
    {
      Structure() && cellNum == |Flat(View())|
    }

    /** Distinct valid cells; every chain cell is known and belongs to its own main cell. */
    ghost predicate Structure()
      reads this`nodes, cells, nodes
    {
      && (forall key :: index(key) < |cells|)
      && (forall i, j :: 0 <= i < j < |cells| ==> cells[i] != cells[j])
      && (forall i, n :: 0 <= i < |cells| && n in cells[i].chain ==> n in nodes)
      && (forall i :: 0 <= i < |cells| ==> cells[i].Valid())
    }

    /** The table of lists this structure stands for. */
    ghost function View(): (t: Table<K, V>)
      reads cells
      ensures |t| == |cells| && forall i :: 0 <= i < |t| ==> t[i] == cells[i].contents
    {
      seq(|cells|, i requires 0 <= i < |cells| reads cells => cells[i].contents)
    }

    method Insert(key: K, val: V)
      requires Valid()
      modifies this, cells
      ensures Valid() && old(nodes) <= nodes && fresh(nodes - old(nodes))
      ensures View() == old(View())[index(key) := Inserted(old(View())[index(key)], Entry(key, val))]
      ensures cellNum == old(cellNum) + 1
    {
      InsertCell(key, val);
      ghost var t := View();
      cellNum := cellNum + 1;
      assert View() == t && Structure();
    }

    method InsertCell(key: K, val: V)
      requires Structure()
      modifies this`nodes, cells
      ensures Structure() && old(nodes) <= nodes && fresh(nodes - old(nodes))
      ensures View() == old(View())[index(key) := Inserted(old(View())[index(key)], Entry(key, val))]
      ensures |Flat(View())| == |Flat(old(View()))| + 1
    {
      ghost var t := View();
      PutCell(key, val);
      CountInserted(t, index(key), Entry(key, val), View());
    }

    method PutCell(key: K, val: V)
      requires Structure()
      modifies this`nodes, cells
      ensures Structure() && old(nodes) <= nodes && fresh(nodes - old(nodes))
      ensures View() == old(View())[index(key) := Inserted(old(View())[index(key)], Entry(key, val))]
    {
      var h := index(key);
      cells[h].Insert(key, val);
      ghost var added := set n | n in cells[h].chain;
      forall i | 0 <= i < |cells| && i != h
        ensures cells[i].Valid() && cells[i].contents == old(cells[i].contents) && cells[i].chain == old(cells[i].chain) {}
      assert View() == old(View())[h := cells[h].contents];
      nodes := nodes + added;
    }

    method Find(key: K) returns (r: Lookup<V>)
      requires Valid()
      ensures r == Lookedup(View()[index(key)], key)
    {
      r := cells[index(key)].Find(key);
    }

    method FindRemove(key: K) returns (r: Lookup<V>)
      requires Valid()
      modifies this, cells, nodes
      ensures Valid() && nodes == old(nodes)
      ensures r == Lookedup(old(View())[index(key)], key)
      ensures View() == old(View())[index(key) := Removed(old(View())[index(key)], key)]
      ensures cellNum == if r.Found? then old(cellNum) - 1 else old(cellNum)
    {
      r := RemoveCell(key);
      ghost var t := View();
      assert cellNum == old(cellNum);
      cellNum := if r.Found? then cellNum - 1 else cellNum;
      assert View() == t && Structure();
    }

    method RemoveCell(key: K) returns (r: Lookup<V>)
      requires Structure()
      modifies cells, nodes
      ensures Structure()
      ensures r == Lookedup(old(View())[index(key)], key)
      ensures View() == old(View())[index(key) := Removed(old(View())[index(key)], key)]
      ensures |Flat(View())| == |Flat(old(View()))| - (if r.Found? then 1 else 0)
    {
      var h := index(key);
      r := cells[h].FindRemove(key);
      forall i | 0 <= i < |cells| && i != h
        ensures cells[i].Valid() && cells[i].contents == old(cells[i].contents) && cells[i].chain == old(cells[i].chain) {}
      assert View() == old(View())[h := cells[h].contents];
      CountRemoved(old(View()), h, key, View());
    }

    method Replace(key: K, val: V) returns (r: Lookup<V>)
      requires Valid()
      modifies cells, nodes
      ensures Valid()
      ensures r == Lookedup(old(View())[index(key)], key)
      ensures View() == old(View())[index(key) := Replaced(old(View())[index(key)], key, val)]
    {
      var h := index(key);
      r := cells[h].Replace(key, val);
      forall i | 0 <= i < |cells| && i != h
        ensures cells[i].Valid() && cells[i].contents == old(cells[i].contents) && cells[i].chain == old(cells[i].chain) {}
      assert View() == old(View())[h := cells[h].contents];
      CountReplaced(old(View()), h, key, val, View());
    }

    constructor (index: K -> nat, size: nat)
      requires forall key :: index(key) < size
      ensures Valid() && this.index == index && |cells| == size && cellNum == 0
      ensures nodes == {} && (forall i :: 0 <= i < size ==> fresh(cells[i]))
      ensures forall i :: 0 <= i < size ==> View()[i] == []
    {
      var cs: seq<MainCell<K, V>> := [];
      var i := 0;
      while i < size
        invariant 0 <= i <= size && |cs| == i
        invariant forall j :: 0 <= j < i ==> fresh(cs[j]) && cs[j].Valid() && cs[j].contents == [] && cs[j].chain == []
        invariant forall j, l :: 0 <= j < l < i ==> cs[j] != cs[l]
      {
        var c := new MainCell<K, V>();
        cs := cs + [c];
        i := i + 1;
      }
      this.index, this.cells, this.cellNum, this.nodes := index, cs, 0, {};
      new;
      FlatEmpty(View());
    }

    method Clear()
      requires Valid()
      modifies this, cells
      ensures Valid() && nodes == old(nodes) && cellNum == 0 && |Flat(View())| == 0
    {
      if cellNum != 0 {
        ResetAll();
        cellNum := 0;
      }
    }

    method ResetAll()
      requires Structure()
      modifies cells
      ensures Structure() && |Flat(View())| == 0
    {
      var i := 0;
      while i < |cells|
        invariant 0 <= i <= |cells| && Structure()
        invariant forall j :: 0 <= j < i ==> View()[j] == []
      {
        ResetCell(i);
        i := i + 1;
      }
      FlatEmpty(View());
    }

    method ResetCell(h: nat)
      requires Structure() && h < |cells|
      modifies cells
      ensures Structure() && View() == old(View())[h := []]
    {
      cells[h].Reset();
      forall i | 0 <= i < |cells| && i != h
        ensures cells[i].Valid() && cells[i].contents == old(cells[i].contents) && cells[i].chain == old(cells[i].chain) {}
      assert View() == old(View())[h := []];
    }

    // ---------------------------------------------------------------- iteration

    /** The iterator points at entry j of its bucket, or past the last bucket. */
    ghost predicate Points(it: Iter<K, V>, j: nat)
      reads this`nodes, cells, nodes
    {
      if it.pos == |cells| then it.p == null && j == 0
      else it.pos < |cells| && j < |cells[it.pos].contents| && |cells[it.pos].contents| == 1 + |cells[it.pos].chain| &&
           it.p == if j == 0 then null else cells[it.pos].chain[j - 1]
    }

    /** Its rank in the iteration order. */
    ghost function Rank(it: Iter<K, V>, j: nat): nat
      reads cells
      requires it.pos <= |cells|
    {
      Start(View(), it.pos) + j
    }

    /** Skip vacant cells, beginning at `from`. */
    method FirstPresent(from: nat) returns (it: Iter<K, V>)
      requires Valid() && from <= |cells|
      ensures Points(it, 0) && it.p == null && Rank(it, 0) == Start(View(), from)
    {
      var pos := from;
      while pos < |cells| && cells[pos].head.Vacant?
        invariant from <= pos <= |cells| && forall i :: from <= i < pos ==> cells[i].contents == []
      {
        assert cells[pos].Valid();
        pos := pos + 1;
      }
      StartSkips(View(), from, pos);
      it := Iter(pos, null);
    }

    method Begin() returns (it: Iter<K, V>)
      requires Valid()
      ensures Points(it, 0) && Rank(it, 0) == 0
    {
      it := FirstPresent(0);
    }

    method Next(it: Iter<K, V>, ghost j: nat) returns (r: Iter<K, V>, ghost j': nat)
      requires Valid() && Points(it, j) && it.pos < |cells|
      ensures Points(r, j') && Rank(r, j') == Rank(it, j) + 1
    {
      var p := if it.p == null then cells[it.pos].next else it.p.next;
      if p != null {
        r, j' := Iter(it.pos, p), j + 1;
      } else {
        StartNext(View(), it.pos);
        r := FirstPresent(it.pos + 1);
        j' := 0;
      }
    }

    function Get(it: Iter<K, V>): Entry<K, V>
      reads cells, it.p
      requires it.pos < |cells| && cells[it.pos].head.Present?
    {
      if it.p == null then Entry(cells[it.pos].head.key, cells[it.pos].head.val) else Entry(it.p.key, it.p.val)
    }

    /** The iterator reads the entry of its rank. */
    lemma GetAt(it: Iter<K, V>, j: nat)
      requires Valid() && Points(it, j) && it.pos < |cells|
      ensures cells[it.pos].head.Present?
      ensures Rank(it, j) < |Flat(View())| && Get(it) == Flat(View())[Rank(it, j)]
    {
      FlatAt(View(), it.pos, j);
      assert cells[it.pos].Valid();
    }

    /** Past the last bucket the whole table has been visited. */
    lemma EndRank(it: Iter<K, V>)
      requires it.pos == |cells|
      ensures Rank(it, 0) == |Flat(View())|
    {
      assert View()[..|cells|] == View();
    }

    /** Everything before the iterator has been listed, in order. */
    ghost predicate Visited(it: Iter<K, V>, j: nat, out: seq<Entry<K, V>>, flat: seq<Entry<K, V>>)
      reads this`nodes, cells, nodes
    {
      Points(it, j) && Rank(it, j) == |out| && out <= flat
    }

    method Visit(it: Iter<K, V>, ghost j: nat, out: seq<Entry<K, V>>)
      returns (it': Iter<K, V>, ghost j': nat, out': seq<Entry<K, V>>)
      requires Valid() && Visited(it, j, out, Flat(View())) && it.pos < |cells|
      ensures Valid() && View() == old(View()) && Visited(it', j', out', Flat(View())) && |out'| == |out| + 1
    {
      GetAt(it, j);
      out' := out + [Get(it)];
      it', j' := Next(it, j);
    }

    /** The usual loop from begin to end visits Flat(View()), entry by entry. */
    method Walk() returns (out: seq<Entry<K, V>>)
      requires Valid()
      ensures out == Flat(View())
    {
      out := [];
      var it := Begin();
      ghost var j, flat := 0, Flat(View());
      while it.pos < |cells|
        invariant Valid() && Flat(View()) == flat && Visited(it, j, out, flat)
        decreases |flat| - |out|
      {
        it, j, out := Visit(it, j, out);
      }
      EndRank(it);
    }
  }

  /** An iterator: the bucket and the collision cell, null for the main cell. */
  datatype Iter<K, V> = Iter(pos: nat, p: AddCell?<K, V>)
}
