/**
 se_hash as a value: a table of buckets, each a list whose head is the main cell and
 whose rest is the collision chain. With unique keys every operation is the
 corresponding operation of a finite map, and the buckets in order list the map once.
 */
module HashTable {

  datatype Entry<K, V> = Entry(key: K, val: V)

  type Bucket<K, V> = seq<Entry<K, V>>
  type Table<K, V> = seq<Bucket<K, V>>

  datatype Lookup<V> = Missing | Found(val: V)

  // ------------------------------------------------------------------ one bucket

  /** A new entry goes into the main cell, or right behind it. */
  function Inserted<K, V>(b: Bucket<K, V>, e: Entry<K, V>): Bucket<K, V> {
    if b == [] then [e] else [b[0], e] + b[1..]
  }

  /** Position of the first entry with this key, or the length. */
  function IndexOf<K(==), V>(b: Bucket<K, V>, key: K): (n: nat)
    ensures n <= |b|
    ensures n < |b| ==> b[n].key == key
    ensures forall i :: 0 <= i < n ==> b[i].key != key
  {
    if b == [] || b[0].key == key then 0 else 1 + IndexOf(b[1..], key)
  }

  function Lookedup<K(==), V>(b: Bucket<K, V>, key: K): Lookup<V> {
    var n := IndexOf(b, key);
    if n < |b| then Found(b[n].val) else Missing
  }

  function Removed<K(==), V>(b: Bucket<K, V>, key: K): Bucket<K, V> {
    var n := IndexOf(b, key);
    if n < |b| then b[..n] + b[n + 1..] else b
  }

  function Replaced<K(==), V>(b: Bucket<K, V>, key: K, val: V): Bucket<K, V> {
    var n := IndexOf(b, key);
    if n < |b| then b[n := Entry(b[n].key, val)] else b
  }

  predicate UniqueKeys<K(==), V>(b: Bucket<K, V>) {
    forall i, j :: 0 <= i < j < |b| ==> b[i].key != b[j].key
  }

  lemma LookupMember<K, V>(b: Bucket<K, V>, key: K)
    requires UniqueKeys(b)
    ensures forall v :: Lookedup(b, key) == Found(v) <==> Entry(key, v) in b
  {
    var n := IndexOf(b, key);
    forall v ensures Lookedup(b, key) == Found(v) <==> Entry(key, v) in b {
      if Entry(key, v) in b {
        var j :| 0 <= j < |b| && b[j] == Entry(key, v);
        assert b[j].key == key;
      }
    }
  }

  lemma InsertedMember<K, V>(b: Bucket<K, V>, e: Entry<K, V>)
    requires UniqueKeys(b) && forall x :: x in b ==> x.key != e.key
    ensures UniqueKeys(Inserted(b, e))
    ensures forall x :: x in Inserted(b, e) <==> x in b || x == e
  {
    if b != [] {
      assert b == [b[0]] + b[1..];
      assert forall i :: 1 < i < |b| + 1 ==> Inserted(b, e)[i] == b[i - 1];
    }
  }

  /** Cutting one entry out of a list of unique keys leaves exactly the entries with other keys. */
  lemma CutMember<K, V>(b: Bucket<K, V>, n: nat, r: Bucket<K, V>)
    requires UniqueKeys(b) && n < |b| && |r| == |b| - 1
    requires forall i :: 0 <= i < |r| ==> r[i] == b[if i < n then i else i + 1]
    ensures UniqueKeys(r)
    ensures forall x :: x in r <==> x in b && x.key != b[n].key
  {
    forall x | x in b && x.key != b[n].key ensures x in r {
      var j :| 0 <= j < |b| && b[j] == x;
      assert r[if j < n then j else j - 1] == x;
    }
  }

  lemma RemovedAt<K, V>(b: Bucket<K, V>, key: K)
    requires IndexOf(b, key) < |b|
    ensures var n, r := IndexOf(b, key), Removed(b, key);
      |r| == |b| - 1 && forall i :: 0 <= i < |r| ==> r[i] == b[if i < n then i else i + 1]
  {
    CutAt(b, IndexOf(b, key));
  }

  lemma CutAt<T>(b: seq<T>, n: nat)
    requires n < |b|
    ensures var r := b[..n] + b[n + 1..];
      |r| == |b| - 1 && forall i :: 0 <= i < |r| ==> r[i] == b[if i < n then i else i + 1]
  {
  }

  lemma RemovedMember<K, V>(b: Bucket<K, V>, key: K)
    requires UniqueKeys(b)
    ensures UniqueKeys(Removed(b, key))
    ensures forall x :: x in Removed(b, key) <==> x in b && x.key != key
  {
    var n := IndexOf(b, key);
    if n < |b| {
      RemovedAt(b, key);
      CutMember(b, n, Removed(b, key));
    } else {
      assert Removed(b, key) == b;
    }
  }

  lemma ReplacedMember<K, V>(b: Bucket<K, V>, key: K, val: V)
    requires UniqueKeys(b)
    ensures UniqueKeys(Replaced(b, key, val))
    ensures forall x :: x in Replaced(b, key, val) <==>
              (x in b && x.key != key) || (x == Entry(key, val) && exists y :: y in b && y.key == key)
  {
    var n := IndexOf(b, key);
    var b' := Replaced(b, key, val);
    if n < |b| {
      assert b'[n] == Entry(key, val) && b[n].key == key;
      assert forall i :: 0 <= i < |b| && i != n ==> b'[i] == b[i];
    }
  }

  // ------------------------------------------------------------------ the whole table

  /** Every entry is in the bucket its key hashes to, and no key occurs twice. */
  ghost predicate Proper<K(!new), V>(t: Table<K, V>, index: K -> nat) {
    && (forall i :: 0 <= i < |t| ==> UniqueKeys(t[i]))
    && (forall i, j :: 0 <= i < |t| && 0 <= j < |t[i]| ==> index(t[i][j].key) == i)
    && (forall key :: index(key) < |t|)
  }

  function Get<K, V>(m: map<K, V>, key: K): Lookup<V> {
    if key in m then Found(m[key]) else Missing
  }

  /** The table represents the map: a lookup in a key's own bucket answers for the whole map. */
  ghost predicate Represents<K(!new), V>(t: Table<K, V>, index: K -> nat, m: map<K, V>) {
    && Proper(t, index)
    && forall key :: Lookedup(t[index(key)], key) == Get(m, key)
  }

  lemma EmptyRefines<K(!new), V>(t: Table<K, V>, index: K -> nat)
    requires (forall i :: 0 <= i < |t| ==> t[i] == []) && forall key :: index(key) < |t|
    ensures Represents(t, index, map[])
  {
  }

  /** Exchanging one bucket for one whose lookups follow the new map. */
  lemma BucketRefines<K(!new), V>(t: Table<K, V>, index: K -> nat, m: map<K, V>, h: nat, b: Bucket<K, V>, m': map<K, V>)
    requires Represents(t, index, m) && h < |t| && UniqueKeys(b)
    requires forall j :: 0 <= j < |b| ==> index(b[j].key) == h
    requires forall key :: index(key) == h ==> Lookedup(b, key) == Get(m', key)
    requires forall key :: index(key) != h ==> Get(m', key) == Get(m, key)
    ensures Represents(t[h := b], index, m')
  {
  }

  lemma InsertRefines<K(!new), V>(t: Table<K, V>, index: K -> nat, m: map<K, V>, key: K, val: V)
    requires Represents(t, index, m) && key !in m
    ensures Represents(t[index(key) := Inserted(t[index(key)], Entry(key, val))], index, m[key := val])
  {
    var h := index(key);
    var b, e := t[h], Entry(key, val);
    LookupMember(b, key);
    forall x | x in b ensures x.key != key { assert x == Entry(x.key, x.val); }
    InsertedMember(b, e);
    forall k | index(k) == h ensures Lookedup(Inserted(b, e), k) == Get(m[key := val], k) {
      LookupMember(b, k);
      LookupMember(Inserted(b, e), k);
      assert Lookedup(b, k) == Get(m, k);
    }
    BucketRefines(t, index, m, h, Inserted(b, e), m[key := val]);
  }

  lemma RemoveRefines<K(!new), V>(t: Table<K, V>, index: K -> nat, m: map<K, V>, key: K)
    requires Represents(t, index, m)
    ensures Represents(t[index(key) := Removed(t[index(key)], key)], index, m - {key})
  {
    var h := index(key);
    var b := t[h];
    var b' := Removed(b, key);
    RemovedMember(b, key);
    forall k | index(k) == h ensures Lookedup(b', k) == Get(m - {key}, k) {
      LookupMember(b, k);
      LookupMember(b', k);
      assert Lookedup(b, k) == Get(m, k);
    }
    forall j | 0 <= j < |b'| ensures index(b'[j].key) == h { assert b'[j] in b; }
    BucketRefines(t, index, m, h, b', m - {key});
  }

  lemma ReplaceRefines<K(!new), V>(t: Table<K, V>, index: K -> nat, m: map<K, V>, key: K, val: V)
    requires Represents(t, index, m) && key in m
    ensures Represents(t[index(key) := Replaced(t[index(key)], key, val)], index, m[key := val])
  {
    var h := index(key);
    var b := t[h];
    var b' := Replaced(b, key, val);
    ReplacedMember(b, key, val);
    LookupMember(b, key);
    assert Lookedup(b, key) == Get(m, key);
    forall k | index(k) == h ensures Lookedup(b', k) == Get(m[key := val], k) {
      LookupMember(b, k);
      LookupMember(b', k);
      assert Lookedup(b, k) == Get(m, k);
    }
    BucketRefines(t, index, m, h, b', m[key := val]);
  }

  /** Removing or replacing an absent key changes nothing. */
  lemma AbsentKey<K(!new), V>(t: Table<K, V>, index: K -> nat, m: map<K, V>, key: K, val: V)
    requires Represents(t, index, m) && key !in m
    ensures Removed(t[index(key)], key) == t[index(key)] && Replaced(t[index(key)], key, val) == t[index(key)]
  {
    assert Lookedup(t[index(key)], key) == Get(m, key);
  }

  // ------------------------------------------------------------------ operation sequences

  datatype Op<K, V> = InsertOp(key: K, val: V) | RemoveOp(key: K) | ReplaceOp(key: K, val: V)

  function Applied<K(==), V>(t: Table<K, V>, index: K -> nat, op: Op<K, V>): Table<K, V>
    requires index(op.key) < |t|
  {
    var h := index(op.key);
    match op
    case InsertOp(key, val) => t[h := Inserted(t[h], Entry(key, val))]
    case RemoveOp(key) => t[h := Removed(t[h], key)]
    case ReplaceOp(key, val) => t[h := Replaced(t[h], key, val)]
  }

  function MapApplied<K, V>(m: map<K, V>, op: Op<K, V>): map<K, V> {
    match op
    case InsertOp(key, val) => m[key := val]
    case RemoveOp(key) => m - {key}
    case ReplaceOp(key, val) => if key in m then m[key := val] else m
  }

  /** The table and the map after a sequence of operations that never inserts a key twice. */
  ghost predicate Executes<K(!new), V>(t: Table<K, V>, m: map<K, V>, index: K -> nat, ops: seq<Op<K, V>>,
                                       t': Table<K, V>, m': map<K, V>)
    requires forall key :: index(key) < |t|
    decreases |ops|
  {
    if ops == [] then t' == t && m' == m
    else
      && (ops[0].InsertOp? ==> ops[0].key !in m)
      && Executes(Applied(t, index, ops[0]), MapApplied(m, ops[0]), index, ops[1..], t', m')
  }

  lemma OpRefines<K(!new), V>(t: Table<K, V>, m: map<K, V>, index: K -> nat, op: Op<K, V>)
    requires Represents(t, index, m) && (op.InsertOp? ==> op.key !in m)
    ensures Represents(Applied(t, index, op), index, MapApplied(m, op))
  {
    match op
    case InsertOp(key, val) => InsertRefines(t, index, m, key, val);
    case RemoveOp(key) => RemoveRefines(t, index, m, key);
    case ReplaceOp(key, val) =>
      if key in m {
        ReplaceRefines(t, index, m, key, val);
      } else {
        AbsentKey(t, index, m, key, val);
        assert t[index(key) := t[index(key)]] == t;
      }
  }

  /** After every such sequence, beginning with an empty table, a lookup answers as the map does. */
  lemma {:induction false} OpsRefine<K(!new), V>(t: Table<K, V>, m: map<K, V>, index: K -> nat, ops: seq<Op<K, V>>,
                                                 t': Table<K, V>, m': map<K, V>)
    requires Represents(t, index, m) && Executes(t, m, index, ops, t', m')
    ensures Represents(t', index, m')
    decreases |ops|
  {
    if ops != [] {
      OpRefines(t, m, index, ops[0]);
      OpsRefine(Applied(t, index, ops[0]), MapApplied(m, ops[0]), index, ops[1..], t', m');
    }
  }

  // ------------------------------------------------------------------ iteration

  /** All entries in bucket order: what the iterator walks over. */
  function Flat<K, V>(t: Table<K, V>): seq<Entry<K, V>> {
    if t == [] then [] else Flat(t[..|t| - 1]) + t[|t| - 1]
  }

  /** Rank of the first entry of bucket i in the iteration order. */
  function Start<K, V>(t: Table<K, V>, i: nat): nat
    requires i <= |t|
  {
    |Flat(t[..i])|
  }

  /** Entry j of bucket i is the entry of rank Start(i) + j. */
  lemma {:induction false} FlatAt<K, V>(t: Table<K, V>, i: nat, j: nat)
    requires i < |t| && j < |t[i]|
    ensures Start(t, i) + j < |Flat(t)| && Flat(t)[Start(t, i) + j] == t[i][j]
  {
    var n := |t| - 1;
    if i < n {
      FlatAt(t[..n], i, j);
      assert t[..n][..i] == t[..i];
    }
  }

  /** The next bucket starts where this one ends. */
  lemma StartNext<K, V>(t: Table<K, V>, i: nat)
    requires i < |t|
    ensures Start(t, i + 1) == Start(t, i) + |t[i]|
  {
    assert t[..i + 1][..i] == t[..i];
  }

  /** Empty buckets do not move the rank. */
  lemma {:induction false} StartSkips<K, V>(t: Table<K, V>, from: nat, to: nat)
    requires from <= to <= |t| && forall i :: from <= i < to ==> t[i] == []
    ensures Start(t, to) == Start(t, from)
  {
    if from < to {
      StartNext(t, to - 1);
      StartSkips(t, from, to - 1);
    }
  }

  /** Exchanging one bucket moves the total by the difference of the two. */
  lemma {:induction false} FlatLength<K, V>(t: Table<K, V>, h: nat, b: Bucket<K, V>)
    requires h < |t|
    ensures |Flat(t[h := b])| + |t[h]| == |Flat(t)| + |b|
  {
    var n := |t| - 1;
    if h < n {
      FlatLength(t[..n], h, b);
      assert t[h := b][..n] == t[..n][h := b];
    } else {
      assert t[h := b][..n] == t[..n];
    }
  }

  // How the number of entries follows each operation.

  lemma CountInserted<K, V>(t: Table<K, V>, h: nat, e: Entry<K, V>, t': Table<K, V>)
    requires h < |t| && t' == t[h := Inserted(t[h], e)]
    ensures |Flat(t')| == |Flat(t)| + 1
  {
    FlatLength(t, h, Inserted(t[h], e));
  }

  lemma CountRemoved<K, V>(t: Table<K, V>, h: nat, key: K, t': Table<K, V>)
    requires h < |t| && t' == t[h := Removed(t[h], key)]
    ensures |Flat(t')| == |Flat(t)| - (if Lookedup(t[h], key).Found? then 1 else 0)
  {
    FlatLength(t, h, Removed(t[h], key));
  }

  lemma CountReplaced<K, V>(t: Table<K, V>, h: nat, key: K, val: V, t': Table<K, V>)
    requires h < |t| && t' == t[h := Replaced(t[h], key, val)]
    ensures |Flat(t')| == |Flat(t)|
  {
    FlatLength(t, h, Replaced(t[h], key, val));
  }

  /** A table with no entries at all. */
  lemma {:induction false} FlatEmpty<K, V>(t: Table<K, V>)
    ensures Flat(t) == [] <==> forall i :: 0 <= i < |t| ==> t[i] == []
  {
    if t != [] {
      FlatEmpty(t[..|t| - 1]);
      assert t == t[..|t| - 1] + [t[|t| - 1]];
    }
  }

  lemma {:induction false} FlatMember<K, V>(t: Table<K, V>, e: Entry<K, V>)
    ensures e in Flat(t) <==> exists i :: 0 <= i < |t| && e in t[i]
  {
    if t != [] {
      FlatMember(t[..|t| - 1], e);
      assert t == t[..|t| - 1] + [t[|t| - 1]];
    }
  }

  lemma {:induction false} FlatUnique<K(!new), V>(t: Table<K, V>, index: K -> nat)
    requires forall i :: 0 <= i < |t| ==> UniqueKeys(t[i])
    requires forall i, j :: 0 <= i < |t| && 0 <= j < |t[i]| ==> index(t[i][j].key) == i
    ensures UniqueKeys(Flat(t))
  {
    if t != [] {
      var front, last := t[..|t| - 1], t[|t| - 1];
      FlatUnique(front, index);
      forall e | e in Flat(front) ensures index(e.key) < |t| - 1 { FlatMember(front, e); }
    }
  }

  /** Iteration lists every pair of the map, each exactly once, and nothing else. */
  lemma IterationRefines<K(!new), V>(t: Table<K, V>, index: K -> nat, m: map<K, V>)
    requires Represents(t, index, m)
    ensures UniqueKeys(Flat(t)) && |Flat(t)| == |m|
    ensures forall key, val :: Entry(key, val) in Flat(t) <==> key in m && m[key] == val
  {
    FlatUnique(t, index);
    forall key, val ensures Entry(key, val) in Flat(t) <==> key in m && m[key] == val {
      FlatMember(t, Entry(key, val));
      LookupMember(t[index(key)], key);
      assert Lookedup(t[index(key)], key) == Get(m, key);
      assert forall i :: 0 <= i < |t| && Entry(key, val) in t[i] ==> i == index(key);
    }
    UniqueCount(Flat(t), m);
  }

  lemma {:induction false} UniqueCount<K(!new), V>(b: Bucket<K, V>, m: map<K, V>)
    requires UniqueKeys(b)
    requires forall key, val :: Entry(key, val) in b <==> key in m && m[key] == val
    ensures |b| == |m|
  {
    if b == [] {
      assert forall key :: key in m ==> Entry(key, m[key]) in b;
    } else {
      var e, rest := b[0], b[1..];
      assert e in b && e == Entry(e.key, e.val);
      forall key, val ensures Entry(key, val) in rest <==> key in m - {e.key} && (m - {e.key})[key] == val {
        assert Entry(key, val) in b <==> Entry(key, val) == e || Entry(key, val) in rest;
        if Entry(key, val) in rest {
          var i :| 0 <= i < |rest| && rest[i] == Entry(key, val);
          assert b[i + 1].key != b[0].key;
        }
      }
      UniqueCount(rest, m - {e.key});
      assert m.Keys == (m - {e.key}).Keys + {e.key};
      assert |m.Keys| == |(m - {e.key}).Keys| + 1;
    }
  }
}
