/**
 Pointers into the layered address space: a layer number and an offset below the layer
 size. Arithmetic carries between layers; the machine widths (32-bit signed layer,
 32-bit unsigned offset) are explicit.
 */
module Xptr {
  import opened Sp

  type UInt32 = x: int | 0 <= x < 0x1_0000_0000

  datatype Ptr = Ptr(layer: Int32, offs: UInt32)

  /** A layer number as the machine keeps it. */
  function Wrap(x: int): (r: Int32)
    ensures -0x8000_0000 <= x < 0x8000_0000 ==> r == x
  {
    (x + 0x8000_0000) % 0x1_0000_0000 - 0x8000_0000
  }

  predicate Within(p: Ptr, size: UInt32) {
    p.offs < size
  }

  /** The address in one long space. */
  function Linear(p: Ptr, size: UInt32): int {
    p.layer * size + p.offs
  }

  /** No pointer of this space has that address in its layer range. */
  predicate Overflows(address: int, size: UInt32)
    requires size > 0
  {
    !(-0x8000_0000 * size <= address < 0x8000_0000 * size)
  }

  function Inc(p: Ptr, n: UInt32, size: UInt32): (r: Ptr)
    requires Within(p, size)
    ensures Within(r, size)
  {
    var layer, n := Wrap(p.layer + Wrap(n / size)), n % size;
    if size - p.offs > n then Ptr(layer, p.offs + n)
    else Ptr(Wrap(layer + 1), n - (size - p.offs))
  }

  function Dec(p: Ptr, n: UInt32, size: UInt32): (r: Ptr)
    requires Within(p, size)
    ensures Within(r, size)
  {
    var layer, n := Wrap(p.layer - Wrap(n / size)), n % size;
    if p.offs >= n then Ptr(layer, p.offs - n)
    else Ptr(Wrap(layer - 1), size - (n - p.offs))
  }

  lemma MulLess(a: int, b: int, size: int)
    requires a < b && size > 0
    ensures a * size + size <= b * size
  {
    assert (b - a - 1) * size >= 0;
  }

  /** Pointers are ordered as their addresses are. */
  lemma LinearOrder(p: Ptr, q: Ptr, size: UInt32)
    requires Within(p, size) && Within(q, size)
    ensures Linear(p, size) < Linear(q, size) <==> Less(p, q)
    ensures Linear(p, size) == Linear(q, size) <==> p == q
  {
    if p.layer < q.layer {
      MulLess(p.layer, q.layer, size);
    } else if q.layer < p.layer {
      MulLess(q.layer, p.layer, size);
    }
  }

  lemma WrapAdd(x: int, y: int)
    ensures Wrap(Wrap(x) + y) == Wrap(x + y) && Wrap(y + Wrap(x)) == Wrap(y + x)
  {
  }

  /** The address is in range exactly if its layer number is. */
  lemma LayerOf(x: int, offs: int, size: UInt32)
    requires 0 <= offs < size
    ensures Overflows(x * size + offs, size) <==> !(-0x8000_0000 <= x < 0x8000_0000)
  {
    if x >= 0x8000_0000 {
      assert (x - 0x8000_0000) * size >= 0;
    } else {
      MulLess(x, 0x8000_0000, size);
    }
    if x < -0x8000_0000 {
      MulLess(x, -0x8000_0000, size);
    } else {
      assert (x + 0x8000_0000) * size >= 0;
    }
  }

  /** A pointer put together from a layer number of any size: its address is right exactly
      if that layer exists. */
  lemma Wrapped(x: int, offs: UInt32, size: UInt32)
    requires offs < size
    ensures Linear(Ptr(Wrap(x), offs), size) == x * size + offs <==> !Overflows(x * size + offs, size)
  {
    LayerOf(x, offs, size);
    if Wrap(x) != x {
      if Wrap(x) < x {
        MulLess(Wrap(x), x, size);
      } else {
        MulLess(x, Wrap(x), size);
      }
    }
  }

  /** inc_offset moves the address by exactly n, unless the layer number overflows. */
  lemma IncLinear(p: Ptr, n: UInt32, size: UInt32)
    requires Within(p, size)
    ensures Linear(Inc(p, n, size), size) == Linear(p, size) + n <==> !Overflows(Linear(p, size) + n, size)
  {
    var q, m := n / size, n % size;
    assert n == q * size + m;
    assert (p.layer + q) * size == p.layer * size + q * size;
    WrapAdd(q, p.layer);
    if size - p.offs > m {
      Wrapped(p.layer + q, p.offs + m, size);
    } else {
      WrapAdd(p.layer + q, 1);
      assert (p.layer + q + 1) * size == p.layer * size + q * size + size;
      Wrapped(p.layer + q + 1, p.offs + m - size, size);
    }
  }

  lemma DecLinear(p: Ptr, n: UInt32, size: UInt32)
    requires Within(p, size)
    ensures Linear(Dec(p, n, size), size) == Linear(p, size) - n <==> !Overflows(Linear(p, size) - n, size)
  {
    var q, m := n / size, n % size;
    assert n == q * size + m;
    assert (p.layer - q) * size == p.layer * size - q * size;
    WrapSub(p.layer, q);
    if p.offs >= m {
      Wrapped(p.layer - q, p.offs - m, size);
    } else {
      WrapAdd(p.layer - q, -1);
      assert (p.layer - q - 1) * size == p.layer * size - q * size - size;
      Wrapped(p.layer - q - 1, p.offs - m + size, size);
    }
  }

  lemma WrapSub(x: int, y: int)
    ensures Wrap(x - Wrap(y)) == Wrap(x - y)
  {
  }

  lemma InSpace(p: Ptr, size: UInt32)
    requires Within(p, size)
    ensures !Overflows(Linear(p, size), size)
  {
    LayerOf(p.layer, p.offs, size);
  }

  /** Moving forward and back again changes nothing. */
  lemma Undo(p: Ptr, n: UInt32, size: UInt32)
    requires Within(p, size)
    ensures !Overflows(Linear(p, size) + n, size) ==> Dec(Inc(p, n, size), n, size) == p
    ensures !Overflows(Linear(p, size) - n, size) ==> Inc(Dec(p, n, size), n, size) == p
  {
    InSpace(p, size);
    IncLinear(p, n, size);
    DecLinear(p, n, size);
    DecLinear(Inc(p, n, size), n, size);
    IncLinear(Dec(p, n, size), n, size);
    LinearOrder(Dec(Inc(p, n, size), n, size), p, size);
    LinearOrder(Inc(Dec(p, n, size), n, size), p, size);
  }

  /** Two moves are one. */
  lemma Compose(p: Ptr, m: UInt32, n: UInt32, size: UInt32)
    requires Within(p, size) && m + n < 0x1_0000_0000
    ensures !Overflows(Linear(p, size) + m + n, size) ==> Inc(Inc(p, m, size), n, size) == Inc(p, m + n, size)
    ensures !Overflows(Linear(p, size) - m - n, size) ==> Dec(Dec(p, m, size), n, size) == Dec(p, m + n, size)
  {
    InSpace(p, size);
    IncLinear(p, m, size);
    IncLinear(Inc(p, m, size), n, size);
    IncLinear(p, m + n, size);
    LinearOrder(Inc(Inc(p, m, size), n, size), Inc(p, m + n, size), size);
    DecLinear(p, m, size);
    DecLinear(Dec(p, m, size), n, size);
    DecLinear(p, m + n, size);
    LinearOrder(Dec(Dec(p, m, size), n, size), Dec(p, m + n, size), size);
  }

  // Comparisons

  predicate Less(p: Ptr, q: Ptr) {
    if p.layer != q.layer then p.layer < q.layer else p.offs < q.offs
  }

  /** Equality takes all pointers of layer 0 for null. */
  predicate Equal(p: Ptr, q: Ptr) {
    p.layer == q.layer && (p.layer == 0 || p.offs == q.offs)
  }

  /** xptr_compare */
  function Compare(p: Ptr, q: Ptr): int {
    if p.layer == 0 && q.layer == 0 then 0
    else if p.layer == 0 then 1
    else if q.layer == 0 then -1
    else if p.layer != q.layer then (if p.layer < q.layer then -1 else 1)
    else if p.offs < q.offs then -1
    else if p.offs == q.offs then 0
    else 1
  }

  /** The comparison is a total order modulo equality: antisymmetric, transitive, zero
      exactly on equal pointers. Null comes last. */
  lemma CompareOrder(p: Ptr, q: Ptr, r: Ptr)
    ensures Compare(p, q) == 0 <==> Equal(p, q)
    ensures Compare(p, q) == -Compare(q, p)
    ensures Compare(p, q) <= 0 && Compare(q, r) <= 0 ==> Compare(p, r) <= 0
    ensures Equal(p, q) ==> Compare(p, r) == Compare(q, r)
    ensures q.layer == 0 ==> Compare(p, q) <= 0
  {
  }

  /** It agrees with < and with the addresses on all pointers but null. */
  lemma CompareLinear(p: Ptr, q: Ptr, size: UInt32)
    requires Within(p, size) && Within(q, size) && p.layer != 0 && q.layer != 0
    ensures Compare(p, q) < 0 <==> Linear(p, size) < Linear(q, size)
    ensures Compare(p, q) < 0 <==> Less(p, q)
  {
    LinearOrder(p, q, size);
  }

  /** The pointer as the object whose fields the operations update. */
  class Pointer {
    var layer: Int32
    var offs: UInt32

    function View(): Ptr
      reads this
    {
      Ptr(layer, offs)
    }

    constructor (l: Int32, a: UInt32)
      ensures View() == Ptr(l, a)
    {
      layer, offs := l, a;
    }

    method IncOffset(n: UInt32, size: UInt32)
      requires Within(View(), size)
      modifies this
      ensures Within(View(), size) && View() == Inc(old(View()), n, size)
      ensures !Overflows(Linear(old(View()), size) + n, size) ==> Linear(View(), size) == Linear(old(View()), size) + n
    {
      IncLinear(View(), n, size);
      layer := Wrap(layer + Wrap(n / size));
      var m := n % size;
      if size - offs > m {
        offs := offs + m;
      } else {
        layer := Wrap(layer + 1);
        offs := m - (size - offs);
      }
    }

    method DecOffset(n: UInt32, size: UInt32)
      requires Within(View(), size)
      modifies this
      ensures Within(View(), size) && View() == Dec(old(View()), n, size)
      ensures !Overflows(Linear(old(View()), size) - n, size) ==> Linear(View(), size) == Linear(old(View()), size) - n
    {
      DecLinear(View(), n, size);
      layer := Wrap(layer - Wrap(n / size));
      var m := n % size;
      if offs >= m {
        offs := offs - m;
      } else {
        layer := Wrap(layer - 1);
        offs := size - (m - offs);
      }
    }

    /** operator+= : either direction; the least integer has no negative. */
    method Add(n: Int32, size: UInt32)
      requires Within(View(), size) && n != -0x8000_0000
      modifies this
      ensures Within(View(), size)
      ensures !Overflows(Linear(old(View()), size) + n, size) ==> Linear(View(), size) == Linear(old(View()), size) + n
    {
      if n >= 0 {
        IncOffset(n, size);
      } else {
        DecOffset(-n, size);
      }
    }
  }
}
