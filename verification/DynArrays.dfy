// The growable array macros (dynarray.h).

module DynArrays {
  import opened Arithmetic

  // ---------- the size classes ----------

  function Pow2(e: nat): nat {
    if e == 0 then 1 else 2 * Pow2(e - 1)
  }

  // log2_i, undefined for 0
  function Log2(n: nat): nat
    requires n > 0
  {
    if n == 1 then 0 else 1 + Log2(n / 2)
  }

  // n | 0xF
  function OrFifteen(n: nat): nat {
    n / 16 * 16 + 15
  }

  const PAGE := 0x10000

  // The low 16 bits of the power of two above the size
  function LowPart(size: nat): nat
    requires size > 0
  {
    Pow2(Log2(OrFifteen(size - 1)) + 1) % PAGE
  }

  // The number of 64 KiB pages that hold the size
  function Pages(size: nat): nat {
    (size + PAGE - 1) / PAGE
  }

  // __ARRAY_ALLOC_SIZE of a size that is not 0: the two parts have no bit in common.
  function SizeClass(size: nat): nat
    requires size > 0
  {
    LowPart(size) + Pages(size) * PAGE
  }

  lemma PagesAreEnough(size: nat)
    ensures size <= Pages(size) * PAGE < size + PAGE
  {
  }

  lemma ClassIsEnough(size: nat)
    requires size > 0
    ensures SizeClass(size) >= size && SizeClass(size) >= PAGE
  {
    PagesAreEnough(size);
  }

  lemma {:induction false} Log2Bounds(n: nat)
    requires n > 0
    ensures Pow2(Log2(n)) <= n < Pow2(Log2(n) + 1)
  {
    if n > 1 {
      Log2Bounds(n / 2);
    }
  }

  lemma {:induction false} Pow2Monotone(a: nat, b: nat)
    requires a <= b
    ensures Pow2(a) <= Pow2(b)
    decreases b
  {
    if a < b {
      Pow2Monotone(a, b - 1);
    }
  }

  lemma Pow2Plus5(e: nat)
    ensures Pow2(e + 5) == 32 * Pow2(e)
  {
    assert Pow2(e + 2) == 4 * Pow2(e);
    assert Pow2(e + 4) == 4 * Pow2(e + 2);
  }

  lemma Pow2OfPage()
    ensures Pow2(15) == 0x8000 && Pow2(16) == PAGE
  {
    Pow2Plus5(0);
    Pow2Plus5(5);
    Pow2Plus5(10);
  }

  lemma {:induction false} PageDivides(e: nat)
    ensures e >= 16 ==> Pow2(e) % PAGE == 0
    ensures e < 16 ==> 0 < Pow2(e) < PAGE
  {
    Pow2OfPage();
    if e > 16 {
      PageDivides(e - 1);
    } else if e < 16 {
      Pow2Monotone(e, 15);
      Pow2Monotone(0, e);
    }
  }

  lemma Log2At15(n: nat)
    requires n > 0
    ensures n < 0x8000 <==> Log2(n) + 1 < 16
  {
    Log2Bounds(n);
    Pow2OfPage();
    if Log2(n) + 1 < 16 {
      Pow2Monotone(Log2(n) + 1, 15);
    } else {
      Pow2Monotone(15, Log2(n));
    }
  }

  // Up to 32 KiB the low part is the next power of two; above, the mask removes it.
  lemma LowPartShape(size: nat)
    requires size > 0
    ensures size <= 0x8000 ==> LowPart(size) == Pow2(Log2(OrFifteen(size - 1)) + 1) > 0
    ensures size > 0x8000 ==> LowPart(size) == 0
  {
    var n := OrFifteen(size - 1);
    assert n < 0x8000 <==> size <= 0x8000;
    Log2At15(n);
    PageDivides(Log2(n) + 1);
  }

  // The low part is the least power of two that is at least the size and at least 16.
  lemma LowPartIsLeast(size: nat, e: nat)
    requires 0 < size <= 0x8000
    ensures LowPart(size) >= size && LowPart(size) >= 16
    ensures exists k: nat :: LowPart(size) == Pow2(k)
    ensures Pow2(e) >= size && Pow2(e) >= 16 ==> LowPart(size) <= Pow2(e)
  {
    var n := OrFifteen(size - 1);
    LowPartShape(size);
    Log2Bounds(n);
    Pow2Plus5(0);
    assert Pow2(4) == 16;
    if Pow2(e) >= size && Pow2(e) >= 16 {
      OrFifteenBelow(size - 1, e);
      Pow2InOrder(e, Log2(n));
      Pow2InOrder(Log2(n) + 1, e);
    }
  }

  // Setting the low four bits does not reach a power of two above.
  lemma OrFifteenBelow(m: nat, e: nat)
    requires m < Pow2(e) && Pow2(e) >= 16
    ensures m <= OrFifteen(m) < Pow2(e)
  {
    Pow2InOrder(e, 3);
    assert Pow2(3) == 8;
    SixteenDivides(e);
  }

  lemma Pow2InOrder(d: nat, e: nat)
    ensures d <= e ==> Pow2(d) <= Pow2(e)
  {
    if d <= e {
      Pow2Monotone(d, e);
    }
  }

  lemma {:induction false} SixteenDivides(e: nat)
    ensures e >= 4 ==> Pow2(e) == 16 * Pow2(e - 4)
  {
    if e > 4 {
      SixteenDivides(e - 1);
    } else if e == 4 {
      assert Pow2(4) == 2 * Pow2(3) && Pow2(3) == 8;
    }
  }

  // Only sizes up to 32 KiB get more than whole pages.
  lemma ClassShape(size: nat)
    requires size > 0
    ensures size > 0x8000 <==> SizeClass(size) == Pages(size) * PAGE
  {
    LowPartShape(size);
  }

  // A larger array may belong to a smaller class: the order of two classes in the first page
  // is turned around exactly when the larger size is the first to pass 32 KiB.
  lemma ClassesAreNotMonotone(a: nat, b: nat)
    requires 0 < a < b <= PAGE
    ensures SizeClass(a) > SizeClass(b) <==> a <= 0x8000 < b
  {
    LowPartShape(a);
    LowPartShape(b);
    assert Pages(a) == 1 && Pages(b) == 1;
    if b <= 0x8000 {
      LowPartMonotone(a, b);
    }
  }

  lemma LowPartMonotone(a: nat, b: nat)
    requires 0 < a <= b <= 0x8000
    ensures LowPart(a) <= LowPart(b)
  {
    hide LowPart, Log2, Pow2;
    LowPartShape(a);
    LowPartShape(b);
    Log2Monotone(OrFifteen(a - 1), OrFifteen(b - 1));
    Pow2Monotone(Log2(OrFifteen(a - 1)) + 1, Log2(OrFifteen(b - 1)) + 1);
  }

  lemma PagesMonotone(a: nat, b: nat)
    requires a <= b
    ensures Pages(a) <= Pages(b)
  {
  }

  // The two parts of a class can be told apart.
  lemma ClassParts(a: nat, b: nat)
    requires 0 < a && 0 < b
    ensures SizeClass(a) == SizeClass(b) <==> LowPart(a) == LowPart(b) && Pages(a) == Pages(b)
  {
  }

  // Classes are not monotone, but each is given to an unbroken range of sizes.
  lemma SameClassBetween(a: nat, c: nat, b: nat)
    requires 0 < a <= c <= b && SizeClass(a) == SizeClass(b)
    ensures SizeClass(c) == SizeClass(a)
  {
    ClassParts(a, b);
    PagesMonotone(a, c);
    PagesMonotone(c, b);
    LowPartShape(a);
    LowPartShape(c);
    LowPartShape(b);
    if b <= 0x8000 {
      LowPartMonotone(a, c);
      LowPartMonotone(c, b);
    }
  }

  lemma {:induction false} Log2Monotone(m: nat, n: nat)
    requires 0 < m <= n
    ensures Log2(m) <= Log2(n)
  {
    if m > 1 {
      Log2Monotone(m / 2, n / 2);
    }
  }

  // ---------- the array ----------

  class DynArray<T(0)> {
    const itemSize: nat
    // the value that the size class expression happens to have for 0
    const classOfZero: nat
    var data: array<T>      // as many items as the block has room for
    var blockSize: nat      // size of the block in bytes
    var nItem: nat

    function Class(size: nat): nat {
      if size == 0 then classOfZero else SizeClass(size)
    }

    // The block has the size class of some item count not below the current one.
    ghost predicate Valid()
      reads this
    {
      && itemSize > 0 && classOfZero < PAGE
      && data.Length == blockSize / itemSize
      && nItem <= data.Length
      && (nItem > 0 ==> BlockFor(nItem))
      && (nItem == 0 ==> blockSize == 0 || BlockFor(1))
    }

    // The block has the class of at least so many items.
    ghost predicate BlockFor(items: nat)
      reads this
    {
      exists count: nat :: items <= count && blockSize == Class(count * itemSize)
    }

    ghost function Contents(): seq<T>
      requires nItem <= data.Length
      reads this, data
    {
      data[..nItem]
    }

    // ARRAY_INIT; the items of a non-empty initial array are not set.
    constructor (itemSize: nat, classOfZero: nat, initial: nat)
      requires itemSize > 0 && classOfZero < PAGE
      ensures Valid() && fresh(data) && nItem == initial
      ensures this.itemSize == itemSize && this.classOfZero == classOfZero
    {
      this.itemSize, this.classOfZero := itemSize, classOfZero;
      data := new T[0];
      blockSize, nItem := 0, 0;
      new;
      Resize(initial);
      nItem := initial;
    }

    // ARRAY_RESIZE compares the classes of two counts, not the actual size of the block.
    method Resize(minItems: nat)
      requires Valid() && nItem <= minItems
      modifies this
      ensures Valid() && nItem == old(nItem) && Contents() == old(Contents())
      ensures minItems <= data.Length
      ensures minItems == old(nItem) ==> unchanged(this)
      ensures minItems > 0 ==> BlockFor(minItems)
      ensures data == old(data) || fresh(data)
    {
      hide SizeClass;
      var curAlloc := Class(nItem * itemSize);
      var newAlloc := Class(minItems * itemSize);
      ClassHolds(minItems);
      ClassHolds(nItem);
      if newAlloc != curAlloc {
        Reallocate(newAlloc, minItems);
      } else if nItem > 0 {
        ghost var count: nat :| nItem <= count && blockSize == Class(count * itemSize);
        ghost var larger := StillFits(nItem, count, minItems);
        ClassHolds(larger);
      }
    }

    // When two counts have the same class, a block given for a count that is not below the
    // smaller one also has the class of a count that is not below the larger one.
    lemma StillFits(fewer: nat, count: nat, more: nat) returns (larger: nat)
      requires itemSize > 0 && 0 < fewer <= more && fewer <= count
      requires Class(fewer * itemSize) == Class(more * itemSize)
      ensures larger >= more && larger >= count && Class(larger * itemSize) == Class(count * itemSize)
    {
      larger := if count < more then more else count;
      if count < more {
        Scaled(1, fewer, itemSize);
        Scaled(fewer, count, itemSize);
        Scaled(count, more, itemSize);
        SameClassBetween(fewer * itemSize, count * itemSize, more * itemSize);
      }
    }

    // realloc keeps what fits in the old and in the new block
    method Reallocate(newSize: nat, minItems: nat)
      requires Valid() && nItem <= minItems && 0 < minItems <= newSize / itemSize && newSize == Class(minItems * itemSize)
      modifies this`data, this`blockSize
      ensures Valid() && Contents() == old(Contents()) && fresh(data) && blockSize == newSize
    {
      var block := new T[newSize / itemSize];
      for i := 0 to nItem
        invariant unchanged(this) && data[..] == old(data[..])
        invariant block[..i] == data[..i]
      {
        block[i] := data[i];
      }
      data, blockSize := block, newSize;
    }

    method Push(item: T)
      requires Valid()
      modifies this, data
      ensures Valid() && (data == old(data) || fresh(data))
      ensures Contents() == old(Contents()) + [item]
    {
      Resize(nItem + 1);
      data[nItem] := item;
      nItem := nItem + 1;
    }

    // ARRAY_POP never gives memory back.
    method Pop() returns (item: T)
      requires Valid() && nItem > 0
      modifies this
      ensures Valid() && data == old(data) && blockSize == old(blockSize)
      ensures old(Contents()) == Contents() + [item]
    {
      Resize(nItem);
      nItem := nItem - 1;
      item := data[nItem];
    }

    lemma ClassHolds(count: nat)
      requires itemSize > 0 && classOfZero < PAGE
      ensures count > 0 ==> Class(count * itemSize) >= PAGE && Class(count * itemSize) / itemSize >= count
      ensures count == 0 ==> Class(count * itemSize) < PAGE
    {
      if count > 0 {
        assert count * itemSize > 0;
        ClassIsEnough(count * itemSize);
        AtLeast(Class(count * itemSize), itemSize, count);
      }
    }
  }
}
