/** Where LFVector keeps index i: in slot floor(log2(i + 1)), at offset
    (i + 1) xor 2^slot. */
module LFVectorIndex {
  import opened Bits
  import opened Common

  ghost function Slot(i: nat): nat {
    LastBit(i + 1)
  }

  ghost function Offset(i: nat): (o: nat)
    ensures o < Pow2(Slot(i))
    ensures i + 1 == Pow2(Slot(i)) + o
  {
    XorLastBit(i + 1, Slot(i));
    Xor(i + 1, Pow2(Slot(i)))
  }

  /** The index that a place in a slot holds. */
  function IndexOf(slot: nat, offset: nat): nat {
    Pow2(slot) + offset - 1
  }

  /** Addressing is a bijection between the indices and the places in slots of
      size 2^slot. */
  lemma AddressingIsBijective(i: nat, slot: nat, offset: nat)
    requires offset < Pow2(slot)
    ensures IndexOf(Slot(i), Offset(i)) == i
    ensures Slot(IndexOf(slot, offset)) == slot && Offset(IndexOf(slot, offset)) == offset
  {
    LastBitUnique(IndexOf(slot, offset) + 1, slot);
  }

  lemma AddressesDiffer(i: nat, j: nat)
    requires i != j
    ensures Slot(i) != Slot(j) || Offset(i) != Offset(j)
  {
    assert i + 1 == Pow2(Slot(i)) + Offset(i) && j + 1 == Pow2(Slot(j)) + Offset(j);
  }

  /** Index i fits below slot n just when i + 1 < 2^n. */
  lemma SlotBelow(i: nat, n: nat)
    ensures Slot(i) < n <==> i + 1 < Pow2(n)
  {
    if Slot(i) < n {
      Pow2Grows(Slot(i), n);
    } else if n < Slot(i) {
      Pow2Grows(n, Slot(i));
    }
  }

  /** How many elements the allocated slots can hold. */
  function Capacity(inUse: seq<bool>): nat {
    if inUse == [] then 0
    else
      var n := |inUse| - 1;
      Capacity(inUse[..n]) + if inUse[n] then Pow2(n) else 0
  }

  lemma {:induction false} CapacityBelow(inUse: seq<bool>, top: nat)
    requires forall k :: 0 <= k < |inUse| && inUse[k] ==> k < top
    ensures Capacity(inUse) < Pow2(|inUse|) && Capacity(inUse) < Pow2(top)
  {
    if inUse != [] {
      var n := |inUse| - 1;
      CapacityBelow(inUse[..n], top);
      if inUse[n] {
        if n + 1 < top {
          Pow2Grows(n + 1, top);
        }
      }
    }
  }

  lemma SlotMonotone(i: nat, j: nat)
    requires i <= j
    ensures Slot(i) <= Slot(j)
  {
    SlotBelow(i, Slot(j) + 1);
    SlotBelow(j, Slot(j) + 1);
  }

  lemma SlotStep(i: nat)
    ensures Slot(i) <= Slot(i + 1) <= Slot(i) + 1
  {
    SlotMonotone(i, i + 1);
    SlotBelow(i, Slot(i) + 1);
    SlotBelow(i + 1, Slot(i) + 2);
  }

  /** The slot array: null or an array of elements each. */
  type Slots<T> = seq<Option<seq<T>>>

  /** Slot k is null or has 2^k places. */
  ghost predicate Slotted<T>(slots: Slots<T>) {
    forall k :: 0 <= k < |slots| && slots[k].Some? ==> |slots[k].value| == Pow2(k)
  }

  /** Index `i` has an allocated place that holds `x`. */
  ghost predicate Holds<T>(slots: Slots<T>, i: nat, x: T) {
    var k := Slot(i);
    k < |slots| && slots[k].Some? && Offset(i) < |slots[k].value| && slots[k].value[Offset(i)] == x
  }

  /** The slots hold the sequence `c`, every index of it in an allocated slot. */
  ghost predicate Cells<T>(slots: Slots<T>, c: seq<T>) {
    Slotted(slots) && forall i :: 0 <= i < |c| ==> Holds(slots, i, c[i])
  }

  /** slots[slot][index] = x */
  function Write<T>(slots: Slots<T>, slot: nat, index: nat, x: T): Slots<T>
    requires slot < |slots| && slots[slot].Some? && index < |slots[slot].value|
  {
    slots[slot := Some(slots[slot].value[index := x])]
  }

  /** Storing at one index changes that index and no other. */
  lemma WriteCells<T>(slots: Slots<T>, c: seq<T>, i: nat, x: T)
    requires Cells(slots, c) && i < |c|
    ensures Slot(i) < |slots| && slots[Slot(i)].Some? && Offset(i) < |slots[Slot(i)].value|
    ensures Cells(Write(slots, Slot(i), Offset(i), x), c[i := x])
  {
    assert Holds(slots, i, c[i]);
    var r, d := Write(slots, Slot(i), Offset(i), x), c[i := x];
    forall j | 0 <= j < |d| ensures Holds(r, j, d[j]) {
      assert Holds(slots, j, c[j]);
      if j != i {
        AddressesDiffer(i, j);
      }
    }
  }

  /** Changing a slot that holds no element leaves the elements alone. */
  lemma OtherSlotCells<T>(slots: Slots<T>, c: seq<T>, k: nat, s: Option<seq<T>>)
    requires Cells(slots, c) && k < |slots| && (s.Some? ==> |s.value| == Pow2(k))
    requires slots[k].None? || forall i :: 0 <= i < |c| ==> Slot(i) != k
    ensures Cells(slots[k := s], c)
  {
    forall i | 0 <= i < |c| ensures Holds(slots[k := s], i, c[i]) {
      assert Holds(slots, i, c[i]);
    }
  }

  /** An allocated place extends what the slots hold by one, whatever is in it. */
  lemma ExtendCells<T>(slots: Slots<T>, c: seq<T>)
    requires Cells(slots, c) && Slot(|c|) < |slots| && slots[Slot(|c|)].Some?
    ensures Cells(slots, c + [slots[Slot(|c|)].value[Offset(|c|)]])
  {
  }

  /** Storing one beyond the end appends. */
  lemma PushCells<T>(slots: Slots<T>, c: seq<T>, x: T)
    requires Cells(slots, c) && Slot(|c|) < |slots| && slots[Slot(|c|)].Some?
    ensures Cells(Write(slots, Slot(|c|), Offset(|c|), x), c + [x])
  {
    var d := c + [slots[Slot(|c|)].value[Offset(|c|)]];
    ExtendCells(slots, c);
    WriteCells(slots, d, |c|, x);
    assert d[|c| := x] == c + [x];
  }

  /** What fits into n slots is below 2^n elements. */
  lemma CellsFit<T>(slots: Slots<T>, c: seq<T>)
    requires Cells(slots, c)
    ensures |c| < Pow2(|slots|)
  {
    if |c| > 0 {
      assert Holds(slots, |c| - 1, c[|c| - 1]);
      SlotBelow(|c| - 1, |slots|);
    }
  }

  /** A slot that is null bounds the number of elements. */
  lemma NullSlotBound<T>(slots: Slots<T>, c: seq<T>, i: nat)
    requires Cells(slots, c) && i < |slots| && slots[i].None?
    ensures |c| < Pow2(i)
  {
    var first := Pow2(i) - 1;
    LastBitUnique(first + 1, i);
    assert Slot(first) == i;
    assert first < |c| ==> Holds(slots, first, c[first]);
  }

  /** And so does a slot that does not exist. */
  lemma NoSlotBound<T>(slots: Slots<T>, c: seq<T>, i: nat)
    requires Cells(slots, c) && (i < |slots| ==> slots[i].None?)
    ensures |c| < Pow2(i)
  {
    if i < |slots| {
      NullSlotBound(slots, c, i);
    } else {
      CellsFit(slots, c);
      if |slots| < i {
        Pow2Grows(|slots|, i);
      }
    }
  }

  /** Copying place `j` of slot `i` from another vector copies the next element. */
  lemma CopyCells<T>(slots: Slots<T>, from: Slots<T>, c: seq<T>, i: nat, j: nat)
    requires j < Pow2(i) && i < |slots| && slots[i].Some?
    requires Cells(from, c) && Pow2(i) - 1 + j < |c|
    requires Cells(slots, c[..Pow2(i) - 1 + j])
    ensures i < |from| && from[i].Some? && j < |from[i].value| && j < |slots[i].value|
    ensures Cells(Write(slots, i, j, from[i].value[j]), c[..Pow2(i) + j])
  {
    var n := Pow2(i) - 1 + j;
    AddressingIsBijective(n, i, j);
    assert Holds(from, n, c[n]);
    PushCells(slots, c[..n], c[n]);
    assert c[..n] + [c[n]] == c[..n + 1];
  }

  lemma PrefixCells<T>(slots: Slots<T>, c: seq<T>, n: nat)
    requires Cells(slots, c) && n <= |c|
    ensures Cells(slots, c[..n])
  {
    forall i | 0 <= i < n ensures Holds(slots, i, c[..n][i]) {
      assert Holds(slots, i, c[i]);
    }
  }

  ghost function InUse<T>(slots: Slots<T>): seq<bool> {
    seq(|slots|, k requires 0 <= k < |slots| => slots[k].Some?)
  }

  /** No slot is allocated beyond the one that index `size` goes to. */
  ghost predicate Tight<T>(slots: Slots<T>, size: nat) {
    forall k :: 0 <= k < |slots| && slots[k].Some? ==> k <= Slot(size)
  }

  /** The allocated ones of the first `m` slots have room for all that belongs there. */
  lemma {:induction false} CapacityHolds<T>(slots: Slots<T>, c: seq<T>, m: nat)
    requires Cells(slots, c) && m <= |slots|
    ensures Capacity(InUse(slots)[..m]) >= Min(|c|, Pow2(m) - 1)
  {
    if m > 0 {
      CapacityHolds(slots, c, m - 1);
      assert InUse(slots)[..m][..m - 1] == InUse(slots)[..m - 1];
      if slots[m - 1].None? {
        NullSlotBound(slots, c, m - 1);
      }
    }
  }

  lemma {:induction false} CapacityBeyond(inUse: seq<bool>, k: nat)
    requires k < |inUse| && inUse[k]
    ensures Capacity(inUse) >= Capacity(inUse[..k]) + Pow2(k)
  {
    var n := |inUse| - 1;
    if k < n {
      CapacityBeyond(inUse[..n], k);
      assert inUse[..n][..k] == inUse[..k];
    }
  }

  /** A vector keeps within 2 * size + 1 places just when no slot is allocated
      beyond the one for the next element. */
  lemma TightIff<T>(slots: Slots<T>, c: seq<T>)
    requires Cells(slots, c)
    ensures Capacity(InUse(slots)) <= 2 * |c| + 1 <==> Tight(slots, |c|)
  {
    if Tight(slots, |c|) {
      CapacityBelow(InUse(slots), Slot(|c|) + 1);
    } else {
      var k :| 0 <= k < |slots| && slots[k].Some? && k > Slot(|c|);
      SlotBelow(|c|, k);
      CapacityHolds(slots, c, k);
      CapacityBeyond(InUse(slots), k);
    }
  }
}
