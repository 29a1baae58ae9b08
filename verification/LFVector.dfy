/** lunchbox::LFVector: a vector that never moves its elements, kept in up to
    nSlots arrays of doubling size. */
module LFVector {
  import opened Bits
  import opened Common
  import opened LFVectorIndex

  /** `c` brought up to at least `n` elements by appending copies of `x`. */
  ghost function Padded<T>(c: seq<T>, n: nat, x: T): seq<T> {
    if |c| >= n then c else c + seq(n - |c|, _ => x)
  }

  /** Where the slots end, so do the elements. */
  lemma AllCopied<T>(slots: Slots<T>, c: seq<T>, i: nat, n: nat)
    requires Cells(slots, c) && (i < |slots| ==> slots[i].None?) && i < n
    ensures Min(|c|, Pow2(i) - 1) == |c| == Min(|c|, Pow2(n) - 1)
  {
    NoSlotBound(slots, c, i);
    Pow2Grows(i, n);
  }

  /** No slot was allocated or released. */
  ghost predicate SameShape<T>(a: Slots<T>, b: Slots<T>) {
    |a| == |b| && forall k :: 0 <= k < |a| ==> a[k].Some? == b[k].Some?
  }

  /** No slot beyond `top` was allocated or released. */
  ghost predicate SameAbove<T>(a: Slots<T>, b: Slots<T>, top: nat) {
    |a| == |b| && forall k :: top < k < |a| ==> a[k].Some? == b[k].Some?
  }

  lemma SameAboveToo<T>(a: Slots<T>, b: Slots<T>, c: Slots<T>, low: nat, top: nat)
    requires SameAbove(a, b, top) && SameAbove(b, c, low) && low <= top
    ensures SameAbove(a, c, top)
  {
  }

  /** `all` while the elements after `pos` move down by one, up to the one now at `i`. */
  ghost function Shifted<T>(all: seq<T>, pos: nat, i: nat): (r: seq<T>)
    requires pos <= i < |all|
    ensures |r| == |all|
  {
    all[..pos] + all[pos + 1..i + 1] + all[i..]
  }

  lemma ShiftStep<T>(all: seq<T>, pos: nat, i: nat)
    requires pos <= i < |all| - 1
    ensures Shifted(all, pos, i)[i + 1] == all[i + 1]
    ensures Shifted(all, pos, i)[i := all[i + 1]] == Shifted(all, pos, i + 1)
  {
  }

  class Vector<T(==)> {
    const nSlots: nat
    /** The value of T(), with which removed places are overwritten. */
    const blank: T
    var slots: Slots<T>
    var size: nat
    /** The elements, as a plain sequence. */
    ghost var contents: seq<T>

    ghost predicate Valid() reads this {
      |slots| == nSlots && |contents| == size && Cells(slots, contents)
    }

    constructor (n: nat, blank: T)
      ensures Valid() && nSlots == n && this.blank == blank
      ensures contents == [] && Tight(slots, size)
    {
      nSlots, this.blank := n, blank;
      slots, size, contents := seq(n, _ => None), 0, [];
    }

    /** The address computation of operator[]. */
    static method Address(i: nat) returns (slot: nat, index: nat)
      ensures slot == Slot(i) && index == Offset(i)
    {
      slot := GetIndexOfLastBit(i + 1);
      index := Xor(i + 1, Pow2(slot));
    }

    /** operator[] const */
    method At(i: nat) returns (x: T)
      requires Valid() && i < size
      ensures x == contents[i]
    {
      var slot, index := Address(i);
      assert Holds(slots, i, contents[i]);
      x := slots[slot].value[index];
    }

    /** operator[] as the target of an assignment. Called by erase it may also
        reach the place one beyond the end, so `c` may be longer than the contents. */
    method Store(i: nat, x: T, ghost c: seq<T>)
      requires Cells(slots, c) && i < |c|
      modifies this`slots
      ensures Cells(slots, c[i := x]) && SameShape(old(slots), slots)
    {
      var slot, index := Address(i);
      WriteCells(slots, c, i, x);
      slots := Write(slots, slot, index, x);
    }

    /** push_back_unlocked_; false stands for the exception thrown when full. */
    method PushBackUnlocked(item: T) returns (ok: bool)
      requires Valid()
      modifies this
      ensures Valid()
      ensures ok <==> old(size) + 1 < Pow2(nSlots)
      ensures contents == if ok then old(contents) + [item] else old(contents)
      ensures SameAbove(old(slots), slots, Slot(old(size))) && (!ok ==> slots == old(slots))
      ensures old(Tight(slots, size)) ==> Tight(slots, size)
    {
      var i := size + 1;
      var slot := GetIndexOfLastBit(i);
      SlotBelow(size, nSlots);
      if slot < 0 || slot >= nSlots {
        return false;
      }
      var sz := Pow2(slot);
      if slots[slot] == None {
        Allocate(slot, sz);
      }
      var index := Xor(i, sz);
      PushCells(slots, contents, item);
      slots := Write(slots, slot, index, item);
      SlotStep(size);
      size := size + 1;
      contents := contents + [item];
      ok := true;
    }

    /** slots_[slot] = new T[sz] */
    method Allocate(slot: nat, sz: nat)
      requires Valid() && slot < nSlots && slots[slot] == None && sz == Pow2(slot)
      modifies this`slots
      ensures Valid() && slots[slot].Some? && slots == old(slots)[slot := slots[slot]]
    {
      var s := Some(seq(sz, _ => blank));
      OtherSlotCells(slots, contents, slot, s);
      slots := slots[slot := s];
    }

    /** trim_: release the slot after the one for the next element. */
    method Trim()
      requires Valid()
      modifies this`slots
      ensures Valid()
      ensures slots == if Slot(size) + 1 < nSlots then old(slots)[Slot(size) + 1 := None] else old(slots)
    {
      var last := GetIndexOfLastBit(size + 1);
      var nextSlot := last + 1;
      if nextSlot < nSlots && slots[nextSlot].Some? {
        forall i | 0 <= i < |contents| ensures Slot(i) < nextSlot {
          SlotMonotone(i, size);
        }
        OtherSlotCells(slots, contents, nextSlot, None);
        slots := slots[nextSlot := None];
      }
    }

    /** Drop the last element and blank its place, as pop_back, resize and clear do. */
    method DropLast()
      requires Valid() && size > 0
      modifies this
      ensures Valid() && contents == old(contents)[..old(size) - 1]
      ensures SameShape(old(slots), slots)
    {
      size := size - 1;
      Store(size, blank, contents);
      PrefixCells(slots, contents[size := blank], size);
      contents := contents[..size];
    }

    /** pop_back, both forms: the element, if there was one. */
    method PopBack() returns (popped: Option<T>)
      requires Valid()
      modifies this
      ensures Valid()
      ensures if old(size) == 0 then popped == None && contents == []
              else popped.Some? && old(contents) == contents + [popped.value]
      ensures old(Tight(slots, size)) ==> Tight(slots, size)
    {
      if size == 0 {
        return None;
      }
      var last := At(size - 1);
      popped := Some(last);
      DropLast();
      SlotStep(size);
      Trim();
    }

    /** erase(pos): the index erased, or end(). */
    method EraseAt(pos: nat) returns (next: nat)
      requires Valid()
      modifies this
      ensures Valid()
      ensures if pos >= old(size) then contents == old(contents) && slots == old(slots) && next == size
              else contents == old(contents)[..pos] + old(contents)[pos + 1..] && next == pos
      ensures old(Tight(slots, size)) ==> Tight(slots, size)
    {
      if pos >= size {
        return size;
      }
      RemoveAt(pos);
      next := pos;
    }

    /** The common part of both erase: close the gap, blank the place that is
        now one beyond the end, and trim. */
    method RemoveAt(pos: nat)
      requires Valid() && pos < size
      modifies this
      ensures Valid()
      ensures contents == old(contents)[..pos] + old(contents)[pos + 1..]
      ensures old(Tight(slots, size)) ==> Tight(slots, size)
    {
      size := size - 1;
      ghost var c := MoveDown(pos, contents);
      Store(size, blank, c);
      PrefixCells(slots, c[size := blank], size);
      contents := contents[..pos] + contents[pos + 1..];
      assert c[size := blank][..size] == contents;
      SlotStep(size);
      Trim();
    }

    /** std::copy(pos + 1, end() + 1, pos), after size_ was decremented. */
    method MoveDown(pos: nat, ghost all: seq<T>) returns (ghost c: seq<T>)
      requires Cells(slots, all) && pos <= size == |all| - 1
      modifies this`slots
      ensures c == Shifted(all, pos, size) && Cells(slots, c) && SameShape(old(slots), slots)
    {
      var i := pos;
      c := all;
      assert all == Shifted(all, pos, pos);
      while i < size
        invariant pos <= i <= size
        invariant c == Shifted(all, pos, i) && Cells(slots, c) && SameShape(old(slots), slots)
      {
        ShiftStep(all, pos, i);
        MoveOne(i, c);
        c := Shifted(all, pos, i + 1);
        i := i + 1;
      }
    }

    method MoveOne(i: nat, ghost c: seq<T>)
      requires Cells(slots, c) && i + 1 < |c|
      modifies this`slots
      ensures Cells(slots, c[i := c[i + 1]]) && SameShape(old(slots), slots)
    {
      var x := Peek(i + 1, c);
      Store(i, x, c);
    }

    /** operator[] read through an iterator that may stand one beyond the end. */
    method Peek(i: nat, ghost c: seq<T>) returns (x: T)
      requires Cells(slots, c) && i < |c|
      ensures x == c[i]
    {
      var slot, index := Address(i);
      assert Holds(slots, i, c[i]);
      x := slots[slot].value[index];
    }

    /** erase(element): remove the last occurrence. */
    method EraseElement(element: T) returns (next: nat)
      requires Valid()
      modifies this
      ensures Valid()
      ensures if element in old(contents)
              then next < old(size) && old(contents)[next] == element &&
                   element !in old(contents)[next + 1..] &&
                   contents == old(contents)[..next] + old(contents)[next + 1..]
              else contents == old(contents) && slots == old(slots) && next == size
      ensures old(Tight(slots, size)) ==> Tight(slots, size)
    {
      var i := size;
      while i != 0
        invariant Valid() && contents == old(contents) && slots == old(slots) && size == old(size)
        invariant 0 <= i <= size && element !in contents[i..]
      {
        var x := At(i - 1);
        if x == element {
          RemoveAt(i - 1);
          return i - 1;
        }
        i := i - 1;
      }
      next := size;
    }

    /** expand: false stands for the exception thrown when the vector is full. */
    method Expand(newSize: nat, item: T) returns (ok: bool)
      requires Valid()
      modifies this
      ensures Valid()
      ensures ok <==> newSize <= old(size) || newSize < Pow2(nSlots)
      ensures contents == Padded(old(contents), Min(newSize, Pow2(nSlots) - 1), item)
      ensures SameAbove(old(slots), slots, Slot(newSize))
      ensures old(Tight(slots, size)) ==> Tight(slots, size)
    {
      CellsFit(slots, contents);
      ok := true;
      while newSize > size
        invariant Valid() && old(size) <= size < Pow2(nSlots)
        invariant newSize > old(size) ==> size <= newSize
        invariant newSize <= old(size) ==> size == old(size)
        invariant contents == Padded(old(contents), size, item)
        invariant SameAbove(old(slots), slots, Slot(newSize))
        invariant old(Tight(slots, size)) ==> Tight(slots, size)
      {
        SlotMonotone(size, newSize);
        ghost var before, top := slots, Slot(size);
        ok := PushBackUnlocked(item);
        SameAboveToo(old(slots), before, slots, top, Slot(newSize));
        if !ok {
          return;
        }
      }
    }

    /** resize. Only one slot is released, so a shrunk vector is tight just when
        every other slot was still needed. */
    method Resize(newSize: nat, value: T) returns (ok: bool)
      requires Valid()
      modifies this
      ensures Valid()
      ensures ok <==> newSize <= old(size) || newSize < Pow2(nSlots)
      ensures contents == if newSize <= old(size) then old(contents)[..newSize]
                          else Padded(old(contents), Min(newSize, Pow2(nSlots) - 1), value)
      ensures ok ==>
                (Tight(slots, size) <==>
                 forall k :: 0 <= k < nSlots && old(slots[k].Some?) ==>
                   k <= Slot(newSize) || k == Slot(Min(old(size), newSize)) + 1)
    {
      while size > newSize
        invariant Valid() && size <= old(size) && (newSize <= old(size) ==> newSize <= size)
        invariant contents == old(contents)[..size]
        invariant newSize > old(size) ==> size == old(size)
        invariant SameShape(old(slots), slots)
      {
        DropLast();
      }
      Trim();
      ghost var trimmed := slots;
      ok := Expand(newSize, value);
    }

    /** clear: drop all elements and all storage. */
    method Clear()
      requires Valid()
      modifies this
      ensures Valid() && contents == [] && forall k :: 0 <= k < nSlots ==> slots[k] == None
      ensures Tight(slots, size)
    {
      while size > 0
        invariant Valid()
      {
        DropLast();
      }
      for i := 0 to nSlots
        invariant Valid() && size == 0 && forall k :: 0 <= k < i ==> slots[k] == None
      {
        slots := slots[i := None];
      }
    }

    /** The inner loop of operator= and assign_: copy what slot `i` of the other
        vector holds of its elements. */
    method CopySlot(from: Vector<T>, i: nat)
      requires Valid() && from.Valid() && from != this
      requires i < nSlots && i < from.nSlots && slots[i].Some? && from.slots[i].Some?
      requires size == Min(from.size, Pow2(i) - 1) && contents == from.contents[..size]
      modifies this
      ensures Valid()
      ensures size == Min(from.size, Pow2(i + 1) - 1) && contents == from.contents[..size]
      ensures SameShape(old(slots), slots)
    {
      var sz := Pow2(i);
      var j := 0;
      while size < from.size && j < sz
        invariant Valid() && 0 <= j <= sz
        invariant size == Min(from.size, Pow2(i) - 1 + j) && contents == from.contents[..size]
        invariant SameShape(old(slots), slots)
      {
        CopyCells(slots, from.slots, from.contents, i, j);
        slots := Write(slots, i, j, from.slots[i].value[j]);
        size := size + 1;
        contents := from.contents[..size];
        j := j + 1;
      }
    }

    /** operator=: keep or allocate the slots the other vector has, free the rest. */
    method CopyFrom(from: Vector<T>)
      requires Valid() && from.Valid() && nSlots == from.nSlots
      modifies this
      ensures Valid() && contents == old(from.contents)
      ensures forall k :: 0 <= k < nSlots ==> slots[k].Some? == old(from.slots[k].Some?)
    {
      if from == this {
        return;
      }
      size, contents := 0, [];
      for i := 0 to nSlots
        invariant Valid()
        invariant size == Min(from.size, Pow2(i) - 1) && contents == from.contents[..size]
        invariant forall k :: 0 <= k < i ==> slots[k].Some? == from.slots[k].Some?
      {
        if from.slots[i].Some? {
          if slots[i] == None {
            Allocate(i, Pow2(i));
          }
          CopySlot(from, i);
        } else {
          NullSlotBound(from.slots, from.contents, i);
          if slots[i].Some? {
            forall m | 0 <= m < |contents| ensures Slot(m) != i {
              SlotBelow(m, i);
            }
            OtherSlotCells(slots, contents, i, None);
            slots := slots[i := None];
          }
        }
      }
      CellsFit(from.slots, from.contents);
    }

    /** assign_, for a vector that may have fewer or more slots than the other:
        what does not fit is cut off. */
    method AssignFrom(from: Vector<T>)
      requires size == 0 && from.Valid() && from != this
      modifies this
      ensures Valid()
      ensures contents == from.contents[..Min(from.size, Pow2(nSlots) - 1)]
    {
      ZeroSlots();
      for i := 0 to nSlots
        invariant Valid()
        invariant size == Min(from.size, Pow2(i) - 1) && contents == from.contents[..size]
        invariant forall k :: i <= k < nSlots ==> slots[k].None?
      {
        if i >= from.nSlots || from.slots[i] == None {
          // Done copying: the assertion size_ == from.size_ holds here.
          AllCopied(from.slots, from.contents, i, nSlots);
          assert size == from.size;
          return;
        }
        AllocateAndCopy(from, i);
      }
    }

    /** setZero(slots_, ...) */
    method ZeroSlots()
      requires size == 0
      modifies this`slots, this`contents
      ensures Valid() && contents == [] && forall k :: 0 <= k < nSlots ==> slots[k].None?
    {
      slots, contents := seq(nSlots, _ => None), [];
    }

    method AllocateAndCopy(from: Vector<T>, i: nat)
      requires Valid() && from.Valid() && from != this
      requires i < nSlots && i < from.nSlots && slots[i].None? && from.slots[i].Some?
      requires size == Min(from.size, Pow2(i) - 1) && contents == from.contents[..size]
      modifies this
      ensures Valid()
      ensures size == Min(from.size, Pow2(i + 1) - 1) && contents == from.contents[..size]
      ensures forall k :: 0 <= k < nSlots && k != i ==> slots[k].Some? == old(slots[k].Some?)
    {
      Allocate(i, Pow2(i));
      CopySlot(from, i);
    }

    /** operator== */
    method Equals(rhs: Vector<T>) returns (equal: bool)
      requires Valid() && rhs.Valid()
      ensures equal <==> contents == rhs.contents
    {
      if rhs == this {
        return true;
      }
      if size != rhs.size {
        return false;
      }
      for i := 0 to size
        invariant contents[..i] == rhs.contents[..i]
      {
        var x := At(i);
        var y := rhs.At(i);
        if x != y {
          return false;
        }
      }
      equal := true;
    }
  }

  /** The calls that the storage bound is about. */
  datatype Edit<T> = Push(x: T) | Pop | EraseIndex(pos: nat) | EraseValue(x: T) | Clear

  /** One more than the index of the last `x`, or 0. */
  ghost function LastIndex<T>(c: seq<T>, x: T): (r: nat)
    ensures x in c ==> 0 < r <= |c| && c[r - 1] == x
  {
    if c == [] || c[|c| - 1] == x then |c| else LastIndex(c[..|c| - 1], x)
  }

  ghost function Without<T>(c: seq<T>, pos: nat): seq<T> {
    if pos < |c| then c[..pos] + c[pos + 1..] else c
  }

  /** What a call does to the plain sequence, in a vector for fewer than `limit` elements. */
  ghost function Edited<T>(c: seq<T>, limit: nat, e: Edit<T>): seq<T> {
    match e
    case Push(x) => if |c| + 1 < limit then c + [x] else c
    case Pop => if c == [] then c else c[..|c| - 1]
    case EraseIndex(pos) => Without(c, pos)
    case EraseValue(x) => if x in c then Without(c, LastIndex(c, x) - 1) else c
    case Clear => []
  }

  ghost function Played<T>(limit: nat, edits: seq<Edit<T>>): seq<T> {
    if edits == [] then [] else Edited(Played(limit, edits[..|edits| - 1]), limit, edits[|edits| - 1])
  }

  lemma {:induction false} LastIndexUnique<T>(c: seq<T>, x: T, i: nat)
    requires i < |c| && c[i] == x && x !in c[i + 1..]
    ensures LastIndex(c, x) == i + 1
  {
    var n := |c| - 1;
    if i < n {
      assert c[n] == c[i + 1..][n - i - 1];
      assert c[..n][i + 1..] == c[i + 1..][..n - i - 1];
      LastIndexUnique(c[..n], x, i);
    }
  }

  method Perform<T(==)>(v: Vector<T>, e: Edit<T>)
    requires v.Valid() && Tight(v.slots, v.size)
    modifies v
    ensures v.Valid() && Tight(v.slots, v.size)
    ensures v.contents == Edited(old(v.contents), Pow2(v.nSlots), e)
  {
    match e
    case Push(x) => var ok := v.PushBackUnlocked(x);
    case Pop => var popped := v.PopBack();
    case EraseIndex(pos) => var next := v.EraseAt(pos);
    case EraseValue(x) =>
      ghost var c := v.contents;
      var next := v.EraseElement(x);
      if x in c {
        LastIndexUnique(c, x, next);
      }
    case Clear => v.Clear();
  }

  /** Any history of push, pop, erase and clear on a new vector: it holds what the
      same calls make of a plain sequence, in at most 2 * size + 1 places. */
  method Play<T(==)>(n: nat, blank: T, edits: seq<Edit<T>>) returns (v: Vector<T>)
    ensures v.Valid() && v.nSlots == n && v.contents == Played(Pow2(n), edits)
    ensures Capacity(InUse(v.slots)) <= 2 * v.size + 1
  {
    v := new Vector<T>(n, blank);
    for i := 0 to |edits|
      invariant v.Valid() && v.nSlots == n && Tight(v.slots, v.size) && fresh(v)
      invariant v.contents == Played(Pow2(n), edits[..i])
    {
      Perform(v, edits[i]);
      assert edits[..i + 1][..i] == edits[..i];
    }
    assert edits[..|edits|] == edits;
    TightIff(v.slots, v.contents);
  }

  /** resize can leave more behind: eight elements in four slots, resized to none. */
  method ResizeKeepsSlots(x: int) returns (v: Vector<int>)
    ensures v.Valid() && v.contents == [] && !Tight(v.slots, v.size)
    ensures Capacity(InUse(v.slots)) > 2 * v.size + 1
  {
    v := new Vector<int>(4, x);
    assert Pow2(4) == 16;
    var ok := v.Expand(8, x);
    assert Holds(v.slots, 7, v.contents[7]) && Slot(7) == 3 by {
      LastBitUnique(8, 3);
    }
    ok := v.Resize(0, x);
    TightIff(v.slots, v.contents);
  }
}
