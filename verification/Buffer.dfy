/** lunchbox::Buffer: a growing block of plain elements. */
module Buffer {
  import opened Common

  /** Size, allocation, and how many elements reallocations have copied so far. */
  datatype Usage = Usage(size: nat, maxSize: nat, copied: nat)

  /** The new allocation when `n` elements do not fit any more. */
  function Headroom(n: nat): nat {
    n + n / 8
  }

  function Resized(u: Usage, n: nat): Usage {
    if n <= u.maxSize then u.(size := n) else Usage(n, Headroom(n), u.copied + u.maxSize)
  }

  function Appended(u: Usage, n: nat): Usage {
    Resized(u, u.size + n)
  }

  /** The calls that change the size and leave the allocation policy to resize. */
  datatype Call = Append(n: nat) | Resize(n: nat) | Grow(n: nat) | SetSize(n: nat)

  function After(u: Usage, c: Call): Usage {
    match c
    case Append(n) => Appended(u, n)
    case Resize(n) => Resized(u, n)
    case Grow(n) => if n > u.size then Resized(u, n) else u
    case SetSize(n) => if n <= u.maxSize then u.(size := n) else u
  }

  /** A run of calls on the empty buffer. */
  function Run(calls: seq<Call>): Usage {
    if calls == [] then Usage(0, 0, 0) else After(Run(calls[..|calls| - 1]), calls[|calls| - 1])
  }

  /** The largest size the buffer had during the run. */
  function Peak(calls: seq<Call>): nat {
    if calls == [] then 0
    else
      var before := Peak(calls[..|calls| - 1]);
      if before < Run(calls).size then Run(calls).size else before
  }

  /** The potential: at the last reallocation the buffer had `base` elements, and
      all copying so far is paid for by nine times those. */
  ghost predicate PaidUp(u: Usage, base: nat) {
    u.size <= u.maxSize == Headroom(base) && u.copied <= 9 * base
  }

  lemma ResizedPaidUp(u: Usage, base: nat, n: nat)
    requires PaidUp(u, base)
    ensures PaidUp(Resized(u, n), if n <= u.maxSize then base else n)
    ensures n > u.maxSize ==> n > base
  {
    // base <= 8 * (base / 8) + 7, and a reallocating size exceeds base + base / 8.
    assert base <= 8 * (base / 8) + 7;
  }

  lemma {:induction false} RunPaidUp(calls: seq<Call>) returns (base: nat)
    ensures PaidUp(Run(calls), base) && base <= Peak(calls)
  {
    if calls == [] {
      base := 0;
    } else {
      var n := |calls| - 1;
      base := RunPaidUp(calls[..n]);
      var u, c := Run(calls[..n]), calls[n];
      var size := if c.Append? then u.size + c.n else c.n;
      ResizedPaidUp(u, base, size);
      base := if Run(calls).maxSize == u.maxSize then base else size;
    }
  }

  /** Growth is amortised: over any run of calls on an empty buffer, reallocation
      copies at most nine times the largest number of elements ever held, and never
      allocates more than nine eighths of that number. */
  lemma CopyingIsAmortised(calls: seq<Call>)
    ensures Run(calls).copied <= 9 * Peak(calls)
    ensures 8 * Run(calls).maxSize <= 9 * Peak(calls)
  {
    var base := RunPaidUp(calls);
  }

  function Total(calls: seq<Call>): nat {
    if calls == [] then 0 else Total(calls[..|calls| - 1]) + calls[|calls| - 1].n
  }

  /** So appending costs at most nine copies for each element appended. */
  lemma {:induction false} AppendsAreAmortised(calls: seq<Call>)
    requires forall k :: 0 <= k < |calls| ==> calls[k].Append?
    ensures Run(calls).size == Peak(calls) == Total(calls)
    ensures Run(calls).copied <= 9 * Total(calls)
  {
    if calls != [] {
      AppendsAreAmortised(calls[..|calls| - 1]);
    }
    CopyingIsAmortised(calls);
  }

  class Block<T(0)> {
    var data: array<T>
    var size: nat
    var maxSize: nat
    ghost var copied: nat

    ghost predicate Valid() reads this {
      size <= maxSize == data.Length
    }

    /** The elements. */
    ghost function Contents(): seq<T>
      requires Valid()
      reads this, data
    {
      data[..size]
    }

    ghost function Use(): Usage reads this {
      Usage(size, maxSize, copied)
    }

    constructor ()
      ensures Valid() && Contents() == [] && Use() == Usage(0, 0, 0) && fresh(data)
    {
      data := new T[0];
      size, maxSize, copied := 0, 0, 0;
    }

    /** _data = realloc(_data, n): move what fits to a block of n elements. */
    method Realloc(n: nat)
      requires maxSize == data.Length
      modifies this`data, this`copied
      ensures data.Length == n && fresh(data)
      ensures copied == old(copied) + Min(old(data.Length), n)
      ensures data[..Min(old(data.Length), n)] == old(data[..Min(data.Length, n)])
    {
      var block := new T[n];
      var count := Min(data.Length, n);
      for i := 0 to count
        modifies block
        invariant block[..i] == data[..i]
      {
        block[i] := data[i];
      }
      data := block;
      copied := copied + count;
    }

    /** resize: existing elements are kept, up to the new size. */
    method Resize(newSize: nat)
      requires Valid()
      modifies this
      ensures Valid() && Use() == After(old(Use()), Call.Resize(newSize))
      ensures data == old(data) || fresh(data)
      ensures Contents()[..Min(old(size), newSize)] == old(Contents())[..Min(old(size), newSize)]
    {
      ghost var kept := data[..Min(size, newSize)];
      size := newSize;
      if newSize <= maxSize {
        return;
      }
      var nElems := newSize + newSize / 8;
      Realloc(nElems);
      maxSize := nElems;
      assert data[..|kept|] == kept;
    }

    method Grow(newSize: nat)
      requires Valid()
      modifies this
      ensures Valid() && (data == old(data) || fresh(data))
      ensures Use() == After(old(Use()), Call.Grow(newSize))
      ensures old(Contents()) <= Contents()
    {
      if newSize > size {
        Resize(newSize);
        assert Contents()[..old(size)] == old(Contents());
      }
    }

    /** reserve: allocate exactly, keep everything. */
    method Reserve(newSize: nat)
      requires Valid()
      modifies this
      ensures Valid() && Contents() == old(Contents()) && (data == old(data) || fresh(data))
      ensures maxSize == if newSize <= old(maxSize) then old(maxSize) else newSize
      ensures size == old(size)
    {
      if newSize <= maxSize {
        return;
      }
      ghost var all := data[..];
      Realloc(newSize);
      maxSize := newSize;
      assert data[..size] == all[..size];
    }

    /** reset: the new size, and exactly that allocation where it has to grow. */
    method Reset(newSize: nat)
      requires Valid()
      modifies this
      ensures Valid() && size == newSize && (data == old(data) || fresh(data))
      ensures maxSize == if newSize <= old(maxSize) then old(maxSize) else newSize
      ensures Contents()[..Min(old(size), newSize)] == old(Contents())[..Min(old(size), newSize)]
    {
      ghost var before := Contents();
      Reserve(newSize);
      assert data[..size] == before;
      var ok := SetSize(newSize);
      assert data[..Min(|before|, newSize)] == before[..Min(|before|, newSize)];
    }

    /** append(data, size) */
    method Append(xs: seq<T>)
      requires Valid()
      modifies this, data
      ensures Valid() && Contents() == old(Contents()) + xs
      ensures Use() == After(old(Use()), Call.Append(|xs|))
      ensures data == old(data) || fresh(data)
    {
      ghost var before := Contents();
      var oldSize := size;
      Resize(oldSize + |xs|);
      assert data[..oldSize] == before by {
        assert Contents()[..oldSize] == before;
      }
      CopyIn(oldSize, xs);
      assert Contents() == before + xs;
    }

    /** memcpy(_data + at, xs, |xs|) */
    method CopyIn(at: nat, xs: seq<T>)
      requires at + |xs| <= data.Length
      modifies data
      ensures data[..at] == old(data[..at]) && data[at..at + |xs|] == xs
    {
      for i := 0 to |xs|
        invariant data[..at] == old(data[..at]) && data[at..at + i] == xs[..i]
      {
        data[at + i] := xs[i];
      }
    }

    method Replace(xs: seq<T>)
      requires Valid()
      modifies this, data
      ensures Valid() && Contents() == xs && (data == old(data) || fresh(data))
      ensures maxSize == if |xs| <= old(maxSize) then old(maxSize) else |xs|
    {
      Reserve(|xs|);
      CopyIn(0, xs);
      size := |xs|;
      assert data[0..0 + |xs|] == data[..size];
    }

    /** pack: give the headroom back. */
    method Pack()
      requires Valid()
      modifies this
      ensures Valid() && Contents() == old(Contents()) && maxSize == size == old(size)
    {
      if maxSize != size {
        Realloc(size);
        maxSize := size;
      }
    }

    method SetSize(n: nat) returns (ok: bool)
      requires Valid()
      modifies this`size
      ensures Valid() && (ok <==> n <= maxSize) && Use() == After(old(Use()), Call.SetSize(n))
    {
      if n > maxSize {
        return false;
      }
      size := n;
      ok := true;
    }
  }

  function Concat<T>(chunks: seq<seq<T>>): seq<T> {
    if chunks == [] then [] else Concat(chunks[..|chunks| - 1]) + chunks[|chunks| - 1]
  }

  ghost function Appends<T>(chunks: seq<seq<T>>): (calls: seq<Call>)
    ensures |calls| == |chunks| && forall k :: 0 <= k < |calls| ==> calls[k] == Append(|chunks[k]|)
  {
    seq(|chunks|, k requires 0 <= k < |chunks| => Append(|chunks[k]|))
  }

  /** Any chunks appended to a new buffer: it holds their concatenation, and has
      copied at most nine elements for each one it holds. */
  method Play<T(0)>(chunks: seq<seq<T>>) returns (b: Block<T>)
    ensures b.Valid() && b.Contents() == Concat(chunks)
    ensures b.copied <= 9 * |Concat(chunks)| && 8 * b.maxSize <= 9 * |Concat(chunks)|
  {
    b := new Block<T>();
    for i := 0 to |chunks|
      invariant b.Valid() && fresh(b) && fresh(b.data)
      invariant b.Contents() == Concat(chunks[..i]) && b.Use() == Run(Appends(chunks[..i]))
    {
      b.Append(chunks[i]);
      assert chunks[..i + 1][..i] == chunks[..i];
      assert Appends(chunks[..i + 1])[..i] == Appends(chunks[..i]);
    }
    assert chunks[..|chunks|] == chunks;
    AppendsAreAmortised(Appends(chunks));
    CopyingIsAmortised(Appends(chunks));
  }
}
