/** lunchbox::IntervalSet: a set of naturals kept as a sorted list of interval
    edges, with the cardinality maintained incrementally. */
module IntervalSet {
  import opened IntervalEdges
  import opened IntervalIterator

  /** The walk over the edges up to `e`, common to insert and erase: `k` edges of
      `base` are behind, and `overlap` counts the stored elements in [s, cut). */
  ghost predicate Walked(base: seq<Edge>, s: nat, e: nat, k: nat, inside: bool, overlappingStart: nat,
                         overlap: nat, cut: nat)
  {
    && Canonical(base) && k <= |base| && inside == (k % 2 == 1)
    && (forall i :: 0 <= i < k ==> base[i].value <= e)
    && (forall i :: k <= i < |base| ==> s <= base[i].value)
    && s <= cut <= e + 1
    && (k < |base| ==> cut <= base[k].value)
    && (if inside then cut == overlappingStart && base[k - 1].value <= cut <= e
        else k > 0 ==> base[k - 1].value < cut)
    && overlap == |Portion(Elements(base), s, cut)|
  }

  lemma WalkStart(base: seq<Edge>, s: nat, e: nat, k: nat, overlappingStart: nat)
    requires Canonical(base) && s <= e && k <= |base|
    requires forall i :: 0 <= i < k ==> base[i].value < s || (k % 2 == 1 && base[i].value == s)
    requires forall i :: k <= i < |base| ==> s <= base[i].value
    requires k % 2 == 1 ==> overlappingStart == s
    ensures Walked(base, s, e, k, k % 2 == 1, overlappingStart, 0, s)
  {
    assert Portion(Elements(base), s, s) == {};
  }

  /** One turn of the walk. */
  lemma WalkStep(base: seq<Edge>, s: nat, e: nat, k: nat, inside: bool, overlappingStart: nat,
                 overlap: nat, cut: nat)
    requires Walked(base, s, e, k, inside, overlappingStart, overlap, cut)
    requires k < |base| && base[k].value <= e
    ensures base[k].value + 1 >= overlappingStart || !inside
    ensures var v := base[k].value;
            if inside
            then Walked(base, s, e, k + 1, base[k].isStart, overlappingStart,
                        overlap + (v - overlappingStart + 1), v + 1)
            else Walked(base, s, e, k + 1, base[k].isStart, v, overlap, v)
  {
    var v := base[k].value;
    assert k + 1 < |base| ==> Before(base, k, k + 1);
    if inside {
      forall x: nat | cut <= x < v + 1 ensures x in Elements(base) {
        InsideCovered(base, k, x);
      }
      ExtendPortion(Elements(base), s, cut, v + 1);
    } else {
      forall x: nat | cut <= x < v ensures x !in Elements(base) {
        GapNotCovered(base, k, x);
      }
      SkipPortion(Elements(base), s, cut, v);
    }
  }

  /** When the walk has passed `e`, the overlap with [s, e] is known. */
  lemma WalkDone(base: seq<Edge>, s: nat, e: nat, k: nat, inside: bool, overlappingStart: nat,
                 overlap: nat, cut: nat)
    requires s <= e
    requires Walked(base, s, e, k, inside, overlappingStart, overlap, cut)
    requires k < |base| ==> e < base[k].value
    ensures SplitsBelow(base, k, e + 1)
    ensures inside ==> k < |base|
    ensures |Portion(Elements(base), s, e + 1)| == overlap + (if inside then e - overlappingStart + 1 else 0)
  {
    forall i | k <= i < |base| ensures e + 1 <= base[i].value {
      assert k < i ==> Before(base, k, i);
    }
    if inside {
      forall x: nat | cut <= x < e + 1 ensures x in Elements(base) {
        InsideCovered(base, k, x);
      }
      ExtendPortion(Elements(base), s, cut, e + 1);
    } else {
      forall x: nat | cut <= x < e + 1 ensures x !in Elements(base) {
        GapNotCovered(base, k, x);
      }
      SkipPortion(Elements(base), s, cut, e + 1);
    }
  }

  /** The left end of the interval an insertion produces: it starts at `a`, and
      the edges before index `p` stay. */
  ghost predicate Opens(base: seq<Edge>, s: nat, p: nat, a: nat) {
    && p <= |base| && p % 2 == 0 && a <= s
    && (forall i :: 0 <= i < p ==> base[i].value + 1 < a)
    && (forall i :: p <= i < |base| ==> a <= base[i].value)
    && (forall x :: a <= x < s ==> x in Elements(base))
  }

  /** The right end: it ends at `b`, and the edges from index `q` stay. */
  ghost predicate Closes(base: seq<Edge>, e: nat, q: nat, b: nat) {
    && q <= |base| && q % 2 == 0 && e <= b
    && (q < |base| ==> b + 1 < base[q].value)
    && (forall i :: 0 <= i < q ==> base[i].value <= b)
    && (forall x :: e < x <= b ==> x in Elements(base))
  }

  lemma OpensNew(base: seq<Edge>, s: nat, j: nat)
    requires Canonical(base) && SplitsBelow(base, j, s) && j % 2 == 0
    requires j > 0 ==> base[j - 1].value + 1 < s
    ensures Opens(base, s, j, s)
  {
    forall i | 0 <= i < j ensures base[i].value + 1 < s {
      assert i < j - 1 ==> Before(base, i, j - 1);
    }
  }

  /** Starting inside, or right after, the interval at edge `p`. */
  lemma OpensOld(base: seq<Edge>, s: nat, p: nat)
    requires Canonical(base) && p + 1 < |base| && p % 2 == 0
    requires base[p].value <= s <= base[p + 1].value + 1
    ensures Opens(base, s, p, base[p].value)
  {
    forall i | 0 <= i < p ensures base[i].value + 1 < base[p].value {
      assert Before(base, i, p);
    }
    forall i | p <= i < |base| ensures base[p].value <= base[i].value {
      assert p < i ==> Before(base, p, i);
    }
    forall x: nat | base[p].value <= x < s ensures x in Elements(base) {
      InsideCovered(base, p + 1, x);
    }
  }

  /** Starting below every edge. */
  lemma OpenFirst(base: seq<Edge>, s: nat, e: nat)
    requires Canonical(base) && s <= e && forall i :: 0 <= i < |base| ==> s < base[i].value
    ensures UpperBound(base, Edge(s, true)) == 0 && Opens(base, s, 0, s)
    ensures InsertAt(base, 0, Edge(s, true)) == base[..0] + [Edge(s, true)] + base[0..]
    ensures Walked(base, s, e, 0, false, 0, 0, s)
  {
    UpperBoundAt(base, Edge(s, true), 0);
    OpensNew(base, s, 0);
    WalkStart(base, s, e, 0, 0);
  }

  /** Starting inside the interval that edge `p` starts. */
  lemma OpenInside(base: seq<Edge>, s: nat, e: nat, p: nat)
    requires Canonical(base) && s <= e && p + 1 < |base| && base[p].isStart && s <= base[p + 1].value
    requires SplitsBelow(base, p + 1, s) || (p == 0 && base[0].value == s)
    ensures Opens(base, s, p, base[p].value) && base == base[..p] + [Edge(base[p].value, true)] + base[p + 1..]
    ensures Walked(base, s, e, p + 1, true, s, 0, s)
  {
    OpensOld(base, s, p);
    forall i | p + 1 <= i < |base| ensures s <= base[i].value {
      assert p + 1 < i ==> Before(base, p + 1, i);
    }
    WalkStart(base, s, e, p + 1, s);
  }

  lemma ClosesNew(base: seq<Edge>, e: nat, k: nat)
    requires Canonical(base) && SplitsBelow(base, k, e + 1) && k % 2 == 0
    requires k < |base| ==> e + 1 < base[k].value
    ensures Closes(base, e, k, e)
  {
  }

  /** Ending inside, or right before, the interval that edge `k` ends. */
  lemma ClosesOld(base: seq<Edge>, e: nat, k: nat)
    requires Canonical(base) && 0 < k < |base| && k % 2 == 1
    requires base[k - 1].value <= e + 1 && e <= base[k].value
    ensures Closes(base, e, k + 1, base[k].value)
  {
    assert k + 1 < |base| ==> Before(base, k, k + 1);
    forall i | 0 <= i < k + 1 ensures base[i].value <= base[k].value {
      assert i < k ==> Before(base, i, k);
    }
    forall x: nat | e < x <= base[k].value ensures x in Elements(base) {
      InsideCovered(base, k, x);
    }
  }

  /** The hint for the end edge is where it belongs. */
  lemma EndHint(pre: seq<Edge>, rest: seq<Edge>, e: nat)
    requires forall i :: 0 <= i < |pre| ==> Less(pre[i], Edge(e, false))
    requires rest != [] ==> e < rest[0].value
    ensures var es, key := pre + rest, Edge(e, false);
            InsertAt(es, HintPosition(es, |pre|, key), key) == pre + [key] + rest
  {
    var es, key := pre + rest, Edge(e, false);
    LowerBoundAt(es, key, |pre|);
    UpperBoundAt(es, key, |pre|);
    EditAt(pre, rest, key);
  }

  lemma InsertDone(base: seq<Edge>, s: nat, e: nat, p: nat, a: nat, q: nat, b: nat)
    requires Canonical(base) && s <= e && p <= q && Opens(base, s, p, a) && Closes(base, e, q, b)
    ensures var es := Merged(base, p, a, b, q);
            && Canonical(es) && Elements(es) == Elements(base) + Range(s, e)
            && |Elements(es)| == |Elements(base)| + (e - s + 1) - |Portion(Elements(base), s, e + 1)|
  {
    MergedElements(base, p, a, b, q, s, e);
  }

  lemma LowerBoundSplits(es: seq<Edge>, s: nat)
    requires Canonical(es)
    ensures SplitsBelow(es, LowerBound(es, Edge(s, true)), s)
  {
    var j := LowerBound(es, Edge(s, true));
    forall i | j <= i < |es| ensures s <= es[i].value {
      assert j < i ==> Before(es, j, i);
    }
  }

  lemma Reopened(pre: seq<Edge>, base: seq<Edge>, k: nat, e: nat)
    requires forall i :: 0 <= i < |pre| ==> pre[i].value <= e
    requires k < |base| && e < base[k].value && !base[k].isStart && k % 2 == 1
    ensures var es, key := pre + base[k..], Edge(e + 1, true);
            InsertAt(es, UpperBound(es, key), key) == pre + KeepAbove(base, k, e)
  {
    var es, key := pre + base[k..], Edge(e + 1, true);
    UpperBoundAt(es, key, |pre|);
    EditAt(pre, base[k..], key);
    assert pre + [key] + base[k..] == pre + ([key] + base[k..]);
  }

  /** insert(rhs) passes each edge's flag as the end of an interval: from an edge
      (v, flag) it asks for [v, 1] or [v, 0]. */
  predicate Orderly(edge: Edge) {
    edge.value <= FlagValue(edge.isStart)
  }

  function FlagValue(flag: bool): nat {
    if flag then 1 else 0
  }

  ghost function Wanted(edge: Edge): set<nat> {
    Range(edge.value, FlagValue(edge.isStart))
  }

  ghost predicate AllOrderly(es: seq<Edge>, n: nat)
    requires n <= |es|
  {
    n == 0 || (AllOrderly(es, n - 1) && Orderly(es[n - 1]))
  }

  lemma {:induction false} AllOrderlyAt(es: seq<Edge>, n: nat, i: nat)
    requires i < n <= |es| && AllOrderly(es, n)
    ensures Orderly(es[i])
  {
    if i < n - 1 {
      AllOrderlyAt(es, n - 1, i);
    }
  }

  lemma {:induction false} AllOrderlyFrom(es: seq<Edge>, n: nat)
    requires n <= |es| && forall i :: 0 <= i < n ==> Orderly(es[i])
    ensures AllOrderly(es, n)
  {
    if n > 0 {
      AllOrderlyFrom(es, n - 1);
    }
  }

  /** What the first `n` edges ask for. */
  ghost function Requested(es: seq<Edge>, n: nat): set<nat>
    requires n <= |es|
  {
    if n == 0 then {} else Requested(es, n - 1) + Wanted(es[n - 1])
  }

  lemma RequestedStep(es: seq<Edge>, i: nat, before: set<nat>, now: set<nat>)
    requires i < |es| && now == before + Requested(es, i)
    ensures now + Wanted(es[i]) == before + Requested(es, i + 1)
  {
  }

  /** All those intervals are well-formed only for the empty set and for {0}. */
  lemma OrderlyIff(es: seq<Edge>)
    requires Canonical(es)
    ensures AllOrderly(es, |es|) <==> Elements(es) <= {0}
  {
    if AllOrderly(es, |es|) {
      OrderlyMeans(es);
    }
    if Elements(es) <= {0} {
      forall i | 0 <= i < |es| ensures Orderly(es[i]) {
        var k := if es[i].isStart then i else i - 1;
        assert Before(es, k, k + 1);
        assert Spans(es, k, es[i].value);
        assert es[i].value in Elements(es);
      }
      AllOrderlyFrom(es, |es|);
    }
  }

  lemma OrderlyMeans(es: seq<Edge>)
    requires Canonical(es) && AllOrderly(es, |es|)
    ensures Elements(es) == (if es == [] then {} else {0})
    ensures Requested(es, |es|) == (if es == [] then {} else {0, 1})
  {
    if es == [] {
      assert Elements(es) == {};
    } else {
      AllOrderlyAt(es, |es|, 1);
      assert |es| > 2 ==> Before(es, 1, 2);
      if |es| > 2 {
        AllOrderlyAt(es, |es|, 2);
      }
      assert |es| == 2 && Before(es, 0, 1);
      assert es == [Edge(0, true), Edge(0, false)];
      SingleInterval(0, 0);
      RequestedFromZero();
    }
  }

  lemma RequestedFromZero()
    ensures Range(0, 0) == {0}
    ensures Requested([Edge(0, true), Edge(0, false)], 2) == {0, 1}
  {
    var es := [Edge(0, true), Edge(0, false)];
    assert Requested(es, 1) == Requested(es, 0) + Range(0, 1);
    assert Requested(es, 2) == Requested(es, 1) + Range(0, 0);
    assert Range(0, 1) == {0, 1};
  }

  lemma SomethingStored(es: seq<Edge>)
    requires Canonical(es)
    ensures Elements(es) == {} <==> es == []
  {
    if es != [] {
      assert Before(es, 0, 1);
      assert Spans(es, 0, es[0].value);
      assert es[0].value in Elements(es);
    } else {
      assert forall x: nat :: x !in Elements(es);
    }
  }

  /** The first edge is where the smallest element is. */
  lemma FirstStays(es: seq<Edge>, fs: seq<Edge>)
    requires Canonical(es) && es != [] && Canonical(fs) && Elements(fs) == Elements(es) + Wanted(es[0])
    ensures fs != [] && fs[0] == es[0]
  {
    FirstIsSmallest(es);
    assert es[0].value in Elements(fs);
    SomethingStored(fs);
    FirstIsSmallest(fs);
  }

  lemma FirstIsSmallest(es: seq<Edge>)
    requires Canonical(es) && es != []
    ensures es[0].value in Elements(es) && forall x :: x in Elements(es) ==> es[0].value <= x
  {
    assert Before(es, 0, 1);
    assert Spans(es, 0, es[0].value);
    forall x: nat | x in Elements(es) ensures es[0].value <= x {
      var i :| Spans(es, i, x);
      assert i > 0 ==> Before(es, 0, i);
    }
  }

  /** Where 1 is stored the first interval ends above 0. */
  lemma FirstEnd(es: seq<Edge>)
    requires Canonical(es)
    ensures 1 in Elements(es) ==> |es| >= 2 && !Orderly(es[1])
  {
    if 1 in Elements(es) {
      var i :| Spans(es, i, 1);
      assert i > 1 ==> Before(es, 1, i);
    }
  }

  /** What arrives is the union only when the 1 was there before. */
  lemma ArrivesAsUnionIff(t: set<nat>, r: set<nat>)
    requires r <= {0}
    ensures t + (if r == {} then {} else {0, 1}) == t + r <==> r == {} || (r == {0} && 1 in t)
  {
    if r != {} {
      var x :| x in r;
      assert r == {0};
      assert 1 in t + {0, 1};
    }
  }

  class Set {
    var edges: seq<Edge>
    var size: nat

    ghost predicate Valid() reads this {
      Canonical(edges) && size == |Elements(edges)|
    }

    /** The mathematical set this container stands for. */
    ghost function Model(): set<nat> reads this {
      Elements(edges)
    }

    constructor ()
      ensures Valid() && Model() == {}
    {
      edges, size := [], 0;
    }

    /** insert(startElement, endElement) */
    method Insert(s: nat, e: nat)
      requires Valid() && s <= e
      modifies this
      ensures Valid() && Model() == old(Model()) + Range(s, e)
    {
      if edges == [] {
        InsertFirst(s, e);
        return;
      }
      ghost var base := edges;
      var position, fallsInside, overlappingStart, p, a, k := OpenStart(s, e);
      var overlap;
      ghost var q, b;
      position, fallsInside, overlappingStart, overlap, k :=
        Walk(s, e, position, fallsInside, overlappingStart, base, k);
      overlap, q, b := CloseEnd(s, e, position, fallsInside, overlappingStart, overlap, base, p, a, k);
      InsertDone(base, s, e, p, a, q, b);
      size := size + (e - s + 1) - overlap;
    }

    method InsertFirst(s: nat, e: nat)
      requires edges == [] && s <= e
      modifies this
      ensures Valid() && Model() == old(Model()) + Range(s, e)
    {
      assert Model() == {};
      edges := InsertAt(edges, UpperBound(edges, Edge(s, true)), Edge(s, true));
      edges := InsertAt(edges, UpperBound(edges, Edge(e, false)), Edge(e, false));
      size := e - s + 1;
      assert edges == [Edge(s, true), Edge(e, false)];
      SingleInterval(s, e);
    }

    /** The first part of insert: find the last edge below `s` (or the first edge
        when it equals `s`) and put the start edge where one is needed. */
    method OpenStart(s: nat, e: nat)
      returns (position: nat, fallsInside: bool, overlappingStart: nat, ghost p: nat, ghost a: nat, ghost k: nat)
      requires Canonical(edges) && edges != [] && s <= e
      modifies this`edges
      ensures Opens(old(edges), s, p, a) && position == p + 1 && p <= k <= |old(edges)|
      ensures edges == old(edges)[..p] + [Edge(a, true)] + old(edges)[k..]
      ensures Walked(old(edges), s, e, k, fallsInside, overlappingStart, 0, s)
    {
      var startValue := Edge(s, true);
      ghost var base := edges;
      overlappingStart := 0;
      var previous := PreviousToStart(s);
      var end := |edges|;
      if previous == end {
        OpenFirst(base, s, e);
        position := UpperBound(edges, startValue);
        edges := InsertAt(edges, position, startValue);
        fallsInside := false;
        p, a, k := 0, s, 0;
      } else if !edges[previous].isStart {
        position, p, a, k := OpenBehind(s, previous);
        fallsInside := false;
        WalkStart(base, s, e, k, overlappingStart);
      } else {
        position := previous;
        fallsInside := true;
        overlappingStart := s;
        p, a, k := previous, base[previous].value, previous + 1;
        OpenInside(base, s, e, p);
      }
      position := position + 1;
    }

    /** Starting behind the interval that edge `previous` ends. */
    method OpenBehind(s: nat, previous: nat) returns (position: nat, ghost p: nat, ghost a: nat, ghost k: nat)
      requires Canonical(edges) && previous < |edges| && !edges[previous].isStart
      requires SplitsBelow(edges, previous + 1, s)
      modifies this`edges
      ensures Opens(old(edges), s, p, a) && position == p && p <= k == previous + 1
      ensures edges == old(edges)[..p] + [Edge(a, true)] + old(edges)[k..]
    {
      ghost var base := edges;
      k := previous + 1;
      if edges[previous].value + 1 == s {
        // Right behind it: drop the end to fuse both.
        position := previous - 1;
        edges := RemoveAt(edges, previous);
        p, a := previous - 1, base[previous - 1].value;
        assert Before(base, previous - 1, previous);
        assert base[..previous] == base[..p] + [base[p]];
        OpensOld(base, s, p);
      } else {
        LowerBoundAt(edges, Edge(s, true), previous + 1);
        position := HintPosition(edges, previous, Edge(s, true));
        edges := InsertAt(edges, position, Edge(s, true));
        p, a := previous + 1, s;
        OpensNew(base, s, p);
      }
    }

    method PreviousToStart(s: nat) returns (previous: nat)
      requires Canonical(edges) && edges != []
      ensures previous <= |edges|
      ensures previous == |edges| ==> forall i :: 0 <= i < |edges| ==> s < edges[i].value
      ensures previous < |edges| ==>
                SplitsBelow(edges, previous + 1, s) || (previous == 0 && edges[0].value == s)
      ensures previous < |edges| && edges[previous].isStart ==> s <= edges[previous + 1].value
    {
      var end := |edges|;
      previous := LowerBound(edges, Edge(s, true));
      LowerBoundSplits(edges, s);
      forall i | 0 < i < end ensures edges[0].value <= edges[i].value {
        assert Before(edges, 0, i);
      }
      if previous != end {
        if previous == 0 {
          if s < edges[0].value {
            previous := end;
          }
        } else {
          previous := previous - 1;
        }
      } else {
        previous := end - 1;
      }
    }

    /** The loop shared by insert and erase: remove every edge up to `e`, adding
        up how much of [s, e] the removed intervals held. */
    method Walk(s: nat, e: nat, position0: nat, inside0: bool, overlappingStart0: nat,
                ghost base: seq<Edge>, ghost k0: nat)
      returns (position: nat, inside: bool, overlappingStart: nat, overlap: nat, ghost k: nat)
      requires s <= e && position0 <= |edges| && k0 <= |base|
      requires edges[position0..] == base[k0..]
      requires Walked(base, s, e, k0, inside0, overlappingStart0, 0, s)
      modifies this`edges
      ensures position == position0 && k0 <= k <= |base|
      ensures edges == old(edges)[..position] + base[k..]
      ensures inside == (k % 2 == 1) && (inside ==> k < |base|)
      ensures SplitsBelow(base, k, e + 1)
      ensures inside ==> overlappingStart <= e
      ensures |Portion(Elements(base), s, e + 1)| == overlap + (if inside then e - overlappingStart + 1 else 0)
    {
      position, inside, overlappingStart, overlap, k := position0, inside0, overlappingStart0, 0, k0;
      ghost var pre, cut: nat := edges[..position], s;
      while position != |edges| && edges[position].value <= e
        invariant position == |pre| <= |edges| && k0 <= k <= |base|
        invariant edges == pre + base[k..]
        invariant Walked(base, s, e, k, inside, overlappingStart, overlap, cut)
        decreases |edges|
      {
        inside, overlappingStart, overlap, cut :=
          WalkOver(s, e, position, inside, overlappingStart, overlap, base, k, pre, cut);
        k := k + 1;
      }
      assert k < |base| ==> edges[position] == base[k];
      WalkDone(base, s, e, k, inside, overlappingStart, overlap, cut);
    }

    /** One turn of that loop. */
    method WalkOver(s: nat, e: nat, position: nat, inside0: bool, overlappingStart0: nat, overlap0: nat,
                    ghost base: seq<Edge>, ghost k: nat, ghost pre: seq<Edge>, ghost cut0: nat)
      returns (inside: bool, overlappingStart: nat, overlap: nat, ghost cut: nat)
      requires position == |pre| < |edges| && k < |base| && edges == pre + base[k..]
      requires Walked(base, s, e, k, inside0, overlappingStart0, overlap0, cut0)
      requires base[k].value <= e
      modifies this`edges
      ensures edges == pre + base[k + 1..]
      ensures Walked(base, s, e, k + 1, inside, overlappingStart, overlap, cut)
    {
      inside, overlappingStart, overlap, cut := inside0, overlappingStart0, overlap0, cut0;
      assert edges[position] == base[k];
      WalkStep(base, s, e, k, inside, overlappingStart, overlap, cut);
      if inside {
        overlap := overlap + (edges[position].value - overlappingStart + 1);
        cut := base[k].value + 1;
      } else {
        overlappingStart := edges[position].value;
        cut := base[k].value;
      }
      inside := edges[position].isStart;
      EditAt(pre, base[k..], edges[position]);
      edges := RemoveAt(edges, position);
    }

    /** The last part of insert: put the end edge where one is needed. */
    method CloseEnd(s: nat, e: nat, position: nat, fallsInside: bool, overlappingStart: nat, overlap0: nat,
                    ghost base: seq<Edge>, ghost p: nat, ghost a: nat, ghost k: nat)
      returns (overlap: nat, ghost q: nat, ghost b: nat)
      requires Canonical(base) && s <= e && p <= k <= |base| && position == p + 1
      requires a <= s && edges == base[..p] + [Edge(a, true)] + base[k..]
      requires SplitsBelow(base, k, e + 1) && (forall i :: 0 <= i < p ==> base[i].value + 1 < a)
      requires fallsInside == (k % 2 == 1) && (fallsInside ==> k < |base| && overlappingStart <= e)
      modifies this`edges
      ensures Closes(base, e, q, b) && p <= q
      ensures edges == Merged(base, p, a, b, q)
      ensures overlap == overlap0 + (if fallsInside then e - overlappingStart + 1 else 0)
    {
      overlap := overlap0;
      ghost var pre := base[..p] + [Edge(a, true)];
      assert k < |base| ==> edges[position] == base[k];
      if position != |edges| && edges[position].isStart && edges[position].value == e + 1 {
        // Right before the next interval: drop its start to fuse both.
        EditAt(pre, base[k..], edges[position]);
        edges := RemoveAt(edges, position);
        q, b := k + 2, base[k + 1].value;
        assert base[k..][1..] == base[k + 1..];
        assert Before(base, k, k + 1);
        ClosesOld(base, e, k + 1);
      } else if !fallsInside {
        EndHint(pre, base[k..], e);
        edges := InsertAt(edges, HintPosition(edges, position, Edge(e, false)), Edge(e, false));
        q, b := k, e;
        ClosesNew(base, e, k);
      } else {
        overlap := overlap + (e - overlappingStart + 1);
        q, b := k + 1, base[k].value;
        ClosesOld(base, e, k);
      }
      MergedShape(base, p, a, b, q);
    }

    /** erase(startElement, endElement) */
    method Erase(s: nat, e: nat)
      requires Valid() && s <= e
      modifies this
      ensures Valid() && Model() == old(Model()) - Range(s, e)
    {
      if edges == [] {
        return;
      }
      var next := LowerBound(edges, Edge(s, true));
      LowerBoundSplits(edges, s);
      var previous := next;
      if next == 0 {
        previous := |edges|;
      } else if next == |edges| {
        // Nothing to remove here.
        NothingAbove(edges, s, e);
        return;
      } else {
        previous := previous - 1;
      }
      EraseFrom(s, e, next, previous);
    }

    method EraseFrom(s: nat, e: nat, next: nat, previous: nat)
      requires Valid() && s <= e
      requires SplitsBelow(edges, next, s) && next < |edges|
      requires previous == if next == 0 then |edges| else next - 1
      modifies this
      ensures Valid() && Model() == old(Model()) - Range(s, e)
    {
      ghost var base := edges;
      var position, inside, overlappingStart := CutStart(s, e, next, previous);
      ghost var pre := KeepBelow(base, next, s);
      assert edges[..position] == pre;
      var overlap;
      ghost var k;
      position, inside, overlappingStart, overlap, k :=
        Walk(s, e, position, inside, overlappingStart, base, next);
      KeepBelowCanonical(base, next, s);
      assert forall i :: 0 <= i < position ==> edges[i] == pre[i];
      overlap := ReopenEnd(e, position, inside, overlappingStart, overlap, base, k);
      KeptElements(base, next, k, s, e);
      size := size - overlap;
    }

    /** The first part of erase: close the interval that is being cut, if any. */
    method CutStart(s: nat, e: nat, next: nat, previous: nat)
      returns (position: nat, inside: bool, overlappingStart: nat)
      requires Canonical(edges) && edges != [] && s <= e
      requires SplitsBelow(edges, next, s) && next < |edges|
      requires previous == if next == 0 then |edges| else next - 1
      modifies this`edges
      ensures position == |KeepBelow(old(edges), next, s)|
      ensures edges == KeepBelow(old(edges), next, s) + old(edges)[next..]
      ensures Walked(old(edges), s, e, next, inside, overlappingStart, 0, s)
    {
      ghost var base := edges;
      overlappingStart := 0;
      if previous != |edges| {
        if edges[previous].isStart {
          UpperBoundAt(edges, Edge(s - 1, false), next);
          position := UpperBound(edges, Edge(s - 1, false));
          edges := InsertAt(edges, position, Edge(s - 1, false));
          inside := true;
          overlappingStart := s;
        } else {
          position := previous;
          inside := false;
        }
        position := position + 1;
      } else {
        inside := false;
        position := 0;
        overlappingStart := edges[position].value;
      }
      WalkStart(base, s, e, next, overlappingStart);
    }

    /** The last part of erase: reopen the interval that was cut, if any. */
    method ReopenEnd(e: nat, position: nat, inside: bool, overlappingStart: nat, overlap0: nat,
                     ghost base: seq<Edge>, ghost k: nat)
      returns (overlap: nat)
      requires position <= |edges| && k <= |base| && edges[position..] == base[k..]
      requires forall i :: 0 <= i < position ==> edges[i].value <= e
      requires SplitsBelow(base, k, e + 1)
      requires inside == (k % 2 == 1) && (inside ==> k < |base| && !base[k].isStart && overlappingStart <= e)
      modifies this`edges
      ensures edges == old(edges)[..position] + KeepAbove(base, k, e)
      ensures overlap == overlap0 + (if inside then e - overlappingStart + 1 else 0)
    {
      overlap := overlap0;
      if inside {
        assert edges == edges[..position] + base[k..];
        Reopened(edges[..position], base, k, e);
        edges := InsertAt(edges, UpperBound(edges, Edge(e + 1, true)), Edge(e + 1, true));
        overlap := overlap + (e - overlappingStart + 1);
      }
    }

    /** find(element): an iterator on the element, or end(). */
    method Find(x: nat) returns (it: Cursor)
      requires Valid()
      ensures OnElement(edges, it)
      ensures if x in Model() then it.startEdge < |edges| && it.value == x else Equal(edges, it, End(edges))
    {
      if edges == [] {
        return End(edges);
      }
      var next := LowerBound(edges, Edge(x, false));
      FindSplits(edges, x);
      if next == |edges| || next == 0 {
        return End(edges);
      }
      var previous := next - 1;
      if edges[previous].isStart {
        return Cursor(x, previous);
      }
      return End(edges);
    }

    /** exists(element) */
    method Exists(x: nat) returns (b: bool)
      requires Valid()
      ensures b <==> x in Model()
    {
      var it := Find(x);
      b := !Equal(edges, it, End(edges));
    }

    /** insert(rhs), with assertions enabled: the one in insert(start, end) stops it
        unless `rhs` is empty or another set {0}, and then {0} arrives as {0, 1}. */
    method InsertSet(rhs: Set) returns (stopped: bool)
      requires Valid() && rhs.Valid()
      modifies this
      ensures stopped <==> if rhs == this then old(Model()) != {} else !(rhs.Model() <= {0})
      ensures !stopped ==> Valid() && Model() == old(Model()) + (if old(rhs.Model()) == {} then {} else {0, 1})
      ensures !stopped && Model() == old(Model()) + old(rhs.Model()) <==>
              old(rhs.Model()) == {} || (rhs != this && old(rhs.Model()) == {0} && 1 in old(Model()))
    {
      if rhs == this {
        stopped := InsertItself();
        return;
      }
      OrderlyIff(rhs.edges);
      stopped := InsertEdges(rhs.edges);
      if !stopped {
        OrderlyMeans(rhs.edges);
        ArrivesAsUnionIff(old(Model()), rhs.Model());
      }
    }

    /** The same loop over the edges it is changing. The first start edge stays where
        it is, so the edge after it is an end, and asks for an interval down to 0. */
    method InsertItself() returns (stopped: bool)
      requires Valid()
      modifies this
      ensures stopped <==> old(Model()) != {}
      ensures !stopped ==> Valid() && Model() == old(Model())
    {
      SomethingStored(edges);
      var i := 0;
      while i < |edges|
        invariant Valid() && 0 <= i <= 1
        invariant i == 0 ==> edges == old(edges)
        invariant i == 1 ==> old(edges) != [] && |edges| >= 2 && edges[0] == old(edges)[0] && !Orderly(edges[1])
        decreases 2 - i
      {
        stopped := InsertFlagged(edges[i]);
        if stopped {
          return;
        }
        FirstEnd(edges);
        FirstStays(old(edges), edges);
        i := i + 1;
      }
      stopped := false;
    }

    method InsertFlagged(edge: Edge) returns (stopped: bool)
      requires Valid()
      modifies this
      ensures stopped <==> !Orderly(edge)
      ensures !stopped ==> Valid() && Model() == old(Model()) + Wanted(edge)
    {
      if edge.value > FlagValue(edge.isStart) {
        return true;
      }
      Insert(edge.value, FlagValue(edge.isStart));
      stopped := false;
    }

    method InsertEdges(es: seq<Edge>) returns (stopped: bool)
      requires Valid()
      modifies this
      ensures !stopped <==> AllOrderly(es, |es|)
      ensures !stopped ==> Valid() && Model() == old(Model()) + Requested(es, |es|)
    {
      ghost var before, now := Model(), Model();
      for i := 0 to |es|
        invariant Valid() && Model() == now == before + Requested(es, i)
        invariant AllOrderly(es, i)
      {
        stopped := InsertFlagged(es[i]);
        if stopped {
          if AllOrderly(es, |es|) {
            AllOrderlyAt(es, |es|, i);
          }
          return;
        }
        RequestedStep(es, i, before, now);
        now := Model();
      }
      stopped := false;
    }

    /** swap(rhs): only the edges change hands, so both caches stay right just
        when the two sets are equally large. */
    method Swap(rhs: Set)
      requires Valid() && rhs.Valid()
      modifies this`edges, rhs`edges
      ensures Model() == old(rhs.Model()) && rhs.Model() == old(Model())
      ensures Valid() && rhs.Valid() <==> |old(Model())| == |old(rhs.Model())|
    {
      var intervals := edges;
      edges := rhs.edges;
      rhs.edges := intervals;
    }

    /** clear() */
    method Clear()
      modifies this
      ensures Valid() && Model() == {}
    {
      edges, size := [], 0;
    }
  }

  method Singleton(x: nat) returns (r: Set)
    ensures fresh(r) && r.Valid() && r.Model() == {x}
  {
    r := new Set();
    r.Insert(x, x);
    assert Range(x, x) == {x};
  }

  /** Swapping {5} with the empty set leaves a wrong size behind. */
  method SwapGoesWrong() returns (a: Set, b: Set)
    ensures a.Model() == {} && b.Model() == {5} && !(a.Valid() && b.Valid())
  {
    a := Singleton(5);
    b := new Set();
    a.Swap(b);
  }

  /** Inserting the set {0} into the empty set makes it {0, 1}. */
  method InsertSetAddsTooMuch() returns (a: Set, b: Set, stopped: bool)
    ensures !stopped && b.Model() == {0} && a.Model() == {0, 1}
  {
    a := new Set();
    b := Singleton(0);
    stopped := a.InsertSet(b);
  }

  /** Inserting the set {5} runs into the assertion. */
  method InsertSetStops() returns (b: Set, stopped: bool)
    ensures stopped && b.Model() == {5}
  {
    var a := new Set();
    b := Singleton(5);
    assert 5 in b.Model();
    stopped := a.InsertSet(b);
  }
}
