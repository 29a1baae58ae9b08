/** The edge list of lunchbox::IntervalSet: its ordering, its canonical form and
    the set of naturals it stands for. */
module IntervalEdges {

  /** One boundary of a closed interval. */
  datatype Edge = Edge(value: nat, isStart: bool)

  /** EdgeCompare: at equal values a start precedes an end. */
  predicate Less(p: Edge, q: Edge) {
    p.value < q.value || (p.value == q.value && p.isStart && !q.isStart)
  }

  /** std::multiset::lower_bound: the first edge not before `key`. */
  function LowerBound(es: seq<Edge>, key: Edge): (i: nat)
    ensures i <= |es|
    ensures forall j :: 0 <= j < i ==> Less(es[j], key)
    ensures i < |es| ==> !Less(es[i], key)
  {
    if es == [] || !Less(es[0], key) then 0 else 1 + LowerBound(es[1..], key)
  }

  /** std::multiset::upper_bound: the first edge after `key`. */
  function UpperBound(es: seq<Edge>, key: Edge): (i: nat)
    ensures i <= |es|
    ensures forall j :: 0 <= j < i ==> !Less(key, es[j])
    ensures i < |es| ==> Less(key, es[i])
  {
    if es == [] || Less(key, es[0]) then 0 else 1 + UpperBound(es[1..], key)
  }

  /** Where std::multiset::insert with a hint puts `key`: as close as the order
      allows to the place just before the hint. */
  function HintPosition(es: seq<Edge>, hint: nat, key: Edge): (i: nat)
    requires hint <= |es|
    ensures i <= |es|
  {
    if hint < LowerBound(es, key) then LowerBound(es, key)
    else if hint > UpperBound(es, key) then UpperBound(es, key)
    else hint
  }

  function InsertAt(es: seq<Edge>, i: nat, key: Edge): (r: seq<Edge>)
    requires i <= |es|
    ensures |r| == |es| + 1
  {
    es[..i] + [key] + es[i..]
  }

  function RemoveAt(es: seq<Edge>, i: nat): (r: seq<Edge>)
    requires i < |es|
    ensures |r| == |es| - 1
  {
    es[..i] + es[i + 1..]
  }

  lemma LowerBoundAt(es: seq<Edge>, key: Edge, i: nat)
    requires i <= |es|
    requires forall j :: 0 <= j < i ==> Less(es[j], key)
    requires i < |es| ==> !Less(es[i], key)
    ensures LowerBound(es, key) == i
  {
  }

  lemma UpperBoundAt(es: seq<Edge>, key: Edge, i: nat)
    requires i <= |es|
    requires forall j :: 0 <= j < i ==> !Less(key, es[j])
    requires i < |es| ==> Less(key, es[i])
    ensures UpperBound(es, key) == i
  {
  }

  lemma EditAt(pre: seq<Edge>, rest: seq<Edge>, key: Edge)
    ensures InsertAt(pre + rest, |pre|, key) == pre + [key] + rest
    ensures rest != [] ==> RemoveAt(pre + rest, |pre|) == pre + rest[1..]
  {
  }

  /** Edge `i` comes before edge `j`: an interval may be a single natural, any
      other two edges have a natural between them. */
  ghost predicate Before(es: seq<Edge>, i: int, j: int)
    requires 0 <= i < j < |es|
  {
    if es[i].isStart && !es[j].isStart then es[i].value <= es[j].value
    else es[i].value + 1 < es[j].value
  }

  ghost predicate Alternates(es: seq<Edge>) {
    |es| % 2 == 0 && forall i :: 0 <= i < |es| ==> es[i].isStart == (i % 2 == 0)
  }

  /** Starts and ends alternate, intervals are non-empty, and consecutive
      intervals leave at least one natural out, so every interval is maximal. */
  ghost predicate Canonical(es: seq<Edge>) {
    && Alternates(es)
    && (forall i, j :: 0 <= i < j < |es| ==> Before(es, i, j))
  }

  /** `x` lies in the interval that starts at edge `i`. */
  ghost predicate Spans(es: seq<Edge>, i: int, x: nat) {
    0 <= i < |es| - 1 && es[i].isStart && es[i].value <= x <= es[i + 1].value
  }

  ghost predicate Covers(es: seq<Edge>, x: nat) {
    exists i :: Spans(es, i, x)
  }

  /** The set of naturals the edge list denotes. */
  ghost function Elements(es: seq<Edge>): (r: set<nat>)
    ensures forall x :: x in r <==> Covers(es, x)
  {
    set i: nat, x: nat | 0 <= i < |es| - 1 && es[i].value <= x <= es[i + 1].value && Spans(es, i, x) :: x
  }

  /** The closed interval [lo, hi]. */
  ghost function Range(lo: nat, hi: nat): (r: set<nat>)
    ensures forall x :: x in r <==> lo <= x <= hi
  {
    set x: nat | lo <= x <= hi && Between(lo, x, hi)
  }

  ghost predicate Between(lo: nat, x: nat, hi: nat) {
    lo <= x <= hi
  }

  lemma {:induction false} RangeSize(lo: nat, hi: nat)
    requires lo <= hi + 1
    ensures |Range(lo, hi)| == hi - lo + 1
    decreases hi + 1 - lo
  {
    if lo <= hi {
      RangeSize(lo + 1, hi);
      assert Range(lo, hi) == {lo} + Range(lo + 1, hi);
    } else {
      assert Range(lo, hi) == {};
    }
  }

  lemma DisjointSize(a: set<nat>, b: set<nat>)
    requires a !! b
    ensures |a + b| == |a| + |b|
  {
  }

  /** Between two intervals nothing is stored. */
  lemma GapNotCovered(es: seq<Edge>, k: nat, x: nat)
    requires Canonical(es) && k <= |es| && k % 2 == 0
    requires k > 0 ==> es[k - 1].value < x
    requires k < |es| ==> x < es[k].value
    ensures !Covers(es, x)
  {
    forall i ensures !Spans(es, i, x) {
      if 0 <= i < |es| - 1 && es[i].isStart {
        if i < k {
          assert i + 1 < k - 1 ==> Before(es, i + 1, k - 1);
        } else {
          assert k < i ==> Before(es, k, i);
        }
      }
    }
  }

  /** Inside an interval everything is stored. */
  lemma InsideCovered(es: seq<Edge>, k: nat, x: nat)
    requires Canonical(es) && 0 < k < |es| && k % 2 == 1
    requires es[k - 1].value <= x <= es[k].value
    ensures Covers(es, x)
  {
    assert Spans(es, k - 1, x);
  }

  /** The members of `s` in [lo, hi). */
  ghost function Portion(s: set<nat>, lo: nat, hi: nat): (r: set<nat>)
    ensures forall x :: x in r <==> lo <= x < hi && x in s
  {
    set x | x in s && lo <= x < hi
  }

  /** Counting past one stored run adds its length. */
  lemma ExtendPortion(s: set<nat>, lo: nat, mid: nat, hi: nat)
    requires lo <= mid <= hi
    requires forall x :: mid <= x < hi ==> x in s
    ensures |Portion(s, lo, hi)| == |Portion(s, lo, mid)| + (hi - mid)
  {
    if mid < hi {
      RangeSize(mid, hi - 1);
      var kept, added := Portion(s, lo, mid), Range(mid, hi - 1);
      forall x: nat ensures x in Portion(s, lo, hi) <==> x in kept || x in added {
      }
      assert Portion(s, lo, hi) == kept + added;
      DisjointSize(kept, added);
    }
  }

  /** Counting past a gap adds nothing. */
  lemma SkipPortion(s: set<nat>, lo: nat, mid: nat, hi: nat)
    requires lo <= mid <= hi
    requires forall x :: mid <= x < hi ==> x !in s
    ensures Portion(s, lo, hi) == Portion(s, lo, mid)
  {
  }

  /** Adding or removing [s, e] changes the cardinality by what [s, e] shares. */
  lemma RangeCardinalities(t: set<nat>, s: nat, e: nat)
    requires s <= e
    ensures |t + Range(s, e)| == |t| + (e - s + 1) - |Portion(t, s, e + 1)|
    ensures |t - Range(s, e)| == |t| - |Portion(t, s, e + 1)|
  {
    RangeSize(s, e);
    assert Portion(t, s, e + 1) == t * Range(s, e);
  }

  /** Two canonical lists side by side denote the union of what each denotes. */
  lemma ConcatCovers(l: seq<Edge>, r: seq<Edge>, x: nat)
    requires Alternates(l)
    ensures Covers(l + r, x) <==> Covers(l, x) || Covers(r, x)
  {
    if Covers(l, x) {
      var i :| Spans(l, i, x);
      assert Spans(l + r, i, x);
    }
    if Covers(r, x) {
      var i :| Spans(r, i, x);
      assert Spans(l + r, |l| + i, x);
    }
    if Covers(l + r, x) {
      var i :| Spans(l + r, i, x);
      if i < |l| {
        assert Spans(l, i, x);
      } else {
        assert Spans(r, i - |l|, x);
      }
    }
  }

  /** What an insertion leaves behind: the intervals before and after stay, and
      one interval [a, b] replaces everything it touches. */
  ghost function Merged(es: seq<Edge>, p: nat, a: nat, b: nat, q: nat): seq<Edge>
    requires p <= q <= |es|
  {
    es[..p] + [Edge(a, true), Edge(b, false)] + es[q..]
  }

  /** The edits that lead to a merged list. */
  lemma MergedShape(es: seq<Edge>, p: nat, a: nat, b: nat, q: nat)
    requires p <= q <= |es|
    ensures es[..p] + [Edge(a, true)] + [Edge(b, false)] + es[q..] == Merged(es, p, a, b, q)
    ensures p < q && es[q - 1] == Edge(b, false) ==>
              es[..p] + [Edge(a, true)] + es[q - 1..] == Merged(es, p, a, b, q)
  {
    if p < q {
      assert es[q - 1..] == [es[q - 1]] + es[q..];
    }
  }

  ghost predicate Fits(es: seq<Edge>, p: nat, a: nat, b: nat, q: nat) {
    && p <= q <= |es| && p % 2 == 0 && q % 2 == 0 && a <= b
    && (p > 0 ==> es[p - 1].value + 1 < a)
    && (q < |es| ==> b + 1 < es[q].value)
    && (forall i :: p <= i < q ==> a <= es[i].value <= b)
  }

  /** Canonical lists with room between them make a canonical list. */
  lemma ConcatCanonical(l: seq<Edge>, r: seq<Edge>)
    requires Canonical(l) && Canonical(r)
    requires forall i, j :: 0 <= i < |l| && 0 <= j < |r| ==> l[i].value + 1 < r[j].value
    ensures Canonical(l + r)
  {
    var n := l + r;
    assert forall i :: 0 <= i < |n| ==> n[i] == if i < |l| then l[i] else r[i - |l|];
    forall i, j | 0 <= i < j < |n| ensures Before(n, i, j) {
      if j < |l| {
        assert Before(l, i, j);
      } else if |l| <= i {
        assert Before(r, i - |l|, j - |l|);
      }
    }
  }

  lemma SliceCanonical(es: seq<Edge>, p: nat, q: nat)
    requires Canonical(es) && p <= q <= |es| && p % 2 == 0 && q % 2 == 0
    ensures Canonical(es[p..q])
  {
    var n := es[p..q];
    assert forall i :: 0 <= i < |n| ==> n[i] == es[p + i];
    forall i, j | 0 <= i < j < |n| ensures Before(n, i, j) {
      assert Before(es, p + i, p + j);
    }
  }

  lemma MergedCanonical(es: seq<Edge>, p: nat, a: nat, b: nat, q: nat)
    requires Canonical(es) && Fits(es, p, a, b, q)
    ensures Canonical(Merged(es, p, a, b, q))
  {
    var l, m, r := es[..p], [Edge(a, true), Edge(b, false)], es[q..];
    SliceCanonical(es, 0, p);
    SliceCanonical(es, q, |es|);
    assert es[q..|es|] == r && es[0..p] == l;
    forall i | 0 <= i < |l| ensures l[i].value + 1 < a {
      assert i < p - 1 ==> Before(es, i, p - 1);
    }
    forall j | 0 <= j < |r| ensures b + 1 < r[j].value {
      assert r[j] == es[q + j];
      assert j > 0 ==> Before(es, q, q + j);
    }
    ConcatCanonical(l, m);
    ConcatCanonical(l + m, r);
  }

  lemma MergedCovers(es: seq<Edge>, p: nat, a: nat, b: nat, q: nat, x: nat)
    requires Canonical(es) && Fits(es, p, a, b, q)
    ensures Covers(Merged(es, p, a, b, q), x) <==> Covers(es, x) || a <= x <= b
  {
    var mid := es[p..q];
    SliceCanonical(es, 0, p);
    SliceCanonical(es, p, q);
    ThreeCovers(es[..p], [Edge(a, true), Edge(b, false)], es[q..], x);
    PairCovers(a, b, x);
    assert es == es[..p] + mid + es[q..];
    ThreeCovers(es[..p], mid, es[q..], x);
    SliceWithin(es, p, q, a, b, x);
  }

  /** What a slice stores lies between its smallest and its largest edge. */
  lemma SliceWithin(es: seq<Edge>, p: nat, q: nat, lo: nat, hi: nat, x: nat)
    requires p <= q <= |es|
    requires forall i :: p <= i < q ==> lo <= es[i].value <= hi
    ensures Covers(es[p..q], x) ==> lo <= x <= hi
  {
    if Covers(es[p..q], x) {
      var i :| Spans(es[p..q], i, x);
      assert es[p..q][i] == es[p + i] && es[p..q][i + 1] == es[p + i + 1];
    }
  }

  lemma AlternatesConcat(l: seq<Edge>, r: seq<Edge>)
    requires Alternates(l) && Alternates(r)
    ensures Alternates(l + r)
  {
    var half := |l| / 2;
    forall i | 0 <= i < |l + r| ensures (l + r)[i].isStart == (i % 2 == 0) {
      if i >= |l| {
        var j := i - |l|;
        assert (l + r)[i] == r[j] && i == j + 2 * half;
      }
    }
  }

  lemma ThreeCovers(l: seq<Edge>, m: seq<Edge>, r: seq<Edge>, x: nat)
    requires Alternates(l) && Alternates(m)
    ensures Covers(l + m + r, x) <==> Covers(l, x) || Covers(m, x) || Covers(r, x)
  {
    AlternatesConcat(l, m);
    ConcatCovers(l + m, r, x);
    ConcatCovers(l, m, x);
  }

  /** The set view of an insertion. */
  lemma MergedElements(es: seq<Edge>, p: nat, a: nat, b: nat, q: nat, s: nat, e: nat)
    requires Canonical(es) && Fits(es, p, a, b, q)
    requires a <= s <= e <= b
    requires forall x :: a <= x < s || e < x <= b ==> x in Elements(es)
    ensures Canonical(Merged(es, p, a, b, q))
    ensures Elements(Merged(es, p, a, b, q)) == Elements(es) + Range(s, e)
    ensures |Elements(Merged(es, p, a, b, q))| == |Elements(es)| + (e - s + 1) - |Portion(Elements(es), s, e + 1)|
  {
    RangeCardinalities(Elements(es), s, e);
    MergedCanonical(es, p, a, b, q);
    forall x: nat ensures x in Elements(Merged(es, p, a, b, q)) <==> x in Elements(es) || s <= x <= e {
      MergedCovers(es, p, a, b, q, x);
    }
  }

  /** The edges before index `j` are those below `s`. */
  ghost predicate SplitsBelow(es: seq<Edge>, j: nat, s: nat) {
    && j <= |es|
    && (forall i :: 0 <= i < j ==> es[i].value < s)
    && (forall i :: j <= i < |es| ==> s <= es[i].value)
  }

  /** What an erasure leaves of the edges before index `j`: an interval that is
      cut open is closed again just below `s`. */
  ghost function KeepBelow(es: seq<Edge>, j: nat, s: nat): seq<Edge>
    requires SplitsBelow(es, j, s)
  {
    if j % 2 == 1 then assert es[0].value < s; es[..j] + [Edge(s - 1, false)] else es[..j]
  }

  /** And of the edges from index `k` on: a cut interval is reopened above `e`. */
  ghost function KeepAbove(es: seq<Edge>, k: nat, e: nat): seq<Edge>
    requires k <= |es|
  {
    if k % 2 == 1 then [Edge(e + 1, true)] + es[k..] else es[k..]
  }

  /** The three-part view of a list around the interval that edge `k` ends. */
  lemma CoversAround(es: seq<Edge>, k: nat, x: nat)
    requires Canonical(es) && 0 < k < |es| && k % 2 == 1
    ensures Covers(es, x) <==>
            Covers(es[..k - 1], x) || es[k - 1].value <= x <= es[k].value || Covers(es[k + 1..], x)
  {
    var l, m, r := es[..k - 1], [es[k - 1], es[k]], es[k + 1..];
    assert es == l + m + r;
    SliceCanonical(es, 0, k - 1);
    ThreeCovers(l, m, r, x);
    PairCovers(es[k - 1].value, es[k].value, x);
  }

  lemma PairCovers(a: nat, b: nat, x: nat)
    ensures Covers([Edge(a, true), Edge(b, false)], x) <==> a <= x <= b
  {
    if a <= x <= b {
      assert Spans([Edge(a, true), Edge(b, false)], 0, x);
    }
  }

  lemma BelowCovers(es: seq<Edge>, j: nat, hi: nat, x: nat)
    requires j <= |es|
    requires forall i :: 0 <= i < j ==> es[i].value < hi
    ensures Covers(es[..j], x) ==> x < hi
  {
    if Covers(es[..j], x) {
      var i :| Spans(es[..j], i, x);
      assert es[..j][i + 1] == es[i + 1];
    }
  }

  lemma AboveCovers(es: seq<Edge>, k: nat, lo: nat, x: nat)
    requires k <= |es|
    requires forall i :: k <= i < |es| ==> lo <= es[i].value
    ensures Covers(es[k..], x) ==> lo <= x
  {
    if Covers(es[k..], x) {
      var i :| Spans(es[k..], i, x);
      assert es[k..][i] == es[k + i];
    }
  }

  lemma KeepBelowCovers(es: seq<Edge>, j: nat, s: nat, x: nat)
    requires Canonical(es) && SplitsBelow(es, j, s)
    ensures Covers(KeepBelow(es, j, s), x) <==> Covers(es, x) && x < s
  {
    if j % 2 == 0 {
      CoversSplit(es, j, s, x);
    } else {
      CoversAround(es, j, x);
      var l, m := es[..j - 1], [es[j - 1], Edge(s - 1, false)];
      assert KeepBelow(es, j, s) == l + m;
      SliceCanonical(es, 0, j - 1);
      ConcatCovers(l, m, x);
      PairCovers(es[j - 1].value, s - 1, x);
      BelowCovers(es, j - 1, s, x);
      AboveCovers(es, j + 1, s, x);
    }
  }

  lemma KeepAboveCovers(es: seq<Edge>, k: nat, e: nat, x: nat)
    requires Canonical(es) && SplitsBelow(es, k, e + 1)
    ensures Covers(KeepAbove(es, k, e), x) <==> Covers(es, x) && x > e
  {
    if k % 2 == 0 {
      CoversSplit(es, k, e + 1, x);
    } else {
      CoversAround(es, k, x);
      ReopenedCovers(es, k, e + 1, x);
      BelowCovers(es, k - 1, e + 1, x);
      AboveCovers(es, k + 1, e + 1, x);
    }
  }

  lemma ReopenedCovers(es: seq<Edge>, k: nat, v: nat, x: nat)
    requires k < |es| && !es[k].isStart
    ensures Covers([Edge(v, true)] + es[k..], x) <==> v <= x <= es[k].value || Covers(es[k + 1..], x)
  {
    var m, r := [Edge(v, true), es[k]], es[k + 1..];
    assert [Edge(v, true)] + es[k..] == m + r;
    ConcatCovers(m, r, x);
    PairCovers(v, es[k].value, x);
  }

  /** Splitting between two intervals splits what is stored. */
  lemma CoversSplit(es: seq<Edge>, j: nat, s: nat, x: nat)
    requires Canonical(es) && SplitsBelow(es, j, s) && j % 2 == 0
    ensures Covers(es[..j], x) <==> Covers(es, x) && x < s
    ensures Covers(es[j..], x) <==> Covers(es, x) && x >= s
  {
    SliceCanonical(es, 0, j);
    assert es == es[..j] + es[j..];
    ConcatCovers(es[..j], es[j..], x);
    BelowCovers(es, j, s, x);
    AboveCovers(es, j, s, x);
  }

  lemma KeepBelowCanonical(es: seq<Edge>, j: nat, s: nat)
    requires Canonical(es) && SplitsBelow(es, j, s)
    ensures Canonical(KeepBelow(es, j, s))
    ensures forall i :: 0 <= i < |KeepBelow(es, j, s)| ==> KeepBelow(es, j, s)[i].value < s
  {
    if j % 2 == 0 {
      SliceCanonical(es, 0, j);
    } else {
      SliceCanonical(es, 0, j - 1);
      assert es[j - 1].value < s;
      forall i | 0 <= i < j - 1 ensures es[i].value + 1 < es[j - 1].value {
        assert Before(es, i, j - 1);
      }
      ConcatCanonical(es[..j - 1], [es[j - 1], Edge(s - 1, false)]);
      assert KeepBelow(es, j, s) == es[..j - 1] + [es[j - 1], Edge(s - 1, false)];
    }
  }

  lemma KeepAboveCanonical(es: seq<Edge>, k: nat, e: nat)
    requires Canonical(es) && SplitsBelow(es, k, e + 1)
    ensures Canonical(KeepAbove(es, k, e))
    ensures forall i :: 0 <= i < |KeepAbove(es, k, e)| ==> KeepAbove(es, k, e)[i].value > e
  {
    if k % 2 == 0 {
      SliceCanonical(es, k, |es|);
      assert es[k..|es|] == es[k..];
    } else {
      ReopenedCanonical(es, k, e + 1);
    }
  }

  /** An interval reopened at `v`, and the intervals behind it. */
  lemma ReopenedCanonical(es: seq<Edge>, k: nat, v: nat)
    requires Canonical(es) && k < |es| && k % 2 == 1 && v <= es[k].value
    ensures Canonical([Edge(v, true)] + es[k..])
  {
    var head, tail := [Edge(v, true), es[k]], es[k + 1..];
    assert [Edge(v, true)] + es[k..] == head + tail;
    assert Canonical(tail) by {
      SliceCanonical(es, k + 1, |es|);
      assert es[k + 1..|es|] == es[k + 1..];
    }
    forall j | 0 <= j < |tail| ensures es[k].value + 1 < tail[j].value {
      assert Before(es, k, k + 1 + j);
    }
    ConcatCanonical(head, tail);
  }

  /** The set view of an erasure. */
  lemma KeptElements(es: seq<Edge>, j: nat, k: nat, s: nat, e: nat)
    requires Canonical(es) && s <= e
    requires SplitsBelow(es, j, s) && SplitsBelow(es, k, e + 1)
    ensures Canonical(KeepBelow(es, j, s) + KeepAbove(es, k, e))
    ensures Elements(KeepBelow(es, j, s) + KeepAbove(es, k, e)) == Elements(es) - Range(s, e)
    ensures |Elements(KeepBelow(es, j, s) + KeepAbove(es, k, e))| == |Elements(es)| - |Portion(Elements(es), s, e + 1)|
  {
    RangeCardinalities(Elements(es), s, e);
    var l, r := KeepBelow(es, j, s), KeepAbove(es, k, e);
    KeepBelowCanonical(es, j, s);
    KeepAboveCanonical(es, k, e);
    ConcatCanonical(l, r);
    forall x: nat ensures x in Elements(l + r) <==> x in Elements(es) && !(s <= x <= e) {
      ConcatCovers(l, r, x);
      KeepBelowCovers(es, j, s, x);
      KeepAboveCovers(es, k, e, x);
    }
  }

  lemma NothingAbove(es: seq<Edge>, s: nat, e: nat)
    requires forall i :: 0 <= i < |es| ==> es[i].value < s
    ensures Elements(es) == Elements(es) - Range(s, e)
  {
    forall x: nat | x in Elements(es) ensures x < s {
      assert es == es[..|es|];
      BelowCovers(es, |es|, s, x);
    }
  }

  /** The first insertion into an empty list. */
  lemma SingleInterval(s: nat, e: nat)
    requires s <= e
    ensures var es := [Edge(s, true), Edge(e, false)];
            Canonical(es) && Elements(es) == Range(s, e) && |Elements(es)| == e - s + 1
  {
    var es := [Edge(s, true), Edge(e, false)];
    forall x: nat ensures x in Elements(es) <==> s <= x <= e {
      PairCovers(s, e, x);
    }
    RangeSize(s, e);
    assert Elements(es) == Range(s, e);
  }
}
