/** lunchbox::IntervalSet::const_iterator: a start edge and a value in its interval. */
module IntervalIterator {
  import opened IntervalEdges

  /** `startEdge == |es|` is the end position, where the value is meaningless. */
  datatype Cursor = Cursor(value: nat, startEdge: nat)

  function End(es: seq<Edge>): Cursor {
    Cursor(0, |es|)
  }

  function Begin(es: seq<Edge>): Cursor {
    if es == [] then End(es) else Cursor(es[0].value, 0)
  }

  predicate Equal(es: seq<Edge>, a: Cursor, b: Cursor) {
    (a.startEdge == |es| && b.startEdge == |es|) || (a.startEdge == b.startEdge && a.value == b.value)
  }

  /** The cursor is at the end, or on a stored element. */
  ghost predicate OnElement(es: seq<Edge>, c: Cursor) {
    c.startEdge == |es| || Spans(es, c.startEdge, c.value)
  }

  /** What const_iterator::increment makes of a cursor. */
  function Advance(es: seq<Edge>, c: Cursor): (r: Cursor)
    requires Canonical(es) && OnElement(es, c)
    ensures OnElement(es, r)
  {
    if c.startEdge == |es| then c
    else if es[c.startEdge].value <= c.value < es[c.startEdge + 1].value then
      assert Spans(es, c.startEdge, c.value + 1);
      c.(value := c.value + 1)
    else if c.startEdge + 2 == |es| then c.(startEdge := |es|)
    else
      assert Before(es, c.startEdge + 2, c.startEdge + 3);
      Cursor(es[c.startEdge + 2].value, c.startEdge + 2)
  }

  /** The values seen by dereferencing and incrementing until end(). */
  ghost function Visited(es: seq<Edge>, c: Cursor): seq<nat>
    requires Canonical(es) && OnElement(es, c)
    decreases |es| - c.startEdge, if c.startEdge + 1 < |es| then es[c.startEdge + 1].value - c.value else 0
  {
    if Equal(es, c, End(es)) then [] else [c.value] + Visited(es, Advance(es, c))
  }

  ghost predicate Ascending(s: seq<nat>) {
    forall i, j :: 0 <= i < j < |s| ==> s[i] < s[j]
  }

  /** The elements from `c` on: those stored and not below its value. */
  ghost predicate Ahead(es: seq<Edge>, c: Cursor, x: nat) {
    c.startEdge < |es| && c.value <= x && Covers(es, x)
  }

  /** One increment passes exactly the element it leaves. */
  lemma AdvanceAhead(es: seq<Edge>, c: Cursor, x: nat)
    requires Canonical(es) && OnElement(es, c) && c.startEdge < |es|
    ensures Ahead(es, c, x) <==> x == c.value || Ahead(es, Advance(es, c), x)
    ensures Ahead(es, Advance(es, c), x) ==> c.value < x
  {
    var k := c.startEdge;
    assert Covers(es, c.value);
    if c.value == es[k + 1].value {
      if k + 2 < |es| {
        assert Before(es, k + 1, k + 2);
      }
      if c.value < x && (k + 2 < |es| ==> x < es[k + 2].value) {
        GapNotCovered(es, k + 2, x);
      }
    }
  }

  /** From any position the rest of the set is visited once, in ascending order. */
  lemma {:induction false} VisitedAhead(es: seq<Edge>, c: Cursor)
    requires Canonical(es) && OnElement(es, c)
    ensures Ascending(Visited(es, c))
    ensures forall x :: x in Visited(es, c) <==> Ahead(es, c, x)
    decreases |es| - c.startEdge, if c.startEdge + 1 < |es| then es[c.startEdge + 1].value - c.value else 0
  {
    if c.startEdge < |es| {
      var d := Advance(es, c);
      VisitedAhead(es, d);
      forall x: nat ensures x in Visited(es, c) <==> Ahead(es, c, x) {
        AdvanceAhead(es, c, x);
      }
      var all, rest := Visited(es, c), Visited(es, d);
      forall i, j | 0 <= i < j < |all| ensures all[i] < all[j] {
        assert all[j] == rest[j - 1];
        AdvanceAhead(es, c, rest[j - 1]);
      }
    }
  }

  lemma {:induction false} AscendingSize(s: seq<nat>, t: set<nat>)
    requires Ascending(s)
    requires forall x :: x in s <==> x in t
    ensures |s| == |t|
  {
    if s != [] {
      var n := |s| - 1;
      forall x: nat ensures x in s[..n] <==> x in t - {s[n]} {
        assert x in s[..n] ==> x != s[n];
      }
      AscendingSize(s[..n], t - {s[n]});
    } else {
      assert t == {};
    }
  }

  /** begin() to end() enumerates the set: each element once, ascending, and as
      many as its cardinality. */
  lemma IterationEnumerates(es: seq<Edge>)
    requires Canonical(es)
    ensures OnElement(es, Begin(es))
    ensures Ascending(Visited(es, Begin(es)))
    ensures forall x :: x in Visited(es, Begin(es)) <==> x in Elements(es)
    ensures |Visited(es, Begin(es))| == |Elements(es)|
  {
    if es == [] {
      assert Elements(es) == {};
    } else {
      assert Before(es, 0, 1);
      var c := Begin(es);
      VisitedAhead(es, c);
      forall x: nat | Covers(es, x) ensures Ahead(es, c, x) {
        var i :| Spans(es, i, x);
        assert i > 0 ==> Before(es, 0, i);
      }
      AscendingSize(Visited(es, c), Elements(es));
    }
  }

  lemma OneInterval(es: seq<Edge>, i: nat, j: nat, x: nat)
    requires Canonical(es) && Spans(es, i, x) && Spans(es, j, x)
    ensures i == j
  {
    assert i < j ==> Before(es, i + 1, j);
    assert j < i ==> Before(es, j + 1, i);
  }

  /** Iterators are equal just when both are at the end or on the same element, and
      that is just when they have the same elements ahead of them. */
  lemma EqualIff(es: seq<Edge>, a: Cursor, b: Cursor)
    requires Canonical(es) && OnElement(es, a) && OnElement(es, b)
    ensures Equal(es, a, b) <==>
            if a.startEdge == |es| || b.startEdge == |es| then a.startEdge == b.startEdge else a.value == b.value
    ensures Equal(es, a, b) <==> Visited(es, a) == Visited(es, b)
  {
    if a.startEdge < |es| && b.startEdge < |es| {
      if a.value == b.value {
        OneInterval(es, a.startEdge, b.startEdge, a.value);
      }
      assert Visited(es, a)[0] == a.value && Visited(es, b)[0] == b.value;
    }
  }

  /** lower_bound on (x, false) lands inside an interval just when x is stored. */
  lemma FindSplits(es: seq<Edge>, x: nat)
    requires Canonical(es)
    ensures var next := LowerBound(es, Edge(x, false));
            if Covers(es, x) then next < |es| && Spans(es, next - 1, x)
            else next == 0 || next == |es| || !es[next - 1].isStart
  {
    var next := LowerBound(es, Edge(x, false));
    if Covers(es, x) {
      var i :| Spans(es, i, x);
      assert Before(es, i, i + 1);
      forall j | 0 <= j < i ensures es[j].value < x {
        assert Before(es, j, i);
      }
      LowerBoundAt(es, Edge(x, false), i + 1);
    } else {
      assert 0 < next < |es| && es[next - 1].isStart ==> Spans(es, next - 1, x);
    }
  }

  class ConstIterator {
    const edges: seq<Edge>
    var value: nat
    var startEdge: nat

    ghost predicate Valid() reads this {
      Canonical(edges) && OnElement(edges, Position())
    }

    ghost function Position(): Cursor reads this {
      Cursor(value, startEdge)
    }

    constructor (es: seq<Edge>, at: Cursor)
      requires Canonical(es) && OnElement(es, at)
      ensures Valid() && edges == es && Position() == at
    {
      edges, value, startEdge := es, at.value, at.startEdge;
    }

    /** increment() */
    method Increment()
      requires Valid()
      modifies this
      ensures Valid()
      ensures Visited(edges, Position()) ==
              if old(startEdge) == |edges| then [] else old(Visited(edges, Position()))[1..]
    {
      ghost var was := Position();
      if startEdge == |edges| {
        return;
      }
      var endEdge := startEdge + 1;
      if edges[startEdge].value <= value < edges[endEdge].value {
        value := value + 1;
      } else {
        startEdge := startEdge + 2;
        if startEdge != |edges| {
          value := edges[startEdge].value;
        }
      }
      assert Position() == Advance(edges, was);
    }
  }
}
