/**
 * The river drainage network of crates/rg_worldgen/src/rivers.rs.  Sample
 * points (their positions, heights and Delaunay neighbour lists are inputs)
 * are joined into a drainage forest: ocean-to-land edges seed a max-priority
 * queue, popping an edge fixes the downstream point of its end, and uphill
 * neighbours are pushed in turn.  The forest is inverted into upstream lists,
 * over which water volume and Strahler order are accumulated.
 *
 * Heights and priorities are reals that are only compared; `normalize` (a
 * square root) is an oracle parameter.
 */
module Rivers {
  import opened Wrappers

  datatype Vec2 = Vec2(x: real, y: real)

  function Sub(a: Vec2, b: Vec2): Vec2 { Vec2(a.x - b.x, a.y - b.y) }
  function Dot(a: Vec2, b: Vec2): real { a.x * b.x + a.y * b.y }
  /** glam's `lerp`: a + (b - a) * t. */
  function Lerp(a: Vec2, b: Vec2, t: real): Vec2 { Vec2(a.x + (b.x - a.x) * t, a.y + (b.y - a.y) * t) }

  /** The sample points: `count` of them, each with a position, a height and a neighbour list. */
  datatype Points = Points(count: nat, positions: seq<Vec2>, heights: seq<real>, neighbors: seq<seq<nat>>)
  {
    predicate Valid() {
      |positions| == count && |heights| == count && |neighbors| == count &&
      forall i, k | 0 <= i < count && 0 <= k < |neighbors[i]| :: neighbors[i][k] < count
    }
  }

  // ---------------------------------------------------------------------
  // The priority queue

  datatype Ordering = Less | Equal | Greater

  /** An edge start -> end waiting in the queue. */
  datatype QueueItem = QueueItem(priority: real, start: nat, end: nat, dir: Vec2)

  /** `PartialEq for QueueItem`: only the priorities are compared. */
  predicate ItemEq(a: QueueItem, b: QueueItem) {
    a.priority == b.priority
  }

  /** `Ord for QueueItem`: by priority alone. */
  function Compare(a: QueueItem, b: QueueItem): Ordering {
    if a.priority < b.priority then Less
    else if a.priority == b.priority then Equal
    else Greater
  }

  /** The ordering is total and agrees with `ItemEq`. */
  lemma CompareIsOrder(a: QueueItem, b: QueueItem, c: QueueItem)
    ensures Compare(a, b) == Equal <==> ItemEq(a, b)
    ensures Compare(a, b) == Greater <==> Compare(b, a) == Less
    ensures Compare(a, b) != Greater && Compare(b, c) != Greater ==> Compare(a, c) != Greater
  {
  }

  /** x is in q and no item of q compares greater than x. */
  predicate IsTop(x: QueueItem, q: multiset<QueueItem>) {
    x in q && forall y | y in q :: Compare(y, x) != Greater
  }

  /** Adding y to a queue with top t leaves the higher of the two on top. */
  lemma TopOfAdd(t: QueueItem, rest: multiset<QueueItem>, y: QueueItem)
    requires IsTop(t, rest)
    ensures IsTop(if t.priority < y.priority then y else t, rest + multiset{y})
  {
    var q := rest + multiset{y};
    var top := if t.priority < y.priority then y else t;
    forall z | z in q ensures Compare(z, top) != Greater {
      if z in rest {
        assert Compare(z, t) != Greater;
      } else {
        assert z == y;
      }
    }
  }

  lemma TopExists(q: multiset<QueueItem>)
    requires |q| > 0
    ensures exists x :: IsTop(x, q)
    decreases |q|
  {
    var y :| y in q;
    var rest := q - multiset{y};
    assert q == rest + multiset{y};
    if |rest| == 0 {
      assert q == multiset{y};
      assert IsTop(y, q);
    } else {
      TopExists(rest);
      var t :| IsTop(t, rest);
      TopOfAdd(t, rest, y);
      assert IsTop(if t.priority < y.priority then y else t, q);
    }
  }

  /** std's `BinaryHeap<QueueItem>`: a multiset of items; `Pop` takes some greatest one. */
  class Heap {
    var items: multiset<QueueItem>

    constructor ()
      ensures items == multiset{}
    {
      items := multiset{};
    }

    method Push(x: QueueItem)
      modifies this
      ensures items == old(items) + multiset{x}
    {
      items := items + multiset{x};
    }

    /** Any greatest item may come out: ties between equal priorities are left open. */
    method Pop() returns (top: QueueItem)
      requires |items| > 0
      modifies this
      ensures IsTop(top, old(items))
      ensures items == old(items) - multiset{top}
    {
      TopExists(items);
      top :| IsTop(top, items);
      items := items - multiset{top};
    }
  }

  // ---------------------------------------------------------------------
  // initialize_queue

  /** The seed edges from s to the listed neighbours: those whose end is not below sea level. */
  function SeedsAt(p: Points, normalize: Vec2 -> Vec2, s: nat, nbrs: seq<nat>): seq<QueueItem>
    requires p.Valid() && s < p.count
    requires forall k | 0 <= k < |nbrs| :: nbrs[k] < p.count
  {
    if nbrs == [] then []
    else
      var e := nbrs[|nbrs| - 1];
      SeedsAt(p, normalize, s, nbrs[..|nbrs| - 1]) +
      (if p.heights[e] < 0.0 then [] else [SeedItem(p, normalize, s, e)])
  }

  /** The seed edge from s to e, with priority 1 and the direction from s to e. */
  function SeedItem(p: Points, normalize: Vec2 -> Vec2, s: nat, e: nat): (x: QueueItem)
    requires p.Valid() && s < p.count && e < p.count
    ensures x.start == s && x.end == e && x.priority == 1.0
  {
    QueueItem(1.0, s, e, normalize(Sub(p.positions[e], p.positions[s])))
  }

  /** Extending the neighbour prefix by one adds that neighbour's seed edge, if any. */
  lemma SeedsAtNext(p: Points, normalize: Vec2 -> Vec2, s: nat, nbrs: seq<nat>, k: nat)
    requires p.Valid() && s < p.count
    requires forall j | 0 <= j < |nbrs| :: nbrs[j] < p.count
    requires k < |nbrs|
    ensures SeedsAt(p, normalize, s, nbrs[..k + 1]) ==
      SeedsAt(p, normalize, s, nbrs[..k]) + (if p.heights[nbrs[k]] < 0.0 then [] else [SeedItem(p, normalize, s, nbrs[k])])
  {
    assert nbrs[..k + 1][..k] == nbrs[..k];
  }

  /** The seed edges of the starts below n that are not above sea level, in push order. */
  function Seeds(p: Points, normalize: Vec2 -> Vec2, n: nat): seq<QueueItem>
    requires p.Valid() && n <= p.count
  {
    if n == 0 then []
    else
      Seeds(p, normalize, n - 1) +
      (if p.heights[n - 1] > 0.0 then [] else SeedsAt(p, normalize, n - 1, p.neighbors[n - 1]))
  }

  /** The seed edge that `initialize_queue` pushes for start s and neighbour e. */
  predicate IsSeed(p: Points, normalize: Vec2 -> Vec2, x: QueueItem)
    requires p.Valid()
  {
    x.start < p.count && x.end < p.count &&
    x.priority == 1.0 && p.heights[x.start] <= 0.0 && p.heights[x.end] >= 0.0 &&
    x.end in p.neighbors[x.start] &&
    x.dir == normalize(Sub(p.positions[x.end], p.positions[x.start]))
  }

  lemma {:induction false} SeedsAtIff(p: Points, normalize: Vec2 -> Vec2, s: nat, nbrs: seq<nat>, x: QueueItem)
    requires p.Valid() && s < p.count
    requires forall k | 0 <= k < |nbrs| :: nbrs[k] < p.count
    ensures x in SeedsAt(p, normalize, s, nbrs) <==>
      x.start == s && x.end in nbrs && x.end < p.count && x.priority == 1.0 && p.heights[x.end] >= 0.0 &&
      x.dir == normalize(Sub(p.positions[x.end], p.positions[s]))
  {
    if nbrs != [] {
      var init := nbrs[..|nbrs| - 1];
      SeedsAtIff(p, normalize, s, init, x);
      assert nbrs == init + [nbrs[|nbrs| - 1]];
    }
  }

  /** An item is pushed by `initialize_queue` exactly when it is a seed edge. */
  lemma {:induction false} SeedsIff(p: Points, normalize: Vec2 -> Vec2, n: nat, x: QueueItem)
    requires p.Valid() && n <= p.count
    ensures x in Seeds(p, normalize, n) <==> x.start < n && IsSeed(p, normalize, x)
  {
    if n > 0 {
      SeedsIff(p, normalize, n - 1, x);
      SeedsAtIff(p, normalize, n - 1, p.neighbors[n - 1], x);
    }
  }

  /** `initialize_queue`: push every seed edge with priority 1. */
  method InitializeQueue(queue: Heap, points: Points, normalize: Vec2 -> Vec2)
    requires points.Valid()
    modifies queue
    ensures queue.items == old(queue.items) + multiset(Seeds(points, normalize, points.count))
  {
    for s := 0 to points.count
      invariant queue.items == old(queue.items) + multiset(Seeds(points, normalize, s))
    {
      ghost var here := if points.heights[s] > 0.0 then [] else SeedsAt(points, normalize, s, points.neighbors[s]);
      assert Seeds(points, normalize, s + 1) == Seeds(points, normalize, s) + here;
      if points.heights[s] <= 0.0 {
        PushSeedsFrom(queue, points, normalize, s);
      }
      assert queue.items == old(queue.items) + multiset(Seeds(points, normalize, s)) + multiset(here);
    }
  }

  /** The inner loop of `initialize_queue`: the seed edges from start s. */
  method PushSeedsFrom(queue: Heap, points: Points, normalize: Vec2 -> Vec2, s: nat)
    requires points.Valid() && s < points.count
    modifies queue
    ensures queue.items == old(queue.items) + multiset(SeedsAt(points, normalize, s, points.neighbors[s]))
  {
    for k := 0 to |points.neighbors[s]|
      invariant queue.items == old(queue.items) + multiset(SeedsAt(points, normalize, s, points.neighbors[s][..k]))
    {
      PushSeedAt(queue, points, normalize, s, k, old(queue.items));
    }
    assert points.neighbors[s][..|points.neighbors[s]|] == points.neighbors[s];
  }

  /** One turn of the inner loop of `initialize_queue`: the k-th neighbour's seed edge, if any. */
  method PushSeedAt(queue: Heap, points: Points, normalize: Vec2 -> Vec2, s: nat, k: nat, ghost q0: multiset<QueueItem>)
    requires points.Valid() && s < points.count && k < |points.neighbors[s]|
    requires queue.items == q0 + multiset(SeedsAt(points, normalize, s, points.neighbors[s][..k]))
    modifies queue
    ensures queue.items == q0 + multiset(SeedsAt(points, normalize, s, points.neighbors[s][..k + 1]))
  {
    var e := points.neighbors[s][k];
    SeedsAtNext(points, normalize, s, points.neighbors[s], k);
    if points.heights[e] < 0.0 {
      return;
    }
    queue.Push(SeedItem(points, normalize, s, e));
  }

  // ---------------------------------------------------------------------
  // generate_downstream_map

  /** Water may flow from j down to i: i lists j as a neighbour and is no higher. */
  predicate EdgeOk(p: Points, i: nat, j: nat)
    requires p.Valid()
  {
    i < p.count && j < p.count && j in p.neighbors[i] && p.heights[i] <= p.heights[j]
  }

  /** A queued edge flows downhill, and its start is at sea level or was fixed before. */
  predicate ItemOk(p: Points, x: QueueItem, order: seq<nat>)
    requires p.Valid()
  {
    EdgeOk(p, x.start, x.end) && (p.heights[x.start] <= 0.0 || x.start in order)
  }

  predicate Distinct(s: seq<nat>) {
    forall a, b | 0 <= a < b < |s| :: s[a] != s[b]
  }

  /**
   * The downstream map built so far, with `order` the points in the order
   * their entries were fixed: every fixed point drains, along an edge that
   * does not go uphill, into a point at sea level or one fixed before it.
   */
  ghost predicate Drains(p: Points, d: seq<Option<nat>>, order: seq<nat>)
    requires p.Valid()
  {
    |d| == p.count && Distinct(order) &&
    (forall j | 0 <= j < |d| :: d[j].Some? <==> j in order) &&
    (forall j | 0 <= j < |d| && d[j].Some? :: EdgeOk(p, d[j].value, j)) &&
    (forall t | 0 <= t < |order| ::
       order[t] < |d| && d[order[t]].Some? &&
       (p.heights[d[order[t]].value] <= 0.0 || d[order[t]].value in order[..t]))
  }

  function CountNone(d: seq<Option<nat>>): nat {
    if d == [] then 0 else CountNone(d[..|d| - 1]) + (if d[|d| - 1].None? then 1 else 0)
  }

  /** Fixing an unset entry lowers the number of unset entries. */
  lemma {:induction false} CountNoneFix(d: seq<Option<nat>>, j: nat, v: nat)
    requires j < |d| && d[j].None?
    ensures CountNone(d[j := Some(v)]) < CountNone(d)
  {
    var e := d[j := Some(v)];
    if j < |d| - 1 {
      assert e[..|e| - 1] == d[..|d| - 1][j := Some(v)];
      CountNoneFix(d[..|d| - 1], j, v);
    } else {
      assert e[..|e| - 1] == d[..|d| - 1];
    }
  }

  /** The fixed entries and the fix order after one more point j drains into i. */
  lemma DrainsFix(p: Points, d: seq<Option<nat>>, order: seq<nat>, i: nat, j: nat)
    requires p.Valid() && Drains(p, d, order)
    requires j < |d| && d[j].None? && EdgeOk(p, i, j)
    requires p.heights[i] <= 0.0 || i in order
    ensures Drains(p, d[j := Some(i)], order + [j])
  {
    var d', o' := d[j := Some(i)], order + [j];
    forall t | 0 <= t < |o'|
      ensures o'[t] < |d'| && d'[o'[t]].Some? &&
              (p.heights[d'[o'[t]].value] <= 0.0 || d'[o'[t]].value in o'[..t])
    {
      if t < |order| {
        assert o'[..t] == order[..t];
        assert order[t] in order;
      } else {
        assert o'[..t] == order;
      }
    }
  }

  /** Queued items stay valid when the fix order grows. */
  lemma QueueOkGrow(p: Points, q: multiset<QueueItem>, order: seq<nat>, j: nat)
    requires p.Valid()
    requires forall x | x in q :: ItemOk(p, x, order)
    ensures forall x | x in q :: ItemOk(p, x, order + [j])
  {
    forall x | x in q ensures ItemOk(p, x, order + [j]) {
      assert x.start in order ==> x.start in order + [j];
    }
  }

  /** Some queued item ends at n. */
  ghost predicate Awaited(q: multiset<QueueItem>, n: nat) {
    exists x | x in q :: x.end == n
  }

  /**
   * Every neighbour of a fixed point that is no lower, other than the point
   * it drains to, is fixed as well.
   */
  predicate UphillClosed(p: Points, d: seq<Option<nat>>)
    requires p.Valid() && |d| == p.count
  {
    forall j, k | 0 <= j < |d| && 0 <= k < |p.neighbors[j]| && d[j].Some? &&
      p.neighbors[j][k] != d[j].value && p.heights[p.neighbors[j][k]] >= p.heights[j] ::
      d[p.neighbors[j][k]].Some?
  }

  /**
   * The loop invariant behind `UphillClosed`: every seed end and every
   * eligible neighbour of a fixed point is fixed or awaited in the queue.
   */
  ghost predicate ClosedOrAwaited(p: Points, d: seq<Option<nat>>, q: multiset<QueueItem>, seeds: multiset<QueueItem>)
    requires p.Valid() && |d| == p.count
  {
    (forall x | x in seeds :: x.end < |d| && (d[x.end].Some? || Awaited(q, x.end))) &&
    (forall j, k | 0 <= j < |d| && 0 <= k < |p.neighbors[j]| && d[j].Some? &&
       p.neighbors[j][k] != d[j].value && p.heights[p.neighbors[j][k]] >= p.heights[j] ::
       d[p.neighbors[j][k]].Some? || Awaited(q, p.neighbors[j][k]))
  }

  lemma ClosedStart(p: Points, seeds: multiset<QueueItem>)
    requires p.Valid() && forall x | x in seeds :: x.end < p.count
    ensures ClosedOrAwaited(p, seq(p.count, _ => None), seeds, seeds)
  {
    forall x | x in seeds ensures Awaited(seeds, x.end) {
    }
  }

  lemma ClosedEnd(p: Points, d: seq<Option<nat>>, seeds: multiset<QueueItem>)
    requires p.Valid() && |d| == p.count && ClosedOrAwaited(p, d, multiset{}, seeds)
    ensures forall x | x in seeds :: x.end < |d| && d[x.end].Some?
    ensures UphillClosed(p, d)
  {
  }

  /** Removing an item that does not end at n keeps n awaited; adding items never loses it. */
  lemma AwaitedAfter(q: multiset<QueueItem>, edge: QueueItem, added: multiset<QueueItem>, n: nat)
    requires Awaited(q, n) && n != edge.end
    ensures Awaited((q - multiset{edge}) + added, n)
  {
    var x :| x in q && x.end == n;
    assert x in (q - multiset{edge}) + added;
  }

  /** Popping an item whose end is already fixed keeps the invariant. */
  lemma ClosedPopFixed(p: Points, d: seq<Option<nat>>, q: multiset<QueueItem>, edge: QueueItem, seeds: multiset<QueueItem>)
    requires p.Valid() && |d| == p.count && ClosedOrAwaited(p, d, q, seeds)
    requires edge.end < |d| && d[edge.end].Some?
    ensures ClosedOrAwaited(p, d, q - multiset{edge}, seeds)
  {
    var q' := q - multiset{edge};
    assert q' == (q - multiset{edge}) + multiset{};
    forall x | x in seeds && d[x.end].None? ensures Awaited(q', x.end) {
      AwaitedAfter(q, edge, multiset{}, x.end);
    }
    forall j, k | 0 <= j < |d| && 0 <= k < |p.neighbors[j]| && d[j].Some? &&
      p.neighbors[j][k] != d[j].value && p.heights[p.neighbors[j][k]] >= p.heights[j] &&
      d[p.neighbors[j][k]].None?
      ensures Awaited(q', p.neighbors[j][k])
    {
      AwaitedAfter(q, edge, multiset{}, p.neighbors[j][k]);
    }
  }

  /**
   * Fixing the popped edge's end and pushing its eligible neighbours keeps
   * the invariant: the new obligations are exactly what was pushed.
   */
  lemma ClosedFix(p: Points, d: seq<Option<nat>>, q: multiset<QueueItem>, edge: QueueItem, seeds: multiset<QueueItem>,
                  inertia: real, normalize: Vec2 -> Vec2)
    requires p.Valid() && |d| == p.count && ClosedOrAwaited(p, d, q, seeds)
    requires edge.end < |d| && d[edge.end].None?
    ensures var d' := d[edge.end := Some(edge.start)];
      ClosedOrAwaited(p, d', (q - multiset{edge}) + multiset(UphillItems(p, edge, d', inertia, normalize, p.neighbors[edge.end])), seeds)
  {
    var d' := d[edge.end := Some(edge.start)];
    var added := multiset(UphillItems(p, edge, d', inertia, normalize, p.neighbors[edge.end]));
    var q' := (q - multiset{edge}) + added;
    UphillItemsIff(p, edge, d', inertia, normalize, p.neighbors[edge.end]);
    forall x | x in seeds && d'[x.end].None? ensures Awaited(q', x.end) {
      AwaitedAfter(q, edge, added, x.end);
    }
    forall j, k | 0 <= j < |d'| && 0 <= k < |p.neighbors[j]| && d'[j].Some? &&
      p.neighbors[j][k] != d'[j].value && p.heights[p.neighbors[j][k]] >= p.heights[j] &&
      d'[p.neighbors[j][k]].None?
      ensures Awaited(q', p.neighbors[j][k])
    {
      var n := p.neighbors[j][k];
      if j == edge.end {
        assert n in p.neighbors[edge.end] && Uphill(p, edge, d', n);
        var x := UphillItem(p, edge, n, inertia, normalize);
        assert x in added;
        assert x in q';
      } else {
        AwaitedAfter(q, edge, added, n);
      }
    }
  }

  /** Every queued edge ends strictly above sea level. */
  predicate AboveSea(p: Points, q: multiset<QueueItem>) {
    forall x | x in q :: x.end < p.count && |p.heights| == p.count && p.heights[x.end] > 0.0
  }

  /** Every fixed point lies strictly above sea level. */
  predicate FixedAboveSea(p: Points, order: seq<nat>) {
    forall t | 0 <= t < |order| :: order[t] < p.count && |p.heights| == p.count && p.heights[order[t]] > 0.0
  }

  /** Popping keeps the queue above sea level, and the popped end may join the fixed points. */
  lemma AboveSeaPop(p: Points, before: multiset<QueueItem>, edge: QueueItem, order: seq<nat>)
    requires AboveSea(p, before) && edge in before && FixedAboveSea(p, order)
    ensures AboveSea(p, before - multiset{edge}) && FixedAboveSea(p, order + [edge.end])
  {
  }

  /** Uphill pushes from a point above sea level only queue edges ending above sea level. */
  lemma AboveSeaStep(p: Points, before: multiset<QueueItem>, edge: QueueItem, now: multiset<QueueItem>, order: seq<nat>)
    requires p.Valid() && AboveSea(p, before) && edge in before
    requires forall x | x in now :: ItemOk(p, x, order)
    requires forall x | x in now - (before - multiset{edge}) :: x.start == edge.end
    ensures AboveSea(p, now)
  {
    forall x | x in now ensures x.end < p.count && p.heights[x.end] > 0.0 {
      if x !in before - multiset{edge} {
        assert x in now - (before - multiset{edge});
        assert p.heights[edge.end] <= p.heights[x.end];
      }
    }
  }

  /**
   * `generate_downstream_map`: pop edges greatest priority first; the first
   * edge reaching a point fixes where it drains, and its uphill neighbours
   * not yet fixed are pushed with a priority favouring the current direction.
   * The loop ends: a pop either fixes a new point or shrinks the queue.
   * `order` records the points in the order they were fixed.
   */
  method GenerateDownstreamMap(queue: Heap, points: Points, inertia: real, normalize: Vec2 -> Vec2)
    returns (downstream: seq<Option<nat>>, ghost order: seq<nat>)
    requires points.Valid()
    requires forall x | x in queue.items :: ItemOk(points, x, [])
    modifies queue
    ensures queue.items == multiset{}
    ensures |downstream| == points.count
    ensures forall j | 0 <= j < |downstream| && downstream[j].Some? :: EdgeOk(points, downstream[j].value, j)
    ensures Drains(points, downstream, order)
    ensures forall x | x in old(queue.items) :: x.end < |downstream| && downstream[x.end].Some?
    ensures UphillClosed(points, downstream)
    ensures AboveSea(points, old(queue.items)) ==> FixedAboveSea(points, order)
  {
    ghost var seeds := queue.items;
    downstream := seq(points.count, _ => None);
    order := [];
    ClosedStart(points, seeds);
    while |queue.items| > 0
      invariant Drains(points, downstream, order)
      invariant forall x | x in queue.items :: ItemOk(points, x, order)
      invariant ClosedOrAwaited(points, downstream, queue.items, seeds)
      invariant AboveSea(points, seeds) ==> AboveSea(points, queue.items) && FixedAboveSea(points, order)
      decreases CountNone(downstream), |queue.items|
    {
      ghost var before := queue.items;
      var edge := queue.Pop();
      assert edge in before;
      if AboveSea(points, seeds) {
        AboveSeaPop(points, before, edge, order);
      }
      if downstream[edge.end].Some? {
        ClosedPopFixed(points, downstream, before, edge, seeds);
        continue;
      }
      assert ItemOk(points, edge, order);
      CountNoneFix(downstream, edge.end, edge.start);
      DrainsFix(points, downstream, order, edge.start, edge.end);
      QueueOkGrow(points, queue.items, order, edge.end);
      ClosedFix(points, downstream, before, edge, seeds, inertia, normalize);
      downstream := downstream[edge.end := Some(edge.start)];
      order := order + [edge.end];
      PushUphill(queue, points, edge, downstream, inertia, normalize, order);
      if AboveSea(points, seeds) {
        AboveSeaStep(points, before, edge, queue.items, order);
      }
    }
    ClosedEnd(points, downstream, seeds);
  }

  /** A neighbour n of the popped edge's end is pushed: not its start, not fixed, and no lower. */
  predicate Uphill(points: Points, edge: QueueItem, downstream: seq<Option<nat>>, n: nat)
    requires edge.end < points.count && n < |downstream| && |points.heights| == points.count == |downstream|
  {
    n != edge.start && downstream[n].None? && points.heights[n] >= points.heights[edge.end]
  }

  /** The item pushed for neighbour n: priority the alignment with the edge, direction bent by the inertia. */
  function UphillItem(points: Points, edge: QueueItem, n: nat, inertia: real, normalize: Vec2 -> Vec2): (x: QueueItem)
    requires edge.end < points.count && n < points.count && |points.positions| == points.count
    ensures x.start == edge.end && x.end == n
  {
    var dir := normalize(Sub(points.positions[n], points.positions[edge.end]));
    QueueItem(Dot(dir, edge.dir), edge.end, n, normalize(Lerp(dir, edge.dir, inertia)))
  }

  /** The items pushed for the neighbours ns, in order. */
  function UphillItems(points: Points, edge: QueueItem, downstream: seq<Option<nat>>, inertia: real,
                       normalize: Vec2 -> Vec2, ns: seq<nat>): seq<QueueItem>
    requires points.Valid() && edge.end < points.count && |downstream| == points.count
    requires forall k | 0 <= k < |ns| :: ns[k] < points.count
  {
    if ns == [] then []
    else
      var n := ns[|ns| - 1];
      UphillItems(points, edge, downstream, inertia, normalize, ns[..|ns| - 1]) +
      (if Uphill(points, edge, downstream, n) then [UphillItem(points, edge, n, inertia, normalize)] else [])
  }

  /** One more neighbour of a prefix adds that neighbour's item, if it is eligible. */
  lemma UphillItemsNext(points: Points, edge: QueueItem, downstream: seq<Option<nat>>, inertia: real,
                        normalize: Vec2 -> Vec2, ns: seq<nat>, k: nat)
    requires points.Valid() && edge.end < points.count && |downstream| == points.count
    requires forall j | 0 <= j < |ns| :: ns[j] < points.count
    requires k < |ns|
    ensures UphillItems(points, edge, downstream, inertia, normalize, ns[..k + 1]) ==
      UphillItems(points, edge, downstream, inertia, normalize, ns[..k]) +
      (if Uphill(points, edge, downstream, ns[k]) then [UphillItem(points, edge, ns[k], inertia, normalize)] else [])
  {
    assert ns[..k + 1][..k] == ns[..k];
  }

  /** Every eligible neighbour gets its item, and every item is an eligible neighbour's. */
  lemma {:induction false} UphillItemsIff(points: Points, edge: QueueItem, downstream: seq<Option<nat>>, inertia: real,
                                          normalize: Vec2 -> Vec2, ns: seq<nat>)
    requires points.Valid() && edge.end < points.count && |downstream| == points.count
    requires forall k | 0 <= k < |ns| :: ns[k] < points.count
    ensures forall n | n in ns && Uphill(points, edge, downstream, n) ::
      UphillItem(points, edge, n, inertia, normalize) in UphillItems(points, edge, downstream, inertia, normalize, ns)
    ensures forall x | x in UphillItems(points, edge, downstream, inertia, normalize, ns) ::
      x.end in ns && Uphill(points, edge, downstream, x.end) && x == UphillItem(points, edge, x.end, inertia, normalize)
  {
    if ns != [] {
      var init := ns[..|ns| - 1];
      UphillItemsIff(points, edge, downstream, inertia, normalize, init);
      assert ns == init + [ns[|ns| - 1]];
      forall n | n in ns && Uphill(points, edge, downstream, n)
        ensures UphillItem(points, edge, n, inertia, normalize) in UphillItems(points, edge, downstream, inertia, normalize, ns)
      {
        if n != ns[|ns| - 1] {
          assert n in init;
        }
      }
    }
  }

  /** The inner loop of `generate_downstream_map`: queue the uphill neighbours of a freshly fixed point. */
  /** An item pushed for an eligible neighbour of a fixed point is a valid queue entry. */
  lemma UphillItemOk(points: Points, edge: QueueItem, downstream: seq<Option<nat>>, inertia: real,
                     normalize: Vec2 -> Vec2, n: nat, order: seq<nat>)
    requires points.Valid() && edge.end < points.count && |downstream| == points.count && edge.end in order
    requires n in points.neighbors[edge.end] && n < points.count && Uphill(points, edge, downstream, n)
    ensures ItemOk(points, UphillItem(points, edge, n, inertia, normalize), order)
  {
  }

  /** What pushing the items of the eligible neighbours of a fixed point does to a valid queue. */
  lemma UphillPushed(points: Points, edge: QueueItem, downstream: seq<Option<nat>>, inertia: real,
                     normalize: Vec2 -> Vec2, order: seq<nat>, q0: multiset<QueueItem>, q1: multiset<QueueItem>)
    requires points.Valid() && edge.end < points.count && |downstream| == points.count && edge.end in order
    requires forall x | x in q0 :: ItemOk(points, x, order)
    requires q1 == q0 + multiset(UphillItems(points, edge, downstream, inertia, normalize, points.neighbors[edge.end]))
    ensures forall n | n in points.neighbors[edge.end] && Uphill(points, edge, downstream, n) ::
      UphillItem(points, edge, n, inertia, normalize) in q1 - q0
    ensures forall x | x in q1 :: ItemOk(points, x, order)
    ensures forall x | x in q1 - q0 ::
      x.start == edge.end && x.end < |downstream| && downstream[x.end].None? && x.end != edge.start
  {
    var nbrs := points.neighbors[edge.end];
    var added := UphillItems(points, edge, downstream, inertia, normalize, nbrs);
    assert q1 - q0 == multiset(added);
    UphillItemsIff(points, edge, downstream, inertia, normalize, nbrs);
    forall x | x in q1 ensures ItemOk(points, x, order) {
      if x !in q0 {
        assert x in added;
        UphillItemOk(points, edge, downstream, inertia, normalize, x.end, order);
      }
    }
  }

  /** One turn of that loop: the item of the k-th neighbour is pushed when that neighbour is eligible. */
  method PushNeighborAt(queue: Heap, points: Points, edge: QueueItem, downstream: seq<Option<nat>>, inertia: real,
                        normalize: Vec2 -> Vec2, k: nat, ghost q0: multiset<QueueItem>)
    requires points.Valid() && edge.end < points.count && |downstream| == points.count
    requires k < |points.neighbors[edge.end]|
    requires queue.items == q0 + multiset(UphillItems(points, edge, downstream, inertia, normalize, points.neighbors[edge.end][..k]))
    modifies queue
    ensures queue.items == q0 + multiset(UphillItems(points, edge, downstream, inertia, normalize, points.neighbors[edge.end][..k + 1]))
  {
    var nbrs := points.neighbors[edge.end];
    var n := nbrs[k];
    UphillItemsNext(points, edge, downstream, inertia, normalize, nbrs, k);
    if !Uphill(points, edge, downstream, n) {
      return;
    }
    queue.Push(UphillItem(points, edge, n, inertia, normalize));
  }

  /** The loop over the neighbours of the popped edge's end, pushing the item of each eligible one. */
  method PushNeighbors(queue: Heap, points: Points, edge: QueueItem, downstream: seq<Option<nat>>, inertia: real,
                       normalize: Vec2 -> Vec2)
    requires points.Valid() && edge.end < points.count && |downstream| == points.count
    modifies queue
    ensures queue.items == old(queue.items) + multiset(UphillItems(points, edge, downstream, inertia, normalize, points.neighbors[edge.end]))
  {
    ghost var q0 := queue.items;
    for k := 0 to |points.neighbors[edge.end]|
      invariant queue.items == q0 + multiset(UphillItems(points, edge, downstream, inertia, normalize, points.neighbors[edge.end][..k]))
    {
      PushNeighborAt(queue, points, edge, downstream, inertia, normalize, k, q0);
    }
    assert points.neighbors[edge.end][..|points.neighbors[edge.end]|] == points.neighbors[edge.end];
  }

  method PushUphill(queue: Heap, points: Points, edge: QueueItem, downstream: seq<Option<nat>>, inertia: real,
                    normalize: Vec2 -> Vec2, ghost order: seq<nat>)
    requires points.Valid() && edge.end < points.count && |downstream| == points.count
    requires edge.end in order
    requires forall x | x in queue.items :: ItemOk(points, x, order)
    modifies queue
    ensures queue.items == old(queue.items) + multiset(UphillItems(points, edge, downstream, inertia, normalize, points.neighbors[edge.end]))
    ensures forall n | n in points.neighbors[edge.end] && Uphill(points, edge, downstream, n) ::
      UphillItem(points, edge, n, inertia, normalize) in queue.items - old(queue.items)
    ensures forall x | x in queue.items :: ItemOk(points, x, order)
    ensures forall x | x in queue.items - old(queue.items) ::
      x.start == edge.end && x.end < |downstream| && downstream[x.end].None? && x.end != edge.start
  {
    PushNeighbors(queue, points, edge, downstream, inertia, normalize);
    UphillPushed(points, edge, downstream, inertia, normalize, order, old(queue.items), queue.items);
  }

  /** Every seed edge is a valid queue item before anything is fixed. */
  lemma SeedsOk(p: Points, normalize: Vec2 -> Vec2)
    requires p.Valid()
    ensures forall x | x in multiset(Seeds(p, normalize, p.count)) :: ItemOk(p, x, [])
  {
    forall x | x in multiset(Seeds(p, normalize, p.count)) ensures ItemOk(p, x, []) {
      SeedsIff(p, normalize, p.count, x);
    }
  }

  /** Lines 40-44 of `generate_river_map`: seed a fresh queue and grow the drainage forest from it. */
  method DrainageForest(points: Points, inertia: real, normalize: Vec2 -> Vec2)
    returns (downstream: seq<Option<nat>>, ghost order: seq<nat>)
    requires points.Valid()
    ensures |downstream| == points.count
    ensures forall j | 0 <= j < |downstream| && downstream[j].Some? :: EdgeOk(points, downstream[j].value, j)
    ensures Drains(points, downstream, order)
    ensures forall s, k | 0 <= s < points.count && 0 <= k < |points.neighbors[s]| &&
      points.heights[s] <= 0.0 && points.heights[points.neighbors[s][k]] >= 0.0 ::
      downstream[points.neighbors[s][k]].Some?
    ensures UphillClosed(points, downstream)
  {
    var queue := new Heap();
    InitializeQueue(queue, points, normalize);
    SeedsOk(points, normalize);
    ghost var seeds := queue.items;
    downstream, order := GenerateDownstreamMap(queue, points, inertia, normalize);
    forall s, k | 0 <= s < points.count && 0 <= k < |points.neighbors[s]| &&
      points.heights[s] <= 0.0 && points.heights[points.neighbors[s][k]] >= 0.0
      ensures downstream[points.neighbors[s][k]].Some?
    {
      var n := points.neighbors[s][k];
      var x := QueueItem(1.0, s, n, normalize(Sub(points.positions[n], points.positions[s])));
      SeedsIff(points, normalize, points.count, x);
      assert x in seeds;
    }
  }

  // ---------------------------------------------------------------------
  // generate_upstream_map

  predicate Increasing(s: seq<nat>) {
    forall a, b | 0 <= a < b < |s| :: s[a] < s[b]
  }

  /** The points below n that drain into j, in increasing order. */
  function UpstreamOf(d: seq<Option<nat>>, j: nat, n: nat): seq<nat>
    requires n <= |d|
  {
    if n == 0 then [] else UpstreamOf(d, j, n - 1) + (if d[n - 1] == Some(j) then [n - 1] else [])
  }

  lemma {:induction false} UpstreamOfIff(d: seq<Option<nat>>, j: nat, n: nat)
    requires n <= |d|
    ensures forall u | 0 <= u :: u in UpstreamOf(d, j, n) <==> u < n && d[u] == Some(j)
    ensures Increasing(UpstreamOf(d, j, n))
  {
    if n > 0 {
      UpstreamOfIff(d, j, n - 1);
      var prev := UpstreamOf(d, j, n - 1);
      assert forall m | 0 <= m < |prev| :: prev[m] < n - 1 by {
        forall m | 0 <= m < |prev| ensures prev[m] < n - 1 {
          assert prev[m] in prev;
        }
      }
    }
  }

  /**
   * `generate_upstream_map`: i is listed upstream of j exactly when i drains
   * into j, and every list is in increasing order.
   */
  method GenerateUpstreamMap(points: Points, downstream: seq<Option<nat>>) returns (upstream: seq<seq<nat>>)
    requires |downstream| == points.count
    requires forall i | 0 <= i < |downstream| && downstream[i].Some? :: downstream[i].value < points.count
    ensures |upstream| == points.count
    ensures forall j, i | 0 <= j < |upstream| && 0 <= i :: i in upstream[j] <==> i < |downstream| && downstream[i] == Some(j)
    ensures forall j, k | 0 <= j < |upstream| && 0 <= k < |upstream[j]| ::
      upstream[j][k] < |downstream| && downstream[upstream[j][k]] == Some(j)
    ensures forall j | 0 <= j < |upstream| :: Increasing(upstream[j])
  {
    upstream := seq(points.count, _ => []);
    for i := 0 to |downstream|
      invariant |upstream| == points.count
      invariant forall j | 0 <= j < |upstream| :: upstream[j] == UpstreamOf(downstream, j, i)
    {
      if downstream[i].Some? {
        var j := downstream[i].value;
        upstream := upstream[j := upstream[j] + [i]];
      }
    }
    forall j | 0 <= j < |upstream|
      ensures forall i | 0 <= i :: i in upstream[j] <==> i < |downstream| && downstream[i] == Some(j)
      ensures Increasing(upstream[j])
      ensures forall k | 0 <= k < |upstream[j]| :: upstream[j][k] < |downstream| && downstream[upstream[j][k]] == Some(j)
    {
      UpstreamOfIff(downstream, j, |downstream|);
      forall k | 0 <= k < |upstream[j]| ensures upstream[j][k] < |downstream| && downstream[upstream[j][k]] == Some(j) {
        assert upstream[j][k] in upstream[j];
      }
    }
  }

  // ---------------------------------------------------------------------
  // When the drainage forest is acyclic

  /** The first position of j in s. */
  function Position(s: seq<nat>, j: nat): (r: nat)
    requires j in s
    ensures r < |s| && s[r] == j
  {
    if s[0] == j then 0 else 1 + Position(s[1..], j)
  }

  lemma PositionOfDistinct(s: seq<nat>, t: nat)
    requires Distinct(s) && t < |s|
    ensures Position(s, s[t]) == t
  {
    var r := Position(s, s[t]);
    assert s[r] == s[t];
  }

  /** Points fixed later rank lower; points never fixed rank above every fixed one. */
  ghost function DrainRank(order: seq<nat>, n: nat): seq<nat> {
    seq(n, j => if j in order then |order| - Position(order, j) else |order| + 1)
  }

  /** One drainage edge u -> i of a forest fixing only points above sea level goes up in rank. */
  lemma RankStep(p: Points, d: seq<Option<nat>>, order: seq<nat>, i: nat, u: nat)
    requires p.Valid() && Drains(p, d, order) && FixedAboveSea(p, order)
    requires i < |d| && u < |d| && d[u] == Some(i)
    ensures DrainRank(order, |d|)[u] < DrainRank(order, |d|)[i]
  {
    assert u in order;
    var t := Position(order, u);
    if i in order[..t] {
      var t' :| 0 <= t' < t && order[..t][t'] == i;
      PositionOfDistinct(order, t');
    } else {
      assert p.heights[i] <= 0.0;
    }
  }

  /**
   * When no point at or below sea level is ever fixed, every fixed point
   * drains into an unfixed point or one fixed before it, so the upstream
   * lists are ranked and the memoised recursions end.
   */
  lemma DrainsRanked(p: Points, d: seq<Option<nat>>, order: seq<nat>, up: seq<seq<nat>>)
    requires p.Valid() && Drains(p, d, order) && FixedAboveSea(p, order)
    requires |up| == |d|
    requires forall j, k | 0 <= j < |up| && 0 <= k < |up[j]| :: up[j][k] < |d| && d[up[j][k]] == Some(j)
    ensures Ranked(up, DrainRank(order, |up|))
  {
    forall i, k | 0 <= i < |up| && 0 <= k < |up[i]|
      ensures up[i][k] < |up| && DrainRank(order, |up|)[up[i][k]] < DrainRank(order, |up|)[i]
    {
      RankStep(p, d, order, i, up[i][k]);
    }
  }

  /**
   * As written: two neighbouring points at height exactly 0.0 are each a
   * seed start (height <= 0) and a seed end (height >= 0), so each drains
   * into the other and no rank orders the upstream lists; the memoised
   * recursions of `compute_volume` and `compute_strahler` would not end.
   */
  method SeaLevelPairCycles(inertia: real, normalize: Vec2 -> Vec2)
    returns (downstream: seq<Option<nat>>, upstream: seq<seq<nat>>)
    ensures downstream == [Some(1), Some(0)]
    ensures |upstream| == 2 && 1 in upstream[0] && 0 in upstream[1]
    ensures forall rank :: !Ranked(upstream, rank)
  {
    var p := Points(2, [Vec2(0.0, 0.0), Vec2(1.0, 0.0)], [0.0, 0.0], [[1], [0]]);
    ghost var order;
    downstream, order := DrainageForest(p, inertia, normalize);
    assert p.neighbors[0][0] == 1 && p.neighbors[1][0] == 0;
    assert EdgeOk(p, downstream[0].value, 0) && EdgeOk(p, downstream[1].value, 1);
    upstream := GenerateUpstreamMap(p, downstream);
    forall rank ensures !Ranked(upstream, rank) {
      var a :| 0 <= a < |upstream[0]| && upstream[0][a] == 1;
      var b :| 0 <= b < |upstream[1]| && upstream[1][b] == 0;
    }
  }

  /**
   * Corrected: `initialize_queue` skipping neighbours at or below sea level
   * queues only edges that end above it; the drainage forest then fixes only
   * points above sea level and its upstream lists are ranked, as
   * `compute_volume` and `compute_strahler` need.
   */
  method DrainageRanked(queue: Heap, points: Points, inertia: real, normalize: Vec2 -> Vec2)
    returns (downstream: seq<Option<nat>>, upstream: seq<seq<nat>>, ghost rank: seq<nat>)
    requires points.Valid()
    requires forall x | x in queue.items :: ItemOk(points, x, [])
    requires AboveSea(points, queue.items)
    modifies queue
    ensures |downstream| == points.count && |upstream| == points.count
    ensures forall j | 0 <= j < |downstream| && downstream[j].Some? :: EdgeOk(points, downstream[j].value, j)
    ensures forall j | 0 <= j < |downstream| && downstream[j].Some? :: points.heights[j] > 0.0
    ensures forall j, i | 0 <= j < |upstream| && 0 <= i :: i in upstream[j] <==> i < |downstream| && downstream[i] == Some(j)
    ensures Ranked(upstream, rank)
  {
    ghost var order;
    downstream, order := GenerateDownstreamMap(queue, points, inertia, normalize);
    upstream := GenerateUpstreamMap(points, downstream);
    DrainsRanked(points, downstream, order, upstream);
    rank := DrainRank(order, |upstream|);
    forall j | 0 <= j < |downstream| && downstream[j].Some? ensures points.heights[j] > 0.0 {
      assert j in order;
      var t := Position(order, j);
    }
  }

  // ---------------------------------------------------------------------
  // compute_volume and compute_strahler

  /**
   * The upstream lists are acyclic, witnessed by a rank that every upstream
   * point has below its downstream point.  Both memoised recursions rely on
   * this to terminate.
   */
  ghost predicate Ranked(up: seq<seq<nat>>, rank: seq<nat>) {
    |rank| == |up| &&
    forall i, k | 0 <= i < |up| && 0 <= k < |up[i]| :: up[i][k] < |up| && rank[up[i][k]] < rank[i]
  }

  /** Left-to-right sum, the order of `v += volume[up]`. */
  function Sum(s: seq<real>): real {
    if s == [] then 0.0 else Sum(s[..|s| - 1]) + s[|s| - 1]
  }

  /** The volume of water at i: one unit plus what flows in, less evaporation. */
  ghost function Volume(up: seq<seq<nat>>, rank: seq<nat>, evaporation: real, i: nat): real
    requires Ranked(up, rank) && i < |up|
    decreases rank[i]
  {
    (1.0 + Sum(Inflows(up, rank, evaporation, i))) * (1.0 - evaporation)
  }

  /** The volumes of i's upstream points, in list order. */
  ghost function Inflows(up: seq<seq<nat>>, rank: seq<nat>, evaporation: real, i: nat): (r: seq<real>)
    requires Ranked(up, rank) && i < |up|
    ensures |r| == |up[i]|
    decreases rank[i], 0
  {
    seq(|up[i]|, k requires 0 <= k < |up[i]| => Volume(up, rank, evaporation, up[i][k]))
  }

  /** Every memoised entry holds the volume of its point; None plays the role of NaN. */
  ghost predicate VolumeMemo(volume: array<Option<real>>, up: seq<seq<nat>>, rank: seq<nat>, evaporation: real)
    reads volume
    requires Ranked(up, rank)
  {
    volume.Length == |up| &&
    forall k | 0 <= k < |up| && volume[k].Some? :: volume[k].value == Volume(up, rank, evaporation, k)
  }

  /** `compute_volume_at_point`: fill in i's volume, computing its upstream volumes first. */
  method ComputeVolumeAt(volume: array<Option<real>>, up: seq<seq<nat>>, i: nat, evaporation: real, ghost rank: seq<nat>)
    requires Ranked(up, rank) && i < |up|
    requires VolumeMemo(volume, up, rank, evaporation)
    modifies volume
    ensures VolumeMemo(volume, up, rank, evaporation)
    ensures volume[i] == Some(Volume(up, rank, evaporation, i))
    ensures forall k | 0 <= k < volume.Length && old(volume[k]).Some? :: volume[k] == old(volume[k])
    decreases rank[i]
  {
    if volume[i].Some? {
      return;
    }
    var v := 1.0;
    var ups := up[i];
    ghost var inflows := Inflows(up, rank, evaporation, i);
    for k := 0 to |ups|
      invariant VolumeMemo(volume, up, rank, evaporation)
      invariant forall m | 0 <= m < volume.Length && old(volume[m]).Some? :: volume[m] == old(volume[m])
      invariant v == 1.0 + Sum(inflows[..k])
    {
      ComputeVolumeAt(volume, up, ups[k], evaporation, rank);
      assert inflows[..k + 1][..k] == inflows[..k];
      v := v + volume[ups[k]].value;
    }
    assert inflows[..|ups|] == inflows;
    volume[i] := Some(v * (1.0 - evaporation));
  }

  /** `compute_volume`: the volume of every point. */
  method ComputeVolume(points: Points, up: seq<seq<nat>>, evaporation: real, ghost rank: seq<nat>) returns (volume: seq<real>)
    requires |up| == points.count && Ranked(up, rank)
    ensures |volume| == points.count
    ensures forall i | 0 <= i < |volume| :: volume[i] == Volume(up, rank, evaporation, i)
  {
    var memo := new Option<real>[points.count](_ => None);
    for i := 0 to points.count
      invariant VolumeMemo(memo, up, rank, evaporation)
      invariant forall k | 0 <= k < i :: memo[k].Some?
    {
      ComputeVolumeAt(memo, up, i, evaporation, rank);
    }
    volume := seq(points.count, k requires 0 <= k < points.count && memo[k].Some? reads memo => memo[k].value);
  }

  lemma {:induction false} SumNonNeg(s: seq<real>)
    requires forall k | 0 <= k < |s| :: s[k] >= 0.0
    ensures Sum(s) >= 0.0
  {
    if s != [] {
      SumNonNeg(s[..|s| - 1]);
    }
  }

  lemma {:induction false} SumAtLeast(s: seq<real>, k: nat)
    requires forall m | 0 <= m < |s| :: s[m] >= 0.0
    requires k < |s|
    ensures Sum(s) >= s[k]
  {
    var init := s[..|s| - 1];
    SumNonNeg(init);
    if k < |s| - 1 {
      SumAtLeast(init, k);
    }
  }

  lemma MulNonNeg(a: real, b: real)
    requires a >= 0.0 && b >= 0.0
    ensures a * b >= 0.0
  {
  }

  /** With evaporation in [0, 1), every point carries at least its own evaporated unit. */
  lemma {:induction false} VolumeAtLeast(up: seq<seq<nat>>, rank: seq<nat>, evaporation: real, i: nat)
    requires Ranked(up, rank) && i < |up| && 0.0 <= evaporation < 1.0
    ensures Volume(up, rank, evaporation, i) >= 1.0 - evaporation
    decreases rank[i]
  {
    var inflows := Inflows(up, rank, evaporation, i);
    forall k | 0 <= k < |inflows| ensures inflows[k] >= 0.0 {
      VolumeAtLeast(up, rank, evaporation, up[i][k]);
    }
    SumNonNeg(inflows);
    var s := Sum(inflows);
    assert (1.0 + s) * (1.0 - evaporation) == (1.0 - evaporation) + s * (1.0 - evaporation);
    MulNonNeg(s, 1.0 - evaporation);
  }

  /** Water accumulates downstream: a point carries at least what any upstream point passes on. */
  lemma VolumeGrows(up: seq<seq<nat>>, rank: seq<nat>, evaporation: real, i: nat, k: nat)
    requires Ranked(up, rank) && i < |up| && k < |up[i]| && 0.0 <= evaporation < 1.0
    ensures Volume(up, rank, evaporation, i) >= (1.0 + Volume(up, rank, evaporation, up[i][k])) * (1.0 - evaporation)
  {
    var inflows := Inflows(up, rank, evaporation, i);
    forall m | 0 <= m < |inflows| ensures inflows[m] >= 0.0 {
      VolumeAtLeast(up, rank, evaporation, up[i][m]);
    }
    SumAtLeast(inflows, k);
    var s, e := Sum(inflows), 1.0 - evaporation;
    assert (1.0 + s) * e - (1.0 + inflows[k]) * e == (s - inflows[k]) * e;
    MulNonNeg(s - inflows[k], e);
  }

  /** `max_by_key`: the position of the last greatest element. */
  function LastMaxPos(s: seq<nat>): (pos: nat)
    requires |s| > 0
    ensures pos < |s|
    ensures forall k | 0 <= k < |s| :: s[k] <= s[pos]
    ensures forall k | pos < k < |s| :: s[k] < s[pos]
  {
    if |s| == 1 then 0
    else
      var p := LastMaxPos(s[..|s| - 1]);
      if s[|s| - 1] >= s[p] then |s| - 1 else p
  }

  /** The `any` test: some child other than `maxIdx` has order `maxVal`. */
  function AnyOther(children: seq<nat>, orders: seq<nat>, maxIdx: nat, maxVal: nat): (b: bool)
    requires |children| == |orders|
    ensures b <==> exists k | 0 <= k < |children| :: children[k] != maxIdx && orders[k] == maxVal
  {
    if children == [] then false
    else
      var n := |children| - 1;
      AnyOther(children[..n], orders[..n], maxIdx, maxVal) || (children[n] != maxIdx && orders[n] == maxVal)
  }

  /** The order of a point with children, from its children's orders, as the source combines them. */
  function Combine(children: seq<nat>, orders: seq<nat>): nat
    requires |children| == |orders| > 0
  {
    var pos := LastMaxPos(orders);
    if AnyOther(children, orders, children[pos], orders[pos]) then orders[pos] + 1 else orders[pos]
  }

  /** The Strahler order of i: 1 for a source, else combined from its upstream points. */
  ghost function Strahler(up: seq<seq<nat>>, rank: seq<nat>, i: nat): nat
    requires Ranked(up, rank) && i < |up|
    decreases rank[i], 1
  {
    if |up[i]| == 0 then 1 else Combine(up[i], ChildOrders(up, rank, i))
  }

  ghost function ChildOrders(up: seq<seq<nat>>, rank: seq<nat>, i: nat): (r: seq<nat>)
    requires Ranked(up, rank) && i < |up|
    ensures |r| == |up[i]|
    decreases rank[i], 0
  {
    seq(|up[i]|, k requires 0 <= k < |up[i]| => Strahler(up, rank, up[i][k]))
  }

  /**
   * With distinct children (upstream lists are increasing), the order is the
   * largest child order, plus one exactly when two children attain it.
   */
  lemma CombineRule(children: seq<nat>, orders: seq<nat>)
    requires |children| == |orders| > 0 && Distinct(children)
    ensures forall k | 0 <= k < |orders| :: orders[k] <= Combine(children, orders)
    ensures Combine(children, orders) ==
      var m := orders[LastMaxPos(orders)];
      if exists a, b | 0 <= a < b < |orders| :: orders[a] == m && orders[b] == m then m + 1 else m
  {
    var pos := LastMaxPos(orders);
    var m := orders[pos];
    if exists a, b | 0 <= a < b < |orders| :: orders[a] == m && orders[b] == m {
      var a, b :| 0 <= a < b < |orders| && orders[a] == m && orders[b] == m;
      var other := if a == pos then b else a;
      assert children[other] != children[pos];
    }
  }

  /** Every order is at least 1 and at least the order of each upstream point. */
  lemma {:induction false} StrahlerBounds(up: seq<seq<nat>>, rank: seq<nat>, i: nat)
    requires Ranked(up, rank) && i < |up|
    ensures Strahler(up, rank, i) >= 1
    ensures forall k | 0 <= k < |up[i]| :: Strahler(up, rank, up[i][k]) <= Strahler(up, rank, i)
    decreases rank[i]
  {
    if |up[i]| > 0 {
      var orders := ChildOrders(up, rank, i);
      StrahlerBounds(up, rank, up[i][0]);
      var pos := LastMaxPos(orders);
      assert orders[0] <= orders[pos];
      forall k | 0 <= k < |up[i]| ensures Strahler(up, rank, up[i][k]) <= Strahler(up, rank, i) {
        assert orders[k] <= orders[pos];
      }
    }
  }

  /** Every memoised nonzero entry holds the order of its point. */
  ghost predicate StrahlerMemo(strahler: array<nat>, up: seq<seq<nat>>, rank: seq<nat>)
    reads strahler
    requires Ranked(up, rank)
  {
    strahler.Length == |up| &&
    forall k | 0 <= k < |up| && strahler[k] > 0 :: strahler[k] == Strahler(up, rank, k)
  }

  /** The entries of `values` at the listed positions. */
  function Gather(values: seq<nat>, at: seq<nat>): (r: seq<nat>)
    requires forall k | 0 <= k < |at| :: at[k] < |values|
    ensures |r| == |at| && forall k | 0 <= k < |at| :: r[k] == values[at[k]]
  {
    seq(|at|, k requires 0 <= k < |at| => values[at[k]])
  }

  /** `compute_strahler_at_point`: fill in i's order, computing its upstream orders first. */
  method ComputeStrahlerAt(strahler: array<nat>, up: seq<seq<nat>>, i: nat, ghost rank: seq<nat>)
    requires Ranked(up, rank) && i < |up|
    requires StrahlerMemo(strahler, up, rank)
    modifies strahler
    ensures StrahlerMemo(strahler, up, rank)
    ensures strahler[i] == Strahler(up, rank, i)
    ensures forall k | 0 <= k < strahler.Length && old(strahler[k]) > 0 :: strahler[k] == old(strahler[k])
    decreases rank[i]
  {
    if strahler[i] > 0 {
      return;
    }
    var ups := up[i];
    if |ups| == 0 {
      strahler[i] := 1;
      return;
    }
    for k := 0 to |ups|
      invariant StrahlerMemo(strahler, up, rank)
      invariant forall m | 0 <= m < strahler.Length && old(strahler[m]) > 0 :: strahler[m] == old(strahler[m])
      invariant forall m | 0 <= m < k :: strahler[ups[m]] == Strahler(up, rank, ups[m])
    {
      ComputeStrahlerAt(strahler, up, ups[k], rank);
      StrahlerBounds(up, rank, ups[k]);
    }
    var orders := Gather(strahler[..], ups);
    assert orders == ChildOrders(up, rank, i);
    StrahlerBounds(up, rank, i);
    strahler[i] := Combine(ups, orders);
  }

  /** `compute_strahler`: the order of every point. */
  method ComputeStrahler(points: Points, up: seq<seq<nat>>, ghost rank: seq<nat>) returns (strahler: seq<nat>)
    requires |up| == points.count && Ranked(up, rank)
    ensures |strahler| == points.count
    ensures forall i | 0 <= i < |strahler| :: strahler[i] == Strahler(up, rank, i)
  {
    var memo := new nat[points.count](_ => 0);
    for i := 0 to points.count
      invariant StrahlerMemo(memo, up, rank)
      invariant forall k | 0 <= k < i :: memo[k] > 0
    {
      ComputeStrahlerAt(memo, up, i, rank);
      forall k | 0 <= k <= i ensures memo[k] > 0 {
        StrahlerBounds(up, rank, k);
      }
    }
    forall k | 0 <= k < points.count ensures memo[k] == Strahler(up, rank, k) {
      StrahlerBounds(up, rank, k);
    }
    strahler := memo[..];
  }
}
