/**
 * The scan-line stack flood fill of crates/rg_worldgen/src/island.rs
 * (`floodfill`).
 *
 * A cell is inside when the source grid holds `src_value` there and the
 * destination does not (yet) hold `dst_value`.  Starting from `pos`, the fill
 * writes `dst_value` into every cell 4-connected to `pos` through cells that
 * were inside when it started, and returns how many cells it wrote.
 *
 * The proof keeps, besides the set of filled cells, a coverage invariant over
 * the span stack: every inside cell next to a filled one lies on a horizontal
 * run of initially-inside cells that meets a pending span, and a span's parent
 * row is either filled or covered by another span.  When the stack is empty
 * the filled set is therefore closed under 4-adjacency, which gives
 * completeness.
 */
module Floodfill {
  import opened Wrappers
  import opened Grids
  import opened Connectivity

  /** What one fill starts from: source mask and value, destination before the fill, fill value, seed. */
  datatype Setup = Setup(src: GridValue<bool>, sv: bool, dst0: GridValue<bool>, dv: bool, pos: IVec2)

  predicate SetupOk(k: Setup) {
    k.src.origin == k.dst0.origin && k.src.size == k.dst0.size
  }

  /** The `inside` closure of the source, evaluated on the current destination. */
  predicate Inside(src: GridValue<bool>, sv: bool, dst: GridValue<bool>, dv: bool, c: IVec2) {
    Get(src, c) == Some(sv) && Get(dst, c) != Some(dv)
  }

  /** Inside when the fill started. */
  predicate Inside0(k: Setup, c: IVec2) {
    Inside(k.src, k.sv, k.dst0, k.dv, c)
  }

  /** Inside now: inside at the start and not filled since. */
  predicate In(k: Setup, filled: set<IVec2>, c: IVec2) {
    Inside0(k, c) && c !in filled
  }

  // ---------------------------------------------------------------------
  // The region the fill must cover

  /** A 4-connected path from the seed through initially-inside cells. */
  ghost predicate IsPath(k: Setup, p: seq<IVec2>) {
    |p| > 0 && p[0] == k.pos &&
    (forall i | 0 <= i < |p| :: Inside0(k, p[i])) &&
    (forall i | 0 <= i < |p| - 1 :: Adjacent(p[i], p[i + 1]))
  }

  /** `c` is 4-connected to the seed through cells that were inside when the fill started. */
  ghost predicate Reach(k: Setup, c: IVec2) {
    exists p {:trigger IsPath(k, p)} :: IsPath(k, p) && p[|p| - 1] == c
  }

  /** The cells the fill must write. */
  ghost function Region(k: Setup): set<IVec2> {
    set c | c in Cells(k.src) && Reach(k, c)
  }

  lemma ReachSeed(k: Setup)
    requires Inside0(k, k.pos)
    ensures Reach(k, k.pos)
  {
    assert IsPath(k, [k.pos]);
  }

  lemma ReachStep(k: Setup, a: IVec2, b: IVec2)
    requires Reach(k, a) && Adjacent(a, b) && Inside0(k, b)
    ensures Reach(k, b)
  {
    var p :| IsPath(k, p) && p[|p| - 1] == a;
    assert IsPath(k, p + [b]);
  }

  lemma ReachInside(k: Setup, c: IVec2)
    requires Reach(k, c)
    ensures Inside0(k, c)
  {
    var p :| IsPath(k, p) && p[|p| - 1] == c;
  }

  /** No cell is reachable when the seed itself is not inside. */
  lemma NoReachWithoutSeed(k: Setup, c: IVec2)
    requires !Inside0(k, k.pos)
    ensures !Reach(k, c)
  {
  }

  /** A set that holds the seed and every initially-inside neighbour of its members. */
  ghost predicate Closed(k: Setup, s: set<IVec2>) {
    k.pos in s &&
    forall c | c in s ::
      (Inside0(k, Left(c)) ==> Left(c) in s) && (Inside0(k, Right(c)) ==> Right(c) in s) &&
      (Inside0(k, Above(c)) ==> Above(c) in s) && (Inside0(k, Below(c)) ==> Below(c) in s)
  }

  lemma {:induction false} ClosedHoldsPathEnd(k: Setup, s: set<IVec2>, p: seq<IVec2>)
    requires Closed(k, s) && IsPath(k, p)
    ensures p[|p| - 1] in s
    decreases |p|
  {
    if |p| > 1 {
      var q := p[..|p| - 1];
      assert IsPath(k, q);
      ClosedHoldsPathEnd(k, s, q);
      assert Adjacent(p[|p| - 2], p[|p| - 1]);
    }
  }

  /** A closed set contains every reachable cell. */
  lemma ClosedHoldsReach(k: Setup, s: set<IVec2>, c: IVec2)
    requires Closed(k, s) && Reach(k, c)
    ensures c in s
  {
    var p :| IsPath(k, p) && p[|p| - 1] == c;
    ClosedHoldsPathEnd(k, s, p);
  }

  // ---------------------------------------------------------------------
  // Spans and coverage

  /** A stack entry `(x1, x2, y, dy)`: scan row y from x1 to x2, coming from row y - dy. */
  datatype Span = Span(x1: int, x2: int, y: int, dy: int)

  /** The cell of the row a span was pushed from, under column u. */
  function Parent(e: Span, u: int): IVec2 {
    IVec2(u, e.y - e.dy)
  }

  /** Every cell from column a to column b of row y was inside at the start. */
  ghost predicate Seg0(k: Setup, a: int, b: int, y: int) {
    forall u | Min(a, b) <= u <= Max(a, b) :: Inside0(k, IVec2(u, y))
  }

  /** `c` lies on a run of initially-inside cells that meets the columns of `e` on its row. */
  ghost predicate CoveredBy(k: Setup, c: IVec2, e: Span) {
    c.y == e.y && exists u :: e.x1 <= u <= e.x2 && Seg0(k, c.x, u, c.y)
  }

  ghost predicate Covered(k: Setup, c: IVec2, st: seq<Span>) {
    exists j :: 0 <= j < |st| && CoveredBy(k, c, st[j])
  }

  /** The horizontal run of the current scan whose neighbours are still being handled. */
  datatype Run = Run(lo: int, hi: int, y: int)

  const NoRun := Run(0, -1, 0)

  predicate InRun(r: Run, f: IVec2) {
    f.y == r.y && r.lo <= f.x <= r.hi
  }

  // ---------------------------------------------------------------------
  // The invariant

  /** The destination holds dv on the filled cells and its starting value elsewhere. */
  ghost predicate DstMatches(k: Setup, d: GridValue<bool>, filled: set<IVec2>) {
    d.origin == k.dst0.origin && d.size == k.dst0.size &&
    forall c {:trigger Get(d, c)} :: Get(d, c) == if c in filled then Some(k.dv) else Get(k.dst0, c)
  }

  ghost predicate FilledOk(k: Setup, filled: set<IVec2>) {
    (forall c | c in filled :: Inside0(k, c)) &&
    (forall c {:trigger Reach(k, c)} | c in filled :: Reach(k, c))
  }

  /** No filled cell has an inside left or right neighbour, except on the current run. */
  ghost predicate HClosed(k: Setup, filled: set<IVec2>, r: Run) {
    (forall f {:trigger Left(f)} | f in filled && In(k, filled, Left(f)) :: InRun(r, f)) &&
    (forall f {:trigger Right(f)} | f in filled && In(k, filled, Right(f)) :: InRun(r, f))
  }

  /** Inside cells above or below a filled cell are covered, except around the current run. */
  ghost predicate VCovered(k: Setup, filled: set<IVec2>, st: seq<Span>, ex: seq<Span>, r: Run) {
    (forall f {:trigger Above(f)} | f in filled && In(k, filled, Above(f)) ::
      Covered(k, Above(f), st) || Covered(k, Above(f), ex) || InRun(r, f)) &&
    (forall f {:trigger Below(f)} | f in filled && In(k, filled, Below(f)) ::
      Covered(k, Below(f), st) || Covered(k, Below(f), ex) || InRun(r, f))
  }

  /** Cells of a span that are inside are reachable. */
  ghost predicate SpanOk(k: Setup, e: Span) {
    (e.dy == 1 || e.dy == -1) && e.x1 <= e.x2 &&
    forall u | e.x1 <= u <= e.x2 && Inside0(k, IVec2(u, e.y)) :: Reach(k, IVec2(u, e.y))
  }

  /** The parent row of entry j is filled, or covered by another entry. */
  ghost predicate ParentsCovered(k: Setup, filled: set<IVec2>, st: seq<Span>, ex: seq<Span>, j: int)
    requires 0 <= j < |st|
  {
    forall u | st[j].x1 <= u <= st[j].x2 && In(k, filled, Parent(st[j], u)) ::
      (exists i :: 0 <= i < |st| && i != j && CoveredBy(k, Parent(st[j], u), st[i])) ||
      Covered(k, Parent(st[j], u), ex)
  }

  ghost predicate StackOk(k: Setup, filled: set<IVec2>, st: seq<Span>, ex: seq<Span>) {
    forall j | 0 <= j < |st| :: SpanOk(k, st[j]) && ParentsCovered(k, filled, st, ex, j)
  }

  ghost predicate SeedOk(k: Setup, filled: set<IVec2>, st: seq<Span>, ex: seq<Span>) {
    k.pos in filled || Covered(k, k.pos, st) || Covered(k, k.pos, ex)
  }

  /**
   * The fill invariant.  `ex` holds the span being scanned (empty between
   * scans) and `r` the run whose neighbours are not yet accounted for.
   */
  ghost predicate Inv(k: Setup, d: GridValue<bool>, filled: set<IVec2>, st: seq<Span>, ex: seq<Span>, r: Run) {
    DstMatches(k, d, filled) && FilledOk(k, filled) && HClosed(k, filled, r) &&
    VCovered(k, filled, st, ex, r) && StackOk(k, filled, st, ex) && SeedOk(k, filled, st, ex)
  }

  // ---------------------------------------------------------------------
  // Lemmas for each step

  lemma InsideNow(k: Setup, d: GridValue<bool>, filled: set<IVec2>, c: IVec2)
    requires DstMatches(k, d, filled)
    ensures Inside(k.src, k.sv, d, k.dv, c) == In(k, filled, c)
  {
    assert Get(d, c) == if c in filled then Some(k.dv) else Get(k.dst0, c);
  }

  lemma CoveredByCell(k: Setup, c: IVec2, st: seq<Span>, j: int)
    requires 0 <= j < |st| && st[j].y == c.y && st[j].x1 <= c.x <= st[j].x2 && Inside0(k, c)
    ensures Covered(k, c, st)
  {
    assert Seg0(k, c.x, c.x, c.y);
    assert CoveredBy(k, c, st[j]);
  }

  lemma CoveredGrow(k: Setup, c: IVec2, st: seq<Span>, st': seq<Span>)
    requires |st| <= |st'| && st'[..|st|] == st
    ensures Covered(k, c, st) ==> Covered(k, c, st')
  {
    if Covered(k, c, st) {
      var j :| 0 <= j < |st| && CoveredBy(k, c, st[j]);
      assert st'[j] == st[j];
    }
  }

  /** Widening the run of pending cells keeps the invariant. */
  lemma WidenRun(k: Setup, d: GridValue<bool>, filled: set<IVec2>, st: seq<Span>, ex: seq<Span>, r: Run, r': Run)
    requires Inv(k, d, filled, st, ex, r)
    requires forall f | f in filled && InRun(r, f) :: InRun(r', f)
    ensures Inv(k, d, filled, st, ex, r')
  {
  }

  /** Writing dv into one more inside, reachable cell of the (widened) current run. */
  lemma FillCell(k: Setup, d: GridValue<bool>, filled: set<IVec2>, st: seq<Span>, ex: seq<Span>, r: Run, r': Run, c: IVec2)
    requires SetupOk(k) && Inv(k, d, filled, st, ex, r)
    requires In(k, filled, c) && Reach(k, c) && InRun(r', c)
    requires forall f | f in filled && InRun(r, f) :: InRun(r', f)
    ensures Contains(d, c)
    ensures Inv(k, With(d, c, k.dv), filled + {c}, st, ex, r')
  {
    var d', filled' := With(d, c, k.dv), filled + {c};
    forall e ensures Get(d', e) == if e in filled' then Some(k.dv) else Get(k.dst0, e) {
      GetWith(d, c, k.dv, e);
    }
    assert DstMatches(k, d', filled');
    forall f | f in filled' && (In(k, filled', Left(f)) || In(k, filled', Right(f)))
      ensures InRun(r', f)
    {
    }
    forall f | f in filled'
      ensures (In(k, filled', Above(f)) ==> Covered(k, Above(f), st) || Covered(k, Above(f), ex) || InRun(r', f)) &&
              (In(k, filled', Below(f)) ==> Covered(k, Below(f), st) || Covered(k, Below(f), ex) || InRun(r', f))
    {
    }
    forall j | 0 <= j < |st| ensures ParentsCovered(k, filled', st, ex, j) {
      assert ParentsCovered(k, filled, st, ex, j);
    }
  }

  /** Pushing a span whose parent row is not inside. */
  lemma PushSpan(k: Setup, d: GridValue<bool>, filled: set<IVec2>, st: seq<Span>, ex: seq<Span>, r: Run, e: Span)
    requires Inv(k, d, filled, st, ex, r) && SpanOk(k, e)
    requires forall u | e.x1 <= u <= e.x2 :: !In(k, filled, Parent(e, u))
    ensures Inv(k, d, filled, st + [e], ex, r)
  {
    var st' := st + [e];
    assert st'[..|st|] == st;
    forall c ensures Covered(k, c, st) ==> Covered(k, c, st') {
      CoveredGrow(k, c, st, st');
    }
    forall j | 0 <= j < |st'| ensures SpanOk(k, st'[j]) && ParentsCovered(k, filled, st', ex, j) {
      if j < |st| {
        assert ParentsCovered(k, filled, st, ex, j);
        forall u | st'[j].x1 <= u <= st'[j].x2 && In(k, filled, Parent(st'[j], u))
          ensures (exists i :: 0 <= i < |st'| && i != j && CoveredBy(k, Parent(st'[j], u), st'[i])) ||
                  Covered(k, Parent(st'[j], u), ex)
        {
          if !Covered(k, Parent(st[j], u), ex) {
            var i :| 0 <= i < |st| && i != j && CoveredBy(k, Parent(st[j], u), st[i]);
            assert st'[i] == st[i];
          }
        }
      }
    }
  }

  /** Pushing a span whose parent cells are all filled. */
  lemma PushChild(k: Setup, d: GridValue<bool>, filled: set<IVec2>, st: seq<Span>, ex: seq<Span>, r: Run, e: Span)
    requires Inv(k, d, filled, st, ex, r)
    requires (e.dy == 1 || e.dy == -1) && e.x1 <= e.x2
    requires forall u | e.x1 <= u <= e.x2 :: Parent(e, u) in filled
    ensures Inv(k, d, filled, st + [e], ex, r)
  {
    forall u | e.x1 <= u <= e.x2 && Inside0(k, IVec2(u, e.y)) ensures Reach(k, IVec2(u, e.y)) {
      ReachStep(k, Parent(e, u), IVec2(u, e.y));
    }
    PushSpan(k, d, filled, st, ex, r, e);
  }

  /** The scan of a run is over: its ends are not inside and its rows above and below are covered. */
  lemma CloseRun(k: Setup, d: GridValue<bool>, filled: set<IVec2>, st: seq<Span>, ex: seq<Span>, r: Run)
    requires Inv(k, d, filled, st, ex, r)
    requires forall u | r.lo <= u <= r.hi :: IVec2(u, r.y) in filled
    requires !In(k, filled, IVec2(r.lo - 1, r.y)) && !In(k, filled, IVec2(r.hi + 1, r.y))
    requires forall u | r.lo <= u <= r.hi ::
      (In(k, filled, Above(IVec2(u, r.y))) ==> Covered(k, Above(IVec2(u, r.y)), st)) &&
      (In(k, filled, Below(IVec2(u, r.y))) ==> Covered(k, Below(IVec2(u, r.y)), st))
    ensures Inv(k, d, filled, st, ex, NoRun)
  {
    forall f | f in filled ensures !In(k, filled, Left(f)) && !In(k, filled, Right(f)) {
      if InRun(r, f) {
        assert Left(f) == IVec2(r.lo - 1, r.y) || Left(f) in filled;
        assert Right(f) == IVec2(r.hi + 1, r.y) || Right(f) in filled;
      }
    }
    forall f | f in filled
      ensures (In(k, filled, Above(f)) ==> Covered(k, Above(f), st) || Covered(k, Above(f), ex) || InRun(NoRun, f)) &&
              (In(k, filled, Below(f)) ==> Covered(k, Below(f), st) || Covered(k, Below(f), ex) || InRun(NoRun, f))
    {
      if InRun(r, f) {
        assert f == IVec2(f.x, r.y);
      }
    }
  }

  /** Stepping along a run of initially-inside cells away from a cell that is not inside. */
  lemma {:induction false} NotInAlongSeg(k: Setup, filled: set<IVec2>, a: int, b: int, y: int)
    requires HClosed(k, filled, NoRun)
    requires Seg0(k, a, b, y) && !In(k, filled, IVec2(a, y))
    ensures !In(k, filled, IVec2(b, y))
    decreases if a <= b then b - a else a - b
  {
    if a != b {
      var a' := if a < b then a + 1 else a - 1;
      assert Inside0(k, IVec2(a, y));
      assert IVec2(a, y) in filled;
      assert IVec2(a', y) == Left(IVec2(a, y)) || IVec2(a', y) == Right(IVec2(a, y));
      assert Seg0(k, a', b, y);
      NotInAlongSeg(k, filled, a', b, y);
    }
  }

  /** Once a span is scanned, nothing it covered is still inside. */
  lemma ScannedSpanCoversNothing(k: Setup, filled: set<IVec2>, e: Span, c: IVec2)
    requires HClosed(k, filled, NoRun)
    requires forall u | e.x1 <= u <= e.x2 :: !In(k, filled, IVec2(u, e.y))
    requires CoveredBy(k, c, e)
    ensures !In(k, filled, c)
  {
    var u :| e.x1 <= u <= e.x2 && Seg0(k, c.x, u, c.y);
    assert Seg0(k, u, c.x, c.y);
    NotInAlongSeg(k, filled, u, c.x, c.y);
  }

  /** Taking the top span off the stack: its coverage moves to `ex`. */
  lemma PopSpan(k: Setup, d: GridValue<bool>, filled: set<IVec2>, st0: seq<Span>, e: Span)
    requires Inv(k, d, filled, st0 + [e], [], NoRun)
    ensures Inv(k, d, filled, st0, [e], NoRun) && SpanOk(k, e)
    ensures forall u | e.x1 <= u <= e.x2 && In(k, filled, Parent(e, u)) :: Covered(k, Parent(e, u), st0)
  {
    var st := st0 + [e];
    var n := |st0|;
    forall c | Covered(k, c, st) ensures Covered(k, c, st0) || Covered(k, c, [e]) {
      var j :| 0 <= j < |st| && CoveredBy(k, c, st[j]);
      if j < n {
        assert st0[j] == st[j];
      } else {
        assert [e][0] == st[j];
      }
    }
    assert StackOk(k, filled, st, []);
    forall j | 0 <= j < n ensures SpanOk(k, st0[j]) && ParentsCovered(k, filled, st0, [e], j) {
      assert st0[j] == st[j];
      assert ParentsCovered(k, filled, st, [], j);
      forall u | st0[j].x1 <= u <= st0[j].x2 && In(k, filled, Parent(st0[j], u))
        ensures (exists i :: 0 <= i < n && i != j && CoveredBy(k, Parent(st0[j], u), st0[i])) ||
                Covered(k, Parent(st0[j], u), [e])
      {
        var i :| 0 <= i < |st| && i != j && CoveredBy(k, Parent(st[j], u), st[i]);
        if i < n {
          assert st0[i] == st[i];
        } else {
          assert [e][0] == st[i];
        }
      }
    }
    assert st[n] == e;
    assert ParentsCovered(k, filled, st, [], n);
    forall u | e.x1 <= u <= e.x2 && In(k, filled, Parent(e, u)) ensures Covered(k, Parent(e, u), st0) {
      var i :| 0 <= i < |st| && i != n && CoveredBy(k, Parent(e, u), st[i]);
      assert st0[i] == st[i];
    }
  }

  /** After the whole span is scanned, drop it from `ex`. */
  lemma FinishSpan(k: Setup, d: GridValue<bool>, filled: set<IVec2>, st: seq<Span>, e: Span)
    requires Inv(k, d, filled, st, [e], NoRun)
    requires forall u | e.x1 <= u <= e.x2 :: !In(k, filled, IVec2(u, e.y))
    ensures Inv(k, d, filled, st, [], NoRun)
  {
    forall c | In(k, filled, c) && Covered(k, c, [e]) ensures false {
      ScannedSpanCoversNothing(k, filled, e, c);
    }
    forall j | 0 <= j < |st| ensures ParentsCovered(k, filled, st, [], j) {
      assert ParentsCovered(k, filled, st, [e], j);
    }
  }

  /** The starting state: nothing filled, the two seed spans on the stack. */
  lemma InitialInv(k: Setup)
    requires SetupOk(k) && Inside0(k, k.pos)
    ensures var st := [Span(k.pos.x, k.pos.x, k.pos.y, 1), Span(k.pos.x, k.pos.x, k.pos.y - 1, -1)];
      Inv(k, k.dst0, {}, st, [], NoRun)
  {
    var st := [Span(k.pos.x, k.pos.x, k.pos.y, 1), Span(k.pos.x, k.pos.x, k.pos.y - 1, -1)];
    ReachSeed(k);
    if Inside0(k, Above(k.pos)) {
      ReachStep(k, k.pos, Above(k.pos));
      assert Seg0(k, k.pos.x, k.pos.x, k.pos.y - 1);
      assert CoveredBy(k, Parent(st[0], k.pos.x), st[1]);
    }
    assert Seg0(k, k.pos.x, k.pos.x, k.pos.y);
    assert CoveredBy(k, Parent(st[1], k.pos.x), st[0]);
    assert CoveredBy(k, k.pos, st[0]);
    assert ParentsCovered(k, {}, st, [], 0);
    assert ParentsCovered(k, {}, st, [], 1);
  }

  /** With the stack empty the filled cells are exactly the reachable ones. */
  lemma Complete(k: Setup, d: GridValue<bool>, filled: set<IVec2>)
    requires Inv(k, d, filled, [], [], NoRun)
    ensures forall c :: c in filled <==> Reach(k, c)
  {
    forall c | c in filled
      ensures (Inside0(k, Above(c)) ==> Above(c) in filled) && (Inside0(k, Below(c)) ==> Below(c) in filled)
    {
    }
    assert Closed(k, filled);
    forall c | Reach(k, c) ensures c in filled {
      ClosedHoldsReach(k, filled, c);
    }
  }

  // ---------------------------------------------------------------------
  // Size of the region

  ghost function InsideSet(k: Setup): set<IVec2> {
    set c | c in Cells(k.src) && Inside0(k, c)
  }

  lemma SubsetCard<T>(a: set<T>, b: set<T>)
    requires a <= b
    ensures |a| <= |b|
  {
    assert b == a + (b - a);
  }

  lemma FilledInsideSet(k: Setup, filled: set<IVec2>)
    requires FilledOk(k, filled)
    ensures filled <= InsideSet(k) && |filled| <= |InsideSet(k)|
  {
    CellsEnumerate(k.src);
    SubsetCard(filled, InsideSet(k));
  }

  lemma RegionIsFilled(k: Setup, filled: set<IVec2>)
    requires FilledOk(k, filled) && forall c :: c in filled <==> Reach(k, c)
    ensures Region(k) == filled
  {
    CellsEnumerate(k.src);
    forall c | c in filled ensures c in Region(k) {
      assert Inside0(k, c);
    }
  }

  /**
   * The rows above and below a finished run [x, x1 - 1] of row e.y are
   * covered: the row ahead by the span pushed for it (`ia`), the row behind
   * by the left overhang pushed first (columns left of e.x1), by the spans
   * that covered the popped span's parent row (columns e.x1..e.x2) and by the
   * right overhang (`ib`, columns right of e.x2).
   */
  lemma RunRowsCovered(k: Setup, filled: set<IVec2>, stack0: seq<Span>, st: seq<Span>, e: Span,
                       x: int, x1: int, ia: int, ib: int)
    requires e.dy == 1 || e.dy == -1
    requires |stack0| <= |st| && st[..|stack0|] == stack0
    requires x < x1 ==> 0 <= ia < |st| && st[ia] == Span(x, x1 - 1, e.y + e.dy, e.dy)
    requires x1 - 1 > e.x2 ==> 0 <= ib < |st| && st[ib] == Span(e.x2 + 1, x1 - 1, e.y - e.dy, -e.dy)
    requires x < e.x1 ==> |st| > |stack0| && st[|stack0|] == Span(x, e.x1 - 1, e.y - e.dy, -e.dy)
    requires forall u | e.x1 <= u <= e.x2 && In(k, filled, Parent(e, u)) :: Covered(k, Parent(e, u), stack0)
    ensures forall u | x <= u <= x1 - 1 ::
      (In(k, filled, Above(IVec2(u, e.y))) ==> Covered(k, Above(IVec2(u, e.y)), st)) &&
      (In(k, filled, Below(IVec2(u, e.y))) ==> Covered(k, Below(IVec2(u, e.y)), st))
  {
    var y, dy := e.y, e.dy;
    forall u | x <= u <= x1 - 1
      ensures (In(k, filled, Above(IVec2(u, y))) ==> Covered(k, Above(IVec2(u, y)), st)) &&
              (In(k, filled, Below(IVec2(u, y))) ==> Covered(k, Below(IVec2(u, y)), st))
    {
      var ahead, behind := IVec2(u, y + dy), IVec2(u, y - dy);
      if In(k, filled, ahead) {
        CoveredByCell(k, ahead, st, ia);
      }
      if In(k, filled, behind) {
        if u < e.x1 {
          CoveredByCell(k, behind, st, |stack0|);
        } else if u <= e.x2 {
          assert behind == Parent(e, u);
          CoveredGrow(k, behind, stack0, st);
        } else {
          CoveredByCell(k, behind, st, ib);
        }
      }
      assert {ahead, behind} == {Above(IVec2(u, y)), Below(IVec2(u, y))};
    }
  }

  /**
   * The bookkeeping at the end of one run [x, x1 - 1] of row e.y: push the
   * row ahead, and the row behind where the run overhangs the span; then the
   * run's neighbours are all accounted for.
   */
  lemma EndOfRun(k: Setup, d: GridValue<bool>, filled: set<IVec2>, stack0: seq<Span>, st: seq<Span>, e: Span, x: int, x1: int)
    requires Inv(k, d, filled, st, [e], Run(x, x1 - 1, e.y)) && SpanOk(k, e)
    requires |stack0| <= |st| && st[..|stack0|] == stack0
    requires x <= x1 && e.x1 <= x1 && (x < x1 ==> x <= e.x2) && (x == x1 ==> x1 <= e.x2)
    requires forall u | x <= u < x1 :: IVec2(u, e.y) in filled
    requires !In(k, filled, IVec2(x - 1, e.y)) || x == x1
    requires !In(k, filled, IVec2(x1, e.y))
    requires x < e.x1 ==> |st| > |stack0| && st[|stack0|] == Span(x, e.x1 - 1, e.y - e.dy, -e.dy)
    requires forall u | e.x1 <= u <= e.x2 && In(k, filled, Parent(e, u)) :: Covered(k, Parent(e, u), stack0)
    ensures var ahead, back := Span(x, x1 - 1, e.y + e.dy, e.dy), Span(e.x2 + 1, x1 - 1, e.y - e.dy, -e.dy);
      var st1 := if x1 > x then st + [ahead] else st;
      var st2 := if x1 - 1 > e.x2 then st1 + [back] else st1;
      Inv(k, d, filled, st2, [e], NoRun) && |st| <= |st2| && st2[..|st|] == st &&
      |st2| <= |st| + (if x < x1 then 2 else 0)
  {
    var ahead, back := Span(x, x1 - 1, e.y + e.dy, e.dy), Span(e.x2 + 1, x1 - 1, e.y - e.dy, -e.dy);
    var r := Run(x, x1 - 1, e.y);
    if x == x1 {
      WidenRun(k, d, filled, st, [e], r, NoRun);
      assert st[..|st|] == st;
    } else {
      var st1 := st + [ahead];
      PushChild(k, d, filled, st, [e], r, ahead);
      var st2 := if x1 - 1 > e.x2 then st1 + [back] else st1;
      if x1 - 1 > e.x2 {
        PushChild(k, d, filled, st1, [e], r, back);
      }
      assert st2[..|st|] == st;
      assert st2[..|stack0|] == stack0;
      RunRowsCovered(k, filled, stack0, st2, e, x, x1, |st|, |st1|);
      CloseRun(k, d, filled, st2, [e], r);
    }
  }

  /**
   * What the scan of span e knows between runs: the pending run [x, x1 - 1]
   * is filled and cannot grow leftwards, nothing in [e.x1, x1) is left
   * inside, the stack only grew (first by the left overhang), the parent row
   * is still covered by the old stack, and at most three entries were pushed
   * per filled cell (two held in reserve while a run is pending).
   */
  ghost predicate ScanFacts(k: Setup, filled0: set<IVec2>, filled: set<IVec2>, stack0: seq<Span>, stack: seq<Span>,
                            e: Span, x: int, x1: int) {
    x <= x1 && e.x1 <= x1 && (x < x1 ==> x1 == e.x1) &&
    |stack0| <= |stack| && stack[..|stack0|] == stack0 &&
    (forall u | x <= u < x1 :: IVec2(u, e.y) in filled) &&
    (!In(k, filled, IVec2(x - 1, e.y)) || (x == x1 && !In(k, filled, IVec2(x1, e.y)))) &&
    (forall u | e.x1 <= u < x1 :: !In(k, filled, IVec2(u, e.y))) &&
    (x < e.x1 ==> |stack| > |stack0| && stack[|stack0|] == Span(x, e.x1 - 1, e.y - e.dy, -e.dy)) &&
    (forall u | e.x1 <= u <= e.x2 && In(k, filled, Parent(e, u)) :: Covered(k, Parent(e, u), stack0)) &&
    filled0 <= filled &&
    |stack| + (if x < x1 then 2 else 0) <= |stack0| + 3 * (|filled| - |filled0|)
  }

  /**
   * One round of the scan loop: the run [x, xr - 1] filled from `start`, its
   * spans pushed, and the gap up to xn skipped, re-establish the scan facts.
   */
  lemma ScanStep(k: Setup, d: GridValue<bool>, filled0: set<IVec2>, filled1: set<IVec2>, filled: set<IVec2>,
                 stack0: seq<Span>, st: seq<Span>, st': seq<Span>, e: Span, x: int, start: int, xr: int, xn: int)
    requires SpanOk(k, e) && start <= e.x2
    requires ScanFacts(k, filled0, filled1, stack0, st, e, x, start)
    requires Inv(k, d, filled, st, [e], Run(x, xr - 1, e.y))
    requires start <= xr && !In(k, filled, IVec2(xr, e.y))
    requires !In(k, filled1, IVec2(start, e.y)) ==> xr == start
    requires forall u | x <= u < xr :: IVec2(u, e.y) in filled
    requires filled1 <= filled && |filled| == |filled1| + (xr - start)
    requires var st1 := if xr > x then st + [Span(x, xr - 1, e.y + e.dy, e.dy)] else st;
      st' == if xr - 1 > e.x2 then st1 + [Span(e.x2 + 1, xr - 1, e.y - e.dy, -e.dy)] else st1
    requires xr + 1 <= xn && forall u | xr + 1 <= u < xn :: !In(k, filled, IVec2(u, e.y))
    ensures Inv(k, d, filled, st', [e], Run(xn, xn - 1, e.y))
    ensures ScanFacts(k, filled0, filled, stack0, st', e, xn, xn)
  {
    var y := e.y;
    forall u | e.x1 <= u < xr ensures !In(k, filled, IVec2(u, y)) {
      if u < start {
        assert !In(k, filled1, IVec2(u, y));
      }
    }
    EndOfRun(k, d, filled, stack0, st, e, x, xr);
    forall u | e.x1 <= u < xn ensures !In(k, filled, IVec2(u, y)) {
      if u > xr {
        assert xr + 1 <= u < xn;
      }
    }
    WidenRun(k, d, filled, st', [e], NoRun, Run(xn, xn - 1, y));
    assert st'[..|stack0|] == stack0 by {
      assert st'[..|st|] == st;
    }
  }

  /** What filling a run from `start` knows: the cells [start, x1) of row e.y were added, and nothing else. */
  ghost predicate RunFacts(k: Setup, filled0: set<IVec2>, filled: set<IVec2>, e: Span, x: int, start: int, x1: int) {
    x <= start <= x1 && (x1 == start || In(k, filled0, IVec2(start, e.y))) &&
    (forall u | x <= u < x1 :: IVec2(u, e.y) in filled) &&
    filled0 <= filled && |filled| == |filled0| + (x1 - start)
  }

  /** Filling the next cell of a run keeps the invariant and the run facts. */
  lemma FillStep(k: Setup, d: GridValue<bool>, filled0: set<IVec2>, filled: set<IVec2>, st: seq<Span>, e: Span,
                 x: int, start: int, x1: int, next: int)
    requires SetupOk(k) && SpanOk(k, e) && e.x1 <= start && (x == start ==> start <= e.x2)
    requires Inv(k, d, filled, st, [e], Run(x, x1 - 1, e.y))
    requires RunFacts(k, filled0, filled, e, x, start, x1)
    requires In(k, filled, IVec2(x1, e.y)) && next == x1 + 1
    ensures Contains(d, IVec2(x1, e.y))
    ensures Inv(k, With(d, IVec2(x1, e.y), k.dv), filled + {IVec2(x1, e.y)}, st, [e], Run(x, next - 1, e.y))
    ensures RunFacts(k, filled0, filled + {IVec2(x1, e.y)}, e, x, start, next)
  {
    var c := IVec2(x1, e.y);
    if x < x1 {
      ReachStep(k, IVec2(x1 - 1, e.y), c);
    } else {
      assert x1 == start && e.x1 <= x1 <= e.x2;
    }
    FillCell(k, d, filled, st, [e], Run(x, x1 - 1, e.y), Run(x, next - 1, e.y), c);
    RunFactsStep(k, filled0, filled, e, x, start, x1);
  }

  lemma RunFactsStep(k: Setup, filled0: set<IVec2>, filled: set<IVec2>, e: Span, x: int, start: int, x1: int)
    requires RunFacts(k, filled0, filled, e, x, start, x1) && In(k, filled, IVec2(x1, e.y))
    ensures RunFacts(k, filled0, filled + {IVec2(x1, e.y)}, e, x, start, x1 + 1)
  {
    var c := IVec2(x1, e.y);
    assert c !in filled;
    assert |filled + {c}| == |filled| + 1;
    if x1 == start {
      assert In(k, filled0, IVec2(start, e.y));
    }
  }

  /** What the left extension knows: [x, e.x1) of row e.y were added, and nothing else. */
  ghost predicate LeftFacts(k: Setup, filled0: set<IVec2>, filled: set<IVec2>, e: Span, x: int) {
    x <= e.x1 && In(k, filled, IVec2(e.x1, e.y)) && Reach(k, IVec2(x, e.y)) &&
    (forall u | x <= u < e.x1 :: IVec2(u, e.y) in filled) &&
    filled0 <= filled && |filled| == |filled0| + (e.x1 - x)
  }

  /** Filling the cell left of the extension keeps the invariant and the extension facts. */
  lemma ExtendStep(k: Setup, d: GridValue<bool>, filled0: set<IVec2>, filled: set<IVec2>, st: seq<Span>, e: Span,
                   x: int, prev: int)
    requires SetupOk(k) && Inv(k, d, filled, st, [e], Run(x, e.x1 - 1, e.y))
    requires LeftFacts(k, filled0, filled, e, x)
    requires In(k, filled, IVec2(prev, e.y)) && prev == x - 1
    ensures Contains(d, IVec2(prev, e.y))
    ensures Inv(k, With(d, IVec2(prev, e.y), k.dv), filled + {IVec2(prev, e.y)}, st, [e], Run(prev, e.x1 - 1, e.y))
    ensures LeftFacts(k, filled0, filled + {IVec2(prev, e.y)}, e, prev)
  {
    var c := IVec2(prev, e.y);
    ReachStep(k, IVec2(x, e.y), c);
    FillCell(k, d, filled, st, [e], Run(x, e.x1 - 1, e.y), Run(prev, e.x1 - 1, e.y), c);
  }

  /**
   * The start of a scan: after the left extension to x (and the push of the
   * row behind its overhang, if any) the scan facts hold with the run
   * [x, e.x1 - 1] pending.
   */
  lemma StartScan(k: Setup, d: GridValue<bool>, filled0: set<IVec2>, filled: set<IVec2>,
                  stack0: seq<Span>, st: seq<Span>, e: Span, x: int)
    requires SpanOk(k, e) && Inv(k, d, filled, stack0, [e], Run(x, e.x1 - 1, e.y))
    requires forall u | e.x1 <= u <= e.x2 && In(k, filled0, Parent(e, u)) :: Covered(k, Parent(e, u), stack0)
    requires x <= e.x1 && filled0 <= filled && |filled| == |filled0| + (e.x1 - x)
    requires forall u | x <= u < e.x1 :: IVec2(u, e.y) in filled
    requires !In(k, filled, IVec2(x - 1, e.y)) || (x == e.x1 && !In(k, filled, IVec2(e.x1, e.y)))
    requires st == if x < e.x1 then stack0 + [Span(x, e.x1 - 1, e.y - e.dy, -e.dy)] else stack0
    ensures Inv(k, d, filled, st, [e], Run(x, e.x1 - 1, e.y))
    ensures ScanFacts(k, filled0, filled, stack0, st, e, x, e.x1)
  {
    if x < e.x1 {
      PushChild(k, d, filled, stack0, [e], Run(x, e.x1 - 1, e.y), Span(x, e.x1 - 1, e.y - e.dy, -e.dy));
    }
    assert st[..|stack0|] == stack0;
  }

  // ---------------------------------------------------------------------
  // The algorithm

  /**
   * `floodfill(src, src_value, dst, dst_value, pos)`: writes dst_value into
   * exactly the cells 4-connected to `pos` through cells that were inside at
   * the start, leaves every other cell alone, and returns how many it wrote
   * (0, with nothing changed, when `pos` itself is not inside).
   */
  method Fill(src: Grid<bool>, sv: bool, dst: Grid<bool>, dv: bool, pos: IVec2) returns (count: nat)
    requires src.Valid() && dst.Valid() && src.data != dst.data
    requires src.origin == dst.origin && src.size == dst.size
    modifies dst.data
    ensures dst.Valid()
    ensures var k := Setup(src.Value(), sv, old(dst.Value()), dv, pos);
      forall c :: Get(dst.Value(), c) == if Reach(k, c) then Some(dv) else Get(k.dst0, c)
    ensures count == |Region(Setup(src.Value(), sv, old(dst.Value()), dv, pos))|
  {
    ghost var k := Setup(src.Value(), sv, dst.Value(), dv, pos);
    if !Inside(src.Value(), sv, dst.Value(), dv, pos) {
      forall c ensures !Reach(k, c) {
        NoReachWithoutSeed(k, c);
      }
      assert Region(k) == {};
      return 0;
    }

    var stack := [Span(pos.x, pos.x, pos.y, 1), Span(pos.x, pos.x, pos.y - 1, -1)];
    count := 0;
    ghost var filled: set<IVec2> := {};
    InitialInv(k);

    while |stack| > 0
      invariant dst.Valid() && src.Value() == k.src
      invariant Inv(k, dst.Value(), filled, stack, [], NoRun)
      invariant count == |filled|
      decreases 3 * (|InsideSet(k)| - |filled|) + |stack|
    {
      FilledInsideSet(k, filled);
      var e := stack[|stack| - 1];
      ghost var popped := stack;
      stack := stack[..|stack| - 1];
      assert popped == stack + [e];
      PopSpan(k, dst.Value(), filled, stack, e);
      stack, count, filled := ScanSpan(src, sv, dst, dv, e, stack, count, k, filled);
      FilledInsideSet(k, filled);
    }

    Complete(k, dst.Value(), filled);
    RegionIsFilled(k, filled);
  }

  /**
   * The body of the fill loop for one popped span `(x1, x2, y, dy)`: extend
   * left from x1, then fill each inside run meeting [x1, x2], pushing the row
   * ahead, and the row behind where the run overhangs the span.
   */
  method ScanSpan(src: Grid<bool>, sv: bool, dst: Grid<bool>, dv: bool, e: Span, stack0: seq<Span>, count0: nat,
                  ghost k: Setup, ghost filled0: set<IVec2>)
    returns (stack: seq<Span>, count: nat, ghost filled: set<IVec2>)
    requires src.Valid() && dst.Valid() && src.data != dst.data
    requires SetupOk(k) && k.src == src.Value() && k.sv == sv && k.dv == dv
    requires Inv(k, dst.Value(), filled0, stack0, [e], NoRun) && SpanOk(k, e)
    requires forall u | e.x1 <= u <= e.x2 && In(k, filled0, Parent(e, u)) :: Covered(k, Parent(e, u), stack0)
    requires count0 == |filled0|
    modifies dst.data
    ensures dst.Valid() && src.Value() == k.src
    ensures Inv(k, dst.Value(), filled, stack, [], NoRun)
    ensures count == |filled| && filled0 <= filled
    ensures |stack| <= |stack0| + 3 * (|filled| - |filled0|)
  {
    var x1, x2, y, dy := e.x1, e.x2, e.y, e.dy;
    var x := x1;
    stack, count, filled := stack0, count0, filled0;

    InsideNow(k, dst.Value(), filled, IVec2(x, y));
    if Inside(src.Value(), sv, dst.Value(), dv, IVec2(x, y)) {
      x, count, filled := ExtendLeft(src, sv, dst, dv, e, stack, count, k, filled);
      if x < x1 {
        stack := stack + [Span(x, x1 - 1, y - dy, -dy)];
      }
    } else {
      WidenRun(k, dst.Value(), filled, stack, [e], NoRun, Run(x, x1 - 1, y));
    }
    StartScan(k, dst.Value(), filled0, filled, stack0, stack, e, x);

    x, x1, stack, count, filled := ScanRuns(src, sv, dst, dv, e, x, stack0, stack, count, k, filled0, filled);
    WidenRun(k, dst.Value(), filled, stack, [e], Run(x, x1 - 1, y), NoRun);
    FinishSpan(k, dst.Value(), filled, stack, e);
  }

  /** The runs of one span: fill each inside run meeting [e.x1, e.x2] and push its spans. */
  method ScanRuns(src: Grid<bool>, sv: bool, dst: Grid<bool>, dv: bool, e: Span, x0: int,
                  ghost stack0: seq<Span>, stackIn: seq<Span>, countIn: nat,
                  ghost k: Setup, ghost filled0: set<IVec2>, ghost filledIn: set<IVec2>)
    returns (x: int, x1: int, stack: seq<Span>, count: nat, ghost filled: set<IVec2>)
    requires src.Valid() && dst.Valid() && src.data != dst.data
    requires SetupOk(k) && k.src == src.Value() && k.sv == sv && k.dv == dv && SpanOk(k, e)
    requires Inv(k, dst.Value(), filledIn, stackIn, [e], Run(x0, e.x1 - 1, e.y))
    requires ScanFacts(k, filled0, filledIn, stack0, stackIn, e, x0, e.x1)
    requires countIn == |filledIn|
    modifies dst.data
    ensures dst.Valid() && src.Value() == k.src && e.x2 < x1
    ensures Inv(k, dst.Value(), filled, stack, [e], Run(x, x1 - 1, e.y))
    ensures ScanFacts(k, filled0, filled, stack0, stack, e, x, x1)
    ensures count == |filled|
  {
    var x2, y, dy := e.x2, e.y, e.dy;
    x, x1, stack, count, filled := x0, e.x1, stackIn, countIn, filledIn;
    while x1 <= x2
      invariant dst.Valid() && src.Value() == k.src
      invariant Inv(k, dst.Value(), filled, stack, [e], Run(x, x1 - 1, y))
      invariant ScanFacts(k, filled0, filled, stack0, stack, e, x, x1)
      invariant count == |filled|
      decreases x2 - x1
    {
      ghost var filled1, stack1, start := filled, stack, x1;
      x1, count, filled := FillRun(src, sv, dst, dv, e, x, x1, stack, count, k, filled);
      ghost var runEnd := x1;
      if x1 > x {
        stack := stack + [Span(x, x1 - 1, y + dy, dy)];
      }
      if x1 - 1 > x2 {
        stack := stack + [Span(x2 + 1, x1 - 1, y - dy, -dy)];
      }
      x1 := SkipGap(src, sv, dst, dv, e, x1 + 1, k, filled);
      ScanStep(k, dst.Value(), filled0, filled1, filled, stack0, stack1, stack, e, x, start, runEnd, x1);
      x := x1;
    }
  }

  /** The left extension: fill leftwards from x1 - 1 while inside. */
  method ExtendLeft(src: Grid<bool>, sv: bool, dst: Grid<bool>, dv: bool, e: Span, stack: seq<Span>, count0: nat,
                    ghost k: Setup, ghost filled0: set<IVec2>)
    returns (x: int, count: nat, ghost filled: set<IVec2>)
    requires src.Valid() && dst.Valid() && src.data != dst.data
    requires SetupOk(k) && k.src == src.Value() && k.sv == sv && k.dv == dv
    requires Inv(k, dst.Value(), filled0, stack, [e], NoRun) && SpanOk(k, e)
    requires In(k, filled0, IVec2(e.x1, e.y)) && count0 == |filled0|
    modifies dst.data
    ensures dst.Valid() && src.Value() == k.src
    ensures x <= e.x1 && !In(k, filled, IVec2(x - 1, e.y)) && In(k, filled, IVec2(e.x1, e.y))
    ensures Inv(k, dst.Value(), filled, stack, [e], Run(x, e.x1 - 1, e.y))
    ensures forall u | x <= u < e.x1 :: IVec2(u, e.y) in filled
    ensures count == |filled| && filled0 <= filled && |filled| == |filled0| + (e.x1 - x)
  {
    var y := e.y;
    x, count, filled := e.x1, count0, filled0;
    WidenRun(k, dst.Value(), filled, stack, [e], NoRun, Run(x, e.x1 - 1, y));
    while Inside(src.Value(), sv, dst.Value(), dv, IVec2(x - 1, y))
      invariant dst.Valid() && src.Value() == k.src
      invariant Inv(k, dst.Value(), filled, stack, [e], Run(x, e.x1 - 1, y))
      invariant LeftFacts(k, filled0, filled, e, x)
      invariant count == |filled|
      decreases x - src.origin.x
    {
      var prev := x - 1;
      var c := IVec2(prev, y);
      InsideNow(k, dst.Value(), filled, c);
      ExtendStep(k, dst.Value(), filled0, filled, stack, e, x, prev);
      var _ := dst.Set(c, dv);
      count := count + 1;
      filled := filled + {c};
      x := prev;
    }
    InsideNow(k, dst.Value(), filled, IVec2(x - 1, y));
  }

  /** One run: fill rightwards from x1 while inside; the run is [x, x1 - 1] on exit. */
  method FillRun(src: Grid<bool>, sv: bool, dst: Grid<bool>, dv: bool, e: Span, x: int, start: int, stack: seq<Span>,
                 count0: nat, ghost k: Setup, ghost filled0: set<IVec2>)
    returns (x1: int, count: nat, ghost filled: set<IVec2>)
    requires src.Valid() && dst.Valid() && src.data != dst.data
    requires SetupOk(k) && k.src == src.Value() && k.sv == sv && k.dv == dv
    requires Inv(k, dst.Value(), filled0, stack, [e], Run(x, start - 1, e.y)) && SpanOk(k, e)
    requires x <= start && e.x1 <= start && (x == start ==> start <= e.x2)
    requires forall u | x <= u < start :: IVec2(u, e.y) in filled0
    requires count0 == |filled0|
    modifies dst.data
    ensures dst.Valid() && src.Value() == k.src
    ensures start <= x1 && !In(k, filled, IVec2(x1, e.y))
    ensures !In(k, filled0, IVec2(start, e.y)) ==> x1 == start
    ensures Inv(k, dst.Value(), filled, stack, [e], Run(x, x1 - 1, e.y))
    ensures forall u | x <= u < x1 :: IVec2(u, e.y) in filled
    ensures count == |filled| && filled0 <= filled && |filled| == |filled0| + (x1 - start)
  {
    var y := e.y;
    x1, count, filled := start, count0, filled0;
    while Inside(src.Value(), sv, dst.Value(), dv, IVec2(x1, y))
      invariant dst.Valid() && src.Value() == k.src
      invariant Inv(k, dst.Value(), filled, stack, [e], Run(x, x1 - 1, y))
      invariant RunFacts(k, filled0, filled, e, x, start, x1)
      invariant count == |filled|
      decreases src.origin.x + src.size.x - x1
    {
      var c := IVec2(x1, y);
      InsideNow(k, dst.Value(), filled, c);
      var next := x1 + 1;
      FillStep(k, dst.Value(), filled0, filled, stack, e, x, start, x1, next);
      var _ := dst.Set(c, dv);
      count := count + 1;
      filled := filled + {c};
      x1 := next;
    }
    InsideNow(k, dst.Value(), filled, IVec2(x1, y));
  }

  /** Skip the cells of the span that are not inside (reading only). */
  method SkipGap(src: Grid<bool>, sv: bool, dst: Grid<bool>, dv: bool, e: Span, start: int,
                 ghost k: Setup, ghost filled: set<IVec2>)
    returns (x1: int)
    requires src.Valid() && dst.Valid() && k.src == src.Value() && k.sv == sv && k.dv == dv
    requires DstMatches(k, dst.Value(), filled)
    ensures start <= x1 && (x1 < e.x2 ==> In(k, filled, IVec2(x1, e.y)))
    ensures forall u | start <= u < x1 :: !In(k, filled, IVec2(u, e.y))
  {
    x1 := start;
    while x1 < e.x2 && !Inside(src.Value(), sv, dst.Value(), dv, IVec2(x1, e.y))
      invariant start <= x1
      invariant forall u | start <= u < x1 :: !In(k, filled, IVec2(u, e.y))
      decreases e.x2 - x1
    {
      InsideNow(k, dst.Value(), filled, IVec2(x1, e.y));
      x1 := x1 + 1;
    }
    if x1 < e.x2 {
      InsideNow(k, dst.Value(), filled, IVec2(x1, e.y));
    }
  }
}
