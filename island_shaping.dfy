/**
 * The island shaping of crates/rg_worldgen/src/island_shaping.rs: labelling
 * of 4-connected components, keeping one island and one sea, erosion,
 * majority smoothing, the land-fraction test and the retry loop.
 */
module IslandShaping {
  import opened Wrappers
  import opened Grids
  import opened Connectivity
  import GridOps
  import Island

  /** `u32::MAX`, the label of a cell not labelled yet. */
  const Unset: nat := 0xFFFF_FFFF

  /** One entry of the frequency list: label, the value of its cells and how many there are. */
  datatype Freq = Freq(id: nat, value: bool, count: nat)

  function SumCounts(freq: seq<Freq>): nat {
    if freq == [] then 0 else SumCounts(freq[..|freq| - 1]) + freq[|freq| - 1].count
  }

  // ---------------------------------------------------------------------
  // Neighbours

  /** The cells of a neighbourhood, dropping the direction indices. */
  function CellsOf(ns: seq<(nat, IVec2)>): seq<IVec2> {
    if ns == [] then [] else [ns[0].1] + CellsOf(ns[1..])
  }

  /** The cells of `neighborhood_4`, in order. */
  function Cells4<T>(g: GridValue<T>, c: IVec2): seq<IVec2> {
    CellsOf(Neighbors4(g, c))
  }

  function Tagged<T>(g: GridValue<T>, k: nat, p: IVec2): seq<(nat, IVec2)> {
    if Contains(g, p) then [(k, p)] else []
  }

  /** The cells of a concatenation are the cells of its parts. */
  lemma {:induction false} CellsOfAppend(a: seq<(nat, IVec2)>, b: seq<(nat, IVec2)>)
    ensures CellsOf(a + b) == CellsOf(a) + CellsOf(b)
  {
    if a == [] {
      assert a + b == b;
    } else {
      assert (a + b)[0] == a[0] && (a + b)[1..] == a[1..] + b;
      CellsOfAppend(a[1..], b);
    }
  }

  /** The cells of one neighbourhood entry: the cell itself when it is in bounds. */
  lemma CellsOfTagged<T>(g: GridValue<T>, k: nat, p: IVec2)
    ensures CellsOf(Tagged(g, k, p)) == IfInside(g, p)
  {
    if Contains(g, p) {
      assert [(k, p)][1..] == [];
    }
  }

  /** The in-bounds cell p, as a list of at most one cell. */
  function IfInside<T>(g: GridValue<T>, p: IVec2): seq<IVec2> {
    if Contains(g, p) then [p] else []
  }

  /** The cells of `neighborhood_4`: above, right, below and left, each when in bounds. */
  lemma Cells4Unfold<T>(g: GridValue<T>, c: IVec2)
    ensures Cells4(g, c) == IfInside(g, Above(c)) + (IfInside(g, Right(c)) + (IfInside(g, Below(c)) + IfInside(g, Left(c))))
  {
    var d := Neighborhood4;
    assert c.Plus(d[0]) == Above(c) && c.Plus(d[1]) == Right(c) && c.Plus(d[2]) == Below(c) && c.Plus(d[3]) == Left(c);
    var t0, t1, t2, t3 := Tagged(g, 0, Above(c)), Tagged(g, 1, Right(c)), Tagged(g, 2, Below(c)), Tagged(g, 3, Left(c));
    assert NeighborhoodFrom(g, d, c, 4) == [];
    assert NeighborhoodFrom(g, d, c, 3) == t3 + [];
    assert NeighborhoodFrom(g, d, c, 2) == t2 + (t3 + []);
    assert NeighborhoodFrom(g, d, c, 1) == t1 + (t2 + (t3 + []));
    assert Neighbors4(g, c) == t0 + (t1 + (t2 + (t3 + [])));
    assert t3 + [] == t3;
    CellsOfAppend(t2, t3);
    CellsOfAppend(t1, t2 + t3);
    CellsOfAppend(t0, t1 + (t2 + t3));
    CellsOfTagged(g, 0, Above(c));
    CellsOfTagged(g, 1, Right(c));
    CellsOfTagged(g, 2, Below(c));
    CellsOfTagged(g, 3, Left(c));
  }

  /** Membership in four lists of at most one cell each. */
  lemma InFour(a: seq<IVec2>, b: seq<IVec2>, c: seq<IVec2>, d: seq<IVec2>, p: IVec2)
    ensures p in a + (b + (c + d)) <==> p in a || p in b || p in c || p in d
  {
  }

  /** `neighborhood_4` yields exactly the in-bounds side neighbours. */
  lemma Cells4Spec<T>(g: GridValue<T>, c: IVec2)
    ensures forall d :: d in Cells4(g, c) <==> Contains(g, d) && Adjacent(c, d)
  {
    Cells4Unfold(g, c);
    forall p ensures p in Cells4(g, c) <==> Contains(g, p) && Adjacent(c, p) {
      InFour(IfInside(g, Above(c)), IfInside(g, Right(c)), IfInside(g, Below(c)), IfInside(g, Left(c)), p);
    }
  }

  /** The cells of cs holding the same value as c, in order. */
  function SameAs(g: GridValue<bool>, c: IVec2, cs: seq<IVec2>): seq<IVec2> {
    if cs == [] then []
    else SameAs(g, c, cs[..|cs| - 1]) + (if Get(g, cs[|cs| - 1]) == Get(g, c) then [cs[|cs| - 1]] else [])
  }

  lemma {:induction false} SameAsSpec(g: GridValue<bool>, c: IVec2, cs: seq<IVec2>)
    ensures forall d :: d in SameAs(g, c, cs) <==> d in cs && Get(g, d) == Get(g, c)
  {
    if cs != [] {
      SameAsSpec(g, c, cs[..|cs| - 1]);
      assert cs == cs[..|cs| - 1] + [cs[|cs| - 1]];
    }
  }

  /** The push loop of `connected_components`: stack the neighbours holding the cell's value. */
  method PushSame(grid: Grid<bool>, cell: IVec2, stack: seq<IVec2>) returns (st: seq<IVec2>)
    requires grid.Valid() && Contains(grid.Value(), cell)
    ensures st == stack + SameAs(grid.Value(), cell, Cells4(grid.Value(), cell))
  {
    var g := grid.Value();
    var cs := Cells4(g, cell);
    Cells4Spec(g, cell);
    st := stack;
    var j := 0;
    while j < |cs|
      invariant 0 <= j <= |cs|
      invariant st == stack + SameAs(g, cell, cs[..j])
    {
      assert cs[..j + 1][..j] == cs[..j];
      assert cs[j] in cs;
      if At(g, cell) == At(g, cs[j]) {
        st := st + [cs[j]];
      }
      j := j + 1;
    }
    assert cs[..|cs|] == cs;
  }

  // ---------------------------------------------------------------------
  // The depth-first search of one component

  /**
   * The search state for label L started at s: F holds the cells labelled so
   * far, all linked to s, and every same-valued neighbour of F is in F or on
   * the stack.
   */
  ghost predicate DfsInv(g: GridValue<bool>, s: IVec2, L: nat, lab0: GridValue<nat>, lab: GridValue<nat>,
                         F: set<IVec2>, stack: seq<IVec2>)
    requires Contains(g, s)
  {
    var v := At(g, s);
    lab0.origin == g.origin && lab0.size == g.size && lab.origin == g.origin && lab.size == g.size &&
    (forall c :: Get(lab, c) == if c in F then Some(L) else Get(lab0, c)) &&
    (forall c | c in F :: Linked(g, v, s, c)) &&
    (forall c | c in stack :: Linked(g, v, s, c)) &&
    (s in F || s in stack) &&
    (forall c, d | c in F && d in Cells4(g, c) && Get(g, d) == Some(v) :: d in F || d in stack)
  }

  lemma LinkedInBounds(g: GridValue<bool>, v: bool, s: IVec2, c: IVec2)
    requires Linked(g, v, s, c)
    ensures Contains(g, c) && At(g, c) == v
  {
    LinkedEnds(g, v, s, c);
  }

  /** F is a part of the component of s, so the search cannot run on forever. */
  lemma FilledInComponent(g: GridValue<bool>, s: IVec2, F: set<IVec2>)
    requires Contains(g, s) && forall c | c in F :: Linked(g, At(g, s), s, c)
    ensures F <= Component(g, At(g, s), s) && |F| <= |Component(g, At(g, s), s)|
  {
    CellsEnumerate(g);
    forall c | c in F ensures c in Component(g, At(g, s), s) {
      LinkedEnds(g, At(g, s), s, c);
    }
    SubsetCard(F, Component(g, At(g, s), s));
  }

  lemma SubsetCard<T>(a: set<T>, b: set<T>)
    requires a <= b
    ensures |a| <= |b|
  {
    assert b == a + (b - a);
  }

  /** Popping a cell that already carries the label. */
  lemma DfsSkip(g: GridValue<bool>, s: IVec2, L: nat, lab0: GridValue<nat>, lab: GridValue<nat>,
                F: set<IVec2>, stack: seq<IVec2>, cell: IVec2)
    requires Contains(g, s) && DfsInv(g, s, L, lab0, lab, F, stack + [cell])
    requires forall c | Contains(lab0, c) :: At(lab0, c) != L
    requires Get(lab, cell) == Some(L)
    ensures DfsInv(g, s, L, lab0, lab, F, stack)
  {
    assert cell in F;
    forall c | c in stack ensures c in stack + [cell] { }
    forall c | c in stack + [cell] && c != cell ensures c in stack { }
  }

  /** Popping a cell not labelled yet: label it and stack its same-valued neighbours. */
  lemma DfsVisit(g: GridValue<bool>, s: IVec2, L: nat, lab0: GridValue<nat>, lab: GridValue<nat>,
                 F: set<IVec2>, stack: seq<IVec2>, cell: IVec2)
    requires Contains(g, s) && DfsInv(g, s, L, lab0, lab, F, stack + [cell])
    requires Get(lab, cell) != Some(L)
    ensures cell !in F && Linked(g, At(g, s), s, cell)
    ensures DfsInv(g, s, L, lab0, With(lab, cell, L), F + {cell},
                   stack + SameAs(g, cell, Cells4(g, cell)))
  {
    var v := At(g, s);
    assert cell in stack + [cell];
    LinkedInBounds(g, v, s, cell);
    assert Contains(lab, cell);
    var pushed := SameAs(g, cell, Cells4(g, cell));
    SameAsSpec(g, cell, Cells4(g, cell));
    Cells4Spec(g, cell);
    forall c ensures Get(With(lab, cell, L), c) == if c in F + {cell} then Some(L) else Get(lab0, c) {
      GetWith(lab, cell, L, c);
    }
    forall d | d in pushed ensures Linked(g, v, s, d) {
      LinkedStep(g, v, s, cell, d);
    }
    PushedLinked(g, v, s, stack, cell, pushed);
    PushedClosed(g, v, F, stack, cell, pushed);
    if s !in F && s != cell {
      assert s in stack + [cell];
    }
  }

  lemma PushedLinked(g: GridValue<bool>, v: bool, s: IVec2, stack: seq<IVec2>, cell: IVec2, pushed: seq<IVec2>)
    requires forall c | c in stack + [cell] :: Linked(g, v, s, c)
    requires forall c | c in pushed :: Linked(g, v, s, c)
    ensures forall c | c in stack + pushed :: Linked(g, v, s, c)
  {
    forall c | c in stack + pushed ensures Linked(g, v, s, c) {
      if c !in pushed {
        assert c in stack + [cell];
      }
    }
  }

  lemma PushedClosed(g: GridValue<bool>, v: bool, F: set<IVec2>, stack: seq<IVec2>, cell: IVec2, pushed: seq<IVec2>)
    requires forall c, d | c in F && d in Cells4(g, c) && Get(g, d) == Some(v) :: d in F || d in stack + [cell]
    requires forall d | d in Cells4(g, cell) && Get(g, d) == Some(v) :: d in pushed
    ensures forall c, d | c in F + {cell} && d in Cells4(g, c) && Get(g, d) == Some(v) :: d in F + {cell} || d in stack + pushed
  {
    forall c, d | c in F + {cell} && d in Cells4(g, c) && Get(g, d) == Some(v) ensures d in F + {cell} || d in stack + pushed {
      if c != cell && d !in F && d != cell {
        assert d in stack + [cell];
      }
    }
  }

  /** A set holding s and closed under same-valued neighbours holds the whole component of s. */
  lemma {:induction false} ClosedHoldsWalk(g: GridValue<bool>, v: bool, s: IVec2, F: set<IVec2>, p: seq<IVec2>, n: nat)
    requires s in F && forall c, d | c in F && d in Cells4(g, c) && Get(g, d) == Some(v) :: d in F
    requires IsWalk(g, v, p) && p[0] == s && n < |p|
    ensures p[n] in F
  {
    if n > 0 {
      ClosedHoldsWalk(g, v, s, F, p, n - 1);
      Cells4Spec(g, p[n - 1]);
      assert Adjacent(p[n - 1], p[n]);
    }
  }

  /** With the stack empty, the labelled cells are exactly the component of s. */
  lemma DfsDone(g: GridValue<bool>, s: IVec2, L: nat, lab0: GridValue<nat>, lab: GridValue<nat>, F: set<IVec2>)
    requires Contains(g, s) && DfsInv(g, s, L, lab0, lab, F, [])
    ensures F == Component(g, At(g, s), s)
    ensures forall c :: Get(lab, c) == if Linked(g, At(g, s), s, c) then Some(L) else Get(lab0, c)
  {
    var v := At(g, s);
    forall c | Linked(g, v, s, c) ensures c in F {
      var p :| WalkBetween(g, v, p, s, c);
      ClosedHoldsWalk(g, v, s, F, p, |p| - 1);
    }
    FilledInComponent(g, s, F);
    CellsEnumerate(g);
    forall c | c in Component(g, v, s) ensures c in F { }
  }

  /**
   * The inner loop of `connected_components`: label with L every cell of the
   * component of s and count them.
   */
  method LabelComponent(grid: Grid<bool>, labels: Grid<nat>, s: IVec2, L: nat) returns (frequency: nat)
    requires grid.Valid() && labels.Valid() && Contains(grid.Value(), s)
    requires labels.origin == grid.origin && labels.size == grid.size
    requires forall c | Contains(labels.Value(), c) :: At(labels.Value(), c) != L
    modifies labels.data
    ensures labels.Valid() && labels.origin == grid.origin && labels.size == grid.size
    ensures forall c :: Get(labels.Value(), c) ==
              if Linked(grid.Value(), At(grid.Value(), s), s, c) then Some(L) else Get(old(labels.Value()), c)
    ensures frequency == |Component(grid.Value(), At(grid.Value(), s), s)|
  {
    ghost var g := grid.Value();
    ghost var lab0 := labels.Value();
    ghost var F: set<IVec2> := {};
    var stack := [s];
    frequency := 0;
    LinkedRefl(g, At(g, s), s);
    FilledInComponent(g, s, F);
    while |stack| > 0
      invariant labels.Valid() && labels.origin == grid.origin && labels.size == grid.size
      invariant DfsInv(g, s, L, lab0, labels.Value(), F, stack)
      invariant frequency == |F| <= |Component(g, At(g, s), s)|
      decreases |Component(g, At(g, s), s)| - |F|, |stack|
    {
      stack, frequency, F := DfsPop(grid, labels, s, L, stack, frequency, lab0, F);
    }
    DfsDone(g, s, L, lab0, labels.Value(), F);
  }

  /** One turn of the search loop: pop a cell; unless it already carries L, label it and stack its neighbours. */
  method DfsPop(grid: Grid<bool>, labels: Grid<nat>, s: IVec2, L: nat, stack0: seq<IVec2>, frequency0: nat,
                ghost lab0: GridValue<nat>, ghost F0: set<IVec2>)
    returns (stack: seq<IVec2>, frequency: nat, ghost F: set<IVec2>)
    requires grid.Valid() && labels.Valid() && Contains(grid.Value(), s) && |stack0| > 0
    requires forall c | Contains(lab0, c) :: At(lab0, c) != L
    requires DfsInv(grid.Value(), s, L, lab0, labels.Value(), F0, stack0) && frequency0 == |F0|
    modifies labels.data
    ensures labels.Valid() && DfsInv(grid.Value(), s, L, lab0, labels.Value(), F, stack) && frequency == |F|
    ensures |F| <= |Component(grid.Value(), At(grid.Value(), s), s)|
    ensures |F| > |F0| || (F == F0 && |stack| < |stack0|)
  {
    ghost var g := grid.Value();
    FilledInComponent(g, s, F0);
    var cell := stack0[|stack0| - 1];
    stack := stack0[..|stack0| - 1];
    assert stack + [cell] == stack0;
    assert cell in stack + [cell];
    LinkedInBounds(g, At(g, s), s, cell);
    if At(labels.Value(), cell) == L {
      DfsSkip(g, s, L, lab0, labels.Value(), F0, stack, cell);
      return stack, frequency0, F0;
    }
    DfsVisit(g, s, L, lab0, labels.Value(), F0, stack, cell);
    F := F0 + {cell};
    assert |F| == |F0| + 1;
    frequency := frequency0 + 1;
    labels.Put(cell, L);
    stack := PushSame(grid, cell, stack);
    FilledInComponent(g, s, F);
  }

  // ---------------------------------------------------------------------
  // connected_components

  /** The value of an in-bounds cell (false outside, never used there). */
  function ValueAt(g: GridValue<bool>, c: IVec2): bool {
    if Contains(g, c) then At(g, c) else false
  }

  /** c is in the component of r. */
  ghost predicate Owns(g: GridValue<bool>, r: IVec2, c: IVec2) {
    Linked(g, ValueAt(g, r), r, c)
  }

  /** Entry l of the frequency list describes the component of some cell labelled l. */
  ghost predicate FreqEntry(g: GridValue<bool>, labels: GridValue<nat>, f: Freq, l: nat) {
    f.id == l &&
    exists c | Contains(g, c) && Get(labels, c) == Some(l) :: f.value == At(g, c) && f.count == |Component(g, f.value, c)|
  }

  /** Label l already occurs before c in row-major order. */
  ghost predicate SeenBefore(g: GridValue<bool>, labels: GridValue<nat>, c: IVec2, l: nat) {
    exists d | Contains(g, d) && Index(g, d) < Index(g, c) :: Get(labels, d) == Some(l)
  }

  /**
   * What `connected_components` returns for g: every cell has a label below
   * the number of entries; two cells share a label exactly when a path of
   * same-valued 4-neighbours joins them; entry l gives l, the value and the
   * size of the component labelled l; each label first occurs after all
   * smaller ones; and the counts add up to the number of cells.
   */
  ghost predicate LabelledBy(g: GridValue<bool>, freq: seq<Freq>, labels: GridValue<nat>) {
    LabShape(g, labels) && LabelsInRange(g, freq, labels) && SameLabelIffLinked(g, labels) &&
    EntriesDescribe(g, freq, labels) && LabelsInOrder(g, labels) && SumCounts(freq) == g.size.Area()
  }

  ghost predicate LabelsInRange(g: GridValue<bool>, freq: seq<Freq>, labels: GridValue<nat>)
    requires LabShape(g, labels)
  {
    forall c | Contains(g, c) :: At(labels, c) < |freq|
  }

  ghost predicate SameLabelIffLinked(g: GridValue<bool>, labels: GridValue<nat>)
    requires LabShape(g, labels)
  {
    forall c, d | Contains(g, c) && Contains(g, d) :: At(labels, c) == At(labels, d) <==> Linked(g, At(g, c), c, d)
  }

  ghost predicate EntriesDescribe(g: GridValue<bool>, freq: seq<Freq>, labels: GridValue<nat>) {
    forall l | 0 <= l < |freq| :: FreqEntry(g, labels, freq[l], l)
  }

  ghost predicate LabelsInOrder(g: GridValue<bool>, labels: GridValue<nat>)
    requires LabShape(g, labels)
  {
    forall c, l | Contains(g, c) && 0 <= l < At(labels, c) :: SeenBefore(g, labels, c, l)
  }

  /** Label l was issued at reps[l], in row-major order and before cell i; entry l describes its component. */
  ghost predicate RepsOk(g: GridValue<bool>, freq: seq<Freq>, reps: seq<IVec2>, i: int) {
    |reps| == |freq| <= i &&
    (forall l | 0 <= l < |freq| :: Contains(g, reps[l]) && Index(g, reps[l]) < i &&
       freq[l] == Freq(l, At(g, reps[l]), |Component(g, At(g, reps[l]), reps[l])|)) &&
    (forall l1, l2 {:trigger Rank(g, reps, l1), Rank(g, reps, l2)} | 0 <= l1 < l2 < |reps| :: Rank(g, reps, l1) < Rank(g, reps, l2))
  }

  /** The row-major position where label l was issued. */
  function Rank(g: GridValue<bool>, reps: seq<IVec2>, l: int): int {
    if 0 <= l < |reps| then Index(g, reps[l]) else -1
  }

  /** Label l covers the component of reps[l], no cell of which comes before reps[l]. */
  ghost predicate OwnedLabelled(g: GridValue<bool>, lab: GridValue<nat>, reps: seq<IVec2>) {
    forall l, c {:trigger Owns(g, reps[l], c)} | 0 <= l < |reps| && Owns(g, reps[l], c) ::
      Get(lab, c) == Some(l) && Index(g, reps[l]) <= Index(g, c)
  }

  ghost predicate LabShape(g: GridValue<bool>, lab: GridValue<nat>) {
    lab.origin == g.origin && lab.size == g.size
  }

  /** Every labelled cell lies in the component of its label's cell. */
  ghost predicate LabelsOwned(g: GridValue<bool>, lab: GridValue<nat>, reps: seq<IVec2>)
    requires LabShape(g, lab)
  {
    forall c | Contains(g, c) && At(lab, c) != Unset :: At(lab, c) < |reps| && Owns(g, reps[At(lab, c)], c)
  }

  /** The cells before i are labelled. */
  ghost predicate PrefixLabelled(g: GridValue<bool>, lab: GridValue<nat>, i: int)
    requires LabShape(g, lab)
  {
    forall c | Contains(g, c) && Index(g, c) < i :: At(lab, c) != Unset
  }

  /** `done` is the set of labelled cells. */
  ghost predicate DoneOk(g: GridValue<bool>, lab: GridValue<nat>, done: set<IVec2>)
    requires LabShape(g, lab)
  {
    forall c :: c in done <==> Contains(g, c) && At(lab, c) != Unset
  }

  /**
   * The scan state before cell i: reps[l] is the cell where label l was
   * issued; label l sits exactly on its component; all cells before i are
   * labelled; `done` is the set of labelled cells.
   */
  ghost predicate CcInv(g: GridValue<bool>, lab: GridValue<nat>, freq: seq<Freq>, reps: seq<IVec2>,
                        done: set<IVec2>, i: int) {
    LabShape(g, lab) && RepsOk(g, freq, reps, i) && OwnedLabelled(g, lab, reps) && LabelsOwned(g, lab, reps) &&
    PrefixLabelled(g, lab, i) && DoneOk(g, lab, done) && SumCounts(freq) == |done|
  }

  /** lab1 is lab0 with the component of s labelled L. */
  ghost predicate NewLabelling(g: GridValue<bool>, lab0: GridValue<nat>, lab1: GridValue<nat>, s: IVec2, L: nat) {
    LabShape(g, lab1) && forall c :: Get(lab1, c) == if Owns(g, s, c) then Some(L) else Get(lab0, c)
  }

  lemma CcStart(g: GridValue<bool>, lab: GridValue<nat>)
    requires LabShape(g, lab)
    requires forall j | 0 <= j < |lab.cells| :: lab.cells[j] == Unset
    ensures CcInv(g, lab, [], [], {}, 0)
  {
    forall c | Contains(g, c) ensures At(lab, c) == Unset && Index(g, c) >= 0 {
      IndexRange(lab, c);
    }
  }

  /** Skipping a cell that is labelled already. */
  lemma CcSkip(g: GridValue<bool>, lab: GridValue<nat>, freq: seq<Freq>, reps: seq<IVec2>, done: set<IVec2>,
               i: int, cell: IVec2)
    requires CcInv(g, lab, freq, reps, done, i) && Contains(g, cell) && Index(g, cell) == i
    requires At(lab, cell) != Unset
    ensures CcInv(g, lab, freq, reps, done, i + 1)
  {
    forall c | Contains(g, c) && Index(g, c) < i + 1 ensures At(lab, c) != Unset {
      if Index(g, c) == i {
        IndexInjective(g, c, cell);
      }
    }
  }

  /** No cell carries the next label yet. */
  lemma CcFresh(g: GridValue<bool>, lab: GridValue<nat>, freq: seq<Freq>, reps: seq<IVec2>, done: set<IVec2>, i: int)
    requires CcInv(g, lab, freq, reps, done, i) && |freq| < Unset
    ensures forall c | Contains(lab, c) :: At(lab, c) != |freq|
  {
    forall c | Contains(lab, c) ensures At(lab, c) != |freq| {
      assert Contains(g, c);
    }
  }

  /** The component of an unlabelled cell is wholly unlabelled. */
  lemma Unowned(g: GridValue<bool>, lab: GridValue<nat>, reps: seq<IVec2>, s: IVec2, c: IVec2)
    requires LabShape(g, lab) && OwnedLabelled(g, lab, reps) && LabelsOwned(g, lab, reps)
    requires Contains(g, s) && At(lab, s) == Unset && Owns(g, s, c)
    ensures Contains(g, c) && At(lab, c) == Unset
  {
    var v := At(g, s);
    LinkedInBounds(g, v, s, c);
    if At(lab, c) != Unset {
      var r := reps[At(lab, c)];
      LinkedEnds(g, ValueAt(g, r), r, c);
      LinkedSym(g, v, s, c);
      LinkedTrans(g, v, r, c, s);
      assert Owns(g, r, s);
    }
  }

  lemma CcNewReps(g: GridValue<bool>, freq: seq<Freq>, reps: seq<IVec2>, i: int, s: IVec2, count: nat)
    requires RepsOk(g, freq, reps, i) && Contains(g, s) && Index(g, s) == i
    requires count == |Component(g, At(g, s), s)|
    ensures RepsOk(g, freq + [Freq(|freq|, At(g, s), count)], reps + [s], i + 1)
  {
    var reps' := reps + [s];
    forall l | 0 <= l < |reps| ensures Rank(g, reps', l) == Rank(g, reps, l) < i {
      assert reps'[l] == reps[l];
    }
    assert Rank(g, reps', |reps|) == i;
  }

  lemma CcNewOwned(g: GridValue<bool>, lab0: GridValue<nat>, lab1: GridValue<nat>, reps: seq<IVec2>, i: int, s: IVec2)
    requires LabShape(g, lab0) && OwnedLabelled(g, lab0, reps) && LabelsOwned(g, lab0, reps) && PrefixLabelled(g, lab0, i)
    requires Contains(g, s) && Index(g, s) == i && At(lab0, s) == Unset
    requires NewLabelling(g, lab0, lab1, s, |reps|) && |reps| < Unset
    ensures OwnedLabelled(g, lab1, reps + [s])
  {
    var reps' := reps + [s];
    forall l, c | 0 <= l < |reps'| && Owns(g, reps'[l], c)
      ensures Get(lab1, c) == Some(l) && Index(g, reps'[l]) <= Index(g, c)
    {
      if l == |reps| {
        assert reps'[l] == s;
        Unowned(g, lab0, reps, s, c);
      } else {
        assert reps'[l] == reps[l];
        assert Owns(g, reps[l], c);
        if Owns(g, s, c) {
          Unowned(g, lab0, reps, s, c);
          assert false;
        }
      }
    }
  }

  lemma CcNewLabels(g: GridValue<bool>, lab0: GridValue<nat>, lab1: GridValue<nat>, reps: seq<IVec2>, s: IVec2)
    requires LabShape(g, lab0) && LabelsOwned(g, lab0, reps)
    requires NewLabelling(g, lab0, lab1, s, |reps|) && |reps| != Unset
    ensures LabelsOwned(g, lab1, reps + [s])
  {
    var reps' := reps + [s];
    forall c | Contains(g, c) && At(lab1, c) != Unset ensures At(lab1, c) < |reps'| && Owns(g, reps'[At(lab1, c)], c) {
      if !Owns(g, s, c) {
        assert At(lab1, c) == At(lab0, c);
      }
    }
  }

  lemma CcNewPrefix(g: GridValue<bool>, lab0: GridValue<nat>, lab1: GridValue<nat>, i: int, s: IVec2, L: nat)
    requires LabShape(g, lab0) && PrefixLabelled(g, lab0, i)
    requires Contains(g, s) && Index(g, s) == i
    requires NewLabelling(g, lab0, lab1, s, L) && L != Unset
    ensures PrefixLabelled(g, lab1, i + 1)
  {
    forall c | Contains(g, c) && Index(g, c) < i + 1 ensures At(lab1, c) != Unset {
      if Index(g, c) == i {
        IndexInjective(g, c, s);
        LinkedRefl(g, At(g, s), s);
      }
    }
  }

  lemma CcNewDone(g: GridValue<bool>, lab0: GridValue<nat>, lab1: GridValue<nat>, reps: seq<IVec2>,
                  done: set<IVec2>, s: IVec2)
    requires LabShape(g, lab0) && OwnedLabelled(g, lab0, reps) && LabelsOwned(g, lab0, reps) && DoneOk(g, lab0, done)
    requires Contains(g, s) && At(lab0, s) == Unset
    requires NewLabelling(g, lab0, lab1, s, |reps|) && |reps| != Unset
    ensures DoneOk(g, lab1, done + Component(g, At(g, s), s))
    ensures |done + Component(g, At(g, s), s)| == |done| + |Component(g, At(g, s), s)|
  {
    var comp := Component(g, At(g, s), s);
    assert ValueAt(g, s) == At(g, s);
    CellsEnumerate(g);
    forall c | c in comp ensures c !in done {
      Unowned(g, lab0, reps, s, c);
    }
    UnionCard(done, comp);
  }

  lemma UnionCard<T>(a: set<T>, b: set<T>)
    requires a !! b
    ensures |a + b| == |a| + |b|
  {
  }

  /** Issuing label |freq| at cell s, once its component is labelled. */
  lemma CcNew(g: GridValue<bool>, lab0: GridValue<nat>, lab1: GridValue<nat>, freq: seq<Freq>, reps: seq<IVec2>,
              done: set<IVec2>, i: int, s: IVec2, count: nat)
    requires CcInv(g, lab0, freq, reps, done, i) && Contains(g, s) && Index(g, s) == i && At(lab0, s) == Unset
    requires |freq| < Unset
    requires LabShape(g, lab1)
    requires forall c :: Get(lab1, c) == if Linked(g, At(g, s), s, c) then Some(|freq|) else Get(lab0, c)
    requires count == |Component(g, At(g, s), s)|
    ensures CcInv(g, lab1, freq + [Freq(|freq|, At(g, s), count)], reps + [s], done + Component(g, At(g, s), s), i + 1)
  {
    assert ValueAt(g, s) == At(g, s);
    assert NewLabelling(g, lab0, lab1, s, |reps|);
    CcNewReps(g, freq, reps, i, s, count);
    CcNewOwned(g, lab0, lab1, reps, i, s);
    CcNewLabels(g, lab0, lab1, reps, s);
    CcNewPrefix(g, lab0, lab1, i, s, |reps|);
    CcNewDone(g, lab0, lab1, reps, done, s);
    var freq' := freq + [Freq(|freq|, At(g, s), count)];
    assert freq'[..|freq|] == freq;
  }

  lemma {:induction false} DistinctCard(xs: seq<IVec2>)
    requires forall a, b | 0 <= a < b < |xs| :: xs[a] != xs[b]
    ensures |set x | x in xs| == |xs|
  {
    if xs != [] {
      var ys := xs[..|xs| - 1];
      DistinctCard(ys);
      assert (set x | x in xs) == (set x | x in ys) + {xs[|xs| - 1]};
    }
  }

  /** A grid has as many distinct cells as it has values. */
  lemma CellSetCard(g: GridValue<bool>, all: set<IVec2>)
    requires forall c :: c in all <==> Contains(g, c)
    ensures |all| == g.size.Area()
  {
    CellsEnumerate(g);
    var cs := Cells(g);
    forall a, b | 0 <= a < b < |cs| ensures cs[a] != cs[b] { }
    DistinctCard(cs);
    assert all == set x | x in cs;
  }

  /** Once every cell is labelled, two cells share a label exactly when they are linked. */
  lemma CcDoneIff(g: GridValue<bool>, lab: GridValue<nat>, reps: seq<IVec2>, c: IVec2, d: IVec2)
    requires LabShape(g, lab) && OwnedLabelled(g, lab, reps) && LabelsOwned(g, lab, reps)
    requires Contains(g, c) && Contains(g, d) && At(lab, c) != Unset
    ensures At(lab, c) == At(lab, d) <==> Linked(g, At(g, c), c, d)
  {
    var r := reps[At(lab, c)];
    var w := ValueAt(g, r);
    LinkedEnds(g, w, r, c);
    if At(lab, c) == At(lab, d) {
      LinkedSym(g, w, r, c);
      LinkedTrans(g, w, c, r, d);
    }
    if Linked(g, At(g, c), c, d) {
      LinkedTrans(g, w, r, c, d);
      assert Owns(g, r, d);
    }
  }

  lemma CcDone(g: GridValue<bool>, lab: GridValue<nat>, freq: seq<Freq>, reps: seq<IVec2>, done: set<IVec2>)
    requires CcInv(g, lab, freq, reps, done, |g.cells|)
    ensures LabelledBy(g, freq, lab)
  {
    CcDoneRange(g, lab, freq, reps);
    CcDoneLinked(g, lab, reps);
    CcDoneEntries(g, lab, freq, reps);
    CcDoneOrder(g, lab, freq, reps);
    CellSetCard(g, done);
  }

  lemma CcDoneRange(g: GridValue<bool>, lab: GridValue<nat>, freq: seq<Freq>, reps: seq<IVec2>)
    requires LabShape(g, lab) && |reps| == |freq| && LabelsOwned(g, lab, reps) && PrefixLabelled(g, lab, |g.cells|)
    ensures LabelsInRange(g, freq, lab)
    ensures forall c | Contains(g, c) :: At(lab, c) != Unset
  {
    forall c | Contains(g, c) ensures At(lab, c) != Unset && At(lab, c) < |freq| {
      IndexRange(g, c);
    }
  }

  lemma CcDoneLinked(g: GridValue<bool>, lab: GridValue<nat>, reps: seq<IVec2>)
    requires LabShape(g, lab) && OwnedLabelled(g, lab, reps) && LabelsOwned(g, lab, reps) && PrefixLabelled(g, lab, |g.cells|)
    ensures SameLabelIffLinked(g, lab)
  {
    forall c, d | Contains(g, c) && Contains(g, d) ensures At(lab, c) == At(lab, d) <==> Linked(g, At(g, c), c, d) {
      IndexRange(g, c);
      CcDoneIff(g, lab, reps, c, d);
    }
  }

  lemma CcDoneEntries(g: GridValue<bool>, lab: GridValue<nat>, freq: seq<Freq>, reps: seq<IVec2>)
    requires RepsOk(g, freq, reps, |g.cells|) && OwnedLabelled(g, lab, reps)
    ensures EntriesDescribe(g, freq, lab)
  {
    forall l | 0 <= l < |freq| ensures FreqEntry(g, lab, freq[l], l) {
      LabelAtRep(g, lab, freq, reps, l);
    }
  }

  lemma CcDoneOrder(g: GridValue<bool>, lab: GridValue<nat>, freq: seq<Freq>, reps: seq<IVec2>)
    requires LabShape(g, lab) && RepsOk(g, freq, reps, |g.cells|) && OwnedLabelled(g, lab, reps) && LabelsOwned(g, lab, reps)
    requires forall c | Contains(g, c) :: At(lab, c) != Unset
    ensures LabelsInOrder(g, lab)
  {
    forall c, l | Contains(g, c) && 0 <= l < At(lab, c) ensures SeenBefore(g, lab, c, l) {
      assert At(lab, c) < |reps| && Owns(g, reps[At(lab, c)], c);
      LabelAtRep(g, lab, freq, reps, l);
      assert Rank(g, reps, l) < Rank(g, reps, At(lab, c));
    }
  }

  /** Label l sits on the cell where it was issued, whose component entry l describes. */
  lemma LabelAtRep(g: GridValue<bool>, lab: GridValue<nat>, freq: seq<Freq>, reps: seq<IVec2>, l: int)
    requires RepsOk(g, freq, reps, |g.cells|) && OwnedLabelled(g, lab, reps) && 0 <= l < |freq|
    ensures Contains(g, reps[l]) && Get(lab, reps[l]) == Some(l) && Index(g, reps[l]) == Rank(g, reps, l)
    ensures FreqEntry(g, lab, freq[l], l)
  {
    LinkedRefl(g, At(g, reps[l]), reps[l]);
    assert Owns(g, reps[l], reps[l]);
  }


  /**
   * `connected_components`: scan the cells in row-major order; each cell
   * still unlabelled gets the next label, spread over its component by the
   * search, and one frequency entry.
   */
  method ConnectedComponents(grid: Grid<bool>) returns (freq: seq<Freq>, labels: GridValue<nat>)
    requires grid.Valid() && grid.origin == Zero
    requires grid.size.x < I32Max && grid.size.y < I32Max && grid.size.Area() < Unset
    ensures LabelledBy(grid.Value(), freq, labels)
  {
    ghost var g := grid.Value();
    var lab := new Grid.New(grid.size, Unset);
    var numLabels := 0;
    freq := [];
    ghost var reps: seq<IVec2> := [];
    ghost var done: set<IVec2> := {};
    CcStart(g, lab.Value());
    var i := 0;
    while i < grid.data.Length
      invariant 0 <= i <= |g.cells| && grid.Value() == g && lab.Valid() && fresh(lab.data)
      invariant numLabels == |freq| && CcInv(g, lab.Value(), freq, reps, done, i)
    {
      freq, numLabels, reps, done := ScanCell(grid, lab, i, freq, numLabels, reps, done);
      i := i + 1;
    }
    labels := lab.Value();
    CcDone(g, labels, freq, reps, done);
  }

  /** One step of the scan: cell i keeps its label, or issues the next one to its whole component. */
  method ScanCell(grid: Grid<bool>, lab: Grid<nat>, i: nat, freq0: seq<Freq>, numLabels0: nat,
                  ghost reps0: seq<IVec2>, ghost done0: set<IVec2>)
    returns (freq: seq<Freq>, numLabels: nat, ghost reps: seq<IVec2>, ghost done: set<IVec2>)
    requires grid.Valid() && grid.origin == Zero && grid.size.x < I32Max && grid.size.y < I32Max
    requires lab.Valid() && i < grid.data.Length < Unset
    requires numLabels0 == |freq0| && CcInv(grid.Value(), lab.Value(), freq0, reps0, done0, i)
    modifies lab.data
    ensures lab.Valid() && numLabels == |freq| && CcInv(grid.Value(), lab.Value(), freq, reps, done, i + 1)
  {
    ghost var g := grid.Value();
    var cell := CellAt(Zero, grid.size, i);
    CellAtInBounds(g, i);
    freq, numLabels, reps, done := freq0, numLabels0, reps0, done0;
    if At(lab.Value(), cell) != Unset {
      CcSkip(g, lab.Value(), freq, reps, done, i, cell);
      return;
    }
    var next := numLabels;
    numLabels := numLabels + 1;
    ghost var lab0 := lab.Value();
    CcFresh(g, lab0, freq, reps, done, i);
    var frequency := LabelComponent(grid, lab, cell, next);
    CcNew(g, lab0, lab.Value(), freq, reps, done, i, cell, frequency);
    freq := freq + [Freq(next, At(grid.Value(), cell), frequency)];
    reps := reps + [cell];
    done := done + Component(g, At(g, cell), cell);
  }

  // ---------------------------------------------------------------------
  // keep_one_island

  /**
   * The entry `max_by_key` picks among those holding v: the largest count,
   * the last one among equal counts, and None when no entry holds v.
   */
  function LargestOf(freq: seq<Freq>, v: bool): (r: Option<nat>)
    ensures r.None? <==> forall k | 0 <= k < |freq| :: freq[k].value != v
    ensures r.Some? ==> r.value < |freq| && freq[r.value].value == v
    ensures r.Some? ==> forall k | 0 <= k < |freq| && freq[k].value == v ::
      freq[k].count <= freq[r.value].count && (k > r.value ==> freq[k].count < freq[r.value].count)
  {
    if freq == [] then None
    else
      var best := LargestOf(freq[..|freq| - 1], v);
      var last := freq[|freq| - 1];
      if last.value == v && (best.None? || freq[best.value].count <= last.count) then Some(|freq| - 1)
      else best
  }

  /** Every cell outside the components labelled island and water negated. */
  function Flipped(g: GridValue<bool>, labels: GridValue<nat>, island: nat, water: nat): (r: GridValue<bool>)
    requires LabShape(g, labels)
    ensures r.origin == g.origin && r.size == g.size
  {
    RawGrid(g.origin, g.size, seq(|g.cells|, (j: int) requires 0 <= j < |g.cells| =>
      if labels.cells[j] == island || labels.cells[j] == water then g.cells[j] else !g.cells[j]))
  }

  /** The flipping pass of `keep_one_island`, over the cells in row-major order. */
  method FlipOthers(grid: Grid<bool>, labels: GridValue<nat>, island: nat, water: nat)
    requires grid.Valid() && LabShape(grid.Value(), labels)
    modifies grid.data
    ensures grid.Valid() && grid.Value() == Flipped(old(grid.Value()), labels, island, water)
  {
    ghost var g := grid.Value();
    var i := 0;
    while i < grid.data.Length
      invariant 0 <= i <= grid.data.Length && grid.Valid()
      invariant forall j | 0 <= j < i :: grid.data[j] == Flipped(g, labels, island, water).cells[j]
      invariant forall j | i <= j < grid.data.Length :: grid.data[j] == g.cells[j]
    {
      if labels.cells[i] != island && labels.cells[i] != water {
        grid.data[i] := !grid.data[i];
      }
      i := i + 1;
    }
    assert grid.data[..] == Flipped(g, labels, island, water).cells;
  }

  /** A cell keeps its value exactly when it carries one of the two kept labels. */
  lemma FlippedGet(g: GridValue<bool>, labels: GridValue<nat>, island: nat, water: nat, c: IVec2)
    requires LabShape(g, labels) && Contains(g, c)
    ensures Get(Flipped(g, labels, island, water), c) == Some(At(g, c)) <==> At(labels, c) == island || At(labels, c) == water
    ensures Get(Flipped(g, labels, island, water), c) == Some(At(g, c)) || Get(Flipped(g, labels, island, water), c) == Some(!At(g, c))
  {
    IndexRange(g, c);
  }

  /**
   * The entry `LargestOf` picks for v names a component of v-cells at
   * least as large as the component of any v-cell.
   */
  lemma LargestIsLargest(g: GridValue<bool>, freq: seq<Freq>, labels: GridValue<nat>, v: bool, c: IVec2)
    requires LabelledBy(g, freq, labels) && LargestOf(freq, v).Some?
    requires Contains(g, c) && At(g, c) == v
    ensures var m := LargestOf(freq, v).value; freq[m].id == m && |Component(g, v, c)| <= freq[m].count
  {
    var l := At(labels, c);
    assert FreqEntry(g, labels, freq[l], l);
    var e :| Contains(g, e) && Get(labels, e) == Some(l) && freq[l].value == At(g, e) && freq[l].count == |Component(g, freq[l].value, e)|;
    assert At(labels, c) == At(labels, e);
    LinkedEnds(g, At(g, c), c, e);
    SameComponent(g, v, c, e);
    assert FreqEntry(g, labels, freq[LargestOf(freq, v).value], LargestOf(freq, v).value);
  }

  /** On a uniform grid, moving along a row stays linked. */
  lemma {:induction false} LinkedAlongRow(g: GridValue<bool>, v: bool, c: IVec2, x: int)
    requires forall d | Contains(g, d) :: At(g, d) == v
    requires Contains(g, c) && g.origin.x <= x < g.origin.x + g.size.x
    ensures Linked(g, v, c, IVec2(x, c.y))
    decreases if x >= c.x then x - c.x else c.x - x
  {
    if x == c.x {
      LinkedRefl(g, v, c);
    } else if x > c.x {
      LinkedAlongRow(g, v, c, x - 1);
      assert Right(IVec2(x - 1, c.y)) == IVec2(x, c.y);
      LinkedStep(g, v, c, IVec2(x - 1, c.y), IVec2(x, c.y));
    } else {
      LinkedAlongRow(g, v, c, x + 1);
      assert Left(IVec2(x + 1, c.y)) == IVec2(x, c.y);
      LinkedStep(g, v, c, IVec2(x + 1, c.y), IVec2(x, c.y));
    }
  }

  /** On a uniform grid, moving along a column stays linked. */
  lemma {:induction false} LinkedAlongColumn(g: GridValue<bool>, v: bool, c: IVec2, y: int)
    requires forall d | Contains(g, d) :: At(g, d) == v
    requires Contains(g, c) && g.origin.y <= y < g.origin.y + g.size.y
    ensures Linked(g, v, c, IVec2(c.x, y))
    decreases if y >= c.y then y - c.y else c.y - y
  {
    if y == c.y {
      LinkedRefl(g, v, c);
    } else if y > c.y {
      LinkedAlongColumn(g, v, c, y - 1);
      assert Below(IVec2(c.x, y - 1)) == IVec2(c.x, y);
      LinkedStep(g, v, c, IVec2(c.x, y - 1), IVec2(c.x, y));
    } else {
      LinkedAlongColumn(g, v, c, y + 1);
      assert Above(IVec2(c.x, y + 1)) == IVec2(c.x, y);
      LinkedStep(g, v, c, IVec2(c.x, y + 1), IVec2(c.x, y));
    }
  }

  /** A grid holding one value everywhere is a single component. */
  lemma UniformLinked(g: GridValue<bool>, v: bool, c: IVec2, d: IVec2)
    requires forall e | Contains(g, e) :: At(g, e) == v
    requires Contains(g, c) && Contains(g, d)
    ensures Linked(g, v, c, d)
  {
    var m := IVec2(d.x, c.y);
    LinkedAlongRow(g, v, c, d.x);
    LinkedAlongColumn(g, v, m, d.y);
    LinkedTrans(g, v, c, m, d);
  }

  /** Every cell holds the value of the entry for its label. */
  lemma EntryValue(g: GridValue<bool>, freq: seq<Freq>, labels: GridValue<nat>, c: IVec2)
    requires LabelledBy(g, freq, labels) && Contains(g, c)
    ensures At(labels, c) < |freq| && freq[At(labels, c)].value == At(g, c)
  {
    var l := At(labels, c);
    assert FreqEntry(g, labels, freq[l], l);
    var e :| Contains(g, e) && Get(labels, e) == Some(l) && freq[l].value == At(g, e);
    assert At(labels, c) == At(labels, e);
    LinkedEnds(g, At(g, c), c, e);
  }

  /** With two or more components, both values occur among the entries (so both `unwrap`s succeed). */
  lemma BothValuesPresent(g: GridValue<bool>, freq: seq<Freq>, labels: GridValue<nat>, v: bool)
    requires LabelledBy(g, freq, labels) && |freq| >= 2
    ensures exists k | 0 <= k < |freq| :: freq[k].value == v
  {
    if forall k | 0 <= k < |freq| :: freq[k].value != v {
      assert FreqEntry(g, labels, freq[0], 0);
      assert FreqEntry(g, labels, freq[1], 1);
      var c0 :| Contains(g, c0) && Get(labels, c0) == Some(0);
      var c1 :| Contains(g, c1) && Get(labels, c1) == Some(1);
      forall e | Contains(g, e) ensures At(g, e) == !v {
        EntryValue(g, freq, labels, e);
      }
      UniformLinked(g, !v, c0, c1);
      assert false;
    }
  }

  /** Each value forms at most one 4-connected component. */
  ghost predicate OneComponentEach(g: GridValue<bool>) {
    forall c, d | Contains(g, c) && Contains(g, d) && At(g, c) == At(g, d) :: Linked(g, At(g, c), c, d)
  }

  /** The exit test of `keep_one_island`: at most two components leave one per value. */
  lemma AtMostTwo(g: GridValue<bool>, freq: seq<Freq>, labels: GridValue<nat>)
    requires LabelledBy(g, freq, labels) && |freq| <= 2
    ensures OneComponentEach(g)
  {
    forall c, d | Contains(g, c) && Contains(g, d) && At(g, c) == At(g, d) ensures Linked(g, At(g, c), c, d) {
      SameValueSameLabel(g, freq, labels, c, d);
    }
  }

  /**
   * With at most two entries, cells of one value share a label: neither
   * label can be the entry of the other value, which occurs.
   */
  lemma SameValueSameLabel(g: GridValue<bool>, freq: seq<Freq>, labels: GridValue<nat>, c: IVec2, d: IVec2)
    requires LabelledBy(g, freq, labels) && |freq| <= 2
    requires Contains(g, c) && Contains(g, d) && At(g, c) == At(g, d)
    ensures At(labels, c) == At(labels, d)
  {
    EntryValue(g, freq, labels, c);
    EntryValue(g, freq, labels, d);
    if |freq| == 2 {
      BothValuesPresent(g, freq, labels, !At(g, c));
      var k :| 0 <= k < |freq| && freq[k].value == !At(g, c);
      assert At(labels, c) != k && At(labels, d) != k;
    }
  }

  /**
   * `keep_one_island`: while more than two components remain, flip every
   * cell outside the largest land and the largest water component.  The
   * number of rounds is bounded by `fuel`; `done` says the loop exited.
   */
  method KeepOneIsland(grid: Grid<bool>, fuel: nat) returns (done: bool)
    requires grid.Valid() && grid.origin == Zero
    requires grid.size.x < I32Max && grid.size.y < I32Max && grid.size.Area() < Unset
    modifies grid.data
    ensures grid.Valid()
    ensures done ==> OneComponentEach(grid.Value())
  {
    var n := 0;
    while n < fuel
      invariant grid.Valid()
    {
      var freq, labels := ConnectedComponents(grid);
      if |freq| <= 2 {
        AtMostTwo(grid.Value(), freq, labels);
        return true;
      }
      BothValuesPresent(grid.Value(), freq, labels, true);
      BothValuesPresent(grid.Value(), freq, labels, false);
      var island := LargestOf(freq, true).value;
      var water := LargestOf(freq, false).value;
      FlipOthers(grid, labels, freq[island].id, freq[water].id);
      n := n + 1;
    }
    return false;
  }

  // ---------------------------------------------------------------------
  // erode and smooth

  /** `par_from_fn` at the zero origin: every cell holds f of itself. */
  lemma ParFromFnGet<T, U>(g: GridValue<T>, f: IVec2 -> U, c: IVec2)
    requires g.origin == Zero && Contains(g, c)
    ensures Get(ParFromFnWithOrigin(g.size, Zero, f), c) == Some(f(c))
  {
    ParFromFnIsShifted(g.size, Zero, f);
    FromFnGet(g.size, Zero, f, c);
  }

  /** The erosion closure: a cell stays land only if it and each of its in-bounds 4-neighbours are land. */
  predicate ErodeCell(g: GridValue<bool>, c: IVec2) {
    Get(g, c) == Some(true) && forall d | d in Cells4(g, c) :: Get(g, d) == Some(true)
  }

  /** `erode`. */
  function Erode(g: GridValue<bool>): (r: GridValue<bool>)
    requires g.origin == Zero
    ensures r.origin == Zero && r.size == g.size
  {
    ParFromFnWithOrigin(g.size, Zero, (c: IVec2) => ErodeCell(g, c))
  }

  /** An eroded cell is land exactly when the cell and all its in-bounds 4-adjacent cells are land. */
  lemma ErodeGet(g: GridValue<bool>, c: IVec2)
    requires g.origin == Zero && Contains(g, c)
    ensures Get(Erode(g), c) == Some(At(g, c) && forall d | Contains(g, d) && Adjacent(c, d) :: At(g, d))
  {
    ParFromFnGet(g, (c: IVec2) => ErodeCell(g, c), c);
    Cells4Spec(g, c);
  }

  /** Erosion only removes land: the result is pointwise at most the input. */
  lemma ErodeShrinks(g: GridValue<bool>, c: IVec2)
    requires g.origin == Zero
    ensures Get(Erode(g), c) == Some(true) ==> Get(g, c) == Some(true)
    ensures Get(Erode(g), c).Some? <==> Contains(g, c)
  {
    if Contains(g, c) {
      ErodeGet(g, c);
    }
  }

  /** The number of in-bounds 8-neighbours center + Neighborhood8[k..] holding v. */
  function NeighborCount(g: GridValue<bool>, center: IVec2, v: bool, k: nat): nat
    decreases |Neighborhood8| - k
  {
    if k >= |Neighborhood8| then 0
    else (if Get(g, center.Plus(Neighborhood8[k])) == Some(v) then 1 else 0) + NeighborCount(g, center, v, k + 1)
  }

  /** The smoothing rule: strictly more of the in-bounds 8-neighbours are land than water. */
  predicate Majority(g: GridValue<bool>, c: IVec2) {
    NeighborCount(g, c, true, 0) > NeighborCount(g, c, false, 0)
  }

  /** `smooth`. */
  function Smooth(g: GridValue<bool>): (r: GridValue<bool>)
    requires g.origin == Zero
    ensures r.origin == Zero && r.size == g.size
  {
    ParFromFnWithOrigin(g.size, Zero, (c: IVec2) => Majority(g, c))
  }

  lemma SmoothGet(g: GridValue<bool>, c: IVec2)
    requires g.origin == Zero && Contains(g, c)
    ensures Get(Smooth(g), c) == Some(Majority(g, c))
  {
    ParFromFnGet(g, (c: IVec2) => Majority(g, c), c);
  }

  /** The neighbour counts of c do not look at c itself. */
  lemma {:induction false} NeighborCountIgnoresCenter(g: GridValue<bool>, c: IVec2, u: bool, v: bool, k: nat)
    ensures NeighborCount(With(g, c, u), c, v, k) == NeighborCount(g, c, v, k)
    decreases |Neighborhood8| - k
  {
    if k < |Neighborhood8| {
      NeighborCountIgnoresCenter(g, c, u, v, k + 1);
      GetWith(g, c, u, c.Plus(Neighborhood8[k]));
    }
  }

  /** Smoothing ignores the cell's own value. */
  lemma SmoothIgnoresCenter(g: GridValue<bool>, c: IVec2, u: bool)
    requires g.origin == Zero && Contains(g, c)
    ensures Get(Smooth(With(g, c, u)), c) == Get(Smooth(g), c)
  {
    NeighborCountIgnoresCenter(g, c, u, true, 0);
    NeighborCountIgnoresCenter(g, c, u, false, 0);
    SmoothGet(g, c);
    SmoothGet(With(g, c, u), c);
  }

  /** The number of entries of ns whose cell holds v. */
  function CountIn(g: GridValue<bool>, ns: seq<(nat, IVec2)>, v: bool): nat {
    if ns == [] then 0
    else CountIn(g, ns[..|ns| - 1], v) + (if Get(g, ns[|ns| - 1].1) == Some(v) then 1 else 0)
  }

  lemma {:induction false} CountInAppend(g: GridValue<bool>, a: seq<(nat, IVec2)>, b: seq<(nat, IVec2)>, v: bool)
    ensures CountIn(g, a + b, v) == CountIn(g, a, v) + CountIn(g, b, v)
    decreases |b|
  {
    if b == [] {
      assert a + b == a;
    } else {
      CountInAppend(g, a, b[..|b| - 1], v);
      assert (a + b)[..|a + b| - 1] == a + b[..|b| - 1];
      assert (a + b)[|a + b| - 1] == b[|b| - 1];
    }
  }

  lemma Neighbor8InBounds(g: GridValue<bool>, cell: IVec2, j: nat)
    requires j < |Neighbors8(g, cell)|
    ensures Contains(g, Neighbors8(g, cell)[j].1)
  {
    NeighborhoodSpec(g, Neighborhood8, cell);
    assert Neighbors8(g, cell)[j] in Neighbors8(g, cell);
  }

  lemma CountInStep(g: GridValue<bool>, ns: seq<(nat, IVec2)>, j: nat)
    requires j < |ns|
    ensures forall v :: CountIn(g, ns[..j + 1], v) == CountIn(g, ns[..j], v) + (if Get(g, ns[j].1) == Some(v) then 1 else 0)
  {
    assert ns[..j + 1][..j] == ns[..j];
  }

  /** Counting over the `neighborhood_8` list counts the in-bounds directions. */
  lemma {:induction false} CountInNeighborhood(g: GridValue<bool>, c: IVec2, v: bool, k: nat)
    ensures CountIn(g, NeighborhoodFrom(g, Neighborhood8, c, k), v) == NeighborCount(g, c, v, k)
    decreases |Neighborhood8| - k
  {
    if k < |Neighborhood8| {
      var p := c.Plus(Neighborhood8[k]);
      var head: seq<(nat, IVec2)> := if Contains(g, p) then [(k, p)] else [];
      CountInNeighborhood(g, c, v, k + 1);
      CountInAppend(g, head, NeighborhoodFrom(g, Neighborhood8, c, k + 1), v);
      if Contains(g, p) {
        assert head[..0] == [];
      }
    }
  }

  /** The smoothing closure: count land and water over `neighborhood_8` and compare. */
  method SmoothCell(g: GridValue<bool>, cell: IVec2) returns (b: bool)
    ensures b == Majority(g, cell)
  {
    var ns := Neighbors8(g, cell);
    forall j | 0 <= j < |ns| ensures Contains(g, ns[j].1) {
      Neighbor8InBounds(g, cell, j);
    }
    var numTrue, numFalse := CountValues(g, ns);
    CountInNeighborhood(g, cell, true, 0);
    CountInNeighborhood(g, cell, false, 0);
    b := numTrue > numFalse;
  }

  /** The counting loop of the smoothing closure over a list of in-bounds neighbours. */
  method CountValues(g: GridValue<bool>, ns: seq<(nat, IVec2)>) returns (numTrue: nat, numFalse: nat)
    requires forall j | 0 <= j < |ns| :: Contains(g, ns[j].1)
    ensures numTrue == CountIn(g, ns, true) && numFalse == CountIn(g, ns, false)
  {
    numTrue, numFalse := 0, 0;
    var j := 0;
    while j < |ns|
      invariant 0 <= j <= |ns|
      invariant numTrue == CountIn(g, ns[..j], true) && numFalse == CountIn(g, ns[..j], false)
    {
      CountInStep(g, ns, j);
      if At(g, ns[j].1) {
        numTrue := numTrue + 1;
      } else {
        numFalse := numFalse + 1;
      }
      j := j + 1;
    }
    assert ns[..|ns|] == ns;
  }

  // ---------------------------------------------------------------------
  // is_island_area_good and shape_island

  datatype IslandSettings = IslandSettings(size: UVec2, noiseScale: real, cutoff: real, reshapeMargin: real,
                                           reshapeRadius: real, reshapeAlpha: real, minArea: real, maxArea: real)

  /**
   * `is_island_area_good` computes what `check_total_area` in island.rs
   * computes: the land fraction lies in [min_area, max_area].
   */
  predicate IsIslandAreaGood(g: GridValue<bool>, settings: IslandSettings) {
    Island.CheckTotalArea(g, settings.minArea, settings.maxArea)
  }

  /** The same test without division: min·w·h ≤ land cells ≤ max·w·h on a non-empty grid. */
  lemma AreaGoodIff(g: GridValue<bool>, settings: IslandSettings)
    ensures IsIslandAreaGood(g, settings) <==>
      g.size.Area() > 0 &&
      settings.minArea * (g.size.Area() as real) <= multiset(g.cells)[true] as real <= settings.maxArea * (g.size.Area() as real)
  {
    var n := multiset(g.cells)[true] as real;
    var a := g.size.Area() as real;
    if a > 0.0 {
      LowerBound(n, a, settings.minArea);
      UpperBound(n, a, settings.maxArea);
    }
  }

  lemma LowerBound(n: real, a: real, m: real)
    requires a > 0.0
    ensures m <= n / a <==> m * a <= n
  {
    var f := n / a;
    assert f * a == n;
    if m <= f {
      assert m * a <= f * a;
    } else {
      assert f * a < m * a;
    }
  }

  lemma UpperBound(n: real, a: real, m: real)
    requires a > 0.0
    ensures n / a <= m <==> n <= m * a
  {
    var f := n / a;
    assert f * a == n;
    if f <= m {
      assert f * a <= m * a;
    } else {
      assert m * a < f * a;
    }
  }

  /**
   * `shape_island`: retry until an island passes the area test.  `fuel`
   * bounds the attempts and `keepFuel` each `keep_one_island`; None means a
   * bound ran out.
   */
  method ShapeIsland(settings: IslandSettings, field: (nat, IVec2) -> real, coin: (nat, nat, nat) -> bool,
                     fuel: nat, keepFuel: nat)
    returns (island: Option<GridValue<bool>>, draws: nat)
    requires 4 * settings.size.x < I32Max && 4 * settings.size.y < I32Max && 16 * settings.size.Area() < Unset
    ensures island.Some? ==> island.value.origin == Zero
    ensures island.Some? ==> island.value.size == UVec2(4 * settings.size.x, 4 * settings.size.y)
    ensures island.Some? ==> IsIslandAreaGood(island.value, settings) && OneComponentEach(island.value)
  {
    draws := 0;
    var n := 0;
    while n < fuel {
      var attempt;
      attempt, draws := ShapeAttempt(settings, field, n, coin, keepFuel, draws);
      if attempt.None? {
        return None, draws;
      }
      if IsIslandAreaGood(attempt.value, settings) {
        return attempt, draws;
      }
      n := n + 1;
    }
    island := None;
  }

  /**
   * One pass of the `shape_island` loop body.  Attempt n thresholds its
   * noise field, keeps one island, zooms twice, erodes twice, smooths twice
   * and keeps one island again.
   */
  method ShapeAttempt(settings: IslandSettings, field: (nat, IVec2) -> real, n: nat, coin: (nat, nat, nat) -> bool,
                      keepFuel: nat, draws0: nat)
    returns (island: Option<GridValue<bool>>, draws: nat)
    requires 4 * settings.size.x < I32Max && 4 * settings.size.y < I32Max && 16 * settings.size.Area() < Unset
    ensures island.Some? ==> island.value.origin == Zero
    ensures island.Some? ==> island.value.size == UVec2(4 * settings.size.x, 4 * settings.size.y)
    ensures island.Some? ==> OneComponentEach(island.value)
    ensures draws == draws0 + 20 * settings.size.Area()
  {
    var mask, done := NoiseMask(settings, field, n, keepFuel);
    Island.DoubledArea(settings.size);
    Island.DoubledArea(UVec2(2 * settings.size.x, 2 * settings.size.y));
    draws := Island.RandomZoom(mask, coin, draws0);
    draws := Island.RandomZoom(mask, coin, draws);
    var cleaned := new Grid.Of(Smooth(Smooth(Erode(Erode(mask.Value())))));
    var done2 := KeepOneIsland(cleaned, keepFuel);
    if done && done2 {
      island := Some(cleaned.Value());
    } else {
      island := None;
    }
  }

  /**
   * The start of an attempt: the noise field of attempt n (fbm noise and the
   * Voronoi reshape, drawn from `field`) thresholded at the cutoff, with one
   * island kept.
   */
  method NoiseMask(settings: IslandSettings, field: (nat, IVec2) -> real, n: nat, keepFuel: nat)
    returns (mask: Grid<bool>, done: bool)
    requires settings.size.x < I32Max && settings.size.y < I32Max && settings.size.Area() < Unset
    ensures fresh(mask) && fresh(mask.data) && mask.Valid()
    ensures mask.origin == Zero && mask.size == settings.size
  {
    var grid := new Grid.New(settings.size, 0.0);
    grid.MapInPlace((c: IVec2, v: real) => field(n, c));
    mask := new Grid.Of(GridOps.ToBool(grid.Value(), settings.cutoff));
    done := KeepOneIsland(mask, keepFuel);
  }
}
