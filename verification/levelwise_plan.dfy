/**
 * The two level-wise PageRank entry points, up to the hand-off to the
 * PageRank driver. Each turns a graph's components, already grouped into
 * levels of the block graph, into a vertex ordering `ks` and a level-size
 * plan `ns`, and has the driver run the level-wise loop over `ns` from
 * position 0 of `ks`.
 *
 * The static entry point lays out every level. The dynamic one lays out, in
 * levels, only the components a batch update can affect, and appends the
 * vertices of the other components after them; the plan has no entry for
 * those, so the loop never reaches them.
 *
 * Component detection, the block graph, the level-wise grouping and the
 * choice of affected components are given as inputs.
 */
module LevelwisePlan {
  import opened Sequences
  import opened Grouping
  import opened LevelwiseLoop

  /** What an entry point does: return the initial ranks, or run the driver on `ks` from `start` with plan `ns`. */
  datatype Launch = Initial | Drive(ks: seq<int>, start: int, ns: seq<int>)

  /** `g` occupies the positions `[start, start + |g|)` of `ks`. */
  predicate LaidAt(ks: seq<int>, start: int, g: seq<int>)
  {
    0 <= start && start + |g| <= |ks| && ks[start .. start + |g|] == g
  }

  /** Level `j` of `gs` occupies the positions of `ks` from `Sum(ns[..j])` on. */
  predicate LaidOut(ks: seq<int>, ns: seq<int>, gs: seq<seq<int>>)
    requires |ns| == |gs|
  {
    forall j :: 0 <= j < |gs| ==> LaidAt(ks, Sum(ns[..j]), gs[j])
  }

  /** The flattened groups lay out every group at its running offset. */
  lemma {:induction false} FlattenLaidOut(gs: seq<seq<int>>, tail: seq<int>)
    ensures LaidOut(Flatten(gs) + tail, Sizes(gs), gs)
  {
    var ks := Flatten(gs) + tail;
    forall j | 0 <= j < |gs|
      ensures 0 <= Sum(Sizes(gs)[..j]) && Sum(Sizes(gs)[..j]) + |gs[j]| <= |ks|
      ensures ks[Sum(Sizes(gs)[..j]) .. Sum(Sizes(gs)[..j]) + |gs[j]|] == gs[j]
    {
      FlattenRange(gs, j);
      var lo := Sum(Sizes(gs)[..j]);
      assert ks[lo .. lo + |gs[j]|] == Flatten(gs)[lo .. lo + |gs[j]|];
    }
  }

  /**
   * The static entry point: with no vertices it returns the initial ranks;
   * otherwise the plan has one entry per level, the size of that level, and
   * the ordering holds exactly the levels one after another.
   */
  function StaticPlan(N: int, gs: seq<seq<int>>): (p: Launch)
    ensures p.Initial? <==> N == 0
    ensures p.Drive? ==>
      && p.start == 0
      && |p.ns| == |gs|
      && (forall j :: 0 <= j < |gs| ==> p.ns[j] == |gs[j]|)
      && |p.ks| == Sum(p.ns)
      && LaidOut(p.ks, p.ns, gs)
  {
    if N == 0 then Initial
    else
      FlattenLaidOut(gs, []);
      assert Flatten(gs) + [] == Flatten(gs);
      Drive(Flatten(gs), 0, Sizes(gs))
  }

  /**
   * What the affected-component locator returns: the split point `n` lies
   * within `ids`, every entry of `ids` names a component, and there is a level
   * index for every component.
   */
  predicate LocatorOutput(cs: seq<seq<int>>, gi: seq<int>, ids: seq<int>, n: nat)
  {
    n <= |ids| && |gi| == |cs| && InRange(ids, |cs|)
  }

  /**
   * The grouping key of the dynamic entry point: a component's level index
   * `gi[c]`. The key must be defined for every integer; -1 is given for an
   * index without a level, which no affected component has when the
   * locator's output is well formed.
   */
  function LevelKey(gi: seq<int>): int -> int
  {
    c => if 0 <= c < |gi| then gi[c] else -1
  }

  /** The elements of the groups of `xs` all come from `xs`, so every index they hold is in range. */
  lemma {:induction false} GroupsInRange(xs: seq<int>, key: int -> int, len: int)
    requires InRange(xs, len)
    ensures forall j :: 0 <= j < |GroupBy(xs, key)| ==> InRange(GroupBy(xs, key)[j], len)
    ensures InRange(Flatten(GroupBy(xs, key)), len)
  {
    var ig := GroupBy(xs, key);
    GroupByIsGrouping(xs, key);
    forall j | 0 <= j < |ig|
      ensures InRange(ig[j], len)
    {
      assert ig[j] == Filter(xs, key, key(ig[j][0]));
    }
    GroupByPermutes(xs, key);
    forall k | 0 <= k < |Flatten(ig)|
      ensures 0 <= Flatten(ig)[k] < len
    {
      assert Flatten(ig)[k] in multiset(xs);
    }
  }

  /** The affected components `ids[..n]` grouped by level, as component indices. */
  function AffectedLevels(cs: seq<seq<int>>, gi: seq<int>, ids: seq<int>, n: nat): (ig: seq<seq<int>>)
    requires LocatorOutput(cs, gi, ids, n)
    ensures IsGrouping(ids[..n], LevelKey(gi), ig)
    ensures forall j :: 0 <= j < |ig| ==> InRange(ig[j], |cs|)
    ensures InRange(Flatten(ig), |cs|)
  {
    GroupByIsGrouping(ids[..n], LevelKey(gi));
    GroupsInRange(ids[..n], LevelKey(gi), |cs|);
    GroupBy(ids[..n], LevelKey(gi))
  }

  /**
   * The ordering `ks` starts with the vertices of the affected components
   * `ids[..n]`, in some order, which the plan `ns` covers, and ends with the
   * vertices of the other components `ids[n..]` in their given order, which
   * it does not.
   */
  predicate AffectedFirst(ks: seq<int>, ns: seq<int>, cs: seq<seq<int>>, ids: seq<int>, n: nat)
    requires n <= |ids| && InRange(ids, |cs|)
  {
    && (forall j :: 0 <= j < |ns| ==> ns[j] >= 0)
    && 0 <= Sum(ns) <= |ks|
    && ks[Sum(ns)..] == Gather(cs, ids[n..])
    && multiset(ks[..Sum(ns)]) == multiset(Gather(cs, ids[..n]))
  }

  /**
   * The dynamic entry point: with no vertices, or with no affected
   * component, it returns the initial ranks. Otherwise the ordering starts
   * with the vertices of the affected components, which the plan covers and
   * which are exactly those of `ids[..n]` reordered, and ends with the
   * vertices of the remaining components `ids[n..]` in their given order,
   * which the plan does not cover.
   */
  function DynamicPlan(N: int, cs: seq<seq<int>>, gi: seq<int>, ids: seq<int>, n: nat): (p: Launch)
    requires N != 0 && n != 0 ==> LocatorOutput(cs, gi, ids, n)
    ensures p.Initial? <==> N == 0 || n == 0
    ensures p.Drive? ==> LocatorOutput(cs, gi, ids, n) && p.start == 0 && AffectedFirst(p.ks, p.ns, cs, ids, n)
  {
    if N == 0 || n == 0 then Initial
    else
      var gs := JoinAt(cs, AffectedLevels(cs, gi, ids, n));
      DynamicLayout(cs, gi, ids, n);
      Drive(Flatten(gs) + Gather(cs, ids[n..]), 0, Sizes(gs))
  }

  lemma {:induction false} Split(head: seq<int>, tail: seq<int>)
    ensures (head + tail)[..|head|] == head && (head + tail)[|head|..] == tail
  {
  }

  /** The vertices of the affected levels are those of the affected components, reordered. */
  lemma {:induction false} AffectedVertices(cs: seq<seq<int>>, gi: seq<int>, ids: seq<int>, n: nat)
    requires LocatorOutput(cs, gi, ids, n)
    ensures InRange(ids[..n], |cs|)
    ensures multiset(Flatten(JoinAt(cs, AffectedLevels(cs, gi, ids, n)))) == multiset(Gather(cs, ids[..n]))
  {
    var ig := AffectedLevels(cs, gi, ids, n);
    FlattenJoinAt(cs, ig);
    GatherGroupBy(cs, ids[..n], LevelKey(gi));
  }

  /** The affected levels come first in the dynamic ordering, and the remaining components after them. */
  lemma {:induction false} DynamicLayout(cs: seq<seq<int>>, gi: seq<int>, ids: seq<int>, n: nat)
    requires LocatorOutput(cs, gi, ids, n)
    ensures var gs := JoinAt(cs, AffectedLevels(cs, gi, ids, n));
      AffectedFirst(Flatten(gs) + Gather(cs, ids[n..]), Sizes(gs), cs, ids, n)
  {
    var gs := JoinAt(cs, AffectedLevels(cs, gi, ids, n));
    AffectedVertices(cs, gi, ids, n);
    Split(Flatten(gs), Gather(cs, ids[n..]));
  }

  /** Grouping component indices reorders the vertices they gather, and loses or adds none. */
  lemma {:induction false} GatherGroupBy(cs: seq<seq<int>>, xs: seq<int>, key: int -> int)
    requires InRange(xs, |cs|)
    ensures InRange(Flatten(GroupBy(xs, key)), |cs|)
    ensures multiset(Gather(cs, Flatten(GroupBy(xs, key)))) == multiset(Gather(cs, xs))
  {
    GroupsInRange(xs, key, |cs|);
    if xs != [] {
      var init, x := xs[..|xs| - 1], xs[|xs| - 1];
      assert xs == init + [x];
      assert InRange(init, |cs|);
      GatherGroupBy(cs, init, key);
      var f := Flatten(GroupBy(init, key));
      InsertFlatten(GroupBy(init, key), key, x);
      var q := InsertPoint(GroupBy(init, key), key, x);
      GatherSplice(cs, f, q, x);
      GatherAppend(cs, init, [x]);
    }
  }

  /** Gathering with one more index `x` spliced in anywhere gathers component `x` besides. */
  lemma {:induction false} GatherSplice(cs: seq<seq<int>>, f: seq<int>, q: int, x: int)
    requires InRange(f, |cs|) && 0 <= q <= |f| && 0 <= x < |cs|
    ensures InRange(f[..q] + [x] + f[q..], |cs|)
    ensures multiset(Gather(cs, f[..q] + [x] + f[q..])) == multiset(Gather(cs, f)) + multiset(cs[x])
  {
    var lo, hi := f[..q], f[q..];
    assert f == lo + hi;
    assert InRange(lo, |cs|) && InRange(hi, |cs|) && InRange([x], |cs|);
    GatherAppend(cs, lo, hi);
    GatherAppend(cs, lo, [x]);
    GatherAppend(cs, lo + [x], hi);
    var g, h := Gather(cs, lo), Gather(cs, hi);
    assert Gather(cs, lo + [x] + hi) == g + cs[x] + h;
    assert multiset(g + cs[x] + h) == multiset(g) + multiset(cs[x]) + multiset(h);
  }

  /**
   * In the dynamic plan, level `j` is the `j`-th group of affected
   * components: those of one level, in the order `ids` lists them, with the
   * groups in the order their levels first occur in `ids`. Its plan entry is
   * the number of their vertices, and it occupies its running offset in the
   * ordering: the ordering is the levels' vertices one level after another,
   * followed by the vertices of the unaffected components.
   */
  lemma {:induction false} DynamicLevelRanges(N: int, cs: seq<seq<int>>, gi: seq<int>, ids: seq<int>, n: nat)
    requires N != 0 && n != 0 && LocatorOutput(cs, gi, ids, n)
    ensures var p, ig := DynamicPlan(N, cs, gi, ids, n), AffectedLevels(cs, gi, ids, n);
      && IsGrouping(ids[..n], LevelKey(gi), ig)
      && |p.ns| == |ig|
      && (forall j :: 0 <= j < |ig| ==> p.ns[j] == |Gather(cs, ig[j])|)
      && p.ks == Flatten(JoinAt(cs, ig)) + Gather(cs, ids[n..])
      && LaidOut(p.ks, p.ns, JoinAt(cs, ig))
  {
    var ig := AffectedLevels(cs, gi, ids, n);
    var gs := JoinAt(cs, ig);
    FlattenLaidOut(gs, Gather(cs, ids[n..]));
  }

  /**
   * On the dynamic plan the loop calls the step once for every affected
   * level with vertices, on exactly that level's vertices and with that
   * level's tolerance, and that range lies within the part of the ordering
   * the plan covers, before the unaffected vertices.
   */
  lemma {:induction false} DynamicRunCoversLevels(N: int, cs: seq<seq<int>>, gi: seq<int>, ids: seq<int>, n: nat,
                                                  b: Buffers, s: Setup, j: int)
    requires N != 0 && n != 0 && LocatorOutput(cs, gi, ids, n) && s.N == N && N > 0
    requires 0 <= j < |AffectedLevels(cs, gi, ids, n)|
    requires Gather(cs, AffectedLevels(cs, gi, ids, n)[j]) != []
    ensures var p, ig := DynamicPlan(N, cs, gi, ids, n), AffectedLevels(cs, gi, ids, n);
      && Processed(p.ns[..j]) < |WalkLevels(p.ns, p.start, b, s).calls|
      && var call := WalkLevels(p.ns, p.start, b, s).calls[Processed(p.ns[..j])];
      && call.count == |Gather(cs, ig[j])|
      && call.tolerance == LevelTolerance(s.E, call.count, s.N, s.EF)
      && call.start + call.count <= Sum(p.ns)
      && LaidAt(p.ks, call.start, Gather(cs, ig[j]))
  {
    JoinedCallsCoverLevels(cs, AffectedLevels(cs, gi, ids, n), Gather(cs, ids[n..]), b, s, j);
  }

  /**
   * The levels `ig` of components, gathered into vertex levels and laid out
   * one after another ahead of `tail`: the loop calls the step on exactly
   * level `j`'s vertices, with that level's tolerance.
   */
  lemma {:induction false} JoinedCallsCoverLevels(cs: seq<seq<int>>, ig: seq<seq<int>>, tail: seq<int>,
                                                  b: Buffers, s: Setup, j: int)
    requires s.N > 0
    requires forall m :: 0 <= m < |ig| ==> InRange(ig[m], |cs|)
    requires 0 <= j < |ig| && Gather(cs, ig[j]) != []
    ensures var ks, ns := Flatten(JoinAt(cs, ig)) + tail, Sizes(JoinAt(cs, ig));
      && Processed(ns[..j]) < |WalkLevels(ns, 0, b, s).calls|
      && var call := WalkLevels(ns, 0, b, s).calls[Processed(ns[..j])];
      && call.count == |Gather(cs, ig[j])|
      && call.tolerance == LevelTolerance(s.E, call.count, s.N, s.EF)
      && call.start + call.count <= Sum(ns)
      && LaidAt(ks, call.start, Gather(cs, ig[j]))
  {
    var gs := JoinAt(cs, ig);
    FlattenLaidOut(gs, tail);
    CallsCoverLevels(Flatten(gs) + tail, Sizes(gs), gs, b, s, j);
  }

  /**
   * For a plan that lays out levels `gs` in `ks` (one entry per level, its
   * size), the loop, started at position 0, calls the step for every
   * nonempty level on exactly that level's positions of `ks`, with that
   * level's tolerance.
   */
  lemma {:induction false} CallsCoverLevels(ks: seq<int>, ns: seq<int>, gs: seq<seq<int>>, b: Buffers, s: Setup, j: int)
    requires s.N > 0
    requires |ns| == |gs| && (forall m :: 0 <= m < |gs| ==> ns[m] == |gs[m]|) && LaidOut(ks, ns, gs)
    requires 0 <= j < |gs| && gs[j] != []
    ensures Processed(ns[..j]) < |WalkLevels(ns, 0, b, s).calls|
    ensures var call := WalkLevels(ns, 0, b, s).calls[Processed(ns[..j])];
      && call.count == |gs[j]|
      && call.tolerance == LevelTolerance(s.E, |gs[j]|, s.N, s.EF)
      && call.start + call.count <= Sum(ns)
      && LaidAt(ks, call.start, gs[j])
  {
    WalkCallAt(ns, 0, b, s, j);
    WalkRangesOrdered(ns, 0, b, s);
    assert forall m :: 0 <= m < |ns[..j]| ==> ns[..j][m] >= 0;
    var calls := WalkLevels(ns, 0, b, s).calls;
    assert calls[Processed(ns[..j])] in calls;
  }

  /**
   * On the static plan the loop's calls lie within the ordering, in order
   * and without overlap, and the walk ends exactly at its end; with
   * level-proportional tolerances, when the levels hold `N` vertices in all,
   * the level tolerances add up to `E`.
   */
  lemma {:induction false} StaticRunCoversOrdering(N: int, gs: seq<seq<int>>, b: Buffers, s: Setup)
    requires N != 0 && s.N == N && N > 0
    ensures var p := StaticPlan(N, gs);
      var w := WalkLevels(p.ns, p.start, b, s);
      && w.offset == |p.ks|
      && Increasing(w.calls)
      && (forall call <- w.calls :: 0 <= call.start && call.start + call.count <= |p.ks|)
      && (s.EF <= 2 && |p.ks| == N ==> TotalTolerance(w.calls) == s.E)
  {
    var p := StaticPlan(N, gs);
    assert forall m :: 0 <= m < |p.ns| ==> p.ns[m] >= 0;
    WalkOffset(p.ns, 0, b, s);
    WalkRangesOrdered(p.ns, 0, b, s);
    var w := WalkLevels(p.ns, p.start, b, s);
    if s.EF <= 2 && |p.ks| == N {
      WalkCallTolerances(p.ns, 0, b, s);
      WalkTotalCount(p.ns, 0, b, s);
      LevelTolerancesWhole(w.calls, s);
    }
  }

  /**
   * On the dynamic plan the loop's calls lie within the affected part of
   * the ordering, in order and without overlap, and the walk ends where the
   * unaffected vertices begin: they are never processed.
   */
  lemma {:induction false} DynamicRunStopsAtSuffix(N: int, cs: seq<seq<int>>, gi: seq<int>, ids: seq<int>, n: nat, b: Buffers, s: Setup)
    requires N != 0 && n != 0 && LocatorOutput(cs, gi, ids, n) && s.N == N && N > 0
    ensures var p := DynamicPlan(N, cs, gi, ids, n);
      var w := WalkLevels(p.ns, p.start, b, s);
      && w.offset == |p.ks| - |Gather(cs, ids[n..])|
      && Increasing(w.calls)
      && (forall call <- w.calls :: 0 <= call.start && call.start + call.count <= w.offset)
  {
    var p := DynamicPlan(N, cs, gi, ids, n);
    WalkOffset(p.ns, 0, b, s);
    WalkRangesOrdered(p.ns, 0, b, s);
  }
}
