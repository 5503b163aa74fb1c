/**
 * The level-wise PageRank loop. It walks a level-size plan over a vertex
 * ordering: a positive entry `n` runs the per-range power-iteration step on
 * the next `n` positions and then exchanges the rank buffers, so that the
 * level just computed is what the next level reads; an entry `n <= 0` skips
 * `-n` settled positions. The result is the iteration count of every level
 * weighted by its share of the vertices, rounded. A graph with dead ends is
 * refused at once.
 *
 * The step itself is not part of this model: it is a parameter that, for a
 * call and the buffer contents it is given, yields the new buffer contents
 * and the iteration count it reports. The arguments the loop passes to it
 * unchanged (the dangling-mass vector, the transpose arrays, the damping
 * factor, the iteration cap) are captured inside it.
 */
module LevelwiseLoop {
  import opened Sequences

  /** One call of the per-range step: first position, number of positions, tolerance. */
  datatype StepCall = StepCall(start: int, count: int, tolerance: real)

  /** Contents of the rank vectors: `a` is written, `r` is read, `c` is scratch. */
  datatype Buffers = Buffers(a: seq<real>, r: seq<real>, c: seq<real>)

  /** What the step leaves in the vectors it was given, and the iteration count it returns. */
  datatype StepOutcome = StepOutcome(bufs: Buffers, iterations: int)

  type Step = (StepCall, Buffers) -> StepOutcome

  /**
   * What the loop is given besides the buffers, the offset and the plan:
   * the vertex count `N`, the global tolerance `E`, the tolerance-scaling
   * selector `EF`, and the step.
   */
  datatype Setup = Setup(N: int, E: real, EF: int, step: Step)

  /** The buffers after `swap(a, r)`. */
  function Exchanged(b: Buffers): Buffers
  {
    Buffers(b.r, b.a, b.c)
  }

  /** `t` is the share `n/N` of `E`: `t * N == E * n`. */
  predicate ShareOf(t: real, E: real, n: int, N: int)
  {
    t * (N as real) == E * (n as real)
  }

  /** Tolerance of a level of `n` vertices: its share `E*n/N` of the global tolerance when `EF <= 2`, else `E`. */
  function LevelTolerance(E: real, n: int, N: int, EF: int): (t: real)
    requires N > 0
    ensures EF <= 2 ==> ShareOf(t, E, n, N)
    ensures EF <= 2 && 0 <= n <= N && E >= 0.0 ==> 0.0 <= t <= E
    ensures EF > 2 ==> t == E
  {
    if EF <= 2 then E * (n as real) / (N as real) else E
  }

  /** The share `l1*n/N` a level of `n` vertices adds to the weighted count: the integer product over `N`. */
  function Weight(iterations: int, n: int, N: int): real
    requires N > 0
  {
    (iterations * n) as real / (N as real)
  }

  /** Conversion of a floating value to `int`: truncation toward zero. */
  function TruncateToInt(x: real): (t: int)
    ensures x >= 0.0 ==> 0 <= t && t as real <= x < t as real + 1.0
    ensures x < 0.0 ==> t <= 0 && t as real - 1.0 < x <= t as real
  {
    if x >= 0.0 then x.Floor else -((-x).Floor)
  }

  /** `int(l + 0.5f)`: for a count that is not below -0.5, the nearest integer, halves rounded up. */
  function RoundCount(l: real): (n: int)
    ensures l >= -0.5 ==> n as real - 0.5 <= l < n as real + 0.5
  {
    TruncateToInt(l + 0.5)
  }

  /** Number of entries of the plan that are processed rather than skipped. */
  function Processed(ns: seq<int>): (p: nat)
    ensures p <= |ns|
  {
    if ns == [] then 0 else Processed(ns[..|ns| - 1]) + (if ns[|ns| - 1] > 0 then 1 else 0)
  }

  /** Each call's range ends before the next call's begins: the ranges are disjoint and in increasing order. */
  predicate Increasing(calls: seq<StepCall>)
  {
    forall k, m :: 0 <= k < m < |calls| ==> calls[k].start + calls[k].count <= calls[m].start
  }

  /** Sum of the counts of a sequence of calls. */
  function TotalCount(calls: seq<StepCall>): int
  {
    if calls == [] then 0 else TotalCount(calls[..|calls| - 1]) + calls[|calls| - 1].count
  }

  /** Sum of the tolerances of a sequence of calls. */
  function TotalTolerance(calls: seq<StepCall>): real
  {
    if calls == [] then 0.0 else TotalTolerance(calls[..|calls| - 1]) + calls[|calls| - 1].tolerance
  }

  /**
   * The outcome of walking a plan: the final offset, the final buffers, the
   * weighted count before rounding, the step calls in order, and the buffer
   * contents each call was given.
   */
  datatype Walked = Walked(offset: int, bufs: Buffers, weighted: real, calls: seq<StepCall>, inputs: seq<Buffers>)

  /**
   * The loop over `ns` from offset `i` and buffers `b`, as the state after
   * the last entry given the state after all the others: a skip entry `n <= 0`
   * moves the offset by `-n`; a processed entry calls the step on the current
   * range and buffers, adds its weighted count, advances the offset and
   * exchanges `a` and `r` in what the step left.
   */
  function WalkLevels(ns: seq<int>, i: int, b: Buffers, s: Setup): (w: Walked)
    requires s.N > 0
    ensures |w.inputs| == |w.calls| == Processed(ns)
  {
    if ns == [] then Walked(i, b, 0.0, [], [])
    else
      var w := WalkLevels(ns[..|ns| - 1], i, b, s);
      var n := ns[|ns| - 1];
      if n <= 0 then w.(offset := w.offset - n)
      else
        var call := StepCall(w.offset, n, LevelTolerance(s.E, n, s.N, s.EF));
        var out := s.step(call, w.bufs);
        Walked(w.offset + n, Exchanged(out.bufs), w.weighted + Weight(out.iterations, n, s.N),
               w.calls + [call], w.inputs + [w.bufs])
  }

  /** The caller's rank vectors `a`, `r` and `c`, which the loop and the step update in place. */
  class RankBuffers {
    var a: seq<real>
    var r: seq<real>
    var c: seq<real>

    function Contents(): Buffers
      reads this
    {
      Buffers(a, r, c)
    }

    /** One call of the per-range step on these vectors. */
    method RunStep(step: Step, call: StepCall) returns (iterations: int)
      modifies this
      ensures Contents() == step(call, old(Contents())).bufs
      ensures iterations == step(call, old(Contents())).iterations
    {
      var out := step(call, Contents());
      a, r, c := out.bufs.a, out.bufs.r, out.bufs.c;
      iterations := out.iterations;
    }

    /** `swap(a, r)`: the vector just written becomes the one read next. */
    method Swap()
      modifies this
      ensures a == old(r) && r == old(a) && c == old(c)
    {
      a, r := r, a;
    }
  }

  /**
   * The loop. With dead ends it does nothing and reports 0; otherwise it
   * leaves the buffers, the offset and the calls that walking the plan
   * gives, and reports the rounded weighted count.
   */
  method LevelwiseLoopU(bufs: RankBuffers, i: int, ns: seq<int>, s: Setup, deadEnds: bool)
    returns (iterations: int, ghost offset: int, ghost calls: seq<StepCall>)
    requires s.N > 0
    modifies bufs
    ensures deadEnds ==> iterations == 0 && offset == i && calls == [] && bufs.Contents() == old(bufs.Contents())
    ensures !deadEnds ==>
      var w := WalkLevels(ns, i, old(bufs.Contents()), s);
      && iterations == RoundCount(w.weighted)
      && offset == w.offset
      && calls == w.calls
      && bufs.Contents() == w.bufs
  {
    offset, calls := i, [];
    if deadEnds {
      iterations := 0;
      return;
    }
    var l := 0.0;
    var at := i;
    ghost var start := bufs.Contents();
    for k := 0 to |ns|
      invariant var w := WalkLevels(ns[..k], i, start, s);
        at == w.offset && bufs.Contents() == w.bufs && l == w.weighted && calls == w.calls
    {
      var n := ns[k];
      assert ns[..k + 1][..k] == ns[..k];
      if n <= 0 {
        at := at + -n;
        continue;
      }
      var e1 := LevelTolerance(s.E, n, s.N, s.EF);
      var call := StepCall(at, n, e1);
      var l1 := bufs.RunStep(s.step, call);
      l := l + Weight(l1, n, s.N);
      at := at + n;
      bufs.Swap();
      calls := calls + [call];
    }
    assert ns[..|ns|] == ns;
    offset := at;
    iterations := RoundCount(l);
  }

  /** After the loop the offset has advanced by the magnitude of every entry, processed or skipped. */
  lemma {:induction false} WalkOffset(ns: seq<int>, i: int, b: Buffers, s: Setup)
    requires s.N > 0
    ensures WalkLevels(ns, i, b, s).offset == i + AbsSum(ns)
  {
    if ns != [] {
      var front := ns[..|ns| - 1];
      WalkOffset(front, i, b, s);
      assert ns == front + [ns[|ns| - 1]];
      AbsSumAppend(front, [ns[|ns| - 1]]);
    }
  }

  /**
   * The call made for a processed entry `j` is the `Processed(ns[..j])`-th
   * one; it starts at `i` plus the magnitudes of all earlier entries, covers
   * `ns[j]` positions and gets that level's tolerance.
   */
  lemma {:induction false} WalkCallAt(ns: seq<int>, i: int, b: Buffers, s: Setup, j: int)
    requires s.N > 0
    requires 0 <= j < |ns| && ns[j] > 0
    ensures Processed(ns[..j]) < |WalkLevels(ns, i, b, s).calls|
    ensures WalkLevels(ns, i, b, s).calls[Processed(ns[..j])]
      == StepCall(i + AbsSum(ns[..j]), ns[j], LevelTolerance(s.E, ns[j], s.N, s.EF))
  {
    var front := ns[..|ns| - 1];
    if j == |ns| - 1 {
      assert ns[..j] == front;
      WalkOffset(front, i, b, s);
    } else {
      assert front[..j] == ns[..j];
      WalkCallAt(front, i, b, s, j);
    }
  }

  /**
   * The ranges the step is called on are nonempty, lie within
   * `[i, i + AbsSum(ns))`, and each ends before the next begins: they are
   * pairwise disjoint and strictly increasing.
   */
  lemma {:induction false} WalkRangesOrdered(ns: seq<int>, i: int, b: Buffers, s: Setup)
    requires s.N > 0
    ensures forall call <- WalkLevels(ns, i, b, s).calls ::
      call.count > 0 && i <= call.start && call.start + call.count <= i + AbsSum(ns)
    ensures Increasing(WalkLevels(ns, i, b, s).calls)
  {
    if ns != [] {
      var front := ns[..|ns| - 1];
      var n := ns[|ns| - 1];
      WalkRangesOrdered(front, i, b, s);
      WalkOffset(front, i, b, s);
      assert ns == front + [n];
      AbsSumAppend(front, [n]);
      if n > 0 {
        var prior := WalkLevels(front, i, b, s).calls;
        var calls := WalkLevels(ns, i, b, s).calls;
        assert forall k :: 0 <= k < |prior| ==> calls[k] == prior[k];
        assert calls[|prior|].start == i + AbsSum(front);
      }
    }
  }

  /**
   * The buffers are handed from call to call: the first call gets the ones
   * the loop was given, each later call gets what the previous call left with
   * `a` and `r` exchanged, and the loop ends with the last call's buffers
   * exchanged, or with the given ones untouched when nothing was processed.
   */
  predicate HandedOn(w: Walked, b: Buffers, step: Step)
  {
    && |w.inputs| == |w.calls|
    && (|w.calls| > 0 ==> w.inputs[0] == b)
    && (forall k :: 0 <= k < |w.calls| - 1 ==> w.inputs[k + 1] == Exchanged(step(w.calls[k], w.inputs[k]).bufs))
    && w.bufs == if w.calls == [] then b else Exchanged(step(w.calls[|w.calls| - 1], w.inputs[|w.calls| - 1]).bufs)
  }

  /** Skipped entries never touch the buffers; processed ones chain them from call to call. */
  lemma {:induction false} WalkHandOff(ns: seq<int>, i: int, b: Buffers, s: Setup)
    requires s.N > 0
    ensures HandedOn(WalkLevels(ns, i, b, s), b, s.step)
  {
    if ns != [] {
      WalkHandOff(ns[..|ns| - 1], i, b, s);
    }
  }

  /**
   * Each processed entry exchanges `a` and `r` exactly once: with a step that
   * leaves the buffers as they are, the loop ends with the roles exchanged
   * exactly when the number of processed entries is odd.
   */
  lemma {:induction false} WalkSwapParity(ns: seq<int>, i: int, b: Buffers, s: Setup)
    requires s.N > 0
    requires forall call, x :: s.step(call, x).bufs == x
    ensures WalkLevels(ns, i, b, s).bufs == if Processed(ns) % 2 == 1 then Exchanged(b) else b
  {
    if ns != [] {
      WalkSwapParity(ns[..|ns| - 1], i, b, s);
    }
  }

  /**
   * A plan of skip entries only (the empty plan included) calls nothing,
   * leaves the buffers untouched, and the loop reports 0.
   */
  lemma {:induction false} WalkSkipsOnly(ns: seq<int>, i: int, b: Buffers, s: Setup)
    requires s.N > 0
    requires forall k :: 0 <= k < |ns| ==> ns[k] <= 0
    ensures WalkLevels(ns, i, b, s).calls == []
    ensures WalkLevels(ns, i, b, s).bufs == b
    ensures WalkLevels(ns, i, b, s).weighted == 0.0 && RoundCount(WalkLevels(ns, i, b, s).weighted) == 0
  {
    if ns != [] {
      WalkSkipsOnly(ns[..|ns| - 1], i, b, s);
    }
  }

  /**
   * A skip entry at the front of a plan changes nothing but where the walk
   * starts: the same buffers, count and calls as the rest of the plan walked
   * from `k` positions further on.
   */
  lemma {:induction false} LeadingSkipShifts(ns: seq<int>, i: int, b: Buffers, s: Setup, k: int)
    requires s.N > 0 && k >= 0
    ensures WalkLevels([-k] + ns, i, b, s) == WalkLevels(ns, i + k, b, s)
  {
    if ns == [] {
      assert ([-k] + ns)[..0] == [];
    } else {
      var front := ns[..|ns| - 1];
      assert ([-k] + ns)[..|ns|] == [-k] + front;
      LeadingSkipShifts(front, i, b, s, k);
    }
  }

  /**
   * A skip entry at the end of a plan changes nothing but the final offset:
   * the same calls on the same buffers, the same final buffers and count.
   */
  lemma {:induction false} TrailingSkipInert(ns: seq<int>, i: int, b: Buffers, s: Setup, k: int)
    requires s.N > 0 && k >= 0
    ensures WalkLevels(ns + [-k], i, b, s) == WalkLevels(ns, i, b, s).(offset := WalkLevels(ns, i, b, s).offset + k)
  {
    assert (ns + [-k])[..|ns|] == ns;
  }

  /** Every call's count is positive; its tolerance is the tolerance of a level of that many vertices. */
  lemma {:induction false} WalkCallTolerances(ns: seq<int>, i: int, b: Buffers, s: Setup)
    requires s.N > 0
    ensures forall call <- WalkLevels(ns, i, b, s).calls ::
      call.count > 0 && call.tolerance == LevelTolerance(s.E, call.count, s.N, s.EF)
  {
    if ns != [] {
      WalkCallTolerances(ns[..|ns| - 1], i, b, s);
    }
  }

  /** Appending a call adds its count to the total. */
  lemma {:induction false} TotalCountSnoc(calls: seq<StepCall>, call: StepCall)
    ensures TotalCount(calls + [call]) == TotalCount(calls) + call.count
  {
    assert (calls + [call])[..|calls|] == calls;
  }

  /** The counts of the calls add up to the plan's sum when the plan has no skip entries. */
  lemma {:induction false} WalkTotalCount(ns: seq<int>, i: int, b: Buffers, s: Setup)
    requires s.N > 0
    requires forall k :: 0 <= k < |ns| ==> ns[k] >= 0
    ensures TotalCount(WalkLevels(ns, i, b, s).calls) == Sum(ns)
  {
    if ns != [] {
      var front := ns[..|ns| - 1];
      assert forall k :: 0 <= k < |front| ==> front[k] == ns[k];
      WalkTotalCount(front, i, b, s);
      WalkLastCount(ns, i, b, s);
      SumSnoc(ns);
    }
  }

  /** The last entry of a plan adds its size to the calls' total count when it is processed, and nothing when it is skipped. */
  lemma {:induction false} WalkLastCount(ns: seq<int>, i: int, b: Buffers, s: Setup)
    requires s.N > 0 && ns != []
    ensures var last := ns[|ns| - 1];
      TotalCount(WalkLevels(ns, i, b, s).calls)
        == TotalCount(WalkLevels(ns[..|ns| - 1], i, b, s).calls) + (if last > 0 then last else 0)
  {
    var w := WalkLevels(ns[..|ns| - 1], i, b, s);
    var last := ns[|ns| - 1];
    if last > 0 {
      var call := StepCall(w.offset, last, LevelTolerance(s.E, last, s.N, s.EF));
      assert WalkLevels(ns, i, b, s).calls == w.calls + [call];
      TotalCountSnoc(w.calls, call);
    }
  }

  /** Calls whose tolerances are each `E` times their count over `N` have tolerances adding up to `E` times their total count over `N`. */
  lemma {:induction false} SharesAddUp(calls: seq<StepCall>, N: real, E: real)
    requires forall call <- calls :: call.tolerance * N == E * (call.count as real)
    ensures TotalTolerance(calls) * N == E * (TotalCount(calls) as real)
  {
    if calls != [] {
      var front := calls[..|calls| - 1];
      var last := calls[|calls| - 1];
      SharesAddUp(front, N, E);
      calc {
        TotalTolerance(calls) * N;
        TotalTolerance(front) * N + last.tolerance * N;
        E * (TotalCount(front) as real) + E * (last.count as real);
        E * (TotalCount(calls) as real);
      }
    }
  }

  /**
   * With level-proportional tolerances (`EF <= 2`) the tolerances of calls
   * made with their levels' tolerances add up to `E` times the number of
   * vertices they cover over `N`.
   */
  lemma {:induction false} LevelTolerancesAddUp(calls: seq<StepCall>, s: Setup)
    requires s.N > 0 && s.EF <= 2
    requires forall call <- calls :: call.tolerance == LevelTolerance(s.E, call.count, s.N, s.EF)
    ensures TotalTolerance(calls) * (s.N as real) == s.E * (TotalCount(calls) as real)
  {
    LevelShares(calls, s);
    SharesAddUp(calls, s.N as real, s.E);
  }

  /** Calls made with their levels' tolerances that cover `N` vertices in all share out exactly `E`. */
  lemma {:induction false} LevelTolerancesWhole(calls: seq<StepCall>, s: Setup)
    requires s.N > 0 && s.EF <= 2 && TotalCount(calls) == s.N
    requires forall call <- calls :: call.tolerance == LevelTolerance(s.E, call.count, s.N, s.EF)
    ensures TotalTolerance(calls) == s.E
  {
    LevelTolerancesAddUp(calls, s);
    CancelPositive(TotalTolerance(calls), s.E, s.N as real, TotalCount(calls) as real);
  }

  /** A call made with its level's tolerance gets `E` times its count over `N`. */
  lemma {:induction false} LevelShares(calls: seq<StepCall>, s: Setup)
    requires s.N > 0 && s.EF <= 2
    requires forall call <- calls :: call.tolerance == LevelTolerance(s.E, call.count, s.N, s.EF)
    ensures forall call <- calls :: call.tolerance * (s.N as real) == s.E * (call.count as real)
  {
    forall call <- calls
      ensures call.tolerance * (s.N as real) == s.E * (call.count as real)
    {
      var t := LevelTolerance(s.E, call.count, s.N, s.EF);
    }
  }

  /** A level's weight scaled back by `N` is the product `iterations * n`; it is nonnegative when that product is. */
  lemma {:induction false} WeightScaled(iterations: int, n: int, N: int)
    requires N > 0
    ensures Weight(iterations, n, N) * (N as real) == (iterations * n) as real
    ensures 0 <= iterations * n ==> 0.0 <= Weight(iterations, n, N)
  {
    var x, M := (iterations * n) as real, N as real;
    assert x / M * M == x;
  }

  /** A weighted count that is nonnegative and at most `L` times the share `total/N` of the vertices. */
  predicate WeightWithin(weighted: real, L: int, total: int, N: int)
  {
    0.0 <= weighted && weighted * (N as real) <= (L * total) as real
  }

  /** Every call the walk made reported, on the buffers it was given, between 0 and `L` iterations. */
  predicate ReportsWithin(w: Walked, s: Setup, L: int)
  {
    |w.inputs| == |w.calls| && forall k :: 0 <= k < |w.calls| ==> 0 <= s.step(w.calls[k], w.inputs[k]).iterations <= L
  }

  /** Reports within `L` for a whole plan are within `L` for all but its last entry, and for the last entry's call. */
  lemma {:induction false} ReportsWithinFront(ns: seq<int>, i: int, b: Buffers, s: Setup, L: int)
    requires s.N > 0 && ns != [] && ReportsWithin(WalkLevels(ns, i, b, s), s, L)
    ensures var w, last := WalkLevels(ns[..|ns| - 1], i, b, s), ns[|ns| - 1];
      && ReportsWithin(w, s, L)
      && (last > 0 ==>
            0 <= s.step(StepCall(w.offset, last, LevelTolerance(s.E, last, s.N, s.EF)), w.bufs).iterations <= L)
  {
    var w, last := WalkLevels(ns[..|ns| - 1], i, b, s), ns[|ns| - 1];
    var whole := WalkLevels(ns, i, b, s);
    if last > 0 {
      var call := StepCall(w.offset, last, LevelTolerance(s.E, last, s.N, s.EF));
      assert whole.calls == w.calls + [call] && whole.inputs == w.inputs + [w.bufs];
      assert whole.calls[|w.calls|] == call && whole.inputs[|w.calls|] == w.bufs;
      forall k | 0 <= k < |w.calls|
        ensures 0 <= s.step(w.calls[k], w.inputs[k]).iterations <= L
      {
        assert whole.calls[k] == w.calls[k] && whole.inputs[k] == w.inputs[k];
      }
    } else {
      assert whole.calls == w.calls && whole.inputs == w.inputs;
    }
  }

  /**
   * When every step call the walk makes reports between 0 and `L`
   * iterations, the weighted count of a plan without skip entries lies
   * between 0 and `L` times the plan's share of the `N` vertices: each
   * level adds its count times its share.
   */
  lemma {:induction false} WalkWeightBounded(ns: seq<int>, i: int, b: Buffers, s: Setup, L: int)
    requires s.N > 0 && L >= 0
    requires forall k :: 0 <= k < |ns| ==> ns[k] >= 0
    requires ReportsWithin(WalkLevels(ns, i, b, s), s, L)
    ensures WeightWithin(WalkLevels(ns, i, b, s).weighted, L, Sum(ns), s.N)
  {
    if ns != [] {
      var front, last := ns[..|ns| - 1], ns[|ns| - 1];
      var w := WalkLevels(front, i, b, s);
      assert forall k :: 0 <= k < |front| ==> front[k] == ns[k];
      ReportsWithinFront(ns, i, b, s, L);
      WalkWeightBounded(front, i, b, s, L);
      SumSnoc(ns);
      if last > 0 {
        var call := StepCall(w.offset, last, LevelTolerance(s.E, last, s.N, s.EF));
        var it := s.step(call, w.bufs).iterations;
        assert WalkLevels(ns, i, b, s).weighted == w.weighted + Weight(it, last, s.N);
        WeightStep(w.weighted, it, last, L, Sum(front), Sum(ns), s.N);
      } else {
        assert WalkLevels(ns, i, b, s).weighted == w.weighted;
        assert Sum(ns) == Sum(front);
      }
    }
  }

  /** Adding one level's weight to a bounded weighted count keeps it bounded. */
  lemma {:induction false} WeightStep(weighted: real, iterations: int, n: int, L: int, before: int, after: int, N: int)
    requires N > 0 && 0 <= iterations <= L && n >= 0 && after == before + n
    requires WeightWithin(weighted, L, before, N)
    ensures WeightWithin(weighted + Weight(iterations, n, N), L, after, N)
  {
    ProductBounds(iterations, n, L);
    WeightScaled(iterations, n, N);
    var M, W := N as real, Weight(iterations, n, N);
    assert (weighted + W) * M == weighted * M + W * M;
    assert L * after == L * before + L * n;
  }

  /** `0 <= x <= L` and `n >= 0` give `0 <= x * n <= L * n`. */
  lemma {:induction false} ProductBounds(x: int, n: int, L: int)
    requires 0 <= x <= L && n >= 0
    ensures 0 <= x * n <= L * n
  {
    assert (L - x) * n >= 0;
  }

  /** A weighted count within `L` times the whole of the vertices rounds to an integer between 0 and `L`. */
  lemma {:induction false} RoundWithin(weighted: real, L: int, N: int)
    requires N > 0 && L >= 0 && WeightWithin(weighted, L, N, N)
    ensures 0 <= RoundCount(weighted) <= L
  {
    assert (L * N) as real == (L as real) * (N as real);
    ScaleDown(weighted, L as real, N as real);
  }

  /** Scaling by a positive factor keeps the order. */
  lemma {:induction false} ScaleDown(x: real, y: real, M: real)
    requires M > 0.0 && x * M <= y * M
    ensures x <= y
  {
    assert x == (x * M) / M;
    assert y == (y * M) / M;
  }

  /**
   * On a plan without skip entries whose levels hold the `N` vertices in
   * all, the loop's result, the weighted count rounded, lies between 0 and
   * any `L` at least the iterations each of the walk's calls reported, so
   * at most the largest of them.
   */
  lemma {:induction false} WalkCountBounded(ns: seq<int>, i: int, b: Buffers, s: Setup, L: int)
    requires s.N > 0 && L >= 0
    requires (forall k :: 0 <= k < |ns| ==> ns[k] >= 0) && Sum(ns) == s.N
    requires ReportsWithin(WalkLevels(ns, i, b, s), s, L)
    ensures 0 <= RoundCount(WalkLevels(ns, i, b, s).weighted) <= L
  {
    WalkWeightBounded(ns, i, b, s, L);
    RoundWithin(WalkLevels(ns, i, b, s).weighted, L, s.N);
  }

  lemma {:induction false} CancelPositive(x: real, y: real, N: real, M: real)
    requires N > 0.0 && M == N && x * N == y * M
    ensures x == y
  {
    assert x == (x * N) / N;
    assert y == (y * N) / N;
  }
}
