/**
 * Stable grouping by key, as the dynamic entry point uses it to collect the
 * affected components level by level: one pass over the input, appending each
 * element to the group of its key, or opening a new group at the end when the
 * key is new. Groups therefore appear in the order their keys first occur.
 */
module Grouping {
  import opened Sequences

  /** The elements of `xs` whose key is `k`, in their original order. */
  function Filter<T, K(==)>(xs: seq<T>, key: T -> K, k: K): (r: seq<T>)
    ensures |r| <= |xs|
    ensures forall t :: 0 <= t < |r| ==> key(r[t]) == k && r[t] in xs
  {
    if xs == [] then []
    else
      var init, x := xs[..|xs| - 1], xs[|xs| - 1];
      assert xs == init + [x];
      Filter(init, key, k) + (if key(x) == k then [x] else [])
  }

  /** Index of the first nonempty group whose leading element has key `k`, or `|gs|` when none has. */
  function FindGroup<T, K(==)>(gs: seq<seq<T>>, key: T -> K, k: K): (j: nat)
    ensures j <= |gs|
    ensures j < |gs| ==> gs[j] != [] && key(gs[j][0]) == k
    ensures forall i :: 0 <= i < j ==> !(gs[i] != [] && key(gs[i][0]) == k)
  {
    if gs == [] then 0
    else if gs[0] != [] && key(gs[0][0]) == k then 0
    else 1 + FindGroup(gs[1..], key, k)
  }

  /** One step of the pass: `x` joins the group of its key, or opens a new last group. */
  function Insert<T, K(==)>(gs: seq<seq<T>>, key: T -> K, x: T): seq<seq<T>>
  {
    var j := FindGroup(gs, key, key(x));
    if j < |gs| then gs[j := gs[j] + [x]] else gs + [[x]]
  }

  /** Stable group-by-key of `xs` (the `groupValuesVector` helper). */
  function GroupBy<T, K(==)>(xs: seq<T>, key: T -> K): seq<seq<T>>
  {
    if xs == [] then [] else Insert(GroupBy(xs[..|xs| - 1], key), key, xs[|xs| - 1])
  }

  /** Position in `xs` of the first element whose key is `k`, or `|xs|` when there is none. */
  ghost function FirstWithKey<T, K>(xs: seq<T>, key: T -> K, k: K): (t: nat)
    ensures t <= |xs|
    ensures t < |xs| ==> key(xs[t]) == k
    ensures forall u :: 0 <= u < t ==> key(xs[u]) != k
  {
    if xs == [] then 0
    else if key(xs[0]) == k then 0
    else 1 + FirstWithKey(xs[1..], key, k)
  }

  /** Every group is nonempty and is exactly the elements of `xs` with its key, in input order. */
  ghost predicate Filtered<T, K>(xs: seq<T>, key: T -> K, gs: seq<seq<T>>)
  {
    forall j :: 0 <= j < |gs| ==> gs[j] != [] && gs[j] == Filter(xs, key, key(gs[j][0]))
  }

  /** Groups follow the first occurrence of their keys in `xs` (so no two groups share a key). */
  ghost predicate OrderedByFirst<T, K>(xs: seq<T>, key: T -> K, gs: seq<seq<T>>)
  {
    forall i, j :: 0 <= i < j < |gs| && gs[i] != [] && gs[j] != [] ==>
      FirstWithKey(xs, key, key(gs[i][0])) < FirstWithKey(xs, key, key(gs[j][0]))
  }

  /** Every element of `xs` has a group for its key. */
  ghost predicate Covers<T, K>(xs: seq<T>, key: T -> K, gs: seq<seq<T>>)
  {
    forall t :: 0 <= t < |xs| ==> FindGroup(gs, key, key(xs[t])) < |gs|
  }

  /** `gs` is the stable grouping of `xs` by `key`. */
  ghost predicate IsGrouping<T, K>(xs: seq<T>, key: T -> K, gs: seq<seq<T>>)
  {
    Filtered(xs, key, gs) && OrderedByFirst(xs, key, gs) && Covers(xs, key, gs)
  }

  lemma {:induction false} FilterSnoc<T, K>(xs: seq<T>, key: T -> K, k: K, x: T)
    ensures Filter(xs + [x], key, k) == Filter(xs, key, k) + (if key(x) == k then [x] else [])
  {
    assert (xs + [x])[..|xs|] == xs;
  }

  /** A key that no element carries selects nothing. */
  lemma {:induction false} FilterAbsent<T, K>(xs: seq<T>, key: T -> K, k: K)
    requires forall t :: 0 <= t < |xs| ==> key(xs[t]) != k
    ensures Filter(xs, key, k) == []
  {
    if xs != [] {
      FilterAbsent(xs[..|xs| - 1], key, k);
    }
  }

  lemma {:induction false} FirstWithKeySnoc<T, K>(xs: seq<T>, key: T -> K, k: K, x: T)
    ensures FirstWithKey(xs, key, k) < |xs| ==> FirstWithKey(xs + [x], key, k) == FirstWithKey(xs, key, k)
    ensures FirstWithKey(xs, key, k) == |xs| && key(x) == k ==> FirstWithKey(xs + [x], key, k) == |xs|
  {
    var a := FirstWithKey(xs, key, k);
    if a < |xs| {
      assert (xs + [x])[a] == xs[a];
    }
    if a == |xs| && key(x) == k {
      assert (xs + [x])[|xs|] == x;
    }
  }

  /** `FindGroup` looks only at the leading element of each group. */
  lemma {:induction false} FindGroupSameHeads<T, K>(gs: seq<seq<T>>, hs: seq<seq<T>>, key: T -> K, k: K)
    requires |gs| == |hs|
    requires forall j :: 0 <= j < |gs| ==> gs[j] != [] && hs[j] != [] && gs[j][0] == hs[j][0]
    ensures FindGroup(gs, key, k) == FindGroup(hs, key, k)
  {
  }

  lemma {:induction false} FindGroupSnoc<T, K>(gs: seq<seq<T>>, key: T -> K, k: K, g: seq<T>)
    requires FindGroup(gs, key, k) < |gs|
    ensures FindGroup(gs + [g], key, k) == FindGroup(gs, key, k)
  {
    var a := FindGroup(gs, key, k);
    assert (gs + [g])[a] == gs[a];
  }

  /** The leading element of a group occurs in the input, so its key does. */
  lemma {:induction false} HeadsOccur<T, K>(xs: seq<T>, key: T -> K, gs: seq<seq<T>>, j: int)
    requires Filtered(xs, key, gs) && 0 <= j < |gs|
    ensures FirstWithKey(xs, key, key(gs[j][0])) < |xs|
  {
    assert gs[j][0] in Filter(xs, key, key(gs[j][0]));
    var u :| 0 <= u < |xs| && xs[u] == gs[j][0];
  }

  /** A key no group has is carried by no element. */
  lemma {:induction false} KeyAbsent<T, K>(xs: seq<T>, key: T -> K, gs: seq<seq<T>>, x: T)
    requires Covers(xs, key, gs) && FindGroup(gs, key, key(x)) == |gs|
    ensures forall t :: 0 <= t < |xs| ==> key(xs[t]) != key(x)
  {
  }

  lemma {:induction false} InsertFiltered<T, K>(xs: seq<T>, key: T -> K, gs: seq<seq<T>>, x: T)
    requires IsGrouping(xs, key, gs)
    ensures Filtered(xs + [x], key, Insert(gs, key, x))
  {
    var j0 := FindGroup(gs, key, key(x));
    var hs := Insert(gs, key, x);
    if j0 < |gs| {
      forall j | 0 <= j < |hs| ensures hs[j] != [] && hs[j] == Filter(xs + [x], key, key(hs[j][0])) {
        FilterSnoc(xs, key, key(gs[j][0]), x);
        if j != j0 {
          HeadsOccur(xs, key, gs, j);
          HeadsOccur(xs, key, gs, j0);
        }
      }
    } else {
      KeyAbsent(xs, key, gs, x);
      FilterAbsent(xs, key, key(x));
      FilterSnoc(xs, key, key(x), x);
      forall j | 0 <= j < |hs| ensures hs[j] != [] && hs[j] == Filter(xs + [x], key, key(hs[j][0])) {
        if j < |gs| {
          FilterSnoc(xs, key, key(gs[j][0]), x);
        }
      }
    }
  }

  lemma {:induction false} InsertOrdered<T, K>(xs: seq<T>, key: T -> K, gs: seq<seq<T>>, x: T)
    requires IsGrouping(xs, key, gs)
    ensures OrderedByFirst(xs + [x], key, Insert(gs, key, x))
  {
    var j0 := FindGroup(gs, key, key(x));
    var hs := Insert(gs, key, x);
    forall j | 0 <= j < |gs|
      ensures FirstWithKey(xs + [x], key, key(gs[j][0])) == FirstWithKey(xs, key, key(gs[j][0])) < |xs|
    {
      HeadsOccur(xs, key, gs, j);
      FirstWithKeySnoc(xs, key, key(gs[j][0]), x);
    }
    if j0 == |gs| {
      KeyAbsent(xs, key, gs, x);
      FirstAbsent(xs, key, key(x));
      FirstWithKeySnoc(xs, key, key(x), x);
      assert hs[|gs|] == [x];
    }
  }

  lemma {:induction false} InsertCovers<T, K>(xs: seq<T>, key: T -> K, gs: seq<seq<T>>, x: T)
    requires IsGrouping(xs, key, gs)
    ensures Covers(xs + [x], key, Insert(gs, key, x))
  {
    var ys := xs + [x];
    var j0 := FindGroup(gs, key, key(x));
    var hs := Insert(gs, key, x);
    if j0 < |gs| {
      forall t | 0 <= t < |ys| ensures FindGroup(hs, key, key(ys[t])) < |hs| {
        FindGroupSameHeads(gs, hs, key, key(ys[t]));
        if t < |xs| {
          assert ys[t] == xs[t];
        }
      }
    } else {
      forall t | 0 <= t < |ys| ensures FindGroup(hs, key, key(ys[t])) < |hs| {
        if t < |xs| {
          assert ys[t] == xs[t];
          FindGroupSnoc(gs, key, key(xs[t]), [x]);
        } else {
          assert hs[|gs|] != [] && key(hs[|gs|][0]) == key(ys[t]);
        }
      }
    }
  }

  lemma {:induction false} FirstAbsent<T, K>(xs: seq<T>, key: T -> K, k: K)
    requires forall t :: 0 <= t < |xs| ==> key(xs[t]) != k
    ensures FirstWithKey(xs, key, k) == |xs|
  {
    if xs != [] {
      FirstAbsent(xs[1..], key, k);
    }
  }

  /**
   * `GroupBy` is a stable grouping: each group is exactly the elements of
   * its key in input order, every element is placed, and groups follow the
   * first occurrence of their keys, so no two groups share a key.
   */
  lemma {:induction false} GroupByIsGrouping<T, K>(xs: seq<T>, key: T -> K)
    ensures IsGrouping(xs, key, GroupBy(xs, key))
  {
    if xs != [] {
      var init, x := xs[..|xs| - 1], xs[|xs| - 1];
      var gs := GroupBy(init, key);
      GroupByIsGrouping(init, key);
      InsertKeepsGrouping(init, key, gs, x);
      assert init + [x] == xs;
    }
  }

  /** One step of the pass keeps a stable grouping of the elements seen so far. */
  lemma {:induction false} InsertKeepsGrouping<T, K>(xs: seq<T>, key: T -> K, gs: seq<seq<T>>, x: T)
    requires IsGrouping(xs, key, gs)
    ensures IsGrouping(xs + [x], key, Insert(gs, key, x))
  {
    InsertFiltered(xs, key, gs, x);
    InsertOrdered(xs, key, gs, x);
    InsertCovers(xs, key, gs, x);
  }

  /** Where `Insert` places `x` in the flattened groups. */
  ghost function InsertPoint<T, K>(gs: seq<seq<T>>, key: T -> K, x: T): nat
  {
    var j := FindGroup(gs, key, key(x));
    if j < |gs| then |Flatten(gs[..j + 1])| else |Flatten(gs)|
  }

  /** Appending `x` to group `j` inserts `x` right after that group in the flattened order. */
  lemma {:induction false} FlattenExtendGroup<T>(gs: seq<seq<T>>, j: nat, x: T)
    requires j < |gs|
    ensures |Flatten(gs[..j + 1])| <= |Flatten(gs)|
    ensures Flatten(gs[j := gs[j] + [x]])
         == Flatten(gs)[..|Flatten(gs[..j + 1])|] + [x] + Flatten(gs)[|Flatten(gs[..j + 1])|..]
  {
    var hs := gs[j := gs[j] + [x]];
    if j == 0 {
      assert gs[..1] == [gs[0]];
      assert hs[1..] == gs[1..];
      assert Flatten(gs[..1]) == gs[0] + Flatten(gs[..1][1..]);
      assert gs[..1][1..] == [];
    } else {
      FlattenExtendGroup(gs[1..], j - 1, x);
      assert hs[1..] == gs[1..][j - 1 := gs[1..][j - 1] + [x]];
      assert gs[..j + 1][1..] == gs[1..][..j];
      var q := |Flatten(gs[1..][..j])|;
      assert |Flatten(gs[..j + 1])| == |gs[0]| + q;
      var f := Flatten(gs[1..]);
      assert Flatten(gs) == gs[0] + f;
      assert (gs[0] + f)[..|gs[0]| + q] == gs[0] + f[..q];
      assert (gs[0] + f)[|gs[0]| + q..] == f[q..];
    }
  }

  /** `Insert` puts `x` into the flattened groups at `InsertPoint` and moves nothing else. */
  lemma {:induction false} InsertFlatten<T, K>(gs: seq<seq<T>>, key: T -> K, x: T)
    ensures InsertPoint(gs, key, x) <= |Flatten(gs)|
    ensures Flatten(Insert(gs, key, x))
         == Flatten(gs)[..InsertPoint(gs, key, x)] + [x] + Flatten(gs)[InsertPoint(gs, key, x)..]
  {
    var j := FindGroup(gs, key, key(x));
    var f := Flatten(gs);
    if j < |gs| {
      assert Insert(gs, key, x) == gs[j := gs[j] + [x]];
      assert InsertPoint(gs, key, x) == |Flatten(gs[..j + 1])|;
      FlattenExtendGroup(gs, j, x);
    } else {
      assert Insert(gs, key, x) == gs + [[x]];
      assert InsertPoint(gs, key, x) == |f|;
      FlattenAppend(gs, [[x]]);
      assert Flatten([[x]]) == [x] + Flatten([[x]][1..]);
      assert f[..|f|] == f && f[|f|..] == [];
    }
  }

  /** Grouping only reorders: the flattened groups are a permutation of the input. */
  lemma {:induction false} GroupByPermutes<T, K>(xs: seq<T>, key: T -> K)
    ensures multiset(Flatten(GroupBy(xs, key))) == multiset(xs)
  {
    if xs != [] {
      var init, x := xs[..|xs| - 1], xs[|xs| - 1];
      var gs := GroupBy(init, key);
      GroupByPermutes(init, key);
      InsertPermutes(init, key, gs, x);
      assert xs == init + [x];
    }
  }

  /** One step of the pass keeps the flattened groups a permutation of the elements seen so far. */
  lemma {:induction false} InsertPermutes<T, K>(xs: seq<T>, key: T -> K, gs: seq<seq<T>>, x: T)
    requires multiset(Flatten(gs)) == multiset(xs)
    ensures multiset(Flatten(Insert(gs, key, x))) == multiset(xs + [x])
  {
    InsertFlatten(gs, key, x);
    var f, p := Flatten(gs), InsertPoint(gs, key, x);
    var lo, hi := f[..p], f[p..];
    assert f == lo + hi;
    assert multiset(Flatten(Insert(gs, key, x))) == multiset(lo + [x] + hi);
    assert multiset(lo + [x] + hi) == multiset(lo) + multiset([x]) + multiset(hi);
    assert multiset(xs + [x]) == multiset(xs) + multiset([x]);
  }
}
