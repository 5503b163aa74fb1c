/**
 * Sequence helpers that the level-wise PageRank entry points compose:
 * the sum of a level-size plan, flattening level groups into a vertex
 * ordering, and gathering the member vertices of a list of components.
 */
module Sequences {

  /** Sum of the entries of a level-size plan. */
  function Sum(ns: seq<int>): int
  {
    if ns == [] then 0 else ns[0] + Sum(ns[1..])
  }

  /** Number of vertex positions a plan walks over: every entry, processed or skipped, advances by its magnitude. */
  function AbsSum(ns: seq<int>): (s: int)
    ensures s >= 0
    ensures (forall k :: 0 <= k < |ns| ==> ns[k] >= 0) ==> s == Sum(ns)
  {
    if ns == [] then 0 else (if ns[0] < 0 then -ns[0] else ns[0]) + AbsSum(ns[1..])
  }

  /** The sizes of the groups, in order (the `g.size()` transform). */
  function Sizes<T>(gs: seq<seq<T>>): (ns: seq<int>)
    ensures |ns| == |gs|
    ensures forall j :: 0 <= j < |gs| ==> ns[j] == |gs[j]|
  {
    if gs == [] then [] else [|gs[0]|] + Sizes(gs[1..])
  }

  /** The in-order concatenation of the groups. */
  function Flatten<T>(gs: seq<seq<T>>): (s: seq<T>)
    ensures |s| == Sum(Sizes(gs))
  {
    if gs == [] then [] else gs[0] + Flatten(gs[1..])
  }

  /** Every index in `idx` names an entry of a table of length `len`. */
  predicate InRange(idx: seq<int>, len: int)
  {
    forall k :: 0 <= k < |idx| ==> 0 <= idx[k] < len
  }

  /** The members of the components `idx`, component after component. */
  function Gather<T>(cs: seq<seq<T>>, idx: seq<int>): (s: seq<T>)
    requires InRange(idx, |cs|)
    ensures |idx| == 1 ==> s == cs[idx[0]]
  {
    if idx == [] then [] else cs[idx[0]] + Gather(cs, idx[1..])
  }

  /** For each group of component indices, the members of those components. */
  function JoinAt<T>(cs: seq<seq<T>>, ig: seq<seq<int>>): (gs: seq<seq<T>>)
    requires forall j :: 0 <= j < |ig| ==> InRange(ig[j], |cs|)
    ensures |gs| == |ig|
    ensures forall j :: 0 <= j < |ig| ==> gs[j] == Gather(cs, ig[j])
  {
    if ig == [] then [] else [Gather(cs, ig[0])] + JoinAt(cs, ig[1..])
  }

  lemma {:induction false} SumAppend(a: seq<int>, b: seq<int>)
    ensures Sum(a + b) == Sum(a) + Sum(b)
  {
    if a == [] {
      assert a + b == b;
    } else {
      assert (a + b)[1..] == a[1..] + b;
      SumAppend(a[1..], b);
    }
  }

  /** The sum of a nonempty plan is the sum of all but its last entry plus that entry. */
  lemma {:induction false} SumSnoc(ns: seq<int>)
    requires ns != []
    ensures Sum(ns) == Sum(ns[..|ns| - 1]) + ns[|ns| - 1]
  {
    var front, last := ns[..|ns| - 1], ns[|ns| - 1];
    assert ns == front + [last];
    SumAppend(front, [last]);
    assert Sum([last]) == last;
  }

  lemma {:induction false} AbsSumAppend(a: seq<int>, b: seq<int>)
    ensures AbsSum(a + b) == AbsSum(a) + AbsSum(b)
  {
    if a == [] {
      assert a + b == b;
    } else {
      assert (a + b)[1..] == a[1..] + b;
      AbsSumAppend(a[1..], b);
    }
  }

  /** Flattening distributes over concatenation of group lists. */
  lemma {:induction false} FlattenAppend<T>(a: seq<seq<T>>, b: seq<seq<T>>)
    ensures Flatten(a + b) == Flatten(a) + Flatten(b)
  {
    if a == [] {
      assert a + b == b;
    } else {
      assert (a + b)[1..] == a[1..] + b;
      FlattenAppend(a[1..], b);
    }
  }

  /** Gathering distributes over concatenation of index lists. */
  lemma {:induction false} GatherAppend<T>(cs: seq<seq<T>>, a: seq<int>, b: seq<int>)
    requires InRange(a, |cs|) && InRange(b, |cs|)
    ensures InRange(a + b, |cs|)
    ensures Gather(cs, a + b) == Gather(cs, a) + Gather(cs, b)
  {
    if a == [] {
      assert a + b == b;
    } else {
      assert (a + b)[1..] == a[1..] + b;
      GatherAppend(cs, a[1..], b);
    }
  }

  /**
   * Level `j` occupies the positions `[Sum(Sizes(gs)[..j]), Sum(Sizes(gs)[..j]) + |gs[j]|)`
   * of the flattened ordering, and those positions hold exactly `gs[j]`.
   */
  lemma {:induction false} FlattenRange<T>(gs: seq<seq<T>>, j: int)
    requires 0 <= j < |gs|
    ensures 0 <= Sum(Sizes(gs)[..j])
    ensures Sum(Sizes(gs)[..j]) + |gs[j]| <= |Flatten(gs)|
    ensures Flatten(gs)[Sum(Sizes(gs)[..j]) .. Sum(Sizes(gs)[..j]) + |gs[j]|] == gs[j]
  {
    var rest := Flatten(gs[1..]);
    assert Flatten(gs) == gs[0] + rest;
    if j == 0 {
      assert Sizes(gs)[..0] == [];
    } else {
      assert Sizes(gs)[..j] == [|gs[0]|] + Sizes(gs[1..])[..j - 1];
      FlattenRange(gs[1..], j - 1);
      var lo := Sum(Sizes(gs[1..])[..j - 1]);
      assert Sum(Sizes(gs)[..j]) == |gs[0]| + lo;
      assert (gs[0] + rest)[|gs[0]| + lo .. |gs[0]| + lo + |gs[j]|] == rest[lo .. lo + |gs[j]|];
    }
  }

  /** Flattening the gathered groups gathers the flattened indices. */
  lemma {:induction false} FlattenJoinAt<T>(cs: seq<seq<T>>, ig: seq<seq<int>>)
    requires forall j :: 0 <= j < |ig| ==> InRange(ig[j], |cs|)
    ensures InRange(Flatten(ig), |cs|)
    ensures Flatten(JoinAt(cs, ig)) == Gather(cs, Flatten(ig))
  {
    if ig != [] {
      FlattenJoinAt(cs, ig[1..]);
      GatherAppend(cs, ig[0], Flatten(ig[1..]));
    }
  }
}
