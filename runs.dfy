/**
 * The run-length step shared by `_collapse_duplicate_rows` and
 * `_collapse_duplicate_values` (effects/effect_serializer.py): the change points
 * of a sequence are the indices `k >= 1` whose element differs from the one
 * before; the groups start at 0 and at each change point and end at the next
 * change point or at the length; each group yields its length and its first
 * element. `numpy` indexing `data[group_starts]` on an empty input raises
 * `IndexError`, here `None`.
 */
module Runs {
  import opened Base

  datatype Run<T> = Run(count: nat, value: T)

  predicate Increasing(bs: seq<nat>)
  {
    forall i, j :: 0 <= i < j < |bs| ==> bs[i] < bs[j]
  }

  /**
   * `np.where(data[:-1] != data[1:])[0] + 1`, restricted to indices from `from`
   * on: the ascending indices whose element differs from its predecessor.
   */
  function ChangePoints<T(==)>(xs: seq<T>, from: nat): (cps: seq<nat>)
    requires 1 <= from
    decreases |xs| - from
    ensures Increasing(cps)
    ensures forall i :: 0 <= i < |cps| ==> from <= cps[i] < |xs| && xs[cps[i] - 1] != xs[cps[i]]
    ensures forall k :: from <= k < |xs| && xs[k - 1] != xs[k] ==> k in cps
  {
    if from >= |xs| then []
    else if xs[from - 1] != xs[from] then [from] + ChangePoints(xs, from + 1)
    else ChangePoints(xs, from + 1)
  }

  /** One run per pair of consecutive bounds: its length and the element at its start. */
  function Groups<T>(xs: seq<T>, bs: seq<nat>): (runs: seq<Run<T>>)
    requires Increasing(bs)
    requires |bs| > 0 ==> bs[|bs| - 1] <= |xs|
    ensures |runs| == if |bs| == 0 then 0 else |bs| - 1
    ensures forall i :: 0 <= i < |runs| ==> runs[i] == Run(bs[i + 1] - bs[i], xs[bs[i]])
  {
    if |bs| < 2 then []
    else [Run(bs[1] - bs[0], xs[bs[0]])] + Groups(xs, bs[1..])
  }

  /** `[0] + change points + [len(data)]`: group starts followed by the last group end. */
  function Bounds<T(==)>(xs: seq<T>): (bs: seq<nat>)
    requires |xs| > 0
    ensures Increasing(bs) && |bs| >= 2 && bs[0] == 0 && bs[|bs| - 1] == |xs|
  {
    var cps := ChangePoints(xs, 1);
    var bs := [0] + cps + [|xs|];
    assert forall i :: 0 <= i < |cps| ==> 0 < cps[i] < |xs|;
    assert forall i :: 1 <= i < |bs| - 1 ==> bs[i] == cps[i - 1];
    bs
  }

  /** The `(counts, unique)` pair of the collapse helpers, as one run per group. */
  function Collapse<T(==)>(xs: seq<T>): (r: Option<seq<Run<T>>>)
    ensures r.None? <==> |xs| == 0
    ensures r.Some? ==> |r.value| >= 1 && r.value[0].value == xs[0]
  {
    if |xs| == 0 then None else Some(Groups(xs, Bounds(xs)))
  }

  /** Each value repeated by its count, in order. */
  function Expand<T>(runs: seq<Run<T>>): seq<T>
  {
    if |runs| == 0 then [] else Repeat(runs[0].value, runs[0].count) + Expand(runs[1..])
  }

  function TotalCount<T>(runs: seq<Run<T>>): nat
  {
    if |runs| == 0 then 0 else runs[0].count + TotalCount(runs[1..])
  }

  /** A run-length encoding with no empty run and no two neighbouring runs of equal value. */
  predicate Canonical<T(==)>(runs: seq<Run<T>>)
  {
    && (forall i :: 0 <= i < |runs| ==> runs[i].count >= 1)
    && (forall i :: 0 < i < |runs| ==> runs[i - 1].value != runs[i].value)
  }

  /** No element in `xs[lo..hi]` differs from its predecessor. */
  predicate ConstantOn<T(==)>(xs: seq<T>, lo: nat, hi: nat)
    requires lo <= hi <= |xs|
  {
    forall k :: lo < k < hi ==> xs[k - 1] == xs[k]
  }

  lemma {:induction false} ConstantSlice<T>(xs: seq<T>, lo: nat, hi: nat)
    requires lo < hi <= |xs| && ConstantOn(xs, lo, hi)
    ensures xs[lo..hi] == Repeat(xs[lo], hi - lo)
    decreases hi - lo
  {
    if hi - lo > 1 {
      ConstantSlice(xs, lo, hi - 1);
      assert xs[hi - 1] == xs[lo] by {
        ConstantValue(xs, lo, hi, hi - 1);
      }
      assert xs[lo..hi] == xs[lo..hi - 1] + [xs[hi - 1]];
      RepeatSnoc(xs[lo], hi - lo - 1);
    }
  }

  lemma {:induction false} ConstantValue<T>(xs: seq<T>, lo: nat, hi: nat, k: nat)
    requires lo <= k < hi <= |xs| && ConstantOn(xs, lo, hi)
    ensures xs[k] == xs[lo]
    decreases k - lo
  {
    if k > lo {
      ConstantValue(xs, lo, hi, k - 1);
    }
  }

  lemma {:induction false} RepeatSnoc<T>(x: T, n: nat)
    ensures Repeat(x, n) + [x] == Repeat(x, n + 1)
  {
    if n > 0 {
      RepeatSnoc(x, n - 1);
      assert Repeat(x, n) + [x] == [x] + (Repeat(x, n - 1) + [x]);
    }
  }

  /** Groups over bounds whose segments are constant expand to the slice they cover. */
  lemma {:induction false} GroupsExpand<T>(xs: seq<T>, bs: seq<nat>)
    requires Increasing(bs) && |bs| >= 1 && bs[|bs| - 1] <= |xs|
    requires forall i :: 0 <= i < |bs| - 1 ==> ConstantOn(xs, bs[i], bs[i + 1])
    ensures Expand(Groups(xs, bs)) == xs[bs[0]..bs[|bs| - 1]]
  {
    if |bs| >= 2 {
      var rest := bs[1..];
      assert forall i :: 0 <= i < |rest| ==> rest[i] == bs[i + 1];
      GroupsExpand(xs, rest);
      ConstantSlice(xs, bs[0], bs[1]);
      assert xs[bs[0]..bs[|bs| - 1]] == xs[bs[0]..bs[1]] + xs[bs[1]..bs[|bs| - 1]];
    }
  }

  /** Between two consecutive bounds no element changes: every change point is a bound. */
  lemma SegmentsConstant<T>(xs: seq<T>)
    requires |xs| > 0
    ensures var bs := Bounds(xs);
      forall i :: 0 <= i < |bs| - 1 ==> ConstantOn(xs, bs[i], bs[i + 1])
  {
    var cps := ChangePoints(xs, 1);
    var bs := Bounds(xs);
    assert bs == [0] + cps + [|xs|];
    forall i, k | 0 <= i < |bs| - 1 && bs[i] < k < bs[i + 1]
      ensures xs[k - 1] == xs[k]
    {
      forall j | 0 <= j < |cps|
        ensures cps[j] != k
      {
        assert bs[j + 1] == cps[j];
        NotBetween(bs, i, j + 1);
      }
      assert k !in cps;
    }
  }

  /** No bound of an increasing sequence lies strictly between two consecutive bounds. */
  lemma NotBetween(bs: seq<nat>, i: nat, m: nat)
    requires Increasing(bs) && i + 1 < |bs| && m < |bs|
    ensures !(bs[i] < bs[m] < bs[i + 1])
  {
    if m <= i {
      assert m == i || bs[m] < bs[i];
    } else {
      assert m == i + 1 || bs[i + 1] < bs[m];
    }
  }

  /** Every change point is the start of a run whose value differs from the run before. */
  lemma NeighboursDiffer<T>(xs: seq<T>)
    requires |xs| > 0
    ensures forall i :: 0 < i < |Groups(xs, Bounds(xs))| ==>
      Groups(xs, Bounds(xs))[i - 1].value != Groups(xs, Bounds(xs))[i].value
  {
    var cps := ChangePoints(xs, 1);
    var bs := Bounds(xs);
    var runs := Groups(xs, bs);
    assert bs == [0] + cps + [|xs|];
    SegmentsConstant(xs);
    forall i | 0 < i < |runs|
      ensures runs[i - 1].value != runs[i].value
    {
      assert i - 1 < |cps| && bs[i] == cps[i - 1];
      assert xs[bs[i] - 1] != xs[bs[i]];
      assert ConstantOn(xs, bs[i - 1], bs[i]);
      ConstantValue(xs, bs[i - 1], bs[i], bs[i] - 1);
      assert runs[i - 1] == Run(bs[i] - bs[i - 1], xs[bs[i - 1]]);
      assert runs[i] == Run(bs[i + 1] - bs[i], xs[bs[i]]);
    }
  }

  lemma {:induction false} ExpandLength<T>(runs: seq<Run<T>>)
    ensures |Expand(runs)| == TotalCount(runs)
  {
    if |runs| > 0 {
      ExpandLength(runs[1..]);
    }
  }

  /**
   * The collapse of a non-empty sequence is a canonical run-length encoding of
   * it: counts at least 1 summing to the length, neighbouring values different,
   * and repeating each value by its count gives the sequence back.
   */
  lemma CollapseIsRunEncoding<T>(xs: seq<T>)
    ensures Collapse(xs).Some? <==> |xs| > 0
    ensures Collapse(xs).Some? ==>
      var runs := Collapse(xs).value;
      && Canonical(runs)
      && Expand(runs) == xs
      && TotalCount(runs) == |xs|
  {
    if |xs| > 0 {
      var bs := Bounds(xs);
      var runs := Groups(xs, bs);
      assert Collapse(xs).value == runs;
      CollapseExpands(xs);
      ExpandLength(runs);
      NeighboursDiffer(xs);
      PositiveCounts(xs, bs);
    }
  }

  lemma CollapseExpands<T>(xs: seq<T>)
    requires |xs| > 0
    ensures Expand(Groups(xs, Bounds(xs))) == xs
  {
    var bs := Bounds(xs);
    SegmentsConstant(xs);
    GroupsExpand(xs, bs);
    assert xs[0..|xs|] == xs;
  }

  lemma PositiveCounts<T>(xs: seq<T>, bs: seq<nat>)
    requires Increasing(bs) && |bs| > 0 && bs[|bs| - 1] <= |xs|
    ensures forall i :: 0 <= i < |Groups(xs, bs)| ==> Groups(xs, bs)[i].count >= 1
  {
    var runs := Groups(xs, bs);
    forall i | 0 <= i < |runs|
      ensures runs[i].count >= 1
    {
      assert runs[i] == Run(bs[i + 1] - bs[i], xs[bs[i]]);
    }
  }

  /** Two canonical encodings of the same sequence are equal: the collapse is the only one. */
  lemma {:induction false} CanonicalUnique<T>(a: seq<Run<T>>, b: seq<Run<T>>)
    requires Canonical(a) && Canonical(b) && Expand(a) == Expand(b)
    ensures a == b
  {
    if |a| > 0 && |b| > 0 {
      var ea, eb := Expand(a), Expand(b);
      assert ea[0] == a[0].value && eb[0] == b[0].value;
      if a[0].count < b[0].count {
        LeadingRun(a);
        LeadingRun(b);
        assert false;
      } else if b[0].count < a[0].count {
        LeadingRun(a);
        LeadingRun(b);
        assert false;
      }
      assert Expand(a[1..]) == ea[a[0].count..];
      assert Expand(b[1..]) == eb[b[0].count..];
      CanonicalUnique(a[1..], b[1..]);
      assert a == [a[0]] + a[1..];
      assert b == [b[0]] + b[1..];
    }
  }

  /**
   * The first run covers exactly the first `count` elements: the element after it,
   * if any, is the next run's value, which differs.
   */
  lemma LeadingRun<T>(runs: seq<Run<T>>)
    requires Canonical(runs) && |runs| > 0
    ensures var e := Expand(runs); var c := runs[0].count;
      && c <= |e|
      && (forall k :: 0 <= k < c ==> e[k] == runs[0].value)
      && (c < |e| ==> |runs| > 1 && e[c] == runs[1].value && e[c] != runs[0].value)
  {
    var e := Expand(runs);
    var c := runs[0].count;
    assert e == Repeat(runs[0].value, c) + Expand(runs[1..]);
    if |runs| > 1 {
      var tail := runs[1..];
      assert Expand(tail) == Repeat(tail[0].value, tail[0].count) + Expand(tail[1..]);
      assert tail[0].count >= 1;
    } else {
      assert Expand(runs[1..]) == [];
    }
  }
}
