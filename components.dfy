/** Maximal runs of `true` in a boolean mask, as half-open slices. This is what
    `ndimage.find_objects(ndimage.label(mask)[0])` returns for a 1-D mask, and
    what `itertools.groupby` yields as the groups whose key is `true`. */
module Components {

  /** The half-open index range `[start, stop)`, like Python's `slice`. */
  datatype Slice = Slice(start: nat, stop: nat)

  function Length(s: Slice): int {
    s.stop - s.start
  }

  /** The first position at or after `i` where the mask is false, or `|m|`. */
  function RunEnd(m: seq<bool>, i: nat): (e: nat)
    requires i <= |m|
    ensures i <= e <= |m|
    ensures forall k :: i <= k < e ==> m[k]
    ensures e < |m| ==> !m[e]
    decreases |m| - i
  {
    if i == |m| || !m[i] then i else RunEnd(m, i + 1)
  }

  /** The runs of `m` that start at or after `i`, scanning left to right. */
  function RunsFrom(m: seq<bool>, i: nat): (rs: seq<Slice>)
    requires i <= |m|
    ensures forall k :: 0 <= k < |rs| ==> i <= rs[k].start < rs[k].stop <= |m|
    decreases |m| - i
  {
    if i == |m| then []
    else if !m[i] then RunsFrom(m, i + 1)
    else
      var e := RunEnd(m, i);
      [Slice(i, e)] + RunsFrom(m, e)
  }

  function Runs(m: seq<bool>): seq<Slice> {
    RunsFrom(m, 0)
  }

  /** Slices in strictly increasing order, with a gap between consecutive ones. */
  ghost predicate Increasing(rs: seq<Slice>) {
    forall k, l :: 0 <= k < l < |rs| ==> rs[k].stop < rs[l].start
  }

  ghost predicate InRange(rs: seq<Slice>, i: nat, n: nat) {
    forall k :: 0 <= k < |rs| ==> i <= rs[k].start < rs[k].stop <= n
  }

  ghost predicate AllTrue(m: seq<bool>, rs: seq<Slice>) {
    forall k, p :: 0 <= k < |rs| && rs[k].start <= p < rs[k].stop && p < |m| ==> m[p]
  }

  /** No run can be extended to the left (past position `i`) ... */
  ghost predicate LeftClosed(m: seq<bool>, i: nat, rs: seq<Slice>) {
    forall k :: 0 <= k < |rs| && i < rs[k].start <= |m| ==> !m[rs[k].start - 1]
  }

  /** ... or to the right. */
  ghost predicate RightClosed(m: seq<bool>, rs: seq<Slice>) {
    forall k :: 0 <= k < |rs| && rs[k].stop < |m| ==> !m[rs[k].stop]
  }

  /** Every true position at or after `i` lies in some run. */
  ghost predicate Covers(m: seq<bool>, i: nat, rs: seq<Slice>) {
    forall p :: i <= p < |m| && m[p] ==> exists k :: 0 <= k < |rs| && rs[k].start <= p < rs[k].stop
  }

  /** `rs` are exactly the maximal runs of `true` in `m[i..]`, in order. */
  ghost predicate MaximalRunsFrom(m: seq<bool>, i: nat, rs: seq<Slice>) {
    && InRange(rs, i, |m|)
    && AllTrue(m, rs)
    && LeftClosed(m, i, rs)
    && RightClosed(m, rs)
    && Increasing(rs)
    && Covers(m, i, rs)
  }

  ghost predicate MaximalRuns(m: seq<bool>, rs: seq<Slice>) {
    MaximalRunsFrom(m, 0, rs)
  }

  /** A false position in front of maximal runs does not change them. */
  lemma MaximalSkip(m: seq<bool>, i: nat, rs: seq<Slice>)
    requires i < |m| && !m[i]
    requires MaximalRunsFrom(m, i + 1, rs)
    ensures MaximalRunsFrom(m, i, rs)
  {
    assert Covers(m, i, rs) by {
      forall p | i <= p < |m| && m[p]
        ensures exists k :: 0 <= k < |rs| && rs[k].start <= p < rs[k].stop
      {
        assert i + 1 <= p;
      }
    }
  }

  lemma ConsInRange(m: seq<bool>, i: nat, rest: seq<Slice>)
    requires i < |m| && m[i]
    requires InRange(rest, RunEnd(m, i), |m|)
    ensures InRange([Slice(i, RunEnd(m, i))] + rest, i, |m|)
  {
  }

  lemma ConsAllTrue(m: seq<bool>, i: nat, rest: seq<Slice>)
    requires i < |m| && m[i]
    requires AllTrue(m, rest)
    ensures AllTrue(m, [Slice(i, RunEnd(m, i))] + rest)
  {
    var rs := [Slice(i, RunEnd(m, i))] + rest;
    forall k, p | 0 <= k < |rs| && rs[k].start <= p < rs[k].stop && p < |m| ensures m[p] {
      if k > 0 {
        assert rs[k] == rest[k - 1];
      }
    }
  }

  /** The runs after the end of a run start strictly after that end. */
  lemma AfterEnd(m: seq<bool>, i: nat, rest: seq<Slice>)
    requires i < |m| && m[i]
    requires InRange(rest, RunEnd(m, i), |m|) && AllTrue(m, rest)
    ensures forall k :: 0 <= k < |rest| ==> rest[k].start > RunEnd(m, i)
  {
    var e := RunEnd(m, i);
    assert e < |m| ==> !m[e];
  }

  lemma ConsClosed(m: seq<bool>, i: nat, rest: seq<Slice>)
    requires i < |m| && m[i]
    requires InRange(rest, RunEnd(m, i), |m|) && AllTrue(m, rest)
    requires LeftClosed(m, RunEnd(m, i), rest) && RightClosed(m, rest)
    ensures LeftClosed(m, i, [Slice(i, RunEnd(m, i))] + rest)
    ensures RightClosed(m, [Slice(i, RunEnd(m, i))] + rest)
  {
    var rs := [Slice(i, RunEnd(m, i))] + rest;
    AfterEnd(m, i, rest);
    forall k | 0 <= k < |rs| && i < rs[k].start <= |m| ensures !m[rs[k].start - 1] {
      assert rs[k] == rest[k - 1];
    }
    forall k | 0 <= k < |rs| && rs[k].stop < |m| ensures !m[rs[k].stop] {
      if k > 0 {
        assert rs[k] == rest[k - 1];
      }
    }
  }

  lemma ConsIncreasing(m: seq<bool>, i: nat, rest: seq<Slice>)
    requires i < |m| && m[i]
    requires InRange(rest, RunEnd(m, i), |m|) && AllTrue(m, rest) && Increasing(rest)
    ensures Increasing([Slice(i, RunEnd(m, i))] + rest)
  {
    var rs := [Slice(i, RunEnd(m, i))] + rest;
    AfterEnd(m, i, rest);
    forall k, l | 0 <= k < l < |rs| ensures rs[k].stop < rs[l].start {
      assert rs[l] == rest[l - 1];
      if k > 0 {
        assert rs[k] == rest[k - 1];
      }
    }
  }

  lemma ConsCovers(m: seq<bool>, i: nat, rest: seq<Slice>)
    requires i < |m| && m[i]
    requires Covers(m, RunEnd(m, i), rest)
    ensures Covers(m, i, [Slice(i, RunEnd(m, i))] + rest)
  {
    var e := RunEnd(m, i);
    var rs := [Slice(i, e)] + rest;
    forall p | i <= p < |m| && m[p]
      ensures exists k :: 0 <= k < |rs| && rs[k].start <= p < rs[k].stop
    {
      if p < e {
        assert rs[0].start <= p < rs[0].stop;
      } else {
        var k :| 0 <= k < |rest| && rest[k].start <= p < rest[k].stop;
        assert rs[k + 1] == rest[k];
      }
    }
  }

  /** The run starting at a true position `i`, put in front of the maximal runs
      after it, gives the maximal runs from `i`. */
  lemma MaximalCons(m: seq<bool>, i: nat, rest: seq<Slice>)
    requires i < |m| && m[i]
    requires MaximalRunsFrom(m, RunEnd(m, i), rest)
    ensures MaximalRunsFrom(m, i, [Slice(i, RunEnd(m, i))] + rest)
  {
    ConsInRange(m, i, rest);
    ConsAllTrue(m, i, rest);
    ConsClosed(m, i, rest);
    ConsIncreasing(m, i, rest);
    ConsCovers(m, i, rest);
  }

  lemma {:induction false} RunsFromAreMaximal(m: seq<bool>, i: nat)
    requires i <= |m|
    ensures MaximalRunsFrom(m, i, RunsFrom(m, i))
    decreases |m| - i
  {
    if i == |m| {
    } else if !m[i] {
      RunsFromAreMaximal(m, i + 1);
      MaximalSkip(m, i, RunsFrom(m, i + 1));
    } else {
      var e := RunEnd(m, i);
      RunsFromAreMaximal(m, e);
      MaximalCons(m, i, RunsFrom(m, e));
    }
  }

  /** The slices `Runs` yields are exactly the maximal runs of `true`: each lies
      in bounds and is all `true`, cannot be extended on either side, they are
      increasing and pairwise disjoint, and every `true` position lies in one. */
  lemma RunsAreMaximal(m: seq<bool>)
    ensures MaximalRuns(m, Runs(m))
  {
    RunsFromAreMaximal(m, 0);
  }

  /** A mask that is `true` everywhere is one run. */
  lemma RunsOfAllTrue(m: seq<bool>)
    requires |m| > 0
    requires forall k :: 0 <= k < |m| ==> m[k]
    ensures Runs(m) == [Slice(0, |m|)]
  {
    assert RunEnd(m, 0) == |m|;
    assert RunsFrom(m, |m|) == [];
    assert RunsFrom(m, 0) == [Slice(0, |m|)] + RunsFrom(m, |m|);
  }

  lemma {:induction false} RunsFromOfAllFalse(m: seq<bool>, i: nat)
    requires i <= |m|
    requires forall k :: i <= k < |m| ==> !m[k]
    ensures RunsFrom(m, i) == []
    decreases |m| - i
  {
    if i < |m| {
      RunsFromOfAllFalse(m, i + 1);
    }
  }

  /** A mask that is `false` everywhere has no run. */
  lemma RunsOfAllFalse(m: seq<bool>)
    requires forall k :: 0 <= k < |m| ==> !m[k]
    ensures Runs(m) == []
  {
    RunsFromOfAllFalse(m, 0);
  }

  /** The pieces of `xs` the slices cut out, in order. */
  function Pieces<T>(xs: seq<T>, rs: seq<Slice>): (ps: seq<seq<T>>)
    requires forall k :: 0 <= k < |rs| ==> rs[k].start <= rs[k].stop <= |xs|
    ensures |ps| == |rs|
    ensures forall k :: 0 <= k < |rs| ==> ps[k] == xs[rs[k].start..rs[k].stop]
  {
    if rs == [] then [] else [xs[rs[0].start..rs[0].stop]] + Pieces(xs, rs[1..])
  }

  function Flatten<T>(ss: seq<seq<T>>): seq<T> {
    if ss == [] then [] else ss[0] + Flatten(ss[1..])
  }

  /** The elements `xs[p]` with `p >= i` and `m[p]`, in order. */
  function SelectFrom<T>(xs: seq<T>, m: seq<bool>, i: nat): seq<T>
    requires |xs| == |m| && i <= |m|
    decreases |m| - i
  {
    if i == |m| then [] else (if m[i] then [xs[i]] else []) + SelectFrom(xs, m, i + 1)
  }

  lemma {:induction false} SelectRun<T>(xs: seq<T>, m: seq<bool>, i: nat, e: nat)
    requires |xs| == |m| && i <= e <= |m|
    requires forall k :: i <= k < e ==> m[k]
    ensures SelectFrom(xs, m, i) == xs[i..e] + SelectFrom(xs, m, e)
    decreases e - i
  {
    if i < e {
      SelectRun(xs, m, i + 1, e);
      assert xs[i..e] == [xs[i]] + xs[i + 1..e];
    }
  }

  lemma {:induction false} FlattenRunsFrom<T>(xs: seq<T>, m: seq<bool>, i: nat)
    requires |xs| == |m| && i <= |m|
    ensures Flatten(Pieces(xs, RunsFrom(m, i))) == SelectFrom(xs, m, i)
    decreases |m| - i
  {
    if i == |m| {
    } else if !m[i] {
      FlattenRunsFrom(xs, m, i + 1);
    } else {
      var e := RunEnd(m, i);
      FlattenRunsFrom(xs, m, e);
      SelectRun(xs, m, i, e);
      var rest := RunsFrom(m, e);
      assert RunsFrom(m, i) == [Slice(i, e)] + rest;
      assert ([Slice(i, e)] + rest)[1..] == rest;
    }
  }

  /** Concatenating the runs gives back exactly the elements the mask selects:
      nothing outside a run is in a piece, and nothing selected is lost. */
  lemma FlattenRuns<T>(xs: seq<T>, m: seq<bool>)
    requires |xs| == |m|
    ensures Flatten(Pieces(xs, Runs(m))) == SelectFrom(xs, m, 0)
  {
    FlattenRunsFrom(xs, m, 0);
  }
}
