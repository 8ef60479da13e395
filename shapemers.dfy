/** The shapemer corpus of `make_data.py`: the confidence mask, the
    high-confidence segments, per-segment token lists and the corpus line of
    one structure, for both the AlphaFold path (`get_AF_shapemers`) and the
    ProteinNet path (`get_PDB_shapemers`). */
module Shapemers {
  import opened Wrappers
  import opened Text
  import opened Components
  import opened Tokens

  /** Smoothed scores below this are low confidence. */
  const HighConfidence: real := 70.0

  /** The quantised moment rows of one segment: KMER_CUT with split size 16,
      then RADIUS with split size 10. */
  datatype SegmentRows = SegmentRows(kmer: seq<Quad>, radius: seq<Quad>)

  /** The mask `indices` holds after it is filled with ones and the low scores
      are zeroed: 1 exactly where the smoothed score is at least 70. */
  function MaskOf(betas: seq<real>): (mask: seq<int>)
    ensures |mask| == |betas|
    ensures forall i :: 0 <= i < |betas| ==> mask[i] == 0 || mask[i] == 1
    ensures forall i :: 0 <= i < |betas| ==> (mask[i] == 1 <==> betas[i] >= HighConfidence)
  {
    seq(|betas|, i requires 0 <= i < |betas| => if betas[i] < HighConfidence then 0 else 1)
  }

  /** `indices = np.ones(...)` followed by `indices[np.where(betas < 70)] = 0`. */
  method ConfidenceMask(betas: seq<real>) returns (mask: seq<int>)
    ensures mask == MaskOf(betas)
  {
    var indices := new int[|betas|](_ => 1);
    forall i | 0 <= i < |betas| && betas[i] < HighConfidence {
      indices[i] := 0;
    }
    mask := indices[..];
  }

  /** The positions `ndimage.label` treats as foreground: the non-zero ones. */
  function Foreground(mask: seq<int>): (fg: seq<bool>)
    ensures |fg| == |mask|
  {
    seq(|mask|, i requires 0 <= i < |mask| => mask[i] != 0)
  }

  /** `ndimage.find_objects(ndimage.label(indices)[0])`. */
  function Labelled(mask: seq<int>): seq<Slice> {
    Runs(Foreground(mask))
  }

  /** The slices of `Labelled` are exactly the maximal runs of non-zero mask
      entries, in increasing order and pairwise disjoint. */
  lemma LabelledAreMaximalRuns(mask: seq<int>)
    ensures MaximalRuns(Foreground(mask), Labelled(mask))
  {
    RunsAreMaximal(Foreground(mask));
  }

  /** The slices that pass `s.stop - s.start > length_threshold`, in order. */
  function Long(rs: seq<Slice>, threshold: int): (kept: seq<Slice>)
    ensures |kept| <= |rs|
  {
    if rs == [] then []
    else
      var last := rs[|rs| - 1];
      Long(rs[..|rs| - 1], threshold) + (if Length(last) > threshold then [last] else [])
  }

  lemma LongSnoc(rs: seq<Slice>, s: Slice, threshold: int)
    ensures Long(rs + [s], threshold) == Long(rs, threshold) + (if Length(s) > threshold then [s] else [])
  {
    assert (rs + [s])[..|rs|] == rs;
  }

  /** A slice is kept exactly when it is one of the slices and is longer than
      the threshold. */
  lemma {:induction false} LongMembers(rs: seq<Slice>, threshold: int)
    ensures forall s :: s in Long(rs, threshold) <==> s in rs && Length(s) > threshold
  {
    if rs != [] {
      LongMembers(rs[..|rs| - 1], threshold);
      assert rs == rs[..|rs| - 1] + [rs[|rs| - 1]];
    }
  }

  /** When no slice is longer than the threshold, none is kept. */
  lemma {:induction false} LongOfShort(rs: seq<Slice>, threshold: int)
    requires forall k :: 0 <= k < |rs| ==> Length(rs[k]) <= threshold
    ensures Long(rs, threshold) == []
  {
    if rs != [] {
      LongOfShort(rs[..|rs| - 1], threshold);
    }
  }

  /** Keeping the long slices keeps their order. */
  lemma {:induction false} LongIncreasing(rs: seq<Slice>, threshold: int)
    requires Increasing(rs)
    ensures Increasing(Long(rs, threshold))
  {
    if rs != [] {
      var init := rs[..|rs| - 1];
      var last := rs[|rs| - 1];
      assert Increasing(init);
      LongIncreasing(init, threshold);
      var kept := Long(init, threshold);
      LongMembers(init, threshold);
      forall k | 0 <= k < |kept| ensures kept[k].stop < last.start {
        assert kept[k] in init;
        var j :| 0 <= j < |init| && init[j] == kept[k];
        assert rs[j] == init[j];
      }
    }
  }

  /** The segments the AlphaFold path extracts moments from. */
  function Segments(mask: seq<int>, threshold: int): seq<Slice> {
    Long(Labelled(mask), threshold)
  }

  /** Each segment is a maximal run of high-confidence residues longer than
      the threshold; every such run is a segment; segments are increasing. */
  lemma SegmentsAreLongRuns(mask: seq<int>, threshold: int)
    ensures forall s :: s in Segments(mask, threshold) <==> s in Labelled(mask) && Length(s) > threshold
    ensures Increasing(Segments(mask, threshold))
  {
    RunsAreMaximal(Foreground(mask));
    LongMembers(Labelled(mask), threshold);
    LongIncreasing(Labelled(mask), threshold);
  }

  /** A chain whose smoothed scores are all at least 70 and which is longer
      than the threshold is one segment covering the whole chain. */
  lemma AllHighIsOneSegment(betas: seq<real>, threshold: int)
    requires |betas| > 0 && |betas| > threshold
    requires forall i :: 0 <= i < |betas| ==> betas[i] >= HighConfidence
    ensures Segments(MaskOf(betas), threshold) == [Slice(0, |betas|)]
  {
    var fg := Foreground(MaskOf(betas));
    RunsOfAllTrue(fg);
    assert Labelled(MaskOf(betas)) == [Slice(0, |betas|)];
    assert [Slice(0, |betas|)][..0] == [];
  }

  /** A chain whose smoothed scores are all below 70 has no segment. */
  lemma AllLowHasNoSegment(betas: seq<real>, threshold: int)
    requires forall i :: 0 <= i < |betas| ==> betas[i] < HighConfidence
    ensures Segments(MaskOf(betas), threshold) == []
  {
    RunsOfAllFalse(Foreground(MaskOf(betas)));
  }

  /** A chain no longer than the threshold has no segment, whatever its scores. */
  lemma ShortChainHasNoSegment(mask: seq<int>, threshold: int)
    requires |mask| <= threshold
    ensures Segments(mask, threshold) == []
  {
    RunsAreMaximal(Foreground(mask));
    LongOfShort(Labelled(mask), threshold);
  }

  /** The tokens of one segment: all KMER tokens, then all RADIUS tokens. */
  function SegmentTokens(rows: SegmentRows): seq<string> {
    TokensOf(Kmer, rows.kmer) + TokensOf(Radius, rows.radius)
  }

  /** The `shapemers` list after the kept segments, in segment order. The
      moment rows of a segment are `moments(segment)`. */
  function CorpusTokens(segs: seq<Slice>, moments: Slice -> SegmentRows): seq<string> {
    if segs == [] then []
    else CorpusTokens(segs[..|segs| - 1], moments) + SegmentTokens(moments(segs[|segs| - 1]))
  }

  /** The number of moment rows of the segments. */
  function RowCount(segs: seq<Slice>, moments: Slice -> SegmentRows): nat {
    if segs == [] then 0
    else
      var rows := moments(segs[|segs| - 1]);
      RowCount(segs[..|segs| - 1], moments) + |rows.kmer| + |rows.radius|
  }

  /** There is one token per moment row. */
  lemma {:induction false} TokenCount(segs: seq<Slice>, moments: Slice -> SegmentRows)
    ensures |CorpusTokens(segs, moments)| == RowCount(segs, moments)
  {
    if segs != [] {
      TokenCount(segs[..|segs| - 1], moments);
    }
  }

  lemma {:induction false} CorpusTokensSnoc(segs: seq<Slice>, s: Slice, moments: Slice -> SegmentRows)
    ensures CorpusTokens(segs + [s], moments) == CorpusTokens(segs, moments) + SegmentTokens(moments(s))
  {
    assert (segs + [s])[..|segs|] == segs;
  }

  lemma {:induction false} CorpusTokensAppend(a: seq<Slice>, b: seq<Slice>, moments: Slice -> SegmentRows)
    ensures CorpusTokens(a + b, moments) == CorpusTokens(a, moments) + CorpusTokens(b, moments)
    decreases |b|
  {
    if b != [] {
      var b' := b[..|b| - 1];
      assert (a + b)[..|a + b| - 1] == a + b';
      CorpusTokensAppend(a, b', moments);
    } else {
      assert a + b == a;
    }
  }

  lemma {:induction false} LayoutParts(before: seq<Slice>, s: Slice, after: seq<Slice>, moments: Slice -> SegmentRows)
    ensures CorpusTokens(before + [s] + after, moments)
         == CorpusTokens(before, moments) + SegmentTokens(moments(s)) + CorpusTokens(after, moments)
  {
    CorpusTokensAppend(before + [s], after, moments);
    CorpusTokensSnoc(before, s, moments);
  }

  /** The token list is ordered by segment: the tokens of segment `k` follow
      those of the segments before it, its KMER tokens precede its RADIUS
      tokens, and the tokens of the later segments follow. */
  lemma {:induction false} TokenLayout(segs: seq<Slice>, moments: Slice -> SegmentRows, k: nat)
    requires k < |segs|
    ensures CorpusTokens(segs, moments)
         == CorpusTokens(segs[..k], moments)
          + TokensOf(Kmer, moments(segs[k]).kmer)
          + TokensOf(Radius, moments(segs[k]).radius)
          + CorpusTokens(segs[k + 1..], moments)
  {
    var before, s, after := segs[..k], segs[k], segs[k + 1..];
    var whole := before + [s] + after;
    assert whole == segs;
    LayoutParts(before, s, after, moments);
    assert CorpusTokens(whole, moments) == CorpusTokens(segs, moments);
    var a, b, c, d := CorpusTokens(before, moments), TokensOf(Kmer, moments(s).kmer),
                      TokensOf(Radius, moments(s).radius), CorpusTokens(after, moments);
    assert CorpusTokens(segs, moments) == a + (b + c) + d;
    assert a + (b + c) + d == a + b + c + d;
  }

  /** Every collected token is a non-empty token without whitespace. */
  lemma {:induction false} CorpusTokensWellFormed(segs: seq<Slice>, moments: Slice -> SegmentRows)
    ensures forall t :: t in CorpusTokens(segs, moments) ==> t != [] && NoSpace(t)
  {
    if segs != [] {
      CorpusTokensWellFormed(segs[..|segs| - 1], moments);
      SegmentTokensWellFormed(moments(segs[|segs| - 1]));
    }
  }

  /** Every token of one segment or record is non-empty and has no whitespace. */
  lemma SegmentTokensWellFormed(rows: SegmentRows)
    ensures forall t :: t in SegmentTokens(rows) ==> t != [] && NoSpace(t)
  {
    TokensOfWellFormed(Kmer, rows.kmer);
    TokensOfWellFormed(Radius, rows.radius);
  }

  /** The loop over the labelled slices: counts and collects the kept segments. */
  method CollectShapemers(slices: seq<Slice>, threshold: int, moments: Slice -> SegmentRows)
    returns (index: nat, shapemers: seq<string>)
    ensures index == |Long(slices, threshold)|
    ensures shapemers == CorpusTokens(Long(slices, threshold), moments)
  {
    index := 0;
    shapemers := [];
    for p := 0 to |slices|
      invariant index == |Long(slices[..p], threshold)|
      invariant shapemers == CorpusTokens(Long(slices[..p], threshold), moments)
    {
      var s := slices[p];
      ghost var keptBefore := Long(slices[..p], threshold);
      assert slices[..p + 1] == slices[..p] + [s];
      LongSnoc(slices[..p], s, threshold);
      if s.stop - s.start > threshold {
        index := index + 1;
        var rows := moments(s);
        ghost var before := shapemers;
        shapemers := shapemers + TokensOf(Kmer, rows.kmer);
        shapemers := shapemers + TokensOf(Radius, rows.radius);
        assert shapemers == before + SegmentTokens(rows);
        assert Long(slices[..p + 1], threshold) == keptBefore + [s];
        CorpusTokensSnoc(keptBefore, s, moments);
      } else {
        assert Long(slices[..p + 1], threshold) == keptBefore;
      }
    }
    assert slices[..|slices|] == slices;
  }

  /** One corpus line: the key, a tab, the tokens joined by blanks, a newline. */
  function CorpusLine(key: string, tokens: seq<string>): string {
    key + "\t" + Join(tokens, ' ') + "\n"
  }

  /** Reads a corpus line back: split off the newline, split once on the tab,
      then split the tokens on blanks (an empty field is no token). */
  function ParseCorpusLine(line: string): Option<(string, seq<string>)> {
    if line == [] || line[|line| - 1] != '\n' then None
    else
      var fields := SplitOn(line[..|line| - 1], '\t');
      if |fields| != 2 then None
      else Some((fields[0], if fields[1] == [] then [] else SplitOn(fields[1], ' ')))
  }

  lemma {:induction false} JoinAvoids(parts: seq<string>, sep: char, c: char)
    requires c != sep
    requires forall k :: 0 <= k < |parts| ==> c !in parts[k]
    ensures c !in Join(parts, sep)
  {
    if |parts| > 1 {
      JoinAvoids(parts[1..], sep, c);
    }
  }

  lemma JoinEmpty(parts: seq<string>, sep: char)
    requires |parts| > 0 && parts[0] != []
    ensures Join(parts, sep) != []
  {
  }

  /** If the key has no tab and the tokens are non-empty and contain no blank
      or tab, reading the line back gives the key and the token list. */
  lemma CorpusLineRoundTrip(key: string, tokens: seq<string>)
    requires '\t' !in key
    requires forall k :: 0 <= k < |tokens| ==> tokens[k] != [] && ' ' !in tokens[k] && '\t' !in tokens[k]
    ensures ParseCorpusLine(CorpusLine(key, tokens)) == Some((key, tokens))
  {
    var j := Join(tokens, ' ');
    var line := CorpusLine(key, tokens);
    assert line[..|line| - 1] == key + ['\t'] + j;
    JoinAvoids(tokens, ' ', '\t');
    SplitOnCons(key, j, '\t');
    SplitOnFree(j, '\t');
    if tokens != [] {
      JoinEmpty(tokens, ' ');
      SplitJoin(tokens, ' ');
    }
  }

  /** A written AlphaFold line reads back as its key and tokens. */
  lemma AFLineRoundTrip(key: string, segs: seq<Slice>, moments: Slice -> SegmentRows)
    requires '\t' !in key
    ensures ParseCorpusLine(CorpusLine(key, CorpusTokens(segs, moments))) == Some((key, CorpusTokens(segs, moments)))
  {
    var ts := CorpusTokens(segs, moments);
    CorpusTokensWellFormed(segs, moments);
    forall k | 0 <= k < |ts| ensures ts[k] != [] && ' ' !in ts[k] && '\t' !in ts[k] {
      assert ts[k] in ts;
    }
    CorpusLineRoundTrip(key, ts);
  }

  /** The body of the per-file loop of `get_AF_shapemers` after the structure
      is read: the line written for the structure, or None when nothing is
      written. The moment rows of a segment are `moments(segment)`. */
  method AFShapemerLine(key: string, betas: seq<real>, threshold: int, moments: Slice -> SegmentRows)
    returns (line: Option<string>)
    ensures line.Some? <==> Segments(MaskOf(betas), threshold) != []
    ensures line.Some? ==> line.value == CorpusLine(key, CorpusTokens(Segments(MaskOf(betas), threshold), moments))
  {
    var mask := ConfidenceMask(betas);
    var slices := Labelled(mask);
    var index, shapemers := CollectShapemers(slices, threshold, moments);
    if index > 0 {
      line := Some(CorpusLine(key, shapemers));
    } else {
      line := None;
    }
  }

  /** The token and line logic of `get_PDB_shapemers` for one cleaned record:
      a line is written exactly when there is at least one token. */
  function PDBShapemerLine(id: string, rows: SegmentRows): (line: Option<string>)
    ensures line.Some? <==> |rows.kmer| + |rows.radius| > 0
    ensures line.Some? ==> line.value == CorpusLine(id, SegmentTokens(rows))
  {
    var shapemers := TokensOf(Kmer, rows.kmer) + TokensOf(Radius, rows.radius);
    if |shapemers| > 0 then Some(CorpusLine(id, shapemers)) else None
  }

  /** A written ProteinNet line reads back as the record's ID and its KMER
      tokens followed by its RADIUS tokens. */
  lemma PDBLineRoundTrip(id: string, rows: SegmentRows)
    requires '\t' !in id
    requires PDBShapemerLine(id, rows).Some?
    ensures ParseCorpusLine(PDBShapemerLine(id, rows).value) == Some((id, SegmentTokens(rows)))
  {
    var ts := SegmentTokens(rows);
    SegmentTokensWellFormed(rows);
    forall k | 0 <= k < |ts| ensures ts[k] != [] && ' ' !in ts[k] && '\t' !in ts[k] {
      assert ts[k] in ts;
    }
    CorpusLineRoundTrip(id, ts);
  }
}
