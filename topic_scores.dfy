/** The per-residue topic scores of `plotting.py`: every shapemer's topic
    weight is spread over nearby residues, scaled by how close they are.
    The moment rows and the radius neighbourhoods come from the invariant
    library and are inputs here; the similarity is a kernel of the squared
    distance, given as a parameter. */
module TopicScores {
  import opened Geometry
  import opened Tokens

  /** Residues a KMER anchor spreads its weight over: itself and the next 15. */
  const KmerSpan: nat := 16

  /** The trained model: the normalised topic matrix, the chosen topic and
      the column of every known shapemer. */
  datatype Topics = Topics(h: seq<seq<real>>, topicId: nat, column: map<string, nat>)

  ghost predicate ValidTopics(t: Topics) {
    && t.topicId < |t.h|
    && forall s :: s in t.column ==> t.column[s] < |t.h[t.topicId]|
  }

  /** `shapemer_to_topic_value`: the topic's weight of a known shapemer, 0 otherwise. */
  function TopicValue(t: Topics, s: string): (v: real)
    requires ValidTopics(t)
    ensures s in t.column ==> v in t.h[t.topicId]
    ensures s !in t.column ==> v == 0.0
  {
    if s in t.column then t.h[t.topicId][t.column[s]] else 0.0
  }

  /** `get_similarity(a, b)`. */
  function Similarity(coords: seq<Coord>, kernel: real -> real, a: nat, b: nat): real
    requires a < |coords| && b < |coords|
  {
    kernel(SqDist(coords[a], coords[b]))
  }

  // ---------------------------------------------------------------- KMER pass

  /** The first `k` terms the inner KMER loop adds for anchor `i`: the sum of
      `w * sim(i, i + t)` for `t < k`. */
  function WindowSum(coords: seq<Coord>, kernel: real -> real, w: real, i: nat, k: nat): real
    requires i + k <= |coords|
  {
    if k == 0 then 0.0 else WindowSum(coords, kernel, w, i, k - 1) + w * Similarity(coords, kernel, i, i + k - 1)
  }

  /** What KMER anchor `i` adds to `weights[i]`. */
  function KmerGain(coords: seq<Coord>, kernel: real -> real, t: Topics, tokens: seq<string>, i: nat): real
    requires ValidTopics(t) && i < |tokens| && i + KmerSpan <= |coords|
  {
    WindowSum(coords, kernel, TopicValue(t, tokens[i]), i, KmerSpan)
  }

  /** The KMER loop (`for i, x in enumerate(shapemers)`, over the shapemers
      tagged `k`): anchor `i` changes only `weights[i]`, by its weight times
      the similarities to residues `i` to `i + 15`. It reads `coords[i + 15]`
      unguarded, so every anchor needs fifteen residues after it. */
  method KmerPass(weights: array<real>, coords: seq<Coord>, kernel: real -> real, t: Topics, tokens: seq<string>)
    requires ValidTopics(t)
    requires weights.Length == |coords|
    requires |tokens| > 0 ==> |tokens| - 1 + KmerSpan <= |coords|
    modifies weights
    ensures forall j :: 0 <= j < weights.Length ==>
              weights[j] == old(weights[j]) + (if j < |tokens| then KmerGain(coords, kernel, t, tokens, j) else 0.0)
  {
    for i := 0 to |tokens|
      invariant forall j :: 0 <= j < weights.Length ==>
                  weights[j] == old(weights[j]) + (if j < i then KmerGain(coords, kernel, t, tokens, j) else 0.0)
    {
      AddWindow(weights, coords, kernel, TopicValue(t, tokens[i]), i);
    }
  }

  /** The inner KMER loop for anchor `i`: `weights[i]` gains the window sum
      of `weight` over residues `i` to `i + 15`; nothing else changes. */
  method AddWindow(weights: array<real>, coords: seq<Coord>, kernel: real -> real, weight: real, i: nat)
    requires weights.Length == |coords| && i + KmerSpan <= |coords|
    modifies weights
    ensures weights[i] == old(weights[i]) + WindowSum(coords, kernel, weight, i, KmerSpan)
    ensures forall j :: 0 <= j < weights.Length && j != i ==> weights[j] == old(weights[j])
  {
    for k := 0 to KmerSpan
      invariant forall j :: 0 <= j < weights.Length && j != i ==> weights[j] == old(weights[j])
      invariant weights[i] == old(weights[i]) + WindowSum(coords, kernel, weight, i, k)
    {
      var term := weight * Similarity(coords, kernel, i, i + k);
      assert WindowSum(coords, kernel, weight, i, k + 1) == WindowSum(coords, kernel, weight, i, k) + term;
      weights[i] := weights[i] + term;
    }
  }

  // ---------------------------------------------------------------- RADIUS pass

  /** Every neighbourhood of the first `n` anchors indexes existing residues. */
  ghost predicate NeighbourhoodsFit(splits: seq<seq<nat>>, n: nat, residues: nat) {
    && n <= |splits|
    && forall i, p :: 0 <= i < n && 0 <= p < |splits[i]| ==> splits[i][p] < residues
  }

  /** What the first `k` entries of anchor `i`'s neighbourhood `s` add to
      residue `j`. */
  function NeighbourGain(coords: seq<Coord>, kernel: real -> real, w: real, i: nat, s: seq<nat>, j: nat, k: nat): real
    requires i < |coords| && j < |coords| && k <= |s|
  {
    if k == 0 then 0.0
    else NeighbourGain(coords, kernel, w, i, s, j, k - 1) + (if s[k - 1] == j then w * Similarity(coords, kernel, i, j) else 0.0)
  }

  /** What RADIUS anchor `i` adds to residue `j`. */
  function AnchorGain(coords: seq<Coord>, kernel: real -> real, t: Topics, tokens: seq<string>, splits: seq<seq<nat>>, i: nat, j: nat): real
    requires ValidTopics(t) && i < |tokens| && i < |splits| && i < |coords| && j < |coords|
  {
    NeighbourGain(coords, kernel, TopicValue(t, tokens[i]), i, splits[i], j, |splits[i]|)
  }

  /** What the first `n` RADIUS anchors add to residue `j`. */
  function RadiusGain(coords: seq<Coord>, kernel: real -> real, t: Topics, tokens: seq<string>, splits: seq<seq<nat>>, j: nat, n: nat): real
    requires ValidTopics(t) && n <= |tokens| && n <= |splits| && n <= |coords| && j < |coords|
  {
    if n == 0 then 0.0
    else RadiusGain(coords, kernel, t, tokens, splits, j, n - 1) + AnchorGain(coords, kernel, t, tokens, splits, n - 1, j)
  }

  /** The RADIUS loop: every residue in anchor `i`'s neighbourhood
      `split_indices[i]` gains the anchor's weight times its similarity to
      residue `i`, once per time it is listed. */
  method RadiusPass(weights: array<real>, coords: seq<Coord>, kernel: real -> real, t: Topics,
                    tokens: seq<string>, splits: seq<seq<nat>>)
    requires ValidTopics(t)
    requires weights.Length == |coords|
    requires |tokens| <= |coords|
    requires NeighbourhoodsFit(splits, |tokens|, |coords|)
    modifies weights
    ensures forall j :: 0 <= j < weights.Length ==>
              weights[j] == old(weights[j]) + RadiusGain(coords, kernel, t, tokens, splits, j, |tokens|)
  {
    for i := 0 to |tokens|
      invariant forall j :: 0 <= j < weights.Length ==>
                  weights[j] == old(weights[j]) + RadiusGain(coords, kernel, t, tokens, splits, j, i)
    {
      AddNeighbourhood(weights, coords, kernel, TopicValue(t, tokens[i]), i, splits[i]);
    }
  }

  /** The inner RADIUS loop for anchor `i`: every residue listed in `s` gains
      `weight` times its similarity to residue `i`, once per listing. */
  method AddNeighbourhood(weights: array<real>, coords: seq<Coord>, kernel: real -> real, weight: real, i: nat, s: seq<nat>)
    requires weights.Length == |coords| && i < |coords|
    requires forall p :: 0 <= p < |s| ==> s[p] < |coords|
    modifies weights
    ensures forall j :: 0 <= j < weights.Length ==>
              weights[j] == old(weights[j]) + NeighbourGain(coords, kernel, weight, i, s, j, |s|)
  {
    for p := 0 to |s|
      invariant forall j :: 0 <= j < weights.Length ==>
                  weights[j] == old(weights[j]) + NeighbourGain(coords, kernel, weight, i, s, j, p)
    {
      var index := s[p];
      weights[index] := weights[index] + weight * Similarity(coords, kernel, i, index);
    }
  }

  // ---------------------------------------------------------------- the scores

  /** `get_coords_topic_scores`: one score per residue, starting from zero,
      after the KMER pass and then the RADIUS pass. */
  method CoordsTopicScores(coords: seq<Coord>, kernel: real -> real, t: Topics,
                           kmerRows: seq<Quad>, radiusRows: seq<Quad>, splits: seq<seq<nat>>)
    returns (scores: seq<real>)
    requires ValidTopics(t)
    requires |kmerRows| > 0 ==> |kmerRows| - 1 + KmerSpan <= |coords|
    requires |radiusRows| <= |coords|
    requires NeighbourhoodsFit(splits, |radiusRows|, |coords|)
    ensures |scores| == |coords|
    ensures forall j :: 0 <= j < |coords| ==>
              scores[j] == (if j < |kmerRows| then KmerGain(coords, kernel, t, TokensOf(Kmer, kmerRows), j) else 0.0)
                           + RadiusGain(coords, kernel, t, TokensOf(Radius, radiusRows), splits, j, |radiusRows|)
  {
    var weights := new real[|coords|](_ => 0.0);
    KmerPass(weights, coords, kernel, t, TokensOf(Kmer, kmerRows));
    RadiusPass(weights, coords, kernel, t, TokensOf(Radius, radiusRows), splits);
    scores := weights[..];
  }

  // ---------------------------------------------------------------- properties

  lemma {:induction false} WindowSumOfZero(coords: seq<Coord>, kernel: real -> real, i: nat, k: nat)
    requires i + k <= |coords|
    ensures WindowSum(coords, kernel, 0.0, i, k) == 0.0
  {
    if k > 0 {
      WindowSumOfZero(coords, kernel, i, k - 1);
    }
  }

  /** A KMER anchor whose shapemer the model does not know adds nothing. */
  lemma UnknownKmerAddsNothing(coords: seq<Coord>, kernel: real -> real, t: Topics, tokens: seq<string>, i: nat)
    requires ValidTopics(t) && i < |tokens| && i + KmerSpan <= |coords|
    requires tokens[i] !in t.column
    ensures KmerGain(coords, kernel, t, tokens, i) == 0.0
  {
    WindowSumOfZero(coords, kernel, i, KmerSpan);
  }

  /** The inner KMER sum is the weight times the total similarity of the window. */
  lemma {:induction false} WindowSumFactors(coords: seq<Coord>, kernel: real -> real, w: real, i: nat, k: nat)
    requires i + k <= |coords|
    ensures WindowSum(coords, kernel, w, i, k) == w * WindowSum(coords, kernel, 1.0, i, k)
  {
    if k > 0 {
      WindowSumFactors(coords, kernel, w, i, k - 1);
    }
  }

  /** With a kernel that is 1 at distance 0, the first term of a KMER anchor,
      its similarity to itself, adds exactly its weight. */
  lemma KmerSelfTerm(coords: seq<Coord>, kernel: real -> real, w: real, i: nat)
    requires i + 1 <= |coords|
    requires kernel(0.0) == 1.0
    ensures WindowSum(coords, kernel, w, i, 1) == w
  {
    assert SqDist(coords[i], coords[i]) == 0.0;
  }

  /** With a kernel valued in [0, 1] (as `exp(-gamma * d)` is for d >= 0) and a
      non-negative weight, the first `k` KMER terms of an anchor add between 0
      and `k` times its weight. */
  lemma {:induction false} WindowSumBounds(coords: seq<Coord>, kernel: real -> real, w: real, i: nat, k: nat)
    requires i + k <= |coords|
    requires forall d :: d >= 0.0 ==> 0.0 <= kernel(d) <= 1.0
    requires w >= 0.0
    ensures 0.0 <= WindowSum(coords, kernel, w, i, k) <= Repeat(k, w)
  {
    if k > 0 {
      WindowSumBounds(coords, kernel, w, i, k - 1);
      var d := SqDist(coords[i], coords[i + k - 1]);
      var sim := kernel(d);
      assert 0.0 <= sim <= 1.0;
      ScaledWeight(w, sim);
      assert WindowSum(coords, kernel, w, i, k) == WindowSum(coords, kernel, w, i, k - 1) + w * sim;
      assert Repeat(k, w) == Repeat(k - 1, w) + w;
    }
  }

  lemma ScaledWeight(w: real, sim: real)
    requires w >= 0.0 && 0.0 <= sim <= 1.0
    ensures 0.0 <= w * sim <= w
  {
  }

  /** A KMER anchor with a non-negative topic weight adds between 0 and 16
      times that weight to its own residue. */
  lemma KmerGainBounds(coords: seq<Coord>, kernel: real -> real, t: Topics, tokens: seq<string>, i: nat)
    requires ValidTopics(t) && i < |tokens| && i + KmerSpan <= |coords|
    requires forall d :: d >= 0.0 ==> 0.0 <= kernel(d) <= 1.0
    requires TopicValue(t, tokens[i]) >= 0.0
    ensures 0.0 <= KmerGain(coords, kernel, t, tokens, i) <= 16.0 * TopicValue(t, tokens[i])
  {
    var w := TopicValue(t, tokens[i]);
    WindowSumBounds(coords, kernel, w, i, KmerSpan);
    RepeatIsProduct(KmerSpan, w);
  }

  /** `x` added `n` times. */
  function Repeat(n: nat, x: real): real {
    if n == 0 then 0.0 else Repeat(n - 1, x) + x
  }

  lemma {:induction false} RepeatIsProduct(n: nat, x: real)
    ensures Repeat(n, x) == (n as real) * x
  {
    if n > 0 {
      RepeatIsProduct(n - 1, x);
      assert (n as real) * x == ((n - 1) as real) * x + x;
    }
  }

  lemma CountSnoc(s: seq<nat>, j: nat, k: nat)
    requires 0 < k <= |s|
    ensures multiset(s[..k])[j] == multiset(s[..k - 1])[j] + (if s[k - 1] == j then 1 else 0)
  {
    assert s[..k] == s[..k - 1] + [s[k - 1]];
  }

  lemma {:induction false} NeighbourGainRepeats(coords: seq<Coord>, kernel: real -> real, w: real, i: nat, s: seq<nat>, j: nat, k: nat)
    requires i < |coords| && j < |coords| && k <= |s|
    ensures NeighbourGain(coords, kernel, w, i, s, j, k) == Repeat(multiset(s[..k])[j], w * Similarity(coords, kernel, i, j))
  {
    if k > 0 {
      NeighbourGainRepeats(coords, kernel, w, i, s, j, k - 1);
      CountSnoc(s, j, k);
    }
  }

  /** A residue gains from a neighbourhood once per time it is listed in it. */
  lemma NeighbourGainCounts(coords: seq<Coord>, kernel: real -> real, w: real, i: nat, s: seq<nat>, j: nat, k: nat)
    requires i < |coords| && j < |coords| && k <= |s|
    ensures NeighbourGain(coords, kernel, w, i, s, j, k)
         == (multiset(s[..k])[j] as real) * (w * Similarity(coords, kernel, i, j))
  {
    NeighbourGainRepeats(coords, kernel, w, i, s, j, k);
    RepeatIsProduct(multiset(s[..k])[j], w * Similarity(coords, kernel, i, j));
  }

  /** A RADIUS anchor listed once in its own neighbourhood gives itself
      exactly its weight, when the kernel is 1 at distance 0. */
  lemma RadiusSelfTerm(coords: seq<Coord>, kernel: real -> real, t: Topics, tokens: seq<string>, splits: seq<seq<nat>>, i: nat)
    requires ValidTopics(t) && i < |tokens| && i < |splits| && i < |coords|
    requires kernel(0.0) == 1.0
    requires multiset(splits[i])[i] == 1
    ensures AnchorGain(coords, kernel, t, tokens, splits, i, i) == TopicValue(t, tokens[i])
  {
    NeighbourGainCounts(coords, kernel, TopicValue(t, tokens[i]), i, splits[i], i, |splits[i]|);
    assert splits[i][..|splits[i]|] == splits[i];
    assert SqDist(coords[i], coords[i]) == 0.0;
  }

  /** A RADIUS anchor whose shapemer the model does not know adds nothing to any residue. */
  lemma UnknownRadiusAddsNothing(coords: seq<Coord>, kernel: real -> real, t: Topics, tokens: seq<string>,
                                 splits: seq<seq<nat>>, i: nat, j: nat)
    requires ValidTopics(t) && i < |tokens| && i < |splits| && i < |coords| && j < |coords|
    requires tokens[i] !in t.column
    ensures AnchorGain(coords, kernel, t, tokens, splits, i, j) == 0.0
  {
    NeighbourGainCounts(coords, kernel, 0.0, i, splits[i], j, |splits[i]|);
  }

  /** A residue listed in no neighbourhood gains nothing in the RADIUS pass. */
  lemma {:induction false} OutsideNeighbourhoodsUnchanged(coords: seq<Coord>, kernel: real -> real, t: Topics,
                                                          tokens: seq<string>, splits: seq<seq<nat>>, j: nat, n: nat)
    requires ValidTopics(t) && n <= |tokens| && n <= |splits| && n <= |coords| && j < |coords|
    requires forall i :: 0 <= i < n ==> j !in splits[i]
    ensures RadiusGain(coords, kernel, t, tokens, splits, j, n) == 0.0
  {
    if n > 0 {
      OutsideNeighbourhoodsUnchanged(coords, kernel, t, tokens, splits, j, n - 1);
      var s := splits[n - 1];
      NeighbourGainCounts(coords, kernel, TopicValue(t, tokens[n - 1]), n - 1, s, j, |s|);
      assert s[..|s|] == s;
    }
  }
}
