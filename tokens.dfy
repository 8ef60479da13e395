/** Shapemer tokens: a family tag followed by four quantised moment integers
    separated by `i`, as built by the f-strings `f"k{x[0]}i{x[1]}i{x[2]}i{x[3]}"`
    (KMER_CUT moments) and `f"r{...}"` (RADIUS moments). */
module Tokens {
  import opened Wrappers
  import opened Text

  /** The two moment families and the tag that marks their tokens. */
  datatype Family = Kmer | Radius

  function Tag(f: Family): char {
    match f
    case Kmer => 'k'
    case Radius => 'r'
  }

  /** One row of `(np.log1p(moments) * resolution).astype(int)`: the four
      quantised moment invariants of one anchor residue. */
  datatype Quad = Quad(m0: int, m1: int, m2: int, m3: int)

  function Fields(q: Quad): seq<string> {
    [IntToDecimal(q.m0), IntToDecimal(q.m1), IntToDecimal(q.m2), IntToDecimal(q.m3)]
  }

  /** The token of one moment row. */
  function Token(f: Family, q: Quad): (t: string)
    ensures |t| >= 8 && t[0] == Tag(f)
  {
    [Tag(f)] + IntToDecimal(q.m0) + "i" + IntToDecimal(q.m1) + "i" + IntToDecimal(q.m2) + "i" + IntToDecimal(q.m3)
  }

  /** A token contains no whitespace. */
  lemma TokenNoSpace(f: Family, q: Quad)
    ensures NoSpace(Token(f, q))
  {
    var d0, d1, d2, d3 := IntToDecimal(q.m0), IntToDecimal(q.m1), IntToDecimal(q.m2), IntToDecimal(q.m3);
    DecimalNoSpace(q.m0);
    DecimalNoSpace(q.m1);
    DecimalNoSpace(q.m2);
    DecimalNoSpace(q.m3);
    NoSpaceAppend([Tag(f)], d0);
    NoSpaceAppend([Tag(f)] + d0, "i");
    NoSpaceAppend([Tag(f)] + d0 + "i", d1);
    NoSpaceAppend([Tag(f)] + d0 + "i" + d1, "i");
    NoSpaceAppend([Tag(f)] + d0 + "i" + d1 + "i", d2);
    NoSpaceAppend([Tag(f)] + d0 + "i" + d1 + "i" + d2, "i");
    NoSpaceAppend([Tag(f)] + d0 + "i" + d1 + "i" + d2 + "i", d3);
  }

  lemma DecimalNoSpace(x: int)
    ensures NoSpace(IntToDecimal(x))
  {
  }

  /** Reads a token back into its family and moment row; None for any string
      that is not a token. */
  function ParseToken(t: string): Option<(Family, Quad)>
  {
    if |t| == 0 || (t[0] != 'k' && t[0] != 'r') then None
    else
      var parts := SplitOn(t[1..], 'i');
      if |parts| != 4 then None
      else
        match (ParseInt(parts[0]), ParseInt(parts[1]), ParseInt(parts[2]), ParseInt(parts[3]))
        case (Some(a), Some(b), Some(c), Some(d)) =>
          Some((if t[0] == 'k' then Kmer else Radius, Quad(a, b, c, d)))
        case _ => None
  }

  lemma DecimalHasNoI(x: int)
    ensures 'i' !in IntToDecimal(x)
  {
  }

  lemma JoinFour(a: string, b: string, c: string, d: string, sep: char)
    ensures Join([a, b, c, d], sep) == a + [sep] + b + [sep] + c + [sep] + d
  {
    assert [a, b, c, d][1..] == [b, c, d] && [b, c, d][1..] == [c, d] && [c, d][1..] == [d];
    assert Join([c, d], sep) == c + [sep] + d;
    assert Join([b, c, d], sep) == b + [sep] + (c + [sep] + d);
    assert Join([a, b, c, d], sep) == a + [sep] + (b + [sep] + (c + [sep] + d));
  }

  /** A token is its tag followed by its four fields joined by `i`. */
  lemma TokenAsJoin(f: Family, q: Quad)
    ensures Token(f, q) == [Tag(f)] + Join(Fields(q), 'i')
  {
    var fs := Fields(q);
    JoinFour(fs[0], fs[1], fs[2], fs[3], 'i');
  }

  /** Parsing a token gives back the family and the moment row it was built from. */
  lemma TokenRoundTrip(f: Family, q: Quad)
    ensures ParseToken(Token(f, q)) == Some((f, q))
  {
    var t := Token(f, q);
    var fs := Fields(q);
    TokenAsJoin(f, q);
    assert t[1..] == Join(fs, 'i');
    DecimalHasNoI(q.m0);
    DecimalHasNoI(q.m1);
    DecimalHasNoI(q.m2);
    DecimalHasNoI(q.m3);
    SplitJoin(fs, 'i');
    assert SplitOn(t[1..], 'i') == fs;
    IntDecimalRoundTrip(q.m0);
    IntDecimalRoundTrip(q.m1);
    IntDecimalRoundTrip(q.m2);
    IntDecimalRoundTrip(q.m3);
  }

  /** Distinct tags or distinct moment rows give distinct tokens. */
  lemma TokenInjective(f1: Family, q1: Quad, f2: Family, q2: Quad)
    ensures Token(f1, q1) == Token(f2, q2) ==> f1 == f2 && q1 == q2
  {
    TokenRoundTrip(f1, q1);
    TokenRoundTrip(f2, q2);
  }

  /** The KMER token of the quantised row (0, 2, 7, 11). */
  lemma TokenExample()
    ensures Token(Kmer, Quad(0, 2, 7, 11)) == "k0i2i7i11"
  {
    assert NatToDecimal(11) == "11";
  }

  /** The list comprehension over the moment rows: one token per row, in row order. */
  function TokensOf(f: Family, rows: seq<Quad>): (ts: seq<string>)
    ensures |ts| == |rows|
  {
    seq(|rows|, k requires 0 <= k < |rows| => Token(f, rows[k]))
  }

  /** Every token of a list of moment rows is non-empty and has no whitespace. */
  lemma TokensOfWellFormed(f: Family, rows: seq<Quad>)
    ensures forall t :: t in TokensOf(f, rows) ==> t != [] && NoSpace(t)
  {
    var ts := TokensOf(f, rows);
    forall t | t in ts ensures t != [] && NoSpace(t) {
      var k :| 0 <= k < |ts| && ts[k] == t;
      TokenNoSpace(f, rows[k]);
    }
  }
}
