/** The ProteinNet text-record reader of `proteinnet_parser.py`: the letter
    code tables, `letter_to_num`, the split of a file into records at `[ID]`
    lines, the section reader `get_record`, and `clean_entry`, which keeps the
    residues the mask marks valid and one atom per residue. */
module ProteinNet {
  import opened Wrappers
  import opened Text
  import opened Geometry
  import Components

  const NumDimensions: nat := 3

  /** `_aa_dict`: the twenty amino-acid letters and their codes. */
  const AaDict: map<char, string> := map[
    'A' := "0", 'C' := "1", 'D' := "2", 'E' := "3", 'F' := "4", 'G' := "5", 'H' := "6",
    'I' := "7", 'K' := "8", 'L' := "9", 'M' := "10", 'N' := "11", 'P' := "12", 'Q' := "13",
    'R' := "14", 'S' := "15", 'T' := "16", 'V' := "17", 'W' := "18", 'Y' := "19"]

  /** `_dssp_dict`: the secondary-structure letters and their codes. */
  const DsspDict: map<char, string> := map[
    'L' := "0", 'H' := "1", 'B' := "2", 'E' := "3", 'G' := "4", 'I' := "5", 'T' := "6", 'S' := "7"]

  /** `_mask_dict`: `-` marks a missing residue, `+` a present one. */
  const MaskDict: map<char, string> := map['-' := "0", '+' := "1"]

  // ---------------------------------------------------------------- letter_to_num

  /** The regular-expression substitution: every character that is a key of
      the table becomes its code followed by a blank; other characters stay. */
  function Substitute(s: string, dict: map<char, string>): string
    decreases |s|
  {
    if s == [] then []
    else (if s[0] in dict then dict[s[0]] + " " else [s[0]]) + Substitute(s[1..], dict)
  }

  /** `[int(i) for i in words]`; None stands for the ValueError of `int`. */
  function ParseInts(ws: seq<string>): (r: Option<seq<int>>)
    ensures r.Some? ==> |r.value| == |ws|
  {
    if ws == [] then Some([])
    else
      match (ParseInt(ws[0]), ParseInts(ws[1..]))
      case (Some(x), Some(xs)) => Some([x] + xs)
      case _ => None
  }

  /** `[int(i) for i in words]` succeeds exactly when every word is an
      integer, and then element `k` is the integer word `k` denotes. */
  lemma {:induction false} ParseIntsSpec(ws: seq<string>)
    ensures ParseInts(ws).Some? <==> forall k :: 0 <= k < |ws| ==> ParseInt(ws[k]).Some?
    ensures ParseInts(ws).Some? ==> forall k :: 0 <= k < |ws| ==> ParseInts(ws).value[k] == ParseInt(ws[k]).value
  {
    if ws != [] {
      ParseIntsSpec(ws[1..]);
      assert forall k :: 1 <= k < |ws| ==> ws[1..][k - 1] == ws[k];
    }
  }

  /** `letter_to_num(string, dict_)`. For a string made only of table
      letters whose codes are digit strings it succeeds and gives one number
      per letter: the numeric value of that letter's code. */
  function LetterToNum(s: string, dict: map<char, string>): (r: Option<seq<int>>)
    ensures DigitCodes(dict) && (forall k :: 0 <= k < |s| ==> s[k] in dict) ==>
              && r.Some? && |r.value| == |s|
              && forall k :: 0 <= k < |s| ==> r.value[k] == DigitsValue(dict[s[k]])
  {
    SubstituteKeys(s, dict);
    ParseInts(Words(Substitute(s, dict)))
  }

  /** Every code of the table is a string of decimal digits. */
  ghost predicate DigitCodes(dict: map<char, string>) {
    forall c :: c in dict ==> IsDigits(dict[c])
  }

  lemma AaCodesAreDigits()
    ensures DigitCodes(AaDict)
  {
  }

  lemma DsspCodesAreDigits()
    ensures DigitCodes(DsspDict)
  {
  }

  lemma MaskCodesAreDigits()
    ensures DigitCodes(MaskDict)
  {
  }

  /** Substituting and parsing a string of table letters with digit codes. */
  lemma SubstituteKeys(s: string, dict: map<char, string>)
    ensures DigitCodes(dict) && (forall k :: 0 <= k < |s| ==> s[k] in dict) ==>
              && ParseInts(Words(Substitute(s, dict))).Some?
              && |ParseInts(Words(Substitute(s, dict))).value| == |s|
              && forall k :: 0 <= k < |s| ==> ParseInts(Words(Substitute(s, dict))).value[k] == DigitsValue(dict[s[k]])
  {
    if DigitCodes(dict) && (forall k :: 0 <= k < |s| ==> s[k] in dict) {
      SubstitutedKeys(s, dict);
    }
  }

  lemma {:induction false} SubstitutedKeys(s: string, dict: map<char, string>)
    requires DigitCodes(dict)
    requires forall k :: 0 <= k < |s| ==> s[k] in dict
    ensures ParseInts(Words(Substitute(s, dict))).Some?
    ensures |ParseInts(Words(Substitute(s, dict))).value| == |s|
    ensures forall k :: 0 <= k < |s| ==> ParseInts(Words(Substitute(s, dict))).value[k] == DigitsValue(dict[s[k]])
  {
    if s != [] {
      SubstitutedKeys(s[1..], dict);
      var v := dict[s[0]];
      var rest := Substitute(s[1..], dict);
      assert Substitute(s, dict) == v + " " + rest;
      WordsCons(v, rest);
      assert ParseInt(v) == Some(DigitsValue(v) as int);
      var tail := ParseInts(Words(rest)).value;
      var all := ParseInts(Words(Substitute(s, dict)));
      assert all == Some([DigitsValue(v) as int] + tail);
      forall k | 0 <= k < |s| ensures all.value[k] == DigitsValue(dict[s[k]]) {
        if k > 0 {
          assert s[1..][k - 1] == s[k];
        }
      }
    }
  }

  /** The mask line `+-+` reads as `[1, 0, 1]`. */
  lemma MaskExample()
    ensures LetterToNum("+-+", MaskDict) == Some([1, 0, 1])
  {
    MaskCodesAreDigits();
    var v := LetterToNum("+-+", MaskDict).value;
    assert DigitsValue("1") == 1 && DigitsValue("0") == 0;
    assert v[0] == 1 && v[1] == 0 && v[2] == 1;
    assert v == [1, 0, 1];
  }

  // ---------------------------------------------------------------- records

  predicate IsIdLine(line: string) {
    |line| >= 4 && line[..4] == "[ID]"
  }

  /** The `groupby` key of every line, negated: true for lines outside `[ID]`. */
  function NotIdLines(lines: seq<string>): (m: seq<bool>)
    ensures |m| == |lines|
  {
    seq(|lines|, i requires 0 <= i < |lines| => !IsIdLine(lines[i]))
  }

  function RecordSlices(lines: seq<string>): seq<Components.Slice> {
    Components.Runs(NotIdLines(lines))
  }

  /** The groups `yield_records_from_file` hands to `get_record`: the line
      groups whose key is false, in file order. */
  function RecordGroups(lines: seq<string>): (groups: seq<seq<string>>)
    ensures |groups| == |RecordSlices(lines)|
    ensures forall k :: 0 <= k < |groups| ==> groups[k] != []
  {
    Components.Pieces(lines, RecordSlices(lines))
  }

  /** The records are exactly the maximal runs of consecutive lines that do
      not start with `[ID]`, in order; an `[ID]` line is in no record. */
  lemma RecordGroupsAreMaximalRuns(lines: seq<string>)
    ensures Components.MaximalRuns(NotIdLines(lines), RecordSlices(lines))
    ensures forall k :: 0 <= k < |RecordGroups(lines)| ==>
              RecordGroups(lines)[k] == lines[RecordSlices(lines)[k].start..RecordSlices(lines)[k].stop]
    ensures forall k, j :: 0 <= k < |RecordGroups(lines)| && 0 <= j < |RecordGroups(lines)[k]| ==>
              !IsIdLine(RecordGroups(lines)[k][j])
  {
    Components.RunsAreMaximal(NotIdLines(lines));
    var groups := RecordGroups(lines);
    forall k, j | 0 <= k < |groups| && 0 <= j < |groups[k]| ensures !IsIdLine(groups[k][j]) {
      RecordLineNotId(lines, k, j);
    }
  }

  lemma RecordLineNotId(lines: seq<string>, k: nat, j: nat)
    requires k < |RecordGroups(lines)| && j < |RecordGroups(lines)[k]|
    ensures !IsIdLine(RecordGroups(lines)[k][j])
  {
    var m, rs := NotIdLines(lines), RecordSlices(lines);
    Components.RunsAreMaximal(m);
    var p := rs[k].start + j;
    assert RecordGroups(lines)[k][j] == lines[p];
    assert Components.AllTrue(m, rs);
    assert m[p];
  }

  /** Concatenating the records gives back every non-`[ID]` line, in order. */
  lemma RecordGroupsCoverLines(lines: seq<string>)
    ensures Components.Flatten(RecordGroups(lines)) == Components.SelectFrom(lines, NotIdLines(lines), 0)
  {
    Components.FlattenRuns(lines, NotIdLines(lines));
  }

  // ---------------------------------------------------------------- get_record

  datatype Section = Primary | Evolutionary | Secondary | Tertiary | Mask

  function Header(sec: Section): string {
    match sec
    case Primary => "[PRIMARY]\n"
    case Evolutionary => "[EVOLUTIONARY]\n"
    case Secondary => "[SECONDARY]\n"
    case Tertiary => "[TERTIARY]\n"
    case Mask => "[MASK]\n"
  }

  /** The `if`/`elif` chain of `get_record`: a header matches only the whole
      line, newline included. */
  function SectionOf(line: string): (sec: Option<Section>)
    ensures sec.Some? ==> line == Header(sec.value)
    ensures sec.None? ==> forall s :: line != Header(s)
  {
    if line == Header(Primary) then Some(Primary)
    else if line == Header(Evolutionary) then Some(Evolutionary)
    else if line == Header(Secondary) then Some(Secondary)
    else if line == Header(Tertiary) then Some(Tertiary)
    else if line == Header(Mask) then Some(Mask)
    else None
  }

  /** The `entry` dictionary: its ID and the sections read so far. */
  datatype Record = Record(
    id: string,
    primary: Option<string>,
    evolutionary: Option<seq<seq<real>>>,
    secondary: Option<seq<int>>,
    tertiary: Option<seq<Coord>>,
    mask: Option<seq<int>>)

  /** The value one section reads. */
  datatype Value =
    | Sequence(letters: string)
    | Profile(rows: seq<seq<real>>)
    | Codes(codes: seq<int>)
    | Points(coords: seq<Coord>)

  /** The exception a record raises, with the index of the header line whose
      section failed: IndexError for a missing line, ValueError for a number
      that does not parse, and the ValueError numpy raises for tertiary rows of
      different lengths. */
  datatype ParseError = MissingLine(at: nat) | BadNumber(at: nat) | RaggedTertiary(at: nat)

  /** `[float(step) for step in words]`, with `float` given as `parseFloat`. */
  function ParseFloats(ws: seq<string>, parseFloat: string -> Option<real>): (r: Option<seq<real>>)
    ensures r.Some? ==> |r.value| == |ws|
  {
    if ws == [] then Some([])
    else
      match (parseFloat(ws[0]), ParseFloats(ws[1..], parseFloat))
      case (Some(x), Some(xs)) => Some([x] + xs)
      case _ => None
  }

  /** A line of numbers: `[float(x) for x in line.strip().split()]`. */
  function FloatRow(line: string, parseFloat: string -> Option<real>): Option<seq<real>> {
    ParseFloats(Words(Strip(line)), parseFloat)
  }

  /** `np.array([xs, ys, zs]).T`: one coordinate per column. */
  function Transpose(xs: seq<real>, ys: seq<real>, zs: seq<real>): seq<Coord>
    requires |xs| == |ys| == |zs|
  {
    seq(|xs|, r requires 0 <= r < |xs| => Coord(xs[r], ys[r], zs[r]))
  }

  /** The evolutionary section: `numEvo` copies of the line after the header;
      with no entries nothing is read. */
  function ReadProfile(lines: seq<string>, i: nat, numEvo: nat, parseFloat: string -> Option<real>): Result<Value, ParseError>
    requires i < |lines|
  {
    if numEvo == 0 then Ok(Profile([]))
    else if i + 1 >= |lines| then Err(MissingLine(i))
    else if FloatRow(lines[i + 1], parseFloat).None? then Err(BadNumber(i))
    else
      var row := FloatRow(lines[i + 1], parseFloat).value;
      Ok(Profile(seq(numEvo, _ => row)))
  }

  /** A section of letters coded by `dict` on the line after the header. */
  function ReadCodes(lines: seq<string>, i: nat, dict: map<char, string>): Result<Value, ParseError>
    requires i < |lines|
  {
    if i + 1 >= |lines| then Err(MissingLine(i))
    else if LetterToNum(Strip(lines[i + 1]), dict).None? then Err(BadNumber(i))
    else Ok(Codes(LetterToNum(Strip(lines[i + 1]), dict).value))
  }

  /** The tertiary section: the three lines after the header, in order. */
  function ReadTertiary(lines: seq<string>, i: nat, parseFloat: string -> Option<real>): Result<Value, ParseError>
    requires i < |lines|
  {
    if i + 1 >= |lines| then Err(MissingLine(i))
    else if FloatRow(lines[i + 1], parseFloat).None? then Err(BadNumber(i))
    else if i + 2 >= |lines| then Err(MissingLine(i))
    else if FloatRow(lines[i + 2], parseFloat).None? then Err(BadNumber(i))
    else if i + 3 >= |lines| then Err(MissingLine(i))
    else if FloatRow(lines[i + 3], parseFloat).None? then Err(BadNumber(i))
    else
      var xs := FloatRow(lines[i + 1], parseFloat).value;
      var ys := FloatRow(lines[i + 2], parseFloat).value;
      var zs := FloatRow(lines[i + 3], parseFloat).value;
      if |xs| == |ys| == |zs| then Ok(Points(Transpose(xs, ys, zs))) else Err(RaggedTertiary(i))
  }

  /** What the section whose header is line `i` reads. */
  function ReadSection(sec: Section, lines: seq<string>, i: nat, numEvo: nat, parseFloat: string -> Option<real>)
    : (v: Result<Value, ParseError>)
    requires i < |lines|
    ensures v.Ok? ==> Fits(sec, v.value)
  {
    match sec
    case Primary => if i + 1 < |lines| then Ok(Sequence(Strip(lines[i + 1]))) else Err(MissingLine(i))
    case Evolutionary => ReadProfile(lines, i, numEvo, parseFloat)
    case Secondary => ReadCodes(lines, i, DsspDict)
    case Tertiary => ReadTertiary(lines, i, parseFloat)
    case Mask => ReadCodes(lines, i, MaskDict)
  }

  predicate Fits(sec: Section, v: Value) {
    match sec
    case Primary => v.Sequence?
    case Evolutionary => v.Profile?
    case Secondary => v.Codes?
    case Tertiary => v.Points?
    case Mask => v.Codes?
  }

  /** `entry.update({...})` for one section. */
  function Store(e: Record, sec: Section, v: Value): Record
    requires Fits(sec, v)
  {
    match sec
    case Primary => e.(primary := Some(v.letters))
    case Evolutionary => e.(evolutionary := Some(v.rows))
    case Secondary => e.(secondary := Some(v.codes))
    case Tertiary => e.(tertiary := Some(v.coords))
    case Mask => e.(mask := Some(v.codes))
  }

  /** The value a record holds for a section, if it holds one. */
  function Stored(e: Record, sec: Section): Option<Value> {
    match sec
    case Primary => if e.primary.Some? then Some(Sequence(e.primary.value)) else None
    case Evolutionary => if e.evolutionary.Some? then Some(Profile(e.evolutionary.value)) else None
    case Secondary => if e.secondary.Some? then Some(Codes(e.secondary.value)) else None
    case Tertiary => if e.tertiary.Some? then Some(Points(e.tertiary.value)) else None
    case Mask => if e.mask.Some? then Some(Codes(e.mask.value)) else None
  }

  /** What one line does in the loop of `get_record`: nothing, or its
      header's section read (a value, or the exception raised reading it). */
  datatype LineRead = Plain | Heading(sec: Section, read: Result<Value, ParseError>)

  predicate WellRead(l: LineRead) {
    l.Heading? && l.read.Ok? ==> Fits(l.sec, l.read.value)
  }

  /** The `if`/`elif` chain of `get_record` on line `i`. */
  function LineAt(lines: seq<string>, i: nat, numEvo: nat, parseFloat: string -> Option<real>): (l: LineRead)
    requires i < |lines|
    ensures WellRead(l)
    ensures l.Heading? <==> SectionOf(lines[i]).Some?
    ensures l.Heading? ==> l.sec == SectionOf(lines[i]).value && l.read == ReadSection(l.sec, lines, i, numEvo, parseFloat)
  {
    match SectionOf(lines[i])
    case None => Plain
    case Some(sec) => Heading(sec, ReadSection(sec, lines, i, numEvo, parseFloat))
  }

  /** What every line of a record does. */
  function LineReads(lines: seq<string>, numEvo: nat, parseFloat: string -> Option<real>): (ls: seq<LineRead>)
    ensures |ls| == |lines|
  {
    seq(|lines|, i requires 0 <= i < |lines| => LineAt(lines, i, numEvo, parseFloat))
  }

  ghost predicate AllWellRead(ls: seq<LineRead>) {
    forall i :: 0 <= i < |ls| ==> WellRead(ls[i])
  }

  lemma LineReadsAt(lines: seq<string>, i: nat, numEvo: nat, parseFloat: string -> Option<real>)
    requires i < |lines|
    ensures LineReads(lines, numEvo, parseFloat)[i] == LineAt(lines, i, numEvo, parseFloat)
  {
  }

  lemma LineReadsWell(lines: seq<string>, numEvo: nat, parseFloat: string -> Option<real>)
    ensures AllWellRead(LineReads(lines, numEvo, parseFloat))
  {
    var ls := LineReads(lines, numEvo, parseFloat);
    forall i | 0 <= i < |ls| ensures WellRead(ls[i]) {
      LineReadsAt(lines, i, numEvo, parseFloat);
    }
  }

  /** One iteration of the loop: a header stores its section, a read that
      raises ends the record. */
  function Apply(e: Record, l: LineRead): Result<Record, ParseError>
    requires WellRead(l)
  {
    if l.Plain? then Ok(e)
    else if l.read.Err? then Err(l.read.error)
    else Ok(Store(e, l.sec, l.read.value))
  }

  /** The entry after the loop has done the first `n` lines' work, starting
      from `e`; the first exception ends the loop. */
  function Fold(e: Record, ls: seq<LineRead>, n: nat): Result<Record, ParseError>
    requires n <= |ls| && AllWellRead(ls)
  {
    if n == 0 then Ok(e)
    else match Fold(e, ls, n - 1)
    case Err(x) => Err(x)
    case Ok(e') => Apply(e', ls[n - 1])
  }

  function Initial(lines: seq<string>): Record
    requires |lines| > 0
  {
    Record(Strip(lines[0]), None, None, None, None, None)
  }

  /** The entry after the loop of `get_record` has looked at the first `n` lines. */
  function RecordPrefix(lines: seq<string>, n: nat, numEvo: nat, parseFloat: string -> Option<real>)
    : Result<Record, ParseError>
    requires 0 < |lines| && n <= |lines|
  {
    LineReadsWell(lines, numEvo, parseFloat);
    Fold(Initial(lines), LineReads(lines, numEvo, parseFloat), n)
  }

  /** `get_record(lines)`: it returns exactly when every header's section
      reads, and the record it returns is named by its first line, stripped. */
  function ReadRecord(lines: seq<string>, numEvo: nat, parseFloat: string -> Option<real>): (r: Result<Record, ParseError>)
    requires |lines| > 0
    ensures r.Ok? <==> forall j :: 0 <= j < |lines| && SectionOf(lines[j]).Some? ==>
                          ReadSection(SectionOf(lines[j]).value, lines, j, numEvo, parseFloat).Ok?
    ensures r.Ok? ==> r.value.id == Strip(lines[0])
  {
    ParseSucceedsIff(lines, |lines|, numEvo, parseFloat);
    var r := RecordPrefix(lines, |lines|, numEvo, parseFloat);
    if r.Ok? then
      RecordId(lines, |lines|, numEvo, parseFloat);
      r
    else
      r
  }

  // Properties of the loop, for any line reads.

  /** Once a line raises, the loop result stays that error. */
  lemma {:induction false} FoldErrorPersists(e: Record, ls: seq<LineRead>, n: nat, m: nat)
    requires n <= m <= |ls| && AllWellRead(ls)
    requires Fold(e, ls, n).Err?
    ensures Fold(e, ls, m) == Fold(e, ls, n)
    decreases m - n
  {
    if n < m {
      FoldErrorPersists(e, ls, n, m - 1);
    }
  }

  /** A line whose read raises, reached normally, is the error of the whole loop. */
  lemma FoldFailsAt(e0: Record, ls: seq<LineRead>, i: nat, e: Record, x: ParseError)
    requires i < |ls| && AllWellRead(ls)
    requires Fold(e0, ls, i) == Ok(e)
    requires ls[i].Heading? && ls[i].read == Err(x)
    ensures Fold(e0, ls, |ls|) == Err(x)
  {
    assert Fold(e0, ls, i + 1) == Err(x);
    FoldErrorPersists(e0, ls, i + 1, |ls|);
  }

  /** No line changes the ID. */
  lemma {:induction false} FoldKeepsId(e: Record, ls: seq<LineRead>, n: nat)
    requires n <= |ls| && AllWellRead(ls)
    requires Fold(e, ls, n).Ok?
    ensures Fold(e, ls, n).value.id == e.id
  {
    if n > 0 {
      FoldKeepsId(e, ls, n - 1);
    }
  }

  /** Line read `l` is a header of `sec`. */
  predicate Reads(l: LineRead, sec: Section) {
    l.Heading? && l.sec == sec
  }

  /** How one line changes what the entry holds for `sec`: its header
      replaces the value, any other line leaves it alone. */
  lemma ApplyStored(e: Record, l: LineRead, sec: Section)
    requires WellRead(l) && Apply(e, l).Ok?
    ensures Reads(l, sec) ==> l.read.Ok? && Stored(Apply(e, l).value, sec) == Some(l.read.value)
    ensures !Reads(l, sec) ==> Stored(Apply(e, l).value, sec) == Stored(e, sec)
  {
  }

  /** Starting without a field, the loop ends with it exactly when some line read it. */
  lemma {:induction false} FoldPresence(e: Record, ls: seq<LineRead>, n: nat, sec: Section)
    requires n <= |ls| && AllWellRead(ls)
    requires Fold(e, ls, n).Ok? && Stored(e, sec).None?
    ensures Stored(Fold(e, ls, n).value, sec).Some? <==> exists j :: 0 <= j < n && Reads(ls[j], sec)
  {
    if n > 0 {
      var prev := Fold(e, ls, n - 1);
      assert prev.Ok?;
      FoldPresence(e, ls, n - 1, sec);
      ApplyStored(prev.value, ls[n - 1], sec);
      if Reads(ls[n - 1], sec) {
        assert Reads(ls[n - 1], sec);
      } else {
        assert (exists j :: 0 <= j < n && Reads(ls[j], sec)) <==> (exists j :: 0 <= j < n - 1 && Reads(ls[j], sec));
      }
    }
  }

  /** A field holds what its last header read. */
  lemma {:induction false} FoldLastWins(e: Record, ls: seq<LineRead>, n: nat, j: nat, sec: Section)
    requires j < n <= |ls| && AllWellRead(ls)
    requires Fold(e, ls, n).Ok? && Reads(ls[j], sec)
    requires forall q :: j < q < n ==> !Reads(ls[q], sec)
    ensures ls[j].read.Ok? && Stored(Fold(e, ls, n).value, sec) == Some(ls[j].read.value)
  {
    var prev := Fold(e, ls, n - 1);
    assert prev.Ok?;
    ApplyStored(prev.value, ls[n - 1], sec);
    if j < n - 1 {
      FoldLastWins(e, ls, n - 1, j, sec);
    }
  }

  /** The loop ends normally exactly when no header's read raises. */
  lemma {:induction false} FoldSucceedsIff(e: Record, ls: seq<LineRead>, n: nat)
    requires n <= |ls| && AllWellRead(ls)
    ensures Fold(e, ls, n).Ok? <==> forall j :: 0 <= j < n && ls[j].Heading? ==> ls[j].read.Ok?
  {
    if n > 0 {
      FoldSucceedsIff(e, ls, n - 1);
      if Fold(e, ls, n - 1).Err? {
        FoldErrorPersists(e, ls, n - 1, n);
      }
    }
  }

  // The same properties, for the lines of a record.

  /** Once a line raises, the record fails with that error whatever follows. */
  lemma ErrorPersists(lines: seq<string>, n: nat, m: nat, numEvo: nat, parseFloat: string -> Option<real>)
    requires 0 < |lines| && n <= m <= |lines|
    requires RecordPrefix(lines, n, numEvo, parseFloat).Err?
    ensures RecordPrefix(lines, m, numEvo, parseFloat) == RecordPrefix(lines, n, numEvo, parseFloat)
  {
    LineReadsWell(lines, numEvo, parseFloat);
    FoldErrorPersists(Initial(lines), LineReads(lines, numEvo, parseFloat), n, m);
  }

  /** A record's ID is its first line, stripped. */
  lemma RecordId(lines: seq<string>, n: nat, numEvo: nat, parseFloat: string -> Option<real>)
    requires 0 < |lines| && n <= |lines|
    requires RecordPrefix(lines, n, numEvo, parseFloat).Ok?
    ensures RecordPrefix(lines, n, numEvo, parseFloat).value.id == Strip(lines[0])
  {
    LineReadsWell(lines, numEvo, parseFloat);
    FoldKeepsId(Initial(lines), LineReads(lines, numEvo, parseFloat), n);
  }

  /** Line `j` reads section `sec` exactly when it is that section's header. */
  lemma ReadsAt(lines: seq<string>, j: nat, sec: Section, numEvo: nat, parseFloat: string -> Option<real>)
    requires j < |lines|
    ensures Reads(LineReads(lines, numEvo, parseFloat)[j], sec) <==> SectionOf(lines[j]) == Some(sec)
    ensures Reads(LineReads(lines, numEvo, parseFloat)[j], sec) ==>
              LineReads(lines, numEvo, parseFloat)[j].read == ReadSection(sec, lines, j, numEvo, parseFloat)
  {
    LineReadsAt(lines, j, numEvo, parseFloat);
  }

  /** The record holds a section exactly when its header occurs in it. */
  lemma HeaderPresence(lines: seq<string>, n: nat, sec: Section, numEvo: nat, parseFloat: string -> Option<real>)
    requires 0 < |lines| && n <= |lines|
    requires RecordPrefix(lines, n, numEvo, parseFloat).Ok?
    ensures Stored(RecordPrefix(lines, n, numEvo, parseFloat).value, sec).Some?
        <==> exists j :: 0 <= j < n && SectionOf(lines[j]) == Some(sec)
  {
    var ls := LineReads(lines, numEvo, parseFloat);
    LineReadsWell(lines, numEvo, parseFloat);
    FoldPresence(Initial(lines), ls, n, sec);
    forall j | 0 <= j < n ensures Reads(ls[j], sec) <==> SectionOf(lines[j]) == Some(sec) {
      ReadsAt(lines, j, sec, numEvo, parseFloat);
    }
  }

  /** When a header occurs several times, the record holds what its last
      occurrence reads. */
  lemma LastHeaderWins(lines: seq<string>, n: nat, j: nat, sec: Section, numEvo: nat,
                       parseFloat: string -> Option<real>)
    requires 0 < |lines| && j < n <= |lines|
    requires RecordPrefix(lines, n, numEvo, parseFloat).Ok?
    requires SectionOf(lines[j]) == Some(sec)
    requires forall q :: j < q < n ==> SectionOf(lines[q]) != Some(sec)
    ensures ReadSection(sec, lines, j, numEvo, parseFloat).Ok?
    ensures Stored(RecordPrefix(lines, n, numEvo, parseFloat).value, sec) == Some(ReadSection(sec, lines, j, numEvo, parseFloat).value)
  {
    var ls := LineReads(lines, numEvo, parseFloat);
    LineReadsWell(lines, numEvo, parseFloat);
    ReadsAt(lines, j, sec, numEvo, parseFloat);
    forall q | j < q < n ensures !Reads(ls[q], sec) {
      ReadsAt(lines, q, sec, numEvo, parseFloat);
    }
    FoldLastWins(Initial(lines), ls, n, j, sec);
  }

  /** A record parses exactly when every section header in it reads its
      section without an exception. */
  lemma ParseSucceedsIff(lines: seq<string>, n: nat, numEvo: nat, parseFloat: string -> Option<real>)
    requires 0 < |lines| && n <= |lines|
    ensures RecordPrefix(lines, n, numEvo, parseFloat).Ok?
        <==> forall j :: 0 <= j < n && SectionOf(lines[j]).Some? ==>
               ReadSection(SectionOf(lines[j]).value, lines, j, numEvo, parseFloat).Ok?
  {
    var ls := LineReads(lines, numEvo, parseFloat);
    LineReadsWell(lines, numEvo, parseFloat);
    FoldSucceedsIff(Initial(lines), ls, n);
    forall j | 0 <= j < n
      ensures (ls[j].Heading? ==> ls[j].read.Ok?)
          <==> (SectionOf(lines[j]).Some? ==> ReadSection(SectionOf(lines[j]).value, lines, j, numEvo, parseFloat).Ok?)
    {
      LineReadsAt(lines, j, numEvo, parseFloat);
    }
  }

  /** A header on the last line, whose section needs the next line, makes the
      whole record fail (IndexError). */
  lemma HeaderOnLastLineFails(lines: seq<string>, numEvo: nat, parseFloat: string -> Option<real>)
    requires |lines| > 0
    requires SectionOf(lines[|lines| - 1]).Some?
    requires SectionOf(lines[|lines| - 1]) != Some(Evolutionary) || numEvo > 0
    ensures ReadRecord(lines, numEvo, parseFloat).Err?
  {
    ParseSucceedsIff(lines, |lines|, numEvo, parseFloat);
    var j := |lines| - 1;
    assert ReadSection(SectionOf(lines[j]).value, lines, j, numEvo, parseFloat).Err?;
  }

  /** The tertiary section is the three lines after its header, transposed:
      coordinate r is (line1[r], line2[r], line3[r]); rows of different
      lengths are an error. */
  lemma TertiaryIsTransposed(lines: seq<string>, i: nat, numEvo: nat, parseFloat: string -> Option<real>)
    requires i < |lines|
    ensures ReadSection(Tertiary, lines, i, numEvo, parseFloat).Ok? <==>
              && i + 3 < |lines|
              && FloatRow(lines[i + 1], parseFloat).Some?
              && FloatRow(lines[i + 2], parseFloat).Some?
              && FloatRow(lines[i + 3], parseFloat).Some?
              && |FloatRow(lines[i + 1], parseFloat).value| == |FloatRow(lines[i + 2], parseFloat).value|
                   == |FloatRow(lines[i + 3], parseFloat).value|
    ensures ReadSection(Tertiary, lines, i, numEvo, parseFloat).Ok? ==>
              var cs := ReadSection(Tertiary, lines, i, numEvo, parseFloat).value.coords;
              var xs, ys, zs := FloatRow(lines[i + 1], parseFloat).value, FloatRow(lines[i + 2], parseFloat).value,
                                FloatRow(lines[i + 3], parseFloat).value;
              |cs| == |xs| && forall r :: 0 <= r < |cs| ==> cs[r] == Coord(xs[r], ys[r], zs[r])
  {
  }

  /** With a positive entry count, the evolutionary section has that many
      rows, each parsed from the same line after the header. */
  lemma EvolutionaryRepeatsOneLine(lines: seq<string>, i: nat, numEvo: nat, parseFloat: string -> Option<real>)
    requires i < |lines| && numEvo > 0
    requires ReadSection(Evolutionary, lines, i, numEvo, parseFloat).Ok?
    ensures i + 1 < |lines| && FloatRow(lines[i + 1], parseFloat).Some?
    ensures var rows := ReadSection(Evolutionary, lines, i, numEvo, parseFloat).value.rows;
            |rows| == numEvo && forall r :: 0 <= r < numEvo ==> rows[r] == FloatRow(lines[i + 1], parseFloat).value
  {
  }

  lemma FailAt(lines: seq<string>, i: nat, numEvo: nat, parseFloat: string -> Option<real>, e: Record, x: ParseError)
    requires i < |lines|
    requires RecordPrefix(lines, i, numEvo, parseFloat) == Ok(e)
    requires SectionOf(lines[i]).Some?
    requires ReadSection(SectionOf(lines[i]).value, lines, i, numEvo, parseFloat) == Err(x)
    ensures ReadRecord(lines, numEvo, parseFloat) == Err(x)
  {
    var ls := LineReads(lines, numEvo, parseFloat);
    LineReadsWell(lines, numEvo, parseFloat);
    LineReadsAt(lines, i, numEvo, parseFloat);
    FoldFailsAt(Initial(lines), ls, i, e, x);
  }

  /** The evolutionary loop of `get_record`: one row per entry, each parsed
      from the line after the header. */
  method ReadProfileAt(lines: seq<string>, i: nat, numEvo: nat, parseFloat: string -> Option<real>)
    returns (v: Result<Value, ParseError>)
    requires i < |lines|
    ensures v == ReadProfile(lines, i, numEvo, parseFloat)
  {
    var evolutionary: seq<seq<real>> := [];
    for residue := 0 to numEvo
      invariant |evolutionary| == residue
      invariant residue > 0 ==> i + 1 < |lines| && FloatRow(lines[i + 1], parseFloat).Some?
      invariant forall q :: 0 <= q < residue ==> evolutionary[q] == FloatRow(lines[i + 1], parseFloat).value
    {
      if i + 1 >= |lines| {
        return Err(MissingLine(i));
      }
      var row := FloatRow(lines[i + 1], parseFloat);
      if row.None? {
        return Err(BadNumber(i));
      }
      evolutionary := evolutionary + [row.value];
    }
    if numEvo > 0 {
      var row := FloatRow(lines[i + 1], parseFloat).value;
      assert evolutionary == seq(numEvo, _ => row);
    }
    v := Ok(Profile(evolutionary));
  }

  /** The tertiary loop of `get_record`: one row per dimension, then the
      transpose. */
  method ReadTertiaryAt(lines: seq<string>, i: nat, parseFloat: string -> Option<real>)
    returns (v: Result<Value, ParseError>)
    requires i < |lines|
    ensures v == ReadTertiary(lines, i, parseFloat)
  {
    var tertiary: seq<seq<real>> := [];
    for axis := 0 to NumDimensions
      invariant |tertiary| == axis
      invariant axis > 0 ==> i + 1 < |lines| && FloatRow(lines[i + 1], parseFloat) == Some(tertiary[0])
      invariant axis > 1 ==> i + 2 < |lines| && FloatRow(lines[i + 2], parseFloat) == Some(tertiary[1])
      invariant axis > 2 ==> i + 3 < |lines| && FloatRow(lines[i + 3], parseFloat) == Some(tertiary[2])
    {
      if i + 1 + axis >= |lines| {
        return Err(MissingLine(i));
      }
      var row := FloatRow(lines[i + 1 + axis], parseFloat);
      if row.None? {
        return Err(BadNumber(i));
      }
      tertiary := tertiary + [row.value];
    }
    if !(|tertiary[0]| == |tertiary[1]| == |tertiary[2]|) {
      return Err(RaggedTertiary(i));
    }
    v := Ok(Points(Transpose(tertiary[0], tertiary[1], tertiary[2])));
  }

  /** The branch of `get_record` for one header. */
  method ReadSectionAt(sec: Section, lines: seq<string>, i: nat, numEvo: nat, parseFloat: string -> Option<real>)
    returns (v: Result<Value, ParseError>)
    requires i < |lines|
    ensures v == ReadSection(sec, lines, i, numEvo, parseFloat)
  {
    match sec {
      case Primary =>
        if i + 1 >= |lines| {
          return Err(MissingLine(i));
        }
        v := Ok(Sequence(Strip(lines[i + 1])));
      case Evolutionary =>
        v := ReadProfileAt(lines, i, numEvo, parseFloat);
      case Tertiary =>
        v := ReadTertiaryAt(lines, i, parseFloat);
      case Secondary =>
        if i + 1 >= |lines| {
          return Err(MissingLine(i));
        }
        var codes := LetterToNum(Strip(lines[i + 1]), DsspDict);
        if codes.None? {
          return Err(BadNumber(i));
        }
        v := Ok(Codes(codes.value));
      case Mask =>
        if i + 1 >= |lines| {
          return Err(MissingLine(i));
        }
        var codes := LetterToNum(Strip(lines[i + 1]), MaskDict);
        if codes.None? {
          return Err(BadNumber(i));
        }
        v := Ok(Codes(codes.value));
    }
  }

  /** `get_record(lines)`: reads the ID and the labelled sections of one
      record; the first exception ends it. */
  method GetRecord(lines: seq<string>, numEvo: nat, parseFloat: string -> Option<real>)
    returns (r: Result<Record, ParseError>)
    requires |lines| > 0
    ensures r == ReadRecord(lines, numEvo, parseFloat)
  {
    var entry := Record(Strip(lines[0]), None, None, None, None, None);
    for i := 0 to |lines|
      invariant RecordPrefix(lines, i, numEvo, parseFloat) == Ok(entry)
    {
      var sec := SectionOf(lines[i]);
      if sec.Some? {
        var v := ReadSectionAt(sec.value, lines, i, numEvo, parseFloat);
        if v.Err? {
          FailAt(lines, i, numEvo, parseFloat, entry, v.error);
          return Err(v.error);
        }
        entry := Store(entry, sec.value, v.value);
      }
    }
    r := Ok(entry);
  }

  /** `yield_records_from_file`: the records read in file order, until the
      first record that raises; `failure` is that exception, if any. */
  method YieldRecords(lines: seq<string>, numEvo: nat, parseFloat: string -> Option<real>)
    returns (records: seq<Record>, failure: Option<ParseError>)
    ensures |records| <= |RecordGroups(lines)|
    ensures forall k :: 0 <= k < |records| ==> ReadRecord(RecordGroups(lines)[k], numEvo, parseFloat) == Ok(records[k])
    ensures failure.None? <==> |records| == |RecordGroups(lines)|
    ensures failure.Some? ==> ReadRecord(RecordGroups(lines)[|records|], numEvo, parseFloat) == Err(failure.value)
  {
    var groups := RecordGroups(lines);
    records := [];
    for k := 0 to |groups|
      invariant |records| == k
      invariant forall q :: 0 <= q < k ==> ReadRecord(groups[q], numEvo, parseFloat) == Ok(records[q])
    {
      var r := GetRecord(groups[k], numEvo, parseFloat);
      if r.Err? {
        return records, Some(r.error);
      }
      records := records + [r.value];
    }
    failure := None;
  }

  // ---------------------------------------------------------------- clean_entry

  /** The exception `clean_entry` raises: KeyError for a missing section,
      IndexError for a mask position beyond the data, ValueError for an
      unknown atom name. */
  datatype CleanError = MissingKey(key: string) | IndexOutOfRange | BadAtom

  /** `np.where(np.array(mask) == 1)[0]`: the positions holding 1, ascending. */
  function KeptPositions(mask: seq<int>): (pos: seq<nat>)
    ensures |pos| <= |mask|
  {
    if mask == [] then []
    else KeptPositions(mask[..|mask| - 1]) + (if mask[|mask| - 1] == 1 then [|mask| - 1] else [])
  }

  /** The kept positions are exactly the positions holding 1, each once, in
      ascending order. */
  lemma {:induction false} KeptPositionsSpec(mask: seq<int>)
    ensures forall j :: 0 <= j < |KeptPositions(mask)| ==>
              KeptPositions(mask)[j] < |mask| && mask[KeptPositions(mask)[j]] == 1
    ensures forall j, l :: 0 <= j < l < |KeptPositions(mask)| ==> KeptPositions(mask)[j] < KeptPositions(mask)[l]
    ensures forall p :: 0 <= p < |mask| && mask[p] == 1 ==> p in KeptPositions(mask)
  {
    if mask != [] {
      var init := mask[..|mask| - 1];
      KeptPositionsSpec(init);
      forall p | 0 <= p < |mask| && mask[p] == 1 ensures p in KeptPositions(mask) {
        if p < |mask| - 1 {
          assert init[p] == mask[p];
        }
      }
    }
  }

  /** Indexing with a list of positions; None is the IndexError for a
      position out of range. */
  function Gather<T>(s: seq<T>, idx: seq<nat>): (r: Option<seq<T>>)
    ensures r.Some? ==> |r.value| == |idx|
  {
    if forall j :: 0 <= j < |idx| ==> idx[j] < |s| then Some(seq(|idx|, j requires 0 <= j < |idx| => s[idx[j]]))
    else None
  }

  lemma GatherSpec<T>(s: seq<T>, idx: seq<nat>)
    ensures Gather(s, idx).Some? <==> forall j :: 0 <= j < |idx| ==> idx[j] < |s|
    ensures Gather(s, idx).Some? ==> forall j :: 0 <= j < |idx| ==> Gather(s, idx).value[j] == s[idx[j]]
  {
  }

  /** `mask_3d`: the three atom rows `3n, 3n+1, 3n+2` of every kept residue `n`. */
  function Expand3(pos: seq<nat>): (r: seq<nat>)
    ensures |r| == 3 * |pos|
  {
    if pos == [] then [] else [3 * pos[0], 3 * pos[0] + 1, 3 * pos[0] + 2] + Expand3(pos[1..])
  }

  lemma {:induction false} Expand3At(pos: seq<nat>, j: nat, a: nat)
    requires j < |pos| && a < 3
    ensures 3 * j + a < |Expand3(pos)| && Expand3(pos)[3 * j + a] == 3 * pos[j] + a
  {
    if j > 0 {
      Expand3At(pos[1..], j - 1, a);
      assert Expand3(pos)[3 * j + a] == Expand3(pos[1..])[3 * (j - 1) + a];
    }
  }

  lemma {:induction false} Expand3Spec(pos: seq<nat>)
    ensures forall j :: 0 <= j < |pos| ==>
              && Expand3(pos)[3 * j] == 3 * pos[j]
              && Expand3(pos)[3 * j + 1] == 3 * pos[j] + 1
              && Expand3(pos)[3 * j + 2] == 3 * pos[j] + 2
  {
    if pos != [] {
      Expand3Spec(pos[1..]);
      var r := Expand3(pos);
      var rest := Expand3(pos[1..]);
      forall j | 1 <= j < |pos|
        ensures r[3 * j] == 3 * pos[j] && r[3 * j + 1] == 3 * pos[j] + 1 && r[3 * j + 2] == 3 * pos[j] + 2
      {
        assert pos[1..][j - 1] == pos[j];
        assert 3 * j == 3 + 3 * (j - 1);
        assert r[3 * j] == rest[3 * (j - 1)];
        assert r[3 * j + 1] == rest[3 * (j - 1) + 1];
        assert r[3 * j + 2] == rest[3 * (j - 1) + 2];
      }
    }
  }

  /** `np.arange(start, stop, 3)`. */
  function Arange3(start: nat, stop: nat): seq<nat>
    decreases stop + 3 - start
  {
    if start >= stop then [] else [start] + Arange3(start + 3, stop)
  }

  lemma {:induction false} ArangeCount(start: nat, m: nat)
    ensures Arange3(start, start + 3 * m) == seq(m, j requires 0 <= j < m => start + 3 * j)
    decreases m
  {
    if m > 0 {
      ArangeCount(start + 3, m - 1);
      assert start + 3 * m == (start + 3) + 3 * (m - 1);
    }
  }

  /** The `np.arange(index, n + index, 3)` selection: one atom row of every residue. */
  function AtomRows(t: seq<Coord>, off: nat): (rows: seq<Coord>)
    requires |t| % 3 == 0 && off < 3
    ensures |rows| == |t| / 3
    ensures forall j :: 0 <= j < |rows| ==> rows[j] == t[3 * j + off]
  {
    ArangeCount(off, |t| / 3);
    assert |t| + off == off + 3 * (|t| / 3);
    Gather(t, Arange3(off, |t| + off)).value
  }

  /** `/ 100`, row by row. */
  function Scale(rows: seq<Coord>): (r: seq<Coord>)
    ensures |r| == |rows|
  {
    seq(|rows|, j requires 0 <= j < |rows| => Divide(rows[j], 100.0))
  }

  /** The row of each residue that an atom name selects. */
  function AtomOffset(atom: string): Option<nat> {
    if atom == "ca" then Some(1) else if atom == "n" then Some(0) else if atom == "cb" then Some(2) else None
  }

  /** `clean_entry(entry, atom)`: the entry afterwards, and whether it raised.
      The dictionary is updated in place, so a failure after the first
      overwrite leaves the overwritten sections behind. The letters are
      joined from a generator, so the sequence is looked up only once some
      position is kept: a mask that keeps nothing yields the empty sequence
      even when the record has none. A normal return leaves the identifier,
      the profile, the secondary structure and the mask as they were, and
      one coordinate per letter (the assertion that ends `clean_entry`). */
  function CleanEntry(r: Record, atom: string): (out: (Record, Result<(), CleanError>))
    ensures out.0.id == r.id && out.0.evolutionary == r.evolutionary
         && out.0.secondary == r.secondary && out.0.mask == r.mask
    ensures out.1.Ok? ==>
              out.0.primary.Some? && out.0.tertiary.Some? && |out.0.primary.value| == |out.0.tertiary.value|
  {
    if r.mask.None? then (r, Err(MissingKey("mask")))
    else
      var kept := KeptPositions(r.mask.value);
      if kept != [] && r.primary.None? then (r, Err(MissingKey("primary")))
      else
        var letters := if kept == [] then Some("") else Gather(r.primary.value, kept);
        if letters.None? then (r, Err(IndexOutOfRange))
        else
          var r1 := r.(primary := letters);
          if r1.tertiary.None? then (r1, Err(MissingKey("tertiary")))
          else if Gather(r1.tertiary.value, Expand3(kept)).None? then (r1, Err(IndexOutOfRange))
          else
            var r2 := r1.(tertiary := Gather(r1.tertiary.value, Expand3(kept)));
            if AtomOffset(atom).None? then (r2, Err(BadAtom))
            else
              TimesThree(|kept|);
              (r2.(tertiary := Some(Scale(AtomRows(r2.tertiary.value, AtomOffset(atom).value)))), Ok(()))
  }

  /** An entry as the mutable dictionary `get_record` builds. */
  class Entry {
    var id: string
    var primary: Option<string>
    var evolutionary: Option<seq<seq<real>>>
    var secondary: Option<seq<int>>
    var tertiary: Option<seq<Coord>>
    var mask: Option<seq<int>>

    function Value(): Record
      reads this
    {
      Record(id, primary, evolutionary, secondary, tertiary, mask)
    }

    constructor (r: Record)
      ensures Value() == r
    {
      id, primary, evolutionary, secondary := r.id, r.primary, r.evolutionary, r.secondary;
      tertiary, mask := r.tertiary, r.mask;
    }

    /** `clean_entry(entry, atom)`, updating the entry in place. */
    method Clean(atom: string) returns (outcome: Result<(), CleanError>)
      modifies this
      ensures (Value(), outcome) == CleanEntry(old(Value()), atom)
    {
      if mask.None? {
        return Err(MissingKey("mask"));
      }
      var kept := KeptPositions(mask.value);
      if kept != [] && primary.None? {
        return Err(MissingKey("primary"));
      }
      var cleaned := if kept == [] then Some("") else Gather(primary.value, kept);
      if cleaned.None? {
        return Err(IndexOutOfRange);
      }
      primary := cleaned;
      if tertiary.None? {
        return Err(MissingKey("tertiary"));
      }
      var mask3d := Expand3(kept);
      var selected := Gather(tertiary.value, mask3d);
      if selected.None? {
        return Err(IndexOutOfRange);
      }
      tertiary := selected;
      var index: nat;
      if atom == "ca" {
        index := 1;
      } else if atom == "n" {
        index := 0;
      } else if atom == "cb" {
        index := 2;
      } else {
        return Err(BadAtom);
      }
      tertiary := Some(Scale(AtomRows(tertiary.value, index)));
      assert |tertiary.value| == |primary.value|;
      outcome := Ok(());
    }
  }

  /** Every kept residue has its letter and all three of its atom rows in
      range; a kept residue needs the sequence to be present. */
  ghost predicate MaskFits(r: Record)
    requires r.mask.Some? && r.tertiary.Some?
  {
    var kept := KeptPositions(r.mask.value);
    forall j :: 0 <= j < |kept| ==>
      (r.primary.Some? && kept[j] < |r.primary.value|) && 3 * kept[j] + 2 < |r.tertiary.value|
  }

  lemma ExpandedInRange(kept: seq<nat>, n: nat)
    ensures (forall t :: 0 <= t < |Expand3(kept)| ==> Expand3(kept)[t] < n)
        <==> (forall j :: 0 <= j < |kept| ==> 3 * kept[j] + 2 < n)
  {
    var e := Expand3(kept);
    if forall j :: 0 <= j < |kept| ==> 3 * kept[j] + 2 < n {
      forall t | 0 <= t < |e| ensures e[t] < n {
        var j, a := t / 3, t % 3;
        assert t == 3 * j + a;
        Expand3At(kept, j, a);
      }
    } else {
      var j :| 0 <= j < |kept| && 3 * kept[j] + 2 >= n;
      Expand3At(kept, j, 2);
      assert !(e[3 * j + 2] < n);
    }
  }

  lemma KeptInRange(r: Record)
    requires r.mask.Some? && r.tertiary.Some? && MaskFits(r)
    ensures forall j :: 0 <= j < |KeptPositions(r.mask.value)| ==>
              (r.primary.Some? && KeptPositions(r.mask.value)[j] < |r.primary.value|) &&
              3 * KeptPositions(r.mask.value)[j] + 2 < |r.tertiary.value|
    ensures KeptPositions(r.mask.value) != [] ==> r.primary.Some?
  {
    var kept := KeptPositions(r.mask.value);
    if kept != [] {
      assert (r.primary.Some? && kept[0] < |r.primary.value|) && 3 * kept[0] + 2 < |r.tertiary.value|;
    }
  }

  /** The two selections of `clean_entry` stay in range exactly when the mask
      fits; the letters are selected only when some residue is kept. */
  lemma MaskFitsGather(r: Record)
    requires r.mask.Some? && r.tertiary.Some?
    ensures MaskFits(r) <==>
              (KeptPositions(r.mask.value) == [] ||
               (r.primary.Some? && Gather(r.primary.value, KeptPositions(r.mask.value)).Some?)) &&
              Gather(r.tertiary.value, Expand3(KeptPositions(r.mask.value))).Some?
  {
    var kept := KeptPositions(r.mask.value);
    if r.primary.Some? {
      GatherSpec(r.primary.value, kept);
    }
    if MaskFits(r) {
      KeptInRange(r);
    }
    GatherSpec(r.tertiary.value, Expand3(kept));
    ExpandedInRange(kept, |r.tertiary.value|);
  }

  /** `clean_entry` returns normally exactly when the mask and the
      coordinates are present, the sequence is present or no residue is kept,
      every kept residue lies within the sequence and the coordinates, and
      the atom name is known. */
  lemma CleanSucceedsIff(r: Record, atom: string)
    ensures CleanEntry(r, atom).1.Ok? <==>
              && r.mask.Some? && r.tertiary.Some?
              && (r.primary.Some? || KeptPositions(r.mask.value) == [])
              && MaskFits(r)
              && AtomOffset(atom).Some?
  {
    if r.mask.Some? && r.tertiary.Some? {
      MaskFitsGather(r);
    }
  }

  /** Selecting the atom rows of the kept residues: row `3j + a` of the
      selection is row `3 kept[j] + a` of the input. */
  lemma SelectedRows(t: seq<Coord>, kept: seq<nat>)
    requires forall j :: 0 <= j < |kept| ==> 3 * kept[j] + 2 < |t|
    ensures Gather(t, Expand3(kept)).Some?
    ensures forall j :: 0 <= j < |kept| ==>
              && Gather(t, Expand3(kept)).value[3 * j] == t[3 * kept[j]]
              && Gather(t, Expand3(kept)).value[3 * j + 1] == t[3 * kept[j] + 1]
              && Gather(t, Expand3(kept)).value[3 * j + 2] == t[3 * kept[j] + 2]
  {
    ExpandedInRange(kept, |t|);
    GatherSpec(t, Expand3(kept));
    Expand3Spec(kept);
  }

  /** After a clean that returns normally, the sequence holds exactly the
      letters at the kept positions, in order. */
  lemma CleanedSequence(r: Record, atom: string)
    requires CleanEntry(r, atom).1.Ok?
    ensures r.mask.Some?
    ensures KeptPositions(r.mask.value) != [] ==> r.primary.Some?
    ensures var c, kept := CleanEntry(r, atom).0, KeptPositions(r.mask.value);
            && c.primary.Some? && |c.primary.value| == |kept|
            && (forall j :: 0 <= j < |kept| ==>
                  r.primary.Some? && kept[j] < |r.primary.value| && c.primary.value[j] == r.primary.value[kept[j]])
  {
    CleanSucceedsIff(r, atom);
    KeptInRange(r);
    var kept := KeptPositions(r.mask.value);
    if kept != [] {
      GatherSpec(r.primary.value, kept);
    }
  }

  /** After a clean that returns normally, the coordinates hold, for every
      kept residue, the row of the chosen atom divided by 100. */
  lemma CleanedCoordinates(r: Record, atom: string)
    requires CleanEntry(r, atom).1.Ok?
    ensures r.mask.Some? && r.tertiary.Some? && AtomOffset(atom).Some?
    ensures var c, kept, off := CleanEntry(r, atom).0, KeptPositions(r.mask.value), AtomOffset(atom).value;
            && c.tertiary.Some? && |c.tertiary.value| == |kept|
            && (forall j :: 0 <= j < |kept| ==>
                  3 * kept[j] + off < |r.tertiary.value| &&
                  c.tertiary.value[j] == Divide(r.tertiary.value[3 * kept[j] + off], 100.0))
  {
    CleanedTertiary(r, atom);
    ScaledSelection(r.tertiary.value, KeptPositions(r.mask.value), AtomOffset(atom).value);
  }

  /** A selection of the kept residues' atom rows that stays in range,
      reduced to the chosen atom and scaled: entry `j` is row `3 kept[j] + off`
      divided by 100. */
  lemma ScaledSelection(t: seq<Coord>, kept: seq<nat>, off: nat)
    requires off < 3 && Gather(t, Expand3(kept)).Some?
    ensures |Gather(t, Expand3(kept)).value| % 3 == 0
    ensures var out := Scale(AtomRows(Gather(t, Expand3(kept)).value, off));
            && |out| == |kept|
            && forall j :: 0 <= j < |kept| ==> 3 * kept[j] + off < |t| && out[j] == Divide(t[3 * kept[j] + off], 100.0)
  {
    SelectionInRange(t, kept);
    ScaledAtomRows(t, kept, off);
  }

  /** The atom rows of the kept residues can be selected only when all three
      rows of every kept residue exist. */
  lemma {:induction false} SelectionInRange(t: seq<Coord>, kept: seq<nat>)
    requires Gather(t, Expand3(kept)).Some?
    ensures forall j :: 0 <= j < |kept| ==> 3 * kept[j] + 2 < |t|
  {
    forall j | 0 <= j < |kept| ensures 3 * kept[j] + 2 < |t| {
      Expand3At(kept, j, 2);
      GatherAt(t, Expand3(kept), 3 * j + 2);
    }
  }

  /** The chosen atom rows of the kept residues, scaled: entry `j` is row
      `3 kept[j] + off` divided by 100. */
  lemma ScaledAtomRows(t: seq<Coord>, kept: seq<nat>, off: nat)
    requires off < 3
    requires forall j :: 0 <= j < |kept| ==> 3 * kept[j] + 2 < |t|
    ensures Gather(t, Expand3(kept)).Some? && |Gather(t, Expand3(kept)).value| % 3 == 0
    ensures var out := Scale(AtomRows(Gather(t, Expand3(kept)).value, off));
            && |out| == |kept|
            && forall j :: 0 <= j < |kept| ==> out[j] == Divide(t[3 * kept[j] + off], 100.0)
  {
    KeptAtomRows(t, kept, off);
    var rows := AtomRows(Gather(t, Expand3(kept)).value, off);
    var out := Scale(rows);
    forall j | 0 <= j < |kept| ensures out[j] == Divide(t[3 * kept[j] + off], 100.0) {
      assert out[j] == Divide(rows[j], 100.0);
    }
  }

  lemma TimesThree(k: nat)
    ensures (3 * k) % 3 == 0 && (3 * k) / 3 == k
  {
  }

  lemma KeptAtomRows(t: seq<Coord>, kept: seq<nat>, off: nat)
    requires off < 3
    requires forall j :: 0 <= j < |kept| ==> 3 * kept[j] + 2 < |t|
    ensures Gather(t, Expand3(kept)).Some? && |Gather(t, Expand3(kept)).value| == 3 * |kept|
    ensures var rows := AtomRows(Gather(t, Expand3(kept)).value, off);
            && |rows| == |kept|
            && forall j :: 0 <= j < |kept| ==> rows[j] == t[3 * kept[j] + off]
  {
    SelectionExists(t, kept);
    var sel := Gather(t, Expand3(kept)).value;
    TimesThree(|kept|);
    var rows := AtomRows(sel, off);
    forall j | 0 <= j < |kept| ensures rows[j] == t[3 * kept[j] + off] {
      KeptAtomRow(t, kept, off, j);
    }
  }

  lemma SelectionExists(t: seq<Coord>, kept: seq<nat>)
    requires forall j :: 0 <= j < |kept| ==> 3 * kept[j] + 2 < |t|
    ensures Gather(t, Expand3(kept)).Some? && |Gather(t, Expand3(kept)).value| == 3 * |kept|
  {
    ExpandedInRange(kept, |t|);
    GatherSpec(t, Expand3(kept));
  }

  /** Row `3j + off` of the selection is row `3 kept[j] + off` of the input. */
  lemma KeptAtomRow(t: seq<Coord>, kept: seq<nat>, off: nat, j: nat)
    requires off < 3 && j < |kept|
    requires forall j :: 0 <= j < |kept| ==> 3 * kept[j] + 2 < |t|
    ensures Gather(t, Expand3(kept)).Some? && 3 * j + off < |Gather(t, Expand3(kept)).value|
    ensures Gather(t, Expand3(kept)).value[3 * j + off] == t[3 * kept[j] + off]
  {
    SelectionExists(t, kept);
    Expand3At(kept, j, off);
    GatherAt(t, Expand3(kept), 3 * j + off);
  }

  lemma GatherAt<T>(s: seq<T>, idx: seq<nat>, i: nat)
    requires Gather(s, idx).Some? && i < |idx|
    ensures idx[i] < |s| && Gather(s, idx).value[i] == s[idx[i]]
  {
  }

  /** The coordinates a normal return leaves: the chosen atom rows of the
      gathered selection, scaled. */
  lemma CleanedTertiary(r: Record, atom: string)
    requires CleanEntry(r, atom).1.Ok?
    ensures r.mask.Some? && r.tertiary.Some? && AtomOffset(atom).Some?
    ensures Gather(r.tertiary.value, Expand3(KeptPositions(r.mask.value))).Some?
    ensures var sel := Gather(r.tertiary.value, Expand3(KeptPositions(r.mask.value))).value;
            |sel| % 3 == 0
            && CleanEntry(r, atom).0.tertiary == Some(Scale(AtomRows(sel, AtomOffset(atom).value)))
  {
  }

  /** An unknown atom name raises only after the sequence and the
      coordinates have been cut down to the kept residues, three unscaled
      atom rows each. */
  lemma BadAtomLeavesSelection(r: Record, atom: string)
    requires r.mask.Some? && r.tertiary.Some? && MaskFits(r)
    requires AtomOffset(atom).None?
    ensures CleanEntry(r, atom).1 == Err(BadAtom)
    ensures var c, kept := CleanEntry(r, atom).0, KeptPositions(r.mask.value);
            && c.primary.Some? && c.tertiary.Some?
            && |c.primary.value| == |kept| && |c.tertiary.value| == 3 * |kept|
            && (forall j :: 0 <= j < |kept| ==>
                  && r.primary.Some? && kept[j] < |r.primary.value|
                  && c.primary.value[j] == r.primary.value[kept[j]])
            && (forall j :: 0 <= j < |kept| ==>
                  && 3 * kept[j] + 2 < |r.tertiary.value|
                  && c.tertiary.value[3 * j] == r.tertiary.value[3 * kept[j]]
                  && c.tertiary.value[3 * j + 1] == r.tertiary.value[3 * kept[j] + 1]
                  && c.tertiary.value[3 * j + 2] == r.tertiary.value[3 * kept[j] + 2])
  {
    KeptInRange(r);
    var kept := KeptPositions(r.mask.value);
    if kept != [] {
      GatherSpec(r.primary.value, kept);
    }
    SelectedRows(r.tertiary.value, kept);
  }

  lemma {:induction false} NoOnesKeepNothing(mask: seq<int>)
    requires forall p :: 0 <= p < |mask| ==> mask[p] != 1
    ensures KeptPositions(mask) == []
  {
    if mask != [] {
      var init := mask[..|mask| - 1];
      forall p | 0 <= p < |init| ensures init[p] != 1 {
        assert init[p] == mask[p];
      }
      NoOnesKeepNothing(init);
    }
  }

  /** A mask that keeps no residue empties the sequence and the coordinates,
      and succeeds whether or not the record has a sequence. */
  lemma EmptyMaskClean(r: Record, atom: string)
    requires r.mask.Some? && r.tertiary.Some? && AtomOffset(atom).Some?
    requires forall p :: 0 <= p < |r.mask.value| ==> r.mask.value[p] != 1
    ensures CleanEntry(r, atom) == (r.(primary := Some(""), tertiary := Some([])), Ok(()))
  {
    var kept := KeptPositions(r.mask.value);
    NoOnesKeepNothing(r.mask.value);
    assert Expand3(kept) == [];
    var sel := Gather(r.tertiary.value, []);
    assert sel.Some? && sel.value == [];
    var rows := AtomRows(sel.value, AtomOffset(atom).value);
    assert rows == [];
    assert Scale(rows) == [];
  }

  /** A record without a sequence whose mask `--` keeps nothing cleans to an
      empty sequence and no coordinates. */
  lemma CleanWithoutPrimary(t: seq<Coord>)
    ensures CleanEntry(Record("x", None, None, None, Some(t), Some([0, 0])), "ca")
         == (Record("x", Some(""), None, None, Some([]), Some([0, 0])), Ok(()))
  {
    EmptyMaskClean(Record("x", None, None, None, Some(t), Some([0, 0])), "ca");
  }

  /** The mask `[1, 0, 1]` over `ABC` and nine atom rows keeps `AC` and the
      alpha-carbon rows 1 and 7, divided by 100. */
  lemma CleanExample(t: seq<Coord>)
    requires |t| == 9
    ensures CleanEntry(Record("x", Some("ABC"), None, None, Some(t), Some([1, 0, 1])), "ca")
         == (Record("x", Some("AC"), None, None, Some([Divide(t[1], 100.0), Divide(t[7], 100.0)]), Some([1, 0, 1])), Ok(()))
  {
    var r := Record("x", Some("ABC"), None, None, Some(t), Some([1, 0, 1]));
    var kept := KeptPositions([1, 0, 1]);
    assert [1, 0, 1][..2] == [1, 0] && [1, 0][..1] == [1];
    assert kept == [0, 2];
    CleanSucceedsIff(r, "ca");
    CleanedSequence(r, "ca");
    CleanedCoordinates(r, "ca");
    var c := CleanEntry(r, "ca").0;
    assert c.primary.value == "AC";
    assert c.tertiary.value == [Divide(t[1], 100.0), Divide(t[7], 100.0)];
  }
}
