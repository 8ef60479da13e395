# Shapemer corpus building, ProteinNet parsing and topic scores

This project models the core of a pipeline that turns protein structures
into "shapemer" documents for topic modelling, and proves properties of
that model in Dafny.

- **AlphaFold corpus** (`get_AF_shapemers`, module `Shapemers`). The
  per-residue confidence values (pLDDT in the B-factor column) are turned
  into a 0/1 mask at the threshold 70. The maximal runs of 1s are the
  connected components that `ndimage.label` and `find_objects` produce. Runs
  longer than the length threshold are segments. Each segment contributes
  its KMER tokens `k<a>i<b>i<c>i<d>` and then its RADIUS tokens
  `r<a>i<b>i<c>i<d>`. One line `key TAB tokens-joined-by-space NEWLINE` is
  written when at least one segment qualifies.
- **PDB corpus** (`get_PDB_shapemers`): one line per cleaned ProteinNet
  record, written when the record has at least one token.
- **ProteinNet text parser** (module `ProteinNet`):
  - `letter_to_num` with its three code tables;
  - grouping the file's lines into records at `[ID]` lines (`groupby`);
  - `get_record`, a left-to-right fold over a record's lines that
    dispatches on the section headers;
  - `clean_entry`, an in-place update of the record (class `Entry`) that
    keeps the residues the mask marks with 1. It keeps the matching
    backbone atom rows, picks one atom (N, CA or CB) and divides the
    coordinates by 100.
- **Per-residue topic scores** (`get_coords_topic_scores`, module
  `TopicScores`). Each KMER anchor adds its topic weight, times the
  similarity, to its own score for residues `i` to `i + 15`. Each RADIUS
  anchor adds the same to every residue of its neighbourhood. The scores sit
  in an array that the two passes update in place.

Supporting modules:

- `Wrappers` holds `Option` and `Result`.
- `Geometry` holds coordinates and the squared distance.
- `Text` holds Python's `strip`, `split()`, `" ".join`, and integer
  parsing and printing.
- `Components` holds the maximal runs of a boolean sequence (the role of
  `ndimage.label` plus `find_objects`, and of `groupby`).
- `Tokens` holds the shapemer token format and its parser.

Some things are inputs rather than computed:

- The geometric moment invariants are inputs. A segment's quantised
  moment rows are given by a function `moments(segment)`, and the RADIUS
  neighbourhoods (`split_indices`) are a parameter.
- Float parsing is a parameter `parseFloat`.
- The similarity `exp(-0.03 * d)` is a parameter `kernel` of the squared
  distance `d`.

Three behaviours of the code are easy to miss, and the model keeps them:

- The AlphaFold line is written whenever at least one segment is longer
  than the threshold (`index > 0`). This holds even if those segments
  produced no tokens. The PDB line is written only when there are tokens.
- The KMER pass of the topic scores adds every term to `weights[i]`, the
  anchor's own residue, not to `weights[index]`.
- `clean_entry` joins the kept letters from a generator, so it looks up
  the sequence only when the mask keeps some residue. A record without
  `[PRIMARY]` whose mask keeps nothing cleans to the empty sequence.

## Model

| member | source | states |
|---|---|---|
| Shapemers.MaskOf | src/make_data.py:85-86 | the mask has one entry per residue, each 0 or 1, and an entry is 1 exactly when the smoothed confidence is at least 70 |
| Shapemers.ConfidenceMask | src/make_data.py:85-86 | the imperative mask construction (all ones, then zeros where below 70) yields exactly `MaskOf(betas)` |
| Shapemers.LabelledAreMaximalRuns | src/make_data.py:88 | the labelled slices are the maximal runs of 1s in order: in range, all 1s inside, a 0 or the chain end on both sides, strictly increasing and disjoint, and every 1 is in one of them |
| Components.RunsAreMaximal | src/make_data.py:88 | `Runs(m)` is exactly a maximal, increasing, covering decomposition of the true positions of `m` |
| Components.RunsOfAllTrue | src/make_data.py:88 | a mask that is all 1s is one component covering the whole chain |
| Components.RunsOfAllFalse | src/make_data.py:88 | a mask with no 1s has no components |
| Components.FlattenRuns | src/make_data.py:88 | concatenating the pieces of a sequence cut at its runs gives exactly the elements at true positions, in order |
| Shapemers.LongMembers | src/make_data.py:93 | a slice is kept exactly when it is in the input and longer than the threshold |
| Shapemers.LongIncreasing | src/make_data.py:91-93 | the kept slices stay in chain order |
| Shapemers.SegmentsAreLongRuns | src/make_data.py:88-93 | a slice is a segment exactly when it is a labelled component longer than the threshold, and the segments are in chain order |
| Shapemers.AllHighIsOneSegment | src/make_data.py:85-93 | a chain whose confidence is everywhere at least 70 and that is longer than the threshold is a single segment covering it |
| Shapemers.AllLowHasNoSegment | src/make_data.py:85-93 | a chain whose confidence is everywhere below 70 has no segment |
| Shapemers.ShortChainHasNoSegment | src/make_data.py:93 | a chain no longer than the threshold has no segment |
| Shapemers.CollectShapemers | src/make_data.py:89-112 | the loop counts the kept segments in `index` and builds exactly `CorpusTokens` of the kept segments |
| Shapemers.TokenCount | src/make_data.py:102-112 | the number of tokens is the total number of KMER and RADIUS moment rows over the segments |
| Shapemers.CorpusTokensAppend | src/make_data.py:91-112 | the tokens of two runs of segments are the tokens of the first followed by those of the second |
| Shapemers.TokenLayout | src/make_data.py:102-112 | segment `k`'s KMER tokens and then its RADIUS tokens sit between the tokens of the earlier and of the later segments |
| Shapemers.CorpusTokensWellFormed | src/make_data.py:102-112 | every token is non-empty and contains no whitespace |
| Tokens.Token | src/make_data.py:102-103 | a token starts with its family tag and has at least eight characters |
| Tokens.TokenNoSpace | src/make_data.py:102-103 | a token contains no whitespace |
| Tokens.TokenRoundTrip | src/make_data.py:102-103 | parsing a token gives back its family and its four quantised moments |
| Tokens.TokenInjective | src/make_data.py:102-103 | distinct family/moment combinations give distinct tokens |
| Tokens.TokenExample | src/make_data.py:102-103 | the KMER row (0, 2, 7, 11) is written `k0i2i7i11` |
| Tokens.TokensOf | src/make_data.py:129-130 | there is one token per moment row |
| Text.IntDecimalRoundTrip | src/make_data.py:102-103 | an integer's decimal form, as Python's f-string writes it, parses back to the integer |
| Shapemers.CorpusLineRoundTrip | src/make_data.py:114 | a line built from a tab-free key and non-empty, whitespace-free tokens splits back into that key and those tokens |
| Shapemers.AFLineRoundTrip | src/make_data.py:114 | an AlphaFold corpus line with tokens splits back into the key and the collected tokens |
| Text.SplitJoin | src/make_data.py:114 | splitting a joined list of separator-free parts at the separator gives the parts back |
| Shapemers.AFShapemerLine | src/make_data.py:85-114 | a line is written exactly when some segment is longer than the threshold, and it is the key, a tab, the collected tokens joined by spaces, and a newline |
| Shapemers.PDBShapemerLine | src/make_data.py:129-141 | a line is written exactly when the record has a KMER or RADIUS row, and it is the ID, a tab, the KMER tokens then the RADIUS tokens joined by spaces, and a newline |
| Shapemers.PDBLineRoundTrip | src/make_data.py:129-141 | a written ProteinNet corpus line with a tab-free ID splits back into the ID and the record's KMER tokens followed by its RADIUS tokens |
| Text.StripSpec | src/proteinnet_parser.py:35 | `Strip(s)` is a contiguous slice of `s` that drops only whitespace at either end and starts and ends with non-whitespace |
| Text.NatDecimalRoundTrip | src/proteinnet_parser.py:30 | decimal digits of a natural number parse back to it |
| ProteinNet.ParseInts | src/proteinnet_parser.py:30 | a successful parse has one integer per word |
| ProteinNet.ParseIntsSpec | src/proteinnet_parser.py:30 | the parse succeeds exactly when every word is an integer, and then element `k` is the integer of word `k` |
| ProteinNet.LetterToNum | src/proteinnet_parser.py:26-30 | a string made of code-table letters with digit codes converts to one integer per letter, each that letter's code |
| ProteinNet.MaskExample | src/proteinnet_parser.py:23-30 | the mask string `+-+` converts to `[1, 0, 1]` |
| ProteinNet.NotIdLines | src/proteinnet_parser.py:62 | one grouping key per line |
| ProteinNet.RecordGroups | src/proteinnet_parser.py:62-64 | one group per record slice, and no group is empty |
| ProteinNet.RecordGroupsAreMaximalRuns | src/proteinnet_parser.py:62-64 | the records are the maximal runs of non-`[ID]` lines, each a contiguous slice of the file, and none holds an `[ID]` line |
| ProteinNet.RecordGroupsCoverLines | src/proteinnet_parser.py:62-64 | the records together hold exactly the file's non-`[ID]` lines, in order |
| ProteinNet.SectionOf | src/proteinnet_parser.py:37-57 | a line selects a section exactly when it equals that section's header, newline included, and otherwise it selects none |
| ProteinNet.ReadSection | src/proteinnet_parser.py:37-57 | a section that reads successfully has the value kind of its field |
| ProteinNet.RecordId | src/proteinnet_parser.py:35 | a parsed record's ID is its first line, stripped |
| ProteinNet.ErrorPersists | src/proteinnet_parser.py:36-60 | once a line raises, the record fails with that error whatever follows |
| ProteinNet.ApplyStored | src/proteinnet_parser.py:36-59 | a header line sets its own field to the value it read and leaves every other field as it was, and any other line changes nothing |
| ProteinNet.FoldPresence | src/proteinnet_parser.py:36-59 | starting from an entry without a field, the loop ends holding that field exactly when some line read it |
| ProteinNet.FoldLastWins | src/proteinnet_parser.py:36-59 | the loop ends holding, for each field, the value its last header read |
| ProteinNet.HeaderPresence | src/proteinnet_parser.py:36-57 | a parsed record holds a field exactly when its header occurs in the record |
| ProteinNet.LastHeaderWins | src/proteinnet_parser.py:36-57 | when a header occurs more than once, the field holds the value read after its last occurrence |
| ProteinNet.ParseSucceedsIff | src/proteinnet_parser.py:36-60 | a record parses exactly when every header in it reads its section without error |
| ProteinNet.HeaderOnLastLineFails | src/proteinnet_parser.py:38-53 | a header on the record's last line, whose section needs the next line, makes the record fail |
| ProteinNet.TertiaryIsTransposed | src/proteinnet_parser.py:50-54 | the tertiary section reads exactly when the three following lines are float rows of equal length, and then coordinate `r` is the `r`-th x, y and z |
| ProteinNet.EvolutionaryRepeatsOneLine | src/proteinnet_parser.py:40-46 | with a positive entry count, the profile is that many copies of the line after the header |
| ProteinNet.ReadProfileAt | src/proteinnet_parser.py:40-46 | the loop reads the evolutionary section exactly as `ReadProfile` specifies |
| ProteinNet.ReadTertiaryAt | src/proteinnet_parser.py:50-54 | the loop over the three axes reads the tertiary section exactly as `ReadTertiary` specifies |
| ProteinNet.ReadSectionAt | src/proteinnet_parser.py:37-57 | the dispatch reads each section exactly as `ReadSection` specifies |
| ProteinNet.ReadRecord | src/proteinnet_parser.py:34-60 | a record parses exactly when every header in it reads its section without error, and a parsed record's ID is its first line, stripped |
| ProteinNet.GetRecord | src/proteinnet_parser.py:34-60 | the loop over the lines returns exactly `ReadRecord`, the fold the lemmas above describe |
| ProteinNet.YieldRecords | src/proteinnet_parser.py:62-64 | the records come out in file order and each is its group parsed. Output stops at the first group that fails, with that group's error, and otherwise every group is yielded |
| ProteinNet.KeptPositionsSpec | src/proteinnet_parser.py:69 | the kept positions are exactly the positions where the mask is 1, strictly increasing |
| ProteinNet.Expand3Spec | src/proteinnet_parser.py:71 | each kept residue `n` gives the three atom rows `3n`, `3n+1` and `3n+2`, in order |
| ProteinNet.AtomRows | src/proteinnet_parser.py:81 | taking every third row from the atom offset gives one row per residue, namely row `3j + offset` |
| ProteinNet.ScaledAtomRows | src/proteinnet_parser.py:71-81 | selecting the three rows of every kept residue, then every third row from the atom offset, then dividing by 100 gives, per kept residue, its chosen atom row divided by 100 |
| ProteinNet.CleanEntry | src/proteinnet_parser.py:67-83 | cleaning never changes the ID, evolutionary, secondary or mask fields, and a successful clean leaves a sequence and coordinates of equal length (the closing assertion) |
| ProteinNet.Entry.Clean | src/proteinnet_parser.py:67-83 | the in-place update leaves the entry and the outcome exactly as `CleanEntry` of the old entry specifies |
| ProteinNet.CleanSucceedsIff | src/proteinnet_parser.py:67-83 | cleaning succeeds exactly when mask and tertiary are present, primary is present or the mask keeps nothing, every kept position is inside the sequence and inside the coordinate rows, and the atom is `n`, `ca` or `cb` |
| ProteinNet.CleanedSequence | src/proteinnet_parser.py:69-70 | after a successful clean the sequence is the residues at the mask's 1-positions, in order |
| ProteinNet.CleanedCoordinates | src/proteinnet_parser.py:71-81 | after a successful clean, coordinate `j` is the chosen atom of the `j`-th kept residue, divided by 100 |
| ProteinNet.BadAtomLeavesSelection | src/proteinnet_parser.py:70-80 | an unknown atom name fails after the entry has already been masked: three unscaled rows per kept residue and the masked sequence |
| ProteinNet.EmptyMaskClean | src/proteinnet_parser.py:67-83 | a mask with no 1 entry cleans to an empty sequence and no coordinates, whether or not the record has a sequence |
| ProteinNet.CleanWithoutPrimary | src/proteinnet_parser.py:67-83 | a record without a sequence, mask `--` and `ca` cleans to the empty sequence and no coordinates |
| ProteinNet.CleanExample | src/proteinnet_parser.py:67-83 | mask `[1, 0, 1]`, sequence `ABC`, nine atom rows and `ca` give `AC` and rows 1 and 7 divided by 100 |
| TopicScores.TopicValue | src/plotting.py:10-14 | a known shapemer's value is an entry of the chosen topic's row, and an unknown one's is 0 |
| Geometry.SqDist | src/plotting.py:25 | the squared distance is non-negative and zero from a point to itself |
| TopicScores.KmerPass | src/plotting.py:28-31 | after the KMER loop, residue `j` with an anchor gained exactly that anchor's windowed sum over residues `j` to `j + 15`, and every other residue is unchanged |
| TopicScores.AddWindow | src/plotting.py:30-31 | the inner KMER loop adds the anchor's window sum to its own residue and changes no other residue |
| TopicScores.RadiusPass | src/plotting.py:39-42 | after the RADIUS loop, residue `j` gained exactly the sum, over the anchors whose neighbourhood lists it, of weight times similarity |
| TopicScores.AddNeighbourhood | src/plotting.py:41-42 | the inner RADIUS loop adds to each residue its share from one anchor, once per listing |
| TopicScores.CoordsTopicScores | src/plotting.py:9-43 | one score per residue, equal to its KMER gain plus its RADIUS gain starting from zero |
| TopicScores.WindowSumOfZero | src/plotting.py:10-31 | a zero weight adds nothing over any window |
| TopicScores.UnknownKmerAddsNothing | src/plotting.py:10-31 | a KMER shapemer missing from the vocabulary adds nothing |
| TopicScores.UnknownRadiusAddsNothing | src/plotting.py:10-42 | a RADIUS shapemer missing from the vocabulary adds nothing to any residue |
| TopicScores.WindowSumFactors | src/plotting.py:30-31 | a KMER anchor's gain is its weight times its gain at weight 1 |
| TopicScores.KmerSelfTerm | src/plotting.py:24-31 | with similarity 1 at distance 0, the first KMER term, the anchor against itself, adds exactly the weight |
| TopicScores.WindowSumBounds | src/plotting.py:24-31 | with a kernel valued in [0, 1] and a non-negative weight, `k` KMER terms add between 0 and `k` times the weight |
| TopicScores.KmerGainBounds | src/plotting.py:24-31 | a KMER anchor with non-negative weight adds between 0 and 16 times that weight |
| TopicScores.NeighbourGainCounts | src/plotting.py:41-42 | a RADIUS anchor adds weight times similarity to a residue once for each time the residue is listed in its neighbourhood |
| TopicScores.RadiusSelfTerm | src/plotting.py:24-42 | an anchor listed once in its own neighbourhood adds exactly its weight to itself when the similarity at distance 0 is 1 |
| TopicScores.OutsideNeighbourhoodsUnchanged | src/plotting.py:39-42 | a residue in no neighbourhood gets nothing from the RADIUS pass |

## Left out

- File and network I/O are left out: folder globbing, FTP or tar handling, gzip, `tqdm` and the corpus file handles. A written line is returned as a value.
- Reading structures with `prody` is left out, and so is the Gaussian smoothing of the B-factors (`gaussian_filter1d`). The smoothed confidence values are an input.
- The geometric moment invariants (`MomentInvariants.from_coordinates`) and their `log1p`-times-resolution quantisation are left out. A segment's integer moment rows are the input function `moments`. The model does not capture that they depend on the segment's coordinates and sequence.
- Shapemers.CollectShapemers: the moment rows are taken per slice, not computed from `coords[s.start:s.stop]`, for the reason above.
- The RADIUS neighbourhoods (`split_indices`) of the topic scores are an input. The model does not derive them from a radius of 10.
- The similarity `exp(-0.03 * d)` is the parameter `kernel`, because floating-point `exp` is not modelled. Lemmas that need `kernel(0) = 1` or a range of [0, 1] say so. All arithmetic is on exact reals, not IEEE doubles.
- Decimal float parsing (`float(step)`) is the parameter `parseFloat`. A word it rejects gives `BadNumber`, Python's `ValueError`.
- `int()` in `letter_to_num` is modelled as an optional sign followed by ASCII digits. It does not accept Python's digit-group underscores or non-ASCII digits.
- The regular expression of `letter_to_num` is modelled as a per-character lookup in the code table. The character class built from the keys matches exactly those characters: no letter key is special inside a class, and `-` would denote a range only between two other characters; at either end of the class, as in `[-+]`, it is literal.
- `np.array(tertiary).T` over rows of unequal length fails in numpy. The model reports this as `RaggedTertiary` and does not model numpy's object arrays.
- Errors raised while parsing (`IndexError`, `ValueError`) are `ParseError` values. Errors raised by `clean_entry` (`KeyError`, `IndexError`, `ValueError`) are `CleanError` values. After a failure, `YieldRecords` stops, as the generator would by raising.
- TopicScores.KmerPass requires fifteen residues after the last KMER anchor. The source reads `coords[index]` unguarded, and an out-of-range read there is not modelled as an error.
- TopicScores.RadiusPass requires one neighbourhood per RADIUS anchor, every listed neighbourhood index to be a residue, and no more RADIUS anchors than residues, because anchor `i` is compared with residue `i`. The model assumes that the invariant library's neighbourhoods satisfy all three. The source checks none of them and would raise `IndexError` otherwise.
- The assertion at the end of `clean_entry` is proved to hold (the contract of `CleanEntry`), so the model has no failure path for it.
- TopicScores.TopicValue requires the chosen topic to be a row of the matrix and every vocabulary column to lie inside that row. The source would raise `IndexError` otherwise, and a negative `topic_id` would select a row from the end. The model takes `topic_id` as a natural number and does not model either error path, because the trained model and its vocabulary are built together and always agree.
- Plotting, `get_protein_topic_scores` and the UniProt parser are not part of this model.
