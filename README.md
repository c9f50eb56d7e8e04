# MGF reader and instrument configuration, in Dafny

This project models two parts of the `mzdata` Rust library for mass
spectrometry data.

**The MGF reader (`src/io/mgf.rs`).** It is a line-driven state machine that
turns a Mascot Generic Format text file into centroid spectra. Its parts are:

- the handlers that run for each state (`Start`, `Between`, `ScanHeaders`,
  `Peaks`);
- the peak-line parser and the `KEY=VALUE` header interpreter
  (`TITLE`, `RTINSECONDS`, `PEPMASS`, and lower-cased annotations);
- the `read_into` loop and `read_next`;
- the offset-index pre-scan `build_index`;
- random access by identifier and by position, and seek-only positioning.

**The instrument configuration (`src/meta/instrument.rs`).** It is an ordered
list of components, each stamped with its position. Each component has lookups
that read its controlled-vocabulary parameters against three term tables: mass
analyzers, ionization types and detector types.

**Modules.**

| file | module | what it holds |
|---|---|---|
| `wrappers.dfy` | `Wrappers` | `Option` and `Result` |
| `text.dfy` | `Text` | the pieces of Rust's standard text handling the reader relies on |
| `spectrum.dfy` | `Spectra` | the record being filled: description and peaks |
| `offset_index.dfy` | `OffsetIndexing` | the identifier-to-offset index that keeps insertion order |
| `mgf_decoder.dfy` | `MgfDecoder` | the pure state machine: one function per handler, `LineStep` for one line of `read_into`, `ReadFrom` for a whole call |
| `mgf_index.dfy` | `MgfIndex` | the pure pre-scan: `ScanLine` per line, `BuildFrom` for the whole stream |
| `mgf_reader.dfy` | `Mgf` | class `MgfReader`: the imperative reader |
| `instrument.dfy` | `Instrument` | components, the lookups, and class `InstrumentConfiguration` |

`Text` covers line boundaries of `read_line`, UTF-8 validation, `trim`, the
peak separator `\t|\s+`, `split_ascii_whitespace`, `to_lowercase`,
`is_numeric`, and the literal grammars of `f64`/`i32` parsing.

**How the reader is modelled.**

- The reader holds the file contents as a byte sequence plus a cursor `pos`.
  Its parser state, error code and index are fields that its methods update in
  place.
- Every method is proved equal to the pure specification of modules
  `MgfDecoder` and `MgfIndex`.
- The `read_into` and `build_index` loops carry invariants stating that the
  rest of the specification run, from the current cursor, is the run that the
  whole call promises.
- A panic in the source (`unwrap`, `expect`, `panic!`) is an `Err` or
  `Aborted` outcome that names the panic.

## Where the code and its description differ

The model follows the code in each of these cases.

- **Index keys keep the newline.** `build_index` tests the raw bytes of each
  line, so a title line `TITLE=A\n` is indexed under `"A\n"`, not `"A"`
  (`MgfIndex.TwoRecordsIndex`). The decoder trims lines, so it sets the
  identifier to `"A"`.
- **Unknown identifiers panic.** `get_spectrum_by_id` calls `expect` on the
  lookup, so an unknown identifier panics (`OffsetNotFound`). It does not
  return a not-found result.
- **Random access keeps the parser state.** By-id and by-index reads do not
  reset the parser to `Start`; they decode from whatever state the reader is
  in. After a sequential read has reached the end (state `Done`), a random read
  yields an empty record or none (`MgfDecoder.RecordReadInDoneIsEmpty`).
  Between records (`Between`) it decodes normally, and `Start` and `Between`
  are indistinguishable (`MgfDecoder.ReadFromStartIsBetween`).
- **Rebuilding does not clear the index.** `build_index` adds to the index it
  finds. Rebuilding over the same stream is harmless, because it is idempotent
  (`MgfIndex.RebuildIsIdempotent`).
- **Decode faults abort.** Entering `Error` panics, and so do a bad number and
  a missing column. The model returns these as `Aborted`/`Err` outcomes that
  name the panic; it does not turn them into recoverable results.

## Model

| member | source | states |
|---|---|---|
| MgfDecoder.PeakFromLine | src/io/mgf.rs:110-133 | a line is a peak line iff its first character is numeric; a single column (no whitespace) is the column-count error; a peak is found iff the line is numeric-first, has at least two columns and columns 0 and 1 are float literals, and then the peak is (column 0, column 1); the m/z is the text before the first whitespace |
| MgfDecoder.NonAsciiNumericNeverPeak | src/io/mgf.rs:112-125 | a line starting with a numeric character that is not an ASCII digit never yields a peak, and still is not a non-peak line (it panics) |
| MgfDecoder.TwoColumnPeak | src/io/mgf.rs:116-131 | two float columns joined by a tab or by a whitespace run give exactly that peak |
| MgfDecoder.LeadingColumnsPeak | src/io/mgf.rs:116-131 | columns after the second are ignored: two float columns followed by whitespace and anything give the peak of those two columns |
| MgfDecoder.DoubleTabPanics | src/io/mgf.rs:116-125 | two tabs between the columns leave an empty second column, whose parse panics |
| MgfDecoder.HeaderSplitRejoins | src/io/mgf.rs:155-157 | key, '=' and value put back together give the line; the key holds no '=' |
| MgfDecoder.ApplyHeader | src/io/mgf.rs:158-191 | TITLE sets the identifier verbatim; RTINSECONDS succeeds iff the value is a float literal and sets the first scan event's start time; PEPMASS succeeds iff the value has at least two fields, fields 0 and 1 are float literals and a third field, when present, parses as an `i32`; then m/z and intensity are fields 0 and 1, the charge is the parsed third field or none, and nothing else changes; any other key stores the value under the lower-cased key |
| MgfDecoder.PepmassWithCharge | src/io/mgf.rs:167-182 | `PEPMASS=mz intensity charge` gives that precursor with the parsed charge |
| MgfDecoder.PepmassWithoutCharge | src/io/mgf.rs:167-182 | `PEPMASS=mz intensity` gives that precursor without a charge |
| MgfDecoder.StartStep | src/io/mgf.rs:221-227 | only `BEGIN IONS` moves to ScanHeaders; every line keeps reading |
| MgfDecoder.BetweenStep | src/io/mgf.rs:229-234 | reading always goes on; error code and record are untouched; `BEGIN IONS` moves to ScanHeaders and any other line leaves the machine as it was |
| MgfDecoder.ScanHeaderStep | src/io/mgf.rs:135-199 | a peak line adds one occurrence of its peak, keeps the description and the error code, moves to Peaks and keeps reading; a `KEY=VALUE` line that is neither a peak nor `END IONS` sets the description to `ApplyHeader`'s result and keeps the peaks, state and error, or panics with `ApplyHeader`'s reason; a step that stops the read leaves the machine in Error |
| MgfDecoder.PeakStep | src/io/mgf.rs:201-219 | a peak line adds one occurrence of its peak and keeps the description, the state and the error code, and reading goes on; a step that stops the read leaves the machine in Between or Error |
| MgfDecoder.HandleLine | src/io/mgf.rs:305-313 | Start and Between keep the record and keep reading; FileHeader, Done and Error run no handler; a stop leaves Error, or Between after Peaks |
| MgfDecoder.WaitingForRecord | src/io/mgf.rs:221-234 | in Start or Between, the state becomes ScanHeaders iff the line is `BEGIN IONS`; any other line changes nothing |
| MgfDecoder.ReadFromCountsBytes | src/io/mgf.rs:294-299 | the count `read_into` returns is the number of bytes the cursor moved; a read before the end moves it, never past the end; a read at or past the end leaves it where it is |
| MgfDecoder.NumericLineIsNeverHeader | src/io/mgf.rs:141-150 | in ScanHeaders a numeric-first line never touches the description; if it does not panic it moves to Peaks |
| MgfDecoder.MalformedHeaderExactly | src/io/mgf.rs:194-198 | the malformed-header stop happens iff the line is not numeric-first, not `END IONS` and has no '='; it sets Error/MalformedHeaderLine |
| MgfDecoder.EndIonsTransitions | src/io/mgf.rs:151-153 | `END IONS` after peaks stops in Between; in the header section it moves to Between but keeps reading, and a following `BEGIN IONS` reopens the same record |
| MgfDecoder.MalformedPeakExactly | src/io/mgf.rs:210-218 | in Peaks, a line that is neither a peak nor `END IONS` sets Error/MalformedPeakLine and stops |
| MgfDecoder.LineStep | src/io/mgf.rs:287-316 | a line fails iff it is not UTF-8, setting Error/IOError; a blank line changes nothing; a normal stop is only from Peaks into Between; Done is inert |
| MgfDecoder.ReadFromZeroAtEnd | src/io/mgf.rs:296-299 | a read returns 0 bytes iff it starts at the end of the stream, and then sets Done |
| MgfDecoder.ReadFromEndStates | src/io/mgf.rs:273-319 | a normal return is in Between or Done (Done only at the end of the stream); an I/O failure is in Error with IOError |
| MgfDecoder.ReadFromDone | src/io/mgf.rs:305-313 | from Done a read consumes the rest of the stream without touching the machine, or fails on a non-UTF-8 line |
| MgfDecoder.ReadFromStartIsBetween | src/io/mgf.rs:221-234 | a read from Start and a read from Between give the same run |
| MgfDecoder.RecordReadInDoneIsEmpty | src/io/mgf.rs:411-424 | a random read from Done inside the stream yields the record as it was (empty for a fresh one) or nothing |
| MgfDecoder.NextRecord | src/io/mgf.rs:255-270 | `read_next` returns a record iff bytes were consumed, and it is the filled record; it aborts iff the read aborted; an I/O error gives no record |
| MgfDecoder.HeaderSteps | src/io/mgf.rs:135-199 | header lines read one after another in the header section change only the description, which becomes the headers applied in file order |
| MgfDecoder.PeakSteps | src/io/mgf.rs:135-219 | one or more peak lines read in the header or the peak section end in Peaks with one more occurrence of each line's peak, keeping the description and the error code |
| MgfDecoder.RecordSteps | src/io/mgf.rs:135-234 | `BEGIN IONS`, header lines and peak lines read from Start or Between keep reading and end in Peaks with the headers applied and the peaks added |
| MgfDecoder.DriveRun | src/io/mgf.rs:280-318 | whole lines lying at the cursor, each but the last keeping the loop going and the last ending it, are read exactly: the loop stops right after them with the last line's machine and counts their bytes |
| MgfDecoder.ReadRecord | src/io/mgf.rs:273-319 | a whole record (`BEGIN IONS`, headers, at least one peak, `END IONS`) written anywhere in a stream and read from Start or Between is consumed exactly, whatever follows it; the read stops in Between with the error code untouched, the description is the old one with the headers applied in order, and the peaks are the old ones plus one occurrence of each peak line's peak |
| MgfDecoder.ReadNextRecord | src/io/mgf.rs:255-319 | `read_next` on a whole record returns exactly that record: the headers applied to a fresh description, and the peaks of its peak lines |
| Spectra.AddPeak | src/io/mgf.rs:142-145 | adds one occurrence of the peak and keeps the description |
| Spectra.SetStartTime | src/io/mgf.rs:160-166 | sets the first scan event's start time, adding the event when there is none; the other events and fields are unchanged |
| Text.LineEnd | src/io/mgf.rs:250-252 | one line read stops just past the next newline, or at the end of the stream |
| Text.Trim | src/io/mgf.rs:300 | the trimmed line starts and ends with non-whitespace |
| Text.TrimIsSlice | src/io/mgf.rs:300 | the trimmed line is one slice of the line, and everything cut off is whitespace |
| Text.SplitPeakFields | src/io/mgf.rs:116-118 | the first column runs up to the first whitespace; there is one column iff the line has no whitespace; the second column starts where the first separator ends (after one tab, or after a whole whitespace run that does not start with a tab) and runs up to the next whitespace |
| Text.SplitFieldsHaveNoWhitespace | src/io/mgf.rs:116-118 | no column holds whitespace |
| Text.SplitPeakFieldsOfTwo | src/io/mgf.rs:116-118 | two columns joined by a tab or by a non-tab-led whitespace run split back into those two |
| Text.SplitPeakFieldsLeading | src/io/mgf.rs:116-118 | a field, a separator and a second field at the start of a line, followed by nothing or by whitespace, are its first two columns |
| Text.SplitPeakFieldsDoubleTab | src/io/mgf.rs:116-118 | two tabs leave an empty column between the two columns |
| Text.SplitAsciiWhitespaceWeaves | src/io/mgf.rs:168 | every value is its fields laid out between ASCII-whitespace separators, the inner ones non-empty |
| Text.WeaveSplits | src/io/mgf.rs:168 | non-empty words laid out between ASCII-whitespace separators (inner ones non-empty) split back into exactly those words; with `SplitAsciiWhitespaceWeaves`, the fields are the maximal runs without ASCII whitespace, in order |
| Text.SplitAsciiWhitespaceOfThree | src/io/mgf.rs:168-175 | three words joined by single spaces split back into those three words |
| Text.ParseI32 | src/io/mgf.rs:173-175 | the text parses iff it is an optional sign followed by at least one digit and its signed value lies in the signed 32-bit range; the result is that value |
| Text.ParseDecimalText | src/io/mgf.rs:173-175 | every `i32`, printed in decimal, parses back to itself |
| Text.DecodeEncode | src/io/mgf.rs:388-393 | every string survives the UTF-8 round trip |
| OffsetIndexing.NewIndex | src/io/mgf.rs:322-331 | the index starts well formed, empty and not initialised |
| OffsetIndexing.Insert | src/io/mgf.rs:389-390 | the identifier maps to the new offset, other lookups are unchanged, a new identifier takes the next position and an existing one keeps its place |
| OffsetIndexing.GetIndex | src/io/mgf.rs:427-428 | a position has an entry iff it is below the length, and that entry is what the identifier looks up to |
| MgfIndex.ScanLine | src/io/mgf.rs:373-398 | one line keeps the index well formed, advances the offset by the line's length and keeps name and init |
| MgfIndex.ScanCountsStream | src/io/mgf.rs:373-398 | the pre-scan counts every byte of the stream |
| MgfIndex.TitleEntriesAreTitled | src/io/mgf.rs:373-398 | every (identifier, offset) pair the scan inserts names a titled record: the offset is a line starting with `BEGIN IONS`, and the identifier is the UTF-8 rest of the first `TITLE=` line after it, with no line starting with `BEGIN IONS` or `TITLE=` in between |
| MgfIndex.TitledAreEntries | src/io/mgf.rs:373-398 | every titled record with a UTF-8 title gives the scan a pair (its identifier, its offset) |
| MgfIndex.BuildFromEntries | src/io/mgf.rs:358-406 | after the pre-scan every identifier names a record carrying it, or kept its earlier lookup; every titled record's identifier is present |
| MgfIndex.BuiltEntriesAreTitledRecords | src/io/mgf.rs:358-406 | built from an empty index, an identifier is present iff some record carries it as title, and its offset is a record that carries it |
| MgfIndex.ScanFromInserts | src/io/mgf.rs:373-398 | the scan is exactly the insertion of its (title, record start) pairs in file order |
| MgfIndex.InsertAllLookup | src/io/mgf.rs:389-390 | after the insertions an identifier maps to the last offset given for it, or else to what it had |
| MgfIndex.RebuildIsIdempotent | src/io/mgf.rs:358-406 | building again over the same stream, without clearing, changes nothing |
| MgfIndex.OneLetterTitle | src/io/mgf.rs:387-390 | a one-character title line is indexed under that character followed by the newline |
| MgfIndex.TwoRecordsIndex | src/io/mgf.rs:358-406 | two records titled A and B give an index of length 2: position 0 is A at byte 0, position 1 is B at byte 28; 56 bytes are counted; the bare "A" is not a key |
| Mgf.MgfReader.constructor | src/io/mgf.rs:322-331 | a new reader is at byte 0, in Start, with no error and an empty index named "spectrum" |
| Mgf.MgfReader.Indexed | src/io/mgf.rs:346-350 | like the constructor, with the index built over the whole file and marked initialised: its identifiers are exactly the titles of the file's records, each at a record that carries it |
| Mgf.MgfReader.ParsePeakFromLine | src/io/mgf.rs:110-133 | returns `PeakFromLine`; with a single column it also sets Error/TooManyColumnsForPeakLine, otherwise state and error are unchanged |
| Mgf.MgfReader.HandleStart | src/io/mgf.rs:221-227 | changes the state as `StartStep` does |
| Mgf.MgfReader.HandleBetween | src/io/mgf.rs:229-234 | changes the state as `BetweenStep` does |
| Mgf.MgfReader.HandleScanHeader | src/io/mgf.rs:135-199 | state, error, filled record and result are those of `ScanHeaderStep` |
| Mgf.MgfReader.HandlePeak | src/io/mgf.rs:201-219 | state, error, filled record and result are those of `PeakStep` |
| Mgf.MgfReader.Dispatch | src/io/mgf.rs:305-313 | state, error, filled record and result are those of `HandleLine` |
| Mgf.MgfReader.StepLine | src/io/mgf.rs:287-316 | one line's effect is `LineStep`'s, with the machine stored in the reader; a failure leaves IOError |
| Mgf.MgfReader.ReadLine | src/io/mgf.rs:281-316 | moves the cursor past one line; the remaining read equals the rest of the loop after that line |
| Mgf.MgfReader.ReadInto | src/io/mgf.rs:273-319 | cursor, state, error, filled record and outcome are those of `ReadFrom` from the old cursor and machine; the reader stays valid |
| Mgf.MgfReader.ReadLines | src/io/mgf.rs:280-318 | the loop ends where the line-by-line run ends, with its machine and outcome |
| Mgf.MgfReader.ReadNext | src/io/mgf.rs:255-270 | returns `NextRecord` of a read into a fresh record; cursor, state and error are those of that read; the reader stays valid |
| Mgf.MgfReader.Seek | src/io/mgf.rs:352-354 | succeeds iff the offset is within the signed 64-bit range, and then moves the cursor there; otherwise the cursor stays |
| Mgf.MgfReader.IndexLine | src/io/mgf.rs:384-397 | one line updates the loop variables and the index as `ScanLine` does |
| Mgf.MgfReader.BuildIndex | src/io/mgf.rs:358-406 | the index becomes `BuildFrom` over the whole stream, marked initialised: every identifier names a record carrying it or kept its lookup, every titled record's identifier is present; the cursor is restored; returns the stream length |
| Mgf.MgfReader.GetSpectrumById | src/io/mgf.rs:411-424 | an unknown identifier panics and an unseekable offset panics, both leaving cursor, state and error unchanged; otherwise returns `NextRecord` of a read from that offset in the current state, restores the cursor when the read returns, and leaves it where the read stopped when the read panicked; the reader stays valid |
| Mgf.MgfReader.GetSpectrumByIndex | src/io/mgf.rs:427-439 | a missing position or an unseekable offset gives no record and leaves cursor, state and error unchanged; otherwise as by identifier, with the same cursor outcome; the reader stays valid |
| Mgf.MgfReader.Reset | src/io/mgf.rs:442-446 | the cursor goes back to byte 0 |
| Mgf.MgfReader.StartFrom | src/io/mgf.rs:457-465 | no offset gives ScanNotFound, an unseekable one an I/O error, both without moving; otherwise the cursor moves there |
| Mgf.MgfReader.StartFromId | src/io/mgf.rs:457-465 | positions the cursor at the identifier's offset; an unknown identifier is ScanNotFound |
| Mgf.MgfReader.StartFromIndex | src/io/mgf.rs:467-475 | positions the cursor at the offset of entry `i`; a position past the end is ScanNotFound |
| Mgf.MgfReader.StartFromTime | src/io/mgf.rs:477-485 | positions the cursor at the resolved offset; an unresolved time is ScanNotFound |
| Instrument.DefaultComponent | src/meta/instrument.rs:30-37 | a default component is Unknown, order 0, with no parameters |
| Instrument.FindTerm | src/meta/instrument.rs:200-244 | finds the table's term with that accession, and finds none iff the table has no such term |
| Instrument.ParentTerms | src/meta/instrument.rs:107-144 | the parents are terms of the table whose accessions are listed, and every listed parent found in the table is among them |
| Instrument.TermParam | src/meta/instrument.rs:107-144 | a term as a parameter is an MS parameter with its accession, its name and no value |
| Instrument.ParentParams | src/meta/instrument.rs:107-144 | each parent parameter is an MS parameter with no value, whose accession is one of the term's parents |
| Instrument.FirstMsTerm | src/meta/instrument.rs:40-52 | none iff no MS parameter names a term; otherwise the term of the first MS parameter that does |
| Instrument.MassAnalyzer | src/meta/instrument.rs:40-52 | a found term is in the mass-analyzer table and is named by an MS parameter of the component |
| Instrument.DetectorType | src/meta/instrument.rs:54-66 | a found term is in the detector table and is named by an MS parameter of the component |
| Instrument.IonizationType | src/meta/instrument.rs:68-80 | a found term is in the ionization table and is named by an MS parameter of the component |
| Instrument.NameIn | src/meta/instrument.rs:82-105 | no name iff no MS parameter has an accession; otherwise the first such accession's term name, or a panic on that accession when the table lacks it |
| Instrument.Name | src/meta/instrument.rs:82-105 | Unknown has no name; otherwise none iff no MS parameter has an accession; a panic names an MS accession the kind's table lacks; without a panic it is the name of the term the kind's typed lookup finds |
| Instrument.NameAgreesWithLookup | src/meta/instrument.rs:40-105 | when the name lookup does not panic it gives the name of the typed lookup's term |
| Instrument.ParentTypesIn | src/meta/instrument.rs:107-144 | empty when no parameter names a term; otherwise the parents of the first one that does, whatever its vocabulary; all are MS parameters with no value |
| Instrument.ParentTypes | src/meta/instrument.rs:107-144 | Unknown has no parents; all are MS parameters with no value; when only MS parameters name terms, they are the parents of the term the kind's typed lookup finds |
| Instrument.ParentTypesOfLookup | src/meta/instrument.rs:40-52 | when every parameter naming a term is an MS parameter, the parent lookup follows the typed lookup's term |
| Instrument.ForeignVocabularyParam | src/meta/instrument.rs:107-119 | a quadrupole named by another vocabulary is passed over by the typed and name lookups, while the parent lookup still reports its parent |
| Instrument.UnknownMsAccessionPanics | src/meta/instrument.rs:82-90 | an MS accession missing from the table makes the name lookup panic, while the typed lookup goes on to the next parameter |
| Instrument.InstrumentConfiguration.constructor | src/meta/instrument.rs:148-158 | a default configuration has no components, no parameters, an empty software reference and id 0 |
| Instrument.InstrumentConfiguration.IsEmpty | src/meta/instrument.rs:169-175 | empty iff the length is zero |
| Instrument.InstrumentConfiguration.Push | src/meta/instrument.rs:179-183 | appends the component with its order set to the old length cast to `u8`; the length grows by one; every order stays equal to its position mod 256 |
| Instrument.InstrumentConfiguration.NewComponent | src/meta/instrument.rs:162-167 | appends and returns a default component of the kind with the next order; every order stays equal to its position mod 256 |

## Left out

- **Accession numbers.** `Instrument.Param`: accessions are unbounded integers,
  not `u32`. Nothing here depends on their width.
- **The vocabulary macro.** The `cvmap!` macro and its generated
  `from_accession`/`parents`/`to_param` are not part of this model. Their
  behaviour is taken to be:
  - table lookup by accession;
  - the listed parents that are in the same table, in order (a parent outside
    the table is dropped);
  - an MS parameter with the term's name and accession and no value.
- **Vocabulary tables.** The lookups take the three tables as a `Vocabulary`
  parameter. `Instrument.PsiMs()` holds the tables of the source. Nothing is
  proved about the tables' own contents, and the inlet table is not modelled.
- **Other configuration methods.** `Instrument.InstrumentConfiguration.NewComponent`
  returns a copy of the appended component. The source returns a `&mut`
  reference into the list, and that aliasing is not modelled. `iter`, `last`,
  `last_mut`, `Display`, `impl_param_described!` and the extra fields of
  `Param` (unit) are not modelled either.
- **Buffering and I/O errors.** The reader reads the whole file as a byte
  sequence; `BufReader` buffering is not modelled. The only I/O error
  `read_line` can raise on it is a line that is not UTF-8. Its bytes are
  consumed, and `build_index`'s `read_until` never fails.
- **Panics.** A panic is returned as a value naming it; unwinding is not
  modelled. After a panic inside `get_spectrum_by_id` or
  `get_spectrum_by_index` the cursor stays where the read left it, as in the
  source.
- **Numbers.** m/z, intensity and retention time are kept as the literal text
  that `f64`/`f32` parsing accepts (Rust's documented grammar, `inf`/`nan`
  included); the model never rounds to floating point. Charges are parsed to
  integers in the signed 32-bit range.
- **Unicode classes.** `Text.IsNumeric` and `Text.LowerChar` are exact for
  U+0000..U+00FF only. Outside that range a character counts as neither
  numeric nor upper-case.
- **Logging.** The `println!` in `read_next` and the `warn!` calls in
  `build_index` and `get_index` are left out: they write to a log and change
  no state.
- **Unmodelled accessors and helpers.** The `Iterator` implementation (it only
  calls `read_next`), `stream_position`, the `get_index` accessor and
  `SpectrumBuilder` are not modelled.
- **Unused source state.** The `FileHeader` state and the `offset` field are
  never used by the code. The state exists in `MgfDecoder.ParserState` with no
  handler.
- `Mgf.MgfReader.StartFromId`: the helper `_offset_of_id` is not part of this
  model; it is taken to be the index lookup by identifier, as in
  `get_spectrum_by_id`.
- `Mgf.MgfReader.StartFromIndex`: the helper `_offset_of_index` is not part of
  this model; it is taken to be the index entry at that position, as in
  `get_spectrum_by_index`.
- `MgfIndex.BuiltEntriesAreTitledRecords`: when two records carry the same
  title, the offset kept is the later one. The lemma states only that the
  offset is one of those records; `MgfIndex.InsertAllLookup` states which.
- `Mgf.MgfReader.StartFromTime`: the time-to-offset lookup `_offset_of_time`
  is not part of this model, so the method takes the resolved offset as a
  parameter.
- `Mgf.MgfReader.Seek`: a seek fails only past the signed 64-bit offset range.
  `usize`/`u64` counters are unbounded integers, and the source cannot
  overflow them on a file that fits in that range.
- `MgfDecoder.ReadRecord`: records are written with trimmed lines ending in a
  single `\n`. Blank lines inside a record, `\r\n` endings and padding around
  a line are not covered by the lemma (the single-line lemmas cover them).
- `Spectra.NewScan` has no contract of its own: it is the constant empty
  record (MS level 2, centroid, unknown polarity).
- **Test data.** The source's tests read `test/data/small.mgf`, which is not
  part of this model. The index behaviour of a two-record file is stated by
  `MgfIndex.TwoRecordsIndex`.
