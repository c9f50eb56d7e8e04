/**
 * The MGF line-driven state machine, as pure functions: what each handler does
 * to the parser state, the error code and the record being filled, and what one
 * `read_into` call does to a byte stream from a cursor.  The reader class in
 * module Mgf performs these steps imperatively and is proved to agree with them.
 */
module MgfDecoder {
  import opened Wrappers
  import opened Text
  import opened Spectra

  datatype ParserState = Start | FileHeader | ScanHeaders | Peaks | Between | Done | Error

  datatype MgfError = NoError | MalformedPeakLine | MalformedHeaderLine | TooManyColumnsForPeakLine | IOError

  /** Why the reader aborts: each is a Rust panic in the source. */
  datatype Panic =
    | ParsingError(error: MgfError) // `read_into` once the state is Error
    | BadNumber(token: string)      // `parse().unwrap()` on a token that is not a number
    | MissingField                  // a field index past the end of the split line
    | OffsetNotFound                // `index.get(id).expect(..)` for an unknown identifier
    | SeekFailed                    // `seek(..).expect(..)`

  const BeginIons: string := "BEGIN IONS"
  const EndIons: string := "END IONS"

  /** What the handlers read and write: the parser state, the error code, the record. */
  datatype Machine = Machine(state: ParserState, error: MgfError, spectrum: Spectrum)

  /** A handler either returns whether to keep reading, or panics. */
  datatype Handled = Handled(machine: Machine, work: bool) | Panicked(machine: Machine, reason: Panic)

  // ---------------------------------------------------------------------------
  // Peak lines
  // ---------------------------------------------------------------------------

  datatype PeakParse =
    | NotPeak
    | PeakFound(peak: Peak)
    | TooFewColumns(reason: Panic) // state Error / TooManyColumnsForPeakLine is set, then it panics
    | BadPeak(reason: Panic)

  /**
   * `parse_peak_from_line`: a line is a peak line exactly when its first
   * character is numeric.  Its columns are split on `\t|\s+`; column 0 is the
   * m/z, column 1 the intensity, further columns are ignored.  With a single
   * column (no whitespace in the line) the column-count error is raised before
   * column 1 is read, which then panics.
   */
  function PeakFromLine(line: string): (r: PeakParse)
    requires |line| > 0
    ensures r.NotPeak? <==> !IsNumeric(line[0])
    ensures r.TooFewColumns? <==> IsNumeric(line[0]) && NoWhitespace(line)
    ensures r.PeakFound? ==>
      && r.peak.mz == line[..WhitespaceFrom(line, 0)]
      && IsFloatLiteral(r.peak.mz) && IsFloatLiteral(r.peak.intensity)
      && NoWhitespace(r.peak.intensity)
    ensures r.PeakFound? <==>
      && IsNumeric(line[0]) && |SplitPeakFields(line)| >= 2
      && IsFloatLiteral(SplitPeakFields(line)[0]) && IsFloatLiteral(SplitPeakFields(line)[1])
    ensures r.PeakFound? ==> r.peak == Peak(SplitPeakFields(line)[0], SplitPeakFields(line)[1])
  {
    if !IsNumeric(line[0]) then NotPeak
    else
      SplitFieldsHaveNoWhitespace(line);
      var parts := SplitPeakFields(line);
      if |parts| < 2 then
        TooFewColumns(if IsFloatLiteral(parts[0]) then MissingField else BadNumber(parts[0]))
      else if !IsFloatLiteral(parts[0]) then BadPeak(BadNumber(parts[0]))
      else if !IsFloatLiteral(parts[1]) then BadPeak(BadNumber(parts[1]))
      else PeakFound(Peak(parts[0], parts[1]))
  }

  /**
   * `is_numeric` admits more than ASCII digits, but no float literal starts with
   * such a character: a line that starts with one never yields a peak.
   */
  lemma NonAsciiNumericNeverPeak(line: string)
    requires |line| > 0 && IsNumeric(line[0]) && !IsDigit(line[0])
    ensures !PeakFromLine(line).PeakFound?
    ensures !PeakFromLine(line).NotPeak?
  {
    var parts := SplitPeakFields(line);
    if IsFloatLiteral(parts[0]) {
      FloatLiteralFirstChar(parts[0]);
      assert false;
    }
  }

  /**
   * A line of two numeric columns separated by a tab, or by a run of
   * whitespace, is the peak of those two columns.
   */
  lemma TwoColumnPeak(mz: string, sep: string, intensity: string)
    requires |mz| > 0 && IsDigit(mz[0]) && IsFloatLiteral(mz) && NoWhitespace(mz)
    requires |intensity| > 0 && IsFloatLiteral(intensity) && NoWhitespace(intensity)
    requires sep == "\t" || (|sep| > 0 && sep[0] != '\t' && forall k :: 0 <= k < |sep| ==> IsWhitespace(sep[k]))
    ensures PeakFromLine(mz + sep + intensity) == PeakFound(Peak(mz, intensity))
  {
    SplitPeakFieldsOfTwo(mz, sep, intensity);
    assert (mz + sep + intensity)[0] == mz[0];
  }

  /**
   * Columns after the second are ignored: a line that starts with two numeric
   * columns, followed by nothing or by whitespace and anything, is the peak of
   * those two columns.
   */
  lemma LeadingColumnsPeak(mz: string, sep: string, intensity: string, rest: string)
    requires |mz| > 0 && IsDigit(mz[0]) && IsFloatLiteral(mz) && NoWhitespace(mz)
    requires |intensity| > 0 && IsFloatLiteral(intensity) && NoWhitespace(intensity)
    requires sep == "\t" || (|sep| > 0 && sep[0] != '\t' && forall k :: 0 <= k < |sep| ==> IsWhitespace(sep[k]))
    requires rest == "" || IsWhitespace(rest[0])
    ensures PeakFromLine(mz + sep + intensity + rest) == PeakFound(Peak(mz, intensity))
  {
    SplitPeakFieldsLeading(mz, sep, intensity, rest);
    assert (mz + sep + intensity + rest)[0] == mz[0];
  }

  /**
   * Two tabs between the columns leave an empty column between them (the
   * separator is one tab), and parsing that empty intensity panics.
   */
  lemma DoubleTabPanics(mz: string, intensity: string)
    requires |mz| > 0 && IsDigit(mz[0]) && IsFloatLiteral(mz) && NoWhitespace(mz)
    requires |intensity| > 0 && NoWhitespace(intensity)
    ensures PeakFromLine(mz + "\t\t" + intensity) == BadPeak(BadNumber(""))
  {
    SplitPeakFieldsDoubleTab(mz, intensity);
    assert (mz + "\t\t" + intensity)[0] == mz[0];
    assert !IsMantissa("");
  }

  // ---------------------------------------------------------------------------
  // Header lines
  // ---------------------------------------------------------------------------

  /** `splitn(2, '=')`: the text before the first '='. */
  function HeaderKey(line: string): string
  {
    line[..IndexOf(line, '=')]
  }

  /** `splitn(2, '=')`: the text after the first '='. */
  function HeaderValue(line: string): string
    requires '=' in line
  {
    line[IndexOf(line, '=') + 1..]
  }

  /** Splitting at the first '=' loses nothing: key, '=', value give the line back. */
  lemma HeaderSplitRejoins(line: string)
    requires '=' in line
    ensures HeaderKey(line) + "=" + HeaderValue(line) == line
    ensures '=' !in HeaderKey(line)
  {
    var i := IndexOf(line, '=');
    assert line == line[..i] + [line[i]] + line[i + 1..];
  }

  /**
   * One `KEY=VALUE` header applied to the description.  `TITLE` sets the
   * identifier verbatim; `RTINSECONDS` sets the first scan event's start time;
   * `PEPMASS` builds the precursor from its ASCII-whitespace-separated fields
   * (charge present exactly when there is a third field); any other key is
   * stored lower-cased among the annotations, replacing an earlier value.
   */
  function ApplyHeader(d: Description, key: string, value: string): (r: Result<Description, Panic>)
    ensures key == "TITLE" ==> r == Ok(d.(id := value))
    ensures key == "RTINSECONDS" ==> (r.Ok? <==> IsFloatLiteral(value))
    ensures key == "RTINSECONDS" && r.Ok? ==> r.value == SetStartTime(d, value)
    ensures key == "PEPMASS" && r.Ok? ==>
      var fields := SplitAsciiWhitespace(value);
      && |fields| >= 2
      && r.value == d.(precursor := r.value.precursor)
      && r.value.precursor.Some?
      && r.value.precursor.value.mz == fields[0]
      && r.value.precursor.value.intensity == fields[1]
      && (r.value.precursor.value.charge.Some? <==> |fields| > 2)
      && (|fields| > 2 ==> r.value.precursor.value.charge == ParseI32(fields[2]))
    ensures key == "PEPMASS" ==>
      var fields := SplitAsciiWhitespace(value);
      (r.Ok? <==>
        && |fields| >= 2 && IsFloatLiteral(fields[0]) && IsFloatLiteral(fields[1])
        && (|fields| > 2 ==> ParseI32(fields[2]).Some?))
    ensures key !in {"TITLE", "RTINSECONDS", "PEPMASS"} ==>
      r == Ok(d.(annotations := d.annotations[ToLower(key) := value]))
  {
    if key == "TITLE" then Ok(d.(id := value))
    else if key == "RTINSECONDS" then
      if IsFloatLiteral(value) then Ok(SetStartTime(d, value)) else Err(BadNumber(value))
    else if key == "PEPMASS" then
      var parts := SplitAsciiWhitespace(value);
      if |parts| == 0 then Err(MissingField)
      else if !IsFloatLiteral(parts[0]) then Err(BadNumber(parts[0]))
      else if |parts| == 1 then Err(MissingField)
      else if !IsFloatLiteral(parts[1]) then Err(BadNumber(parts[1]))
      else if |parts| > 2 then
        match ParseI32(parts[2])
        case None => Err(BadNumber(parts[2]))
        case Some(z) => Ok(d.(precursor := Some(SelectedIon(parts[0], parts[1], Some(z)))))
      else Ok(d.(precursor := Some(SelectedIon(parts[0], parts[1], None))))
    else Ok(d.(annotations := d.annotations[ToLower(key) := value]))
  }

  /** `PEPMASS=<mz> <intensity> <charge>`: the precursor with that charge. */
  lemma PepmassWithCharge(d: Description, mz: string, intensity: string, charge: string)
    requires IsAsciiWord(mz) && IsAsciiWord(intensity) && IsAsciiWord(charge)
    requires IsFloatLiteral(mz) && IsFloatLiteral(intensity) && ParseI32(charge).Some?
    ensures ApplyHeader(d, "PEPMASS", mz + " " + intensity + " " + charge)
         == Ok(d.(precursor := Some(SelectedIon(mz, intensity, ParseI32(charge)))))
  {
    SplitAsciiWhitespaceOfThree(mz, intensity, charge);
  }

  /** `PEPMASS=<mz> <intensity>`: the precursor without a charge. */
  lemma PepmassWithoutCharge(d: Description, mz: string, intensity: string)
    requires IsAsciiWord(mz) && IsAsciiWord(intensity) && IsFloatLiteral(mz) && IsFloatLiteral(intensity)
    ensures ApplyHeader(d, "PEPMASS", mz + " " + intensity) == Ok(d.(precursor := Some(SelectedIon(mz, intensity, None))))
  {
    SplitAsciiWhitespaceOfWords(mz, intensity);
    SplitAsciiWhitespaceOfWord(intensity);
  }

  // ---------------------------------------------------------------------------
  // Handlers
  // ---------------------------------------------------------------------------

  /** `handle_start`: only `BEGIN IONS` opens a record; everything else is skipped. */
  function StartStep(m: Machine, line: string): (r: Handled)
    ensures r == Handled(if line == BeginIons then m.(state := ScanHeaders) else m, true)
  {
    if '=' in line then Handled(m, true)
    else if line == BeginIons then Handled(m.(state := ScanHeaders), true)
    else Handled(m, true)
  }

  /**
   * `handle_between`: only `BEGIN IONS` opens the next record; every other line
   * leaves the machine as it was; reading always goes on.
   */
  function BetweenStep(m: Machine, line: string): (r: Handled)
    ensures r.Handled? && r.work
    ensures r.machine.error == m.error && r.machine.spectrum == m.spectrum
    ensures line == BeginIons ==> r.machine.state == ScanHeaders
    ensures line != BeginIons ==> r.machine == m
  {
    if line == BeginIons then Handled(m.(state := ScanHeaders), true) else Handled(m, true)
  }

  /**
   * `handle_scan_header`: tried in this order: a peak line (which moves to
   * Peaks), `END IONS` (which moves to Between but keeps reading), a header
   * containing '=', and otherwise a malformed-header error.
   */
  function ScanHeaderStep(m: Machine, line: string): (r: Handled)
    requires |line| > 0
    ensures r.Handled? && !r.work ==> r.machine.state == Error
    ensures PeakFromLine(line).PeakFound? ==>
      && r.Handled? && r.work && r.machine.state == Peaks && r.machine.error == m.error
      && r.machine.spectrum.description == m.spectrum.description
      && r.machine.spectrum.peaks == m.spectrum.peaks + multiset{PeakFromLine(line).peak}
    ensures PeakFromLine(line).NotPeak? && line != EndIons && '=' in line ==>
      var applied := ApplyHeader(m.spectrum.description, HeaderKey(line), HeaderValue(line));
      && (applied.Ok? ==>
            && r.Handled? && r.work && r.machine.state == m.state && r.machine.error == m.error
            && r.machine.spectrum.peaks == m.spectrum.peaks
            && r.machine.spectrum.description == applied.value)
      && (applied.Err? ==> r == Panicked(m, applied.error))
  {
    match PeakFromLine(line)
    case PeakFound(p) => Handled(m.(state := Peaks, spectrum := AddPeak(m.spectrum, p)), true)
    case TooFewColumns(reason) => Panicked(m.(state := Error, error := TooManyColumnsForPeakLine), reason)
    case BadPeak(reason) => Panicked(m, reason)
    case NotPeak =>
      if line == EndIons then Handled(m.(state := Between), true)
      else if '=' in line then
        match ApplyHeader(m.spectrum.description, HeaderKey(line), HeaderValue(line))
        case Ok(d) => Handled(m.(spectrum := m.spectrum.(description := d)), true)
        case Err(reason) => Panicked(m, reason)
      else Handled(m.(state := Error, error := MalformedHeaderLine), false)
  }

  /**
   * `handle_peak`: another peak line keeps the state; `END IONS` moves to
   * Between and stops the read; anything else is a malformed-peak error.
   */
  function PeakStep(m: Machine, line: string): (r: Handled)
    requires |line| > 0
    ensures r.Handled? && !r.work ==> r.machine.state in {Between, Error}
    ensures PeakFromLine(line).PeakFound? ==>
      && r.Handled? && r.work && r.machine.state == m.state && r.machine.error == m.error
      && r.machine.spectrum.description == m.spectrum.description
      && r.machine.spectrum.peaks == m.spectrum.peaks + multiset{PeakFromLine(line).peak}
  {
    match PeakFromLine(line)
    case PeakFound(p) => Handled(m.(spectrum := AddPeak(m.spectrum, p)), true)
    case TooFewColumns(reason) => Panicked(m.(state := Error, error := TooManyColumnsForPeakLine), reason)
    case BadPeak(reason) => Panicked(m, reason)
    case NotPeak =>
      if line == EndIons then Handled(m.(state := Between), false)
      else Handled(m.(state := Error, error := MalformedPeakLine), false)
  }

  /** The dispatch in `read_into`: Done, FileHeader and Error run no handler. */
  function HandleLine(m: Machine, line: string): (r: Handled)
    requires |line| > 0
    ensures m.state in {Start, Between} ==>
      r.Handled? && r.work && r.machine.spectrum == m.spectrum && r.machine.state in {m.state, ScanHeaders}
    ensures m.state in {FileHeader, Done, Error} ==> r == Handled(m, true)
    ensures r.Handled? && !r.work ==> r.machine.state == Error || (r.machine.state == Between && m.state == Peaks)
  {
    match m.state
    case Start => StartStep(m, line)
    case Between => BetweenStep(m, line)
    case ScanHeaders => ScanHeaderStep(m, line)
    case Peaks => PeakStep(m, line)
    case _ => Handled(m, true)
  }

  // ---------------------------------------------------------------------------
  // Properties of single transitions
  // ---------------------------------------------------------------------------

  /**
   * Start and Between behave alike: only a line equal to `BEGIN IONS` moves to
   * ScanHeaders, every other line leaves everything as it was, and reading
   * always goes on.
   */
  lemma WaitingForRecord(m: Machine, line: string)
    requires |line| > 0 && (m.state == Start || m.state == Between)
    ensures HandleLine(m, line).Handled? && HandleLine(m, line).work
    ensures HandleLine(m, line).machine.state == ScanHeaders <==> line == BeginIons
    ensures line != BeginIons ==> HandleLine(m, line).machine == m
    ensures line == BeginIons ==> HandleLine(m, line).machine == m.(state := ScanHeaders)
  {
  }

  /**
   * In ScanHeaders a line starting with a numeric character is only ever a peak
   * line: it never reaches the header branch, so the description is untouched,
   * even for a `KEY=VALUE` line whose key starts with a digit.
   */
  lemma NumericLineIsNeverHeader(m: Machine, line: string)
    requires |line| > 0 && IsNumeric(line[0])
    ensures ScanHeaderStep(m, line).machine.spectrum.description == m.spectrum.description
    ensures ScanHeaderStep(m, line).Handled? ==> ScanHeaderStep(m, line).machine.state == Peaks
  {
  }

  /**
   * In ScanHeaders the malformed-header error is raised exactly for a line that
   * is not a peak line, not `END IONS` and has no '='; it stops the read.
   */
  lemma MalformedHeaderExactly(m: Machine, line: string)
    requires |line| > 0
    ensures (ScanHeaderStep(m, line).Handled? && !ScanHeaderStep(m, line).work)
      <==> (!IsNumeric(line[0]) && line != EndIons && '=' !in line)
    ensures !IsNumeric(line[0]) && line != EndIons && '=' !in line ==>
      ScanHeaderStep(m, line) == Handled(m.(state := Error, error := MalformedHeaderLine), false)
  {
    if ScanHeaderStep(m, line).Handled? && !ScanHeaderStep(m, line).work {
      assert PeakFromLine(line).NotPeak?;
    }
  }

  /**
   * `END IONS` ends a record differently in the two states: after peaks it
   * stops the read; in the header section it moves to Between but reading goes
   * on, so the following record is decoded into the same spectrum.
   */
  lemma EndIonsTransitions(m: Machine)
    ensures PeakStep(m, EndIons) == Handled(m.(state := Between), false)
    ensures ScanHeaderStep(m, EndIons) == Handled(m.(state := Between), true)
    ensures var after := ScanHeaderStep(m, EndIons).machine;
      HandleLine(after, BeginIons) == Handled(m.(state := ScanHeaders), true)
  {
    assert !IsNumeric(EndIons[0]);
  }

  /** In Peaks, a line that is neither a peak line nor `END IONS` is a malformed-peak error. */
  lemma MalformedPeakExactly(m: Machine, line: string)
    requires |line| > 0 && !IsNumeric(line[0]) && line != EndIons
    ensures PeakStep(m, line) == Handled(m.(state := Error, error := MalformedPeakLine), false)
  {
  }

  // ---------------------------------------------------------------------------
  // One read_into call
  // ---------------------------------------------------------------------------

  /** How a `read_into` call ends: bytes consumed, an I/O error returned, or a panic. */
  datatype ReadOutcome = Consumed(bytes: nat) | Failed(error: MgfError) | Aborted(reason: Panic)

  /** The cursor, the machine and the outcome after a `read_into` call. */
  datatype Run = Run(pos: nat, machine: Machine, outcome: ReadOutcome)

  /** What one line read by `read_into` does, before the byte count is added. */
  datatype LineEffect =
    | Next(machine: Machine)                  // keep reading
    | Finish(machine: Machine)                // the handler returned false: the read ends normally
    | Fail(machine: Machine)                  // the line is not UTF-8: `read_line` reports an I/O error
    | Abort(machine: Machine, reason: Panic)  // a panic

  /**
   * One line of `read_into`: a line that is not UTF-8 is an I/O error; a line
   * that is blank after trimming changes nothing; otherwise the handler of the
   * current state runs, and entering Error panics.  Only `END IONS` after peaks
   * ends the read normally, in Between; in Done nothing changes.
   */
  function LineStep(m: Machine, bytes: seq<byte>): (r: LineEffect)
    ensures r.Finish? ==> r.machine.state == Between && m.state == Peaks
    ensures r.Fail? <==> Utf8Decode(bytes).None?
    ensures r.Fail? ==> r.machine == m.(state := Error, error := IOError)
    ensures m.state == Done ==> r == Next(m) || r.Fail?
    ensures m.state in {Start, Between} && !r.Fail? ==> r.Next? && r.machine.spectrum == m.spectrum
    ensures Utf8Decode(bytes).Some? && |Trim(Utf8Decode(bytes).value)| == 0 ==> r == Next(m)
  {
    match Utf8Decode(bytes)
    case None => Fail(m.(state := Error, error := IOError))
    case Some(text) =>
      var line := Trim(text);
      if |line| == 0 then Next(m)
      else match HandleLine(m, line)
        case Panicked(m', reason) => Abort(m', reason)
        case Handled(m', work) =>
          if m'.state == Error then Abort(m', ParsingError(m'.error))
          else if work then Next(m')
          else Finish(m')
  }

  /** The per-line transition of `read_into`, as a value, so the loop can be reasoned about apart from it. */
  type LineReader = (Machine, seq<byte>) -> LineEffect

  /**
   * The loop of `read_into` from cursor `pos`, having consumed `consumed` bytes
   * so far: one line at a time until a line ends the read, or until zero bytes
   * are read at the end of the stream, which sets Done.
   */
  function Drive(step: LineReader, stream: seq<byte>, pos: nat, m: Machine, consumed: nat): Run
    decreases |stream| - pos
  {
    if pos >= |stream| then Run(pos, m.(state := Done), Consumed(consumed))
    else
      var end := LineEnd(stream, pos);
      match step(m, stream[pos..end])
      case Next(m') => Drive(step, stream, end, m', consumed + (end - pos))
      case Finish(m') => Run(end, m', Consumed(consumed + (end - pos)))
      case Fail(m') => Run(end, m', Failed(IOError))
      case Abort(m', reason) => Run(end, m', Aborted(reason))
  }

  /** `read_into` from cursor `pos`: the loop driven by the MGF line transition. */
  function ReadFrom(stream: seq<byte>, pos: nat, m: Machine, consumed: nat): Run
  {
    Drive(LineStep, stream, pos, m, consumed)
  }

  /** One turn of the loop from a cursor before the end of the stream. */
  lemma DriveLine(step: LineReader, stream: seq<byte>, pos: nat, m: Machine, consumed: nat)
    requires pos < |stream|
    ensures var end := LineEnd(stream, pos);
      Drive(step, stream, pos, m, consumed) == match step(m, stream[pos..end])
        case Next(m') => Drive(step, stream, end, m', consumed + (end - pos))
        case Finish(m') => Run(end, m', Consumed(consumed + (end - pos)))
        case Fail(m') => Run(end, m', Failed(IOError))
        case Abort(m', reason) => Run(end, m', Aborted(reason))
  {
  }

  /**
   * `step` gives the effect `LineStep` gives, line by line.  A loop that keeps
   * `step` abstract reasons about one line at a time, and is then related to
   * `ReadFrom` by DriveAgrees.
   */
  ghost predicate ActsAsLineStep(step: LineReader)
  {
    forall m: Machine, bytes: seq<byte> {:trigger LineStep(m, bytes)} :: step(m, bytes) == LineStep(m, bytes)
  }

  /** `LineStep` itself is such a step. */
  lemma LineStepActsAsLineStep()
    ensures ActsAsLineStep(LineStep)
  {
  }

  /** Two steps that agree on every line drive the loop alike. */
  lemma {:induction false} DriveAlike(f: LineReader, g: LineReader, stream: seq<byte>, pos: nat, m: Machine, consumed: nat)
    requires forall m: Machine, bytes: seq<byte> :: f(m, bytes) == g(m, bytes)
    ensures Drive(f, stream, pos, m, consumed) == Drive(g, stream, pos, m, consumed)
    decreases |stream| - pos
  {
    if pos < |stream| {
      var end := LineEnd(stream, pos);
      var e := f(m, stream[pos..end]);
      DriveLine(f, stream, pos, m, consumed);
      DriveLine(g, stream, pos, m, consumed);
      if e.Next? {
        DriveAlike(f, g, stream, end, e.machine, consumed + (end - pos));
      }
    }
  }

  /** A loop driven by a step that acts as `LineStep` is `read_into`. */
  lemma DriveAgrees(step: LineReader, stream: seq<byte>, pos: nat, m: Machine, consumed: nat)
    requires ActsAsLineStep(step)
    ensures Drive(step, stream, pos, m, consumed) == ReadFrom(stream, pos, m, consumed)
  {
    DriveAlike(step, LineStep, stream, pos, m, consumed);
  }

  /** A line that ends the read normally leaves the machine in Between. */
  ghost predicate FinishesInBetween(step: LineReader)
  {
    forall m, bytes :: step(m, bytes).Finish? ==> step(m, bytes).machine.state == Between
  }

  /** A failing line leaves the machine in Error with the I/O error code. */
  ghost predicate FailsWithIOError(step: LineReader)
  {
    forall m, bytes :: step(m, bytes).Fail? ==> step(m, bytes).machine == m.(state := Error, error := IOError)
  }

  /** In Done a line either changes nothing or fails. */
  ghost predicate DoneIsInert(step: LineReader)
  {
    forall m: Machine, bytes :: m.state == Done ==> step(m, bytes) == Next(m) || step(m, bytes).Fail?
  }

  /** Start and Between take each line alike, and whatever either keeps is kept in its own state. */
  ghost predicate StartActsAsBetween(step: LineReader)
  {
    forall m: Machine, bytes :: m.state == Start ==>
      || step(m, bytes) == step(m.(state := Between), bytes)
      || (step(m, bytes) == Next(m) && step(m.(state := Between), bytes) == Next(m.(state := Between)))
  }

  /**
   * The count a read returns is the number of bytes the cursor moved, blank
   * lines included; a read that starts before the end of the stream moves the
   * cursor, and never past the end.
   */
  lemma {:induction false} DriveCountsBytes(step: LineReader, stream: seq<byte>, pos: nat, m: Machine, consumed: nat)
    ensures var run := Drive(step, stream, pos, m, consumed);
      && run.pos >= pos
      && (pos >= |stream| ==> run.pos == pos)
      && (pos < |stream| ==> pos < run.pos <= |stream|)
      && (run.outcome.Consumed? ==> run.outcome.bytes == consumed + (run.pos - pos))
    decreases |stream| - pos
  {
    if pos < |stream| {
      var end := LineEnd(stream, pos);
      var effect := step(m, stream[pos..end]);
      if effect.Next? {
        DriveCountsBytes(step, stream, end, effect.machine, consumed + (end - pos));
      }
    }
  }

  /**
   * A read that returns normally leaves the machine in Between (a record was
   * closed) or in Done (the stream ran out); an I/O error leaves it in Error
   * with the I/O error code.
   */
  lemma {:induction false} DriveEndStates(step: LineReader, stream: seq<byte>, pos: nat, m: Machine, consumed: nat)
    requires FinishesInBetween(step) && FailsWithIOError(step)
    ensures var run := Drive(step, stream, pos, m, consumed);
      && (run.outcome.Consumed? ==> run.machine.state in {Between, Done})
      && (run.outcome.Consumed? && run.machine.state == Done ==> run.pos >= |stream|)
      && (run.outcome.Failed? ==> run.machine.state == Error && run.machine.error == IOError
                                  && run.outcome.error == IOError)
    decreases |stream| - pos
  {
    if pos < |stream| {
      var end := LineEnd(stream, pos);
      var effect := step(m, stream[pos..end]);
      if effect.Next? {
        DriveEndStates(step, stream, end, effect.machine, consumed + (end - pos));
      }
    }
  }

  /** From Done a read takes every remaining line without touching the machine. */
  lemma {:induction false} DriveDone(step: LineReader, stream: seq<byte>, pos: nat, m: Machine, consumed: nat)
    requires DoneIsInert(step) && m.state == Done
    ensures var run := Drive(step, stream, pos, m, consumed);
      && (run.outcome.Consumed? || run.outcome == Failed(IOError))
      && (run.outcome.Consumed? ==> run.machine == m && (pos <= |stream| ==> run.pos == |stream|))
    decreases |stream| - pos
  {
    if pos < |stream| {
      var end := LineEnd(stream, pos);
      if step(m, stream[pos..end]).Next? {
        DriveDone(step, stream, end, m, consumed + (end - pos));
      }
    }
  }

  /** With a step that cannot tell Start from Between, neither can the read. */
  lemma {:induction false} DriveStartIsBetween(step: LineReader, stream: seq<byte>, pos: nat, m: Machine, consumed: nat)
    requires StartActsAsBetween(step)
    ensures Drive(step, stream, pos, m.(state := Start), consumed)
         == Drive(step, stream, pos, m.(state := Between), consumed)
    decreases |stream| - pos
  {
    if pos < |stream| {
      var end := LineEnd(stream, pos);
      var start := m.(state := Start);
      if step(start, stream[pos..end]) != step(m.(state := Between), stream[pos..end]) {
        assert start.(state := Between) == m.(state := Between);
        DriveStartIsBetween(step, stream, end, m, consumed + (end - pos));
      }
    }
  }

  /** The MGF line transition has the four properties the loop lemmas rely on. */
  lemma LineStepShape()
    ensures FinishesInBetween(LineStep) && FailsWithIOError(LineStep)
    ensures DoneIsInert(LineStep) && StartActsAsBetween(LineStep)
  {
    forall m: Machine, bytes: seq<byte> | m.state == Start
      ensures || LineStep(m, bytes) == LineStep(m.(state := Between), bytes)
              || (LineStep(m, bytes) == Next(m) && LineStep(m.(state := Between), bytes) == Next(m.(state := Between)))
    {
      LineStepStartIsBetween(m, bytes);
    }
  }

  /** One line read in Start and in Between: the same effect, or each state kept as it was. */
  lemma LineStepStartIsBetween(m: Machine, bytes: seq<byte>)
    requires m.state == Start
    ensures || LineStep(m, bytes) == LineStep(m.(state := Between), bytes)
            || (LineStep(m, bytes) == Next(m) && LineStep(m.(state := Between), bytes) == Next(m.(state := Between)))
  {
    match Utf8Decode(bytes)
    case None =>
    case Some(text) =>
      var line := Trim(text);
      if |line| > 0 {
        WaitingForRecord(m, line);
        WaitingForRecord(m.(state := Between), line);
      }
  }

  /** `read_into` counts the bytes it moves over (see DriveCountsBytes). */
  lemma ReadFromCountsBytes(stream: seq<byte>, pos: nat, m: Machine, consumed: nat)
    ensures var run := ReadFrom(stream, pos, m, consumed);
      && run.pos >= pos
      && (pos >= |stream| ==> run.pos == pos)
      && (pos < |stream| ==> pos < run.pos <= |stream|)
      && (run.outcome.Consumed? ==> run.outcome.bytes == consumed + (run.pos - pos))
  {
    DriveCountsBytes(LineStep, stream, pos, m, consumed);
  }

  /** A read returns zero bytes exactly when it starts at (or past) the end of the stream. */
  lemma ReadFromZeroAtEnd(stream: seq<byte>, pos: nat, m: Machine)
    ensures (ReadFrom(stream, pos, m, 0).outcome == Consumed(0)) <==> pos >= |stream|
    ensures pos >= |stream| ==> ReadFrom(stream, pos, m, 0).machine == m.(state := Done)
  {
    DriveCountsBytes(LineStep, stream, pos, m, 0);
  }

  /** `read_into` returns normally in Between or Done, and fails only in Error with an I/O error. */
  lemma ReadFromEndStates(stream: seq<byte>, pos: nat, m: Machine, consumed: nat)
    ensures var run := ReadFrom(stream, pos, m, consumed);
      && (run.outcome.Consumed? ==> run.machine.state in {Between, Done})
      && (run.outcome.Consumed? && run.machine.state == Done ==> run.pos >= |stream|)
      && (run.outcome.Failed? ==> run.machine.state == Error && run.machine.error == IOError
                                  && run.outcome.error == IOError)
  {
    LineStepShape();
    DriveEndStates(LineStep, stream, pos, m, consumed);
  }

  /**
   * In Done no handler runs: the read takes every remaining line without
   * touching the record, and ends at the end of the stream (or at a line that is
   * not UTF-8).
   */
  lemma ReadFromDone(stream: seq<byte>, pos: nat, m: Machine, consumed: nat)
    requires m.state == Done
    ensures var run := ReadFrom(stream, pos, m, consumed);
      && (run.outcome.Consumed? || run.outcome == Failed(IOError))
      && (run.outcome.Consumed? ==> run.machine == m && (pos <= |stream| ==> run.pos == |stream|))
  {
    LineStepShape();
    DriveDone(LineStep, stream, pos, m, consumed);
  }

  /**
   * Starting in Start or in Between makes no difference to a read: same cursor,
   * same record, same final state, same outcome.
   */
  lemma ReadFromStartIsBetween(stream: seq<byte>, pos: nat, m: Machine, consumed: nat)
    ensures ReadFrom(stream, pos, m.(state := Start), consumed)
         == ReadFrom(stream, pos, m.(state := Between), consumed)
  {
    LineStepShape();
    DriveStartIsBetween(LineStep, stream, pos, m, consumed);
  }

  /**
   * Random access does not put the parser back in Start: once a sequential
   * read has run to the end (state Done), reading the record at any offset
   * inside the stream yields an empty record (or nothing), whatever is there.
   */
  lemma RecordReadInDoneIsEmpty(stream: seq<byte>, pos: nat, m: Machine)
    requires m.state == Done && pos < |stream|
    ensures NextRecord(ReadFrom(stream, pos, m, 0)) in {Ok(Some(m.spectrum)), Ok(None)}
  {
    ReadFromDone(stream, pos, m, 0);
    ReadFromCountsBytes(stream, pos, m, 0);
  }

  /** What `read_next` returns for a read into a fresh record: the record when bytes were consumed. */
  function NextRecord(run: Run): (r: Result<Option<Spectrum>, Panic>)
    ensures r.Ok? && r.value.Some? <==> run.outcome.Consumed? && run.outcome.bytes > 0
    ensures r.Err? <==> run.outcome.Aborted?
    ensures r.Ok? && r.value.Some? ==> r.value.value == run.machine.spectrum
  {
    match run.outcome
    case Consumed(b) => Ok(if b > 0 then Some(run.machine.spectrum) else None)
    case Failed(_) => Ok(None)
    case Aborted(reason) => Err(reason)
  }

  // ---------------------------------------------------------------------------
  // One whole record
  // ---------------------------------------------------------------------------

  /** A `KEY=VALUE` line of the header section: not a peak line, not `END IONS`. */
  predicate IsHeaderLine(l: string)
  {
    IsTrimmedLine(l) && !IsNumeric(l[0]) && l != EndIons && '=' in l
  }

  /** A line of the peak section that yields a peak. */
  predicate IsPeakLine(l: string)
  {
    IsTrimmedLine(l) && PeakFromLine(l).PeakFound?
  }

  /** Header lines applied to the description in file order, up to the first that panics. */
  function ApplyHeaders(d: Description, hs: seq<string>): (r: Result<Description, Panic>)
    requires forall i :: 0 <= i < |hs| ==> IsHeaderLine(hs[i])
    ensures |hs| == 0 ==> r == Ok(d)
    decreases |hs|
  {
    if |hs| == 0 then Ok(d)
    else
      assert IsHeaderLine(hs[0]);
      match ApplyHeader(d, HeaderKey(hs[0]), HeaderValue(hs[0]))
      case Ok(d') => ApplyHeaders(d', hs[1..])
      case Err(reason) => Err(reason)
  }

  /** The peaks of peak lines, one occurrence per line. */
  function LinePeaks(ps: seq<string>): (r: multiset<Peak>)
    requires forall i :: 0 <= i < |ps| ==> IsPeakLine(ps[i])
    ensures |r| == |ps|
    decreases |ps|
  {
    if |ps| == 0 then multiset{}
    else
      assert IsPeakLine(ps[0]);
      multiset{PeakFromLine(ps[0]).peak} + LinePeaks(ps[1..])
  }

  /** The machine after `step` takes each of `lines` in turn, or None when one of them does not keep reading. */
  function StepLines(step: LineReader, lines: seq<seq<byte>>, m: Machine): Option<Machine>
    decreases |lines|
  {
    if |lines| == 0 then Some(m)
    else match step(m, lines[0])
      case Next(m') => StepLines(step, lines[1..], m')
      case _ => None
  }

  /** Taking two runs of lines is taking the first and then the second. */
  lemma {:induction false} StepLinesAppend(step: LineReader, a: seq<seq<byte>>, b: seq<seq<byte>>, m: Machine)
    ensures StepLines(step, a + b, m)
         == match StepLines(step, a, m) case None => None case Some(m') => StepLines(step, b, m')
    decreases |a|
  {
    if |a| == 0 {
      assert a + b == b;
    } else {
      assert (a + b)[0] == a[0];
      assert (a + b)[1..] == a[1..] + b;
      if step(m, a[0]).Next? {
        StepLinesAppend(step, a[1..], b, step(m, a[0]).machine);
      }
    }
  }

  /** A whole line lying at `at` whose step keeps reading: the loop goes on right after it. */
  lemma DriveNextLine(step: LineReader, s: seq<byte>, at: nat, line: seq<byte>, m: Machine, consumed: nat)
    requires IsWholeLine(line) && at + |line| <= |s| && s[at..at + |line|] == line
    requires step(m, line).Next?
    ensures Drive(step, s, at, m, consumed) == Drive(step, s, at + |line|, step(m, line).machine, consumed + |line|)
  {
    LineEndAt(s, at, line);
    DriveLine(step, s, at, m, consumed);
  }

  /** A whole line lying at `at` whose step ends the read: the loop stops just after it. */
  lemma DriveLastLine(step: LineReader, s: seq<byte>, at: nat, line: seq<byte>, m: Machine, m': Machine, consumed: nat)
    requires IsWholeLine(line) && at + |line| <= |s| && s[at..at + |line|] == line
    requires step(m, line) == Finish(m')
    ensures Drive(step, s, at, m, consumed) == Run(at + |line|, m', Consumed(consumed + |line|))
  {
    LineEndAt(s, at, line);
    DriveLine(step, s, at, m, consumed);
  }

  /**
   * The machine after `step` takes `lines` in turn when every line but the
   * last keeps reading and the last ends the read; None otherwise.
   */
  function RunLines(step: LineReader, lines: seq<seq<byte>>, m: Machine): Option<Machine>
    decreases |lines|
  {
    if |lines| == 0 then None
    else match step(m, lines[0])
      case Next(m') => RunLines(step, lines[1..], m')
      case Finish(m') => if |lines| == 1 then Some(m') else None
      case _ => None
  }

  /** Lines that keep reading followed by one that ends the read run to the machine that last line leaves. */
  lemma {:induction false} RunLinesLast(step: LineReader, lines: seq<seq<byte>>, end: seq<byte>, m: Machine)
    requires StepLines(step, lines, m).Some? && step(StepLines(step, lines, m).value, end).Finish?
    ensures RunLines(step, lines + [end], m) == Some(step(StepLines(step, lines, m).value, end).machine)
    decreases |lines|
  {
    if |lines| == 0 {
      assert lines + [end] == [end];
    } else {
      assert (lines + [end])[0] == lines[0] && (lines + [end])[1..] == lines[1..] + [end];
      RunLinesLast(step, lines[1..], end, step(m, lines[0]).machine);
    }
  }

  /**
   * Whole lines lying at `at` that run to `last`: the loop stops right after
   * them with that machine, having consumed exactly their bytes.
   */
  lemma {:induction false} DriveRun(step: LineReader, s: seq<byte>, at: nat, lines: seq<seq<byte>>,
                                    m: Machine, last: Machine, consumed: nat)
    requires LinesAt(s, at, lines) && RunLines(step, lines, m) == Some(last)
    ensures Drive(step, s, at, m, consumed) == Run(at + |Concat(lines)|, last, Consumed(consumed + |Concat(lines)|))
    decreases |lines|
  {
    var line := lines[0];
    if step(m, line).Finish? {
      assert lines == [line];
      DriveLastLine(step, s, at, line, m, last, consumed);
    } else {
      DriveNextLine(step, s, at, line, m, consumed);
      DriveRun(step, s, at + |line|, lines[1..], step(m, line).machine, last, consumed + |line|);
    }
  }

  /** Whole lines written after `pre` that run to `last`: the loop reads exactly them and stops with `last`. */
  lemma DriveLines(step: LineReader, pre: seq<byte>, lines: seq<seq<byte>>, post: seq<byte>,
                   m: Machine, last: Machine, consumed: nat)
    requires forall i :: 0 <= i < |lines| ==> IsWholeLine(lines[i])
    requires RunLines(step, lines, m) == Some(last)
    ensures var n := |Concat(lines)|;
      Drive(step, pre + Concat(lines) + post, |pre|, m, consumed) == Run(|pre| + n, last, Consumed(consumed + n))
  {
    LinesAtConcat(pre, lines, post);
    DriveRun(step, pre + Concat(lines) + post, |pre|, lines, m, last, consumed);
  }

  /** The effect of a trimmed line whose handler keeps the machine out of Error. */
  lemma LineStepOfTrimmedLine(m: Machine, l: string)
    requires IsTrimmedLine(l)
    requires HandleLine(m, l).Handled? && HandleLine(m, l).machine.state != Error
    ensures IsWholeLine(LineBytes(l))
    ensures var h := HandleLine(m, l);
      LineStep(m, LineBytes(l)) == if h.work then Next(h.machine) else Finish(h.machine)
  {
    ReadTrimmedLine(l);
  }

  /** In the header section a header line sets the description to ApplyHeader's result. */
  lemma HeaderLineStep(step: LineReader, m: Machine, h: string)
    requires ActsAsLineStep(step) && m.state == ScanHeaders && IsHeaderLine(h)
    requires ApplyHeader(m.spectrum.description, HeaderKey(h), HeaderValue(h)).Ok?
    ensures IsWholeLine(LineBytes(h))
    ensures var d := ApplyHeader(m.spectrum.description, HeaderKey(h), HeaderValue(h)).value;
      step(m, LineBytes(h)) == Next(m.(spectrum := m.spectrum.(description := d)))
  {
    var d := ApplyHeader(m.spectrum.description, HeaderKey(h), HeaderValue(h)).value;
    assert HandleLine(m, h) == Handled(m.(spectrum := m.spectrum.(description := d)), true);
    LineStepOfTrimmedLine(m, h);
  }

  /** In the header or the peak section a peak line adds its peak and moves to (or stays in) Peaks. */
  lemma PeakLineStep(step: LineReader, m: Machine, p: string)
    requires ActsAsLineStep(step) && m.state in {ScanHeaders, Peaks} && IsPeakLine(p)
    ensures IsWholeLine(LineBytes(p))
    ensures step(m, LineBytes(p)) == Next(m.(state := Peaks, spectrum := AddPeak(m.spectrum, PeakFromLine(p).peak)))
  {
    assert HandleLine(m, p) == Handled(m.(state := Peaks, spectrum := AddPeak(m.spectrum, PeakFromLine(p).peak)), true);
    LineStepOfTrimmedLine(m, p);
  }

  /** `BEGIN IONS` read in Start or Between opens a record. */
  lemma BeginLineStep(step: LineReader, m: Machine)
    requires ActsAsLineStep(step) && m.state in {Start, Between}
    ensures IsWholeLine(LineBytes(BeginIons))
    ensures step(m, LineBytes(BeginIons)) == Next(m.(state := ScanHeaders))
  {
    WaitingForRecord(m, BeginIons);
    LineStepOfTrimmedLine(m, BeginIons);
  }

  /** `END IONS` read in Peaks closes the record and ends the read. */
  lemma EndLineStep(step: LineReader, m: Machine)
    requires ActsAsLineStep(step) && m.state == Peaks
    ensures IsWholeLine(LineBytes(EndIons))
    ensures step(m, LineBytes(EndIons)) == Finish(m.(state := Between))
  {
    EndIonsTransitions(m);
    LineStepOfTrimmedLine(m, EndIons);
  }

  /** Trimmed lines are whole lines once written to a file. */
  lemma EncodedWholeLines(ls: seq<string>)
    requires forall i :: 0 <= i < |ls| ==> IsTrimmedLine(ls[i])
    ensures forall i :: 0 <= i < |ls| ==> IsWholeLine(EncodeLines(ls)[i])
  {
    forall i | 0 <= i < |ls|
      ensures IsWholeLine(EncodeLines(ls)[i])
    {
      ReadTrimmedLine(ls[i]);
    }
  }

  /** In the header section, header lines change only the description, as ApplyHeaders does. */
  lemma {:induction false} HeaderSteps(step: LineReader, hs: seq<string>, m: Machine)
    requires ActsAsLineStep(step) && m.state == ScanHeaders
    requires forall i :: 0 <= i < |hs| ==> IsHeaderLine(hs[i])
    requires ApplyHeaders(m.spectrum.description, hs).Ok?
    ensures StepLines(step, EncodeLines(hs), m)
         == Some(m.(spectrum := m.spectrum.(description := ApplyHeaders(m.spectrum.description, hs).value)))
    decreases |hs|
  {
    if |hs| > 0 {
      var h := hs[0];
      var d := ApplyHeader(m.spectrum.description, HeaderKey(h), HeaderValue(h)).value;
      var m' := m.(spectrum := m.spectrum.(description := d));
      HeaderLineStep(step, m, h);
      EncodeLinesCons(hs);
      HeaderSteps(step, hs[1..], m');
    }
  }

  /** Peak lines read in the header or the peak section add their peaks and end in Peaks. */
  lemma {:induction false} PeakSteps(step: LineReader, ps: seq<string>, m: Machine)
    requires ActsAsLineStep(step) && m.state in {ScanHeaders, Peaks}
    requires |ps| > 0 && forall i :: 0 <= i < |ps| ==> IsPeakLine(ps[i])
    ensures StepLines(step, EncodeLines(ps), m)
         == Some(m.(state := Peaks, spectrum := m.spectrum.(peaks := m.spectrum.peaks + LinePeaks(ps))))
    decreases |ps|
  {
    var p := ps[0];
    var m' := m.(state := Peaks, spectrum := AddPeak(m.spectrum, PeakFromLine(p).peak));
    PeakLineStep(step, m, p);
    EncodeLinesCons(ps);
    if |ps| == 1 {
      assert LinePeaks(ps) == multiset{PeakFromLine(p).peak};
    } else {
      PeakSteps(step, ps[1..], m');
      assert m'.spectrum.peaks + LinePeaks(ps[1..]) == m.spectrum.peaks + LinePeaks(ps);
    }
  }

  /**
   * The opening line, the headers and the peak lines of a record, read from
   * Start or Between: the record gets the headers and the peaks, in Peaks.
   */
  lemma RecordSteps(step: LineReader, hs: seq<string>, ps: seq<string>, m: Machine)
    requires ActsAsLineStep(step) && m.state in {Start, Between}
    requires forall i :: 0 <= i < |hs| ==> IsHeaderLine(hs[i])
    requires ApplyHeaders(m.spectrum.description, hs).Ok?
    requires |ps| > 0 && forall i :: 0 <= i < |ps| ==> IsPeakLine(ps[i])
    ensures StepLines(step, EncodeLines([BeginIons] + hs + ps), m)
         == Some(Machine(Peaks, m.error,
                         Spectrum(ApplyHeaders(m.spectrum.description, hs).value, m.spectrum.peaks + LinePeaks(ps))))
  {
    var m1 := m.(state := ScanHeaders);
    var m2 := m1.(spectrum := m1.spectrum.(description := ApplyHeaders(m.spectrum.description, hs).value));
    BeginLineStep(step, m);
    assert StepLines(step, [LineBytes(BeginIons)], m) == Some(m1);
    HeaderSteps(step, hs, m1);
    PeakSteps(step, ps, m2);
    EncodeLinesAppend([BeginIons] + hs, ps);
    EncodeLinesAppend([BeginIons], hs);
    assert EncodeLines([BeginIons]) == [LineBytes(BeginIons)];
    StepLinesAppend(step, [LineBytes(BeginIons)] + EncodeLines(hs), EncodeLines(ps), m);
    StepLinesAppend(step, [LineBytes(BeginIons)], EncodeLines(hs), m);
  }

  /** The lines of one record: `BEGIN IONS`, the headers, the peaks, `END IONS`. */
  function RecordLines(hs: seq<string>, ps: seq<string>): seq<string>
  {
    [BeginIons] + hs + ps + [EndIons]
  }

  /**
   * A record that reads through from machine `m`: `m` waits for a record
   * (Start or Between), every header line applies without a panic and there
   * is at least one peak line.
   */
  predicate IsRecord(m: Machine, hs: seq<string>, ps: seq<string>)
  {
    && m.state in {Start, Between}
    && (forall i :: 0 <= i < |hs| ==> IsHeaderLine(hs[i]))
    && ApplyHeaders(m.spectrum.description, hs).Ok?
    && |ps| > 0 && (forall i :: 0 <= i < |ps| ==> IsPeakLine(ps[i]))
  }

  /**
   * The machine a record leaves: in Between, with the error code untouched,
   * the headers applied to the description in order and one more occurrence
   * of each peak line's peak.
   */
  function AfterRecord(m: Machine, hs: seq<string>, ps: seq<string>): Machine
    requires IsRecord(m, hs, ps)
  {
    Machine(Between, m.error,
            Spectrum(ApplyHeaders(m.spectrum.description, hs).value, m.spectrum.peaks + LinePeaks(ps)))
  }

  /**
   * A whole record read from Start or Between: the read takes exactly its
   * lines, whatever comes before or after them, and leaves AfterRecord.
   */
  lemma ReadRecord(pre: seq<byte>, hs: seq<string>, ps: seq<string>, post: seq<byte>, m: Machine, consumed: nat)
    requires IsRecord(m, hs, ps)
    ensures ReadFrom(pre + Concat(EncodeLines(RecordLines(hs, ps))) + post, |pre|, m, consumed)
      == Run(|pre| + |Concat(EncodeLines(RecordLines(hs, ps)))|, AfterRecord(m, hs, ps),
             Consumed(consumed + |Concat(EncodeLines(RecordLines(hs, ps)))|))
  {
    LineStepActsAsLineStep();
    DriveRecord(LineStep, pre, hs, ps, post, m, consumed);
  }

  /** ReadRecord for any line reader that acts as the MGF line transition. */
  lemma DriveRecord(step: LineReader, pre: seq<byte>, hs: seq<string>, ps: seq<string>, post: seq<byte>,
                    m: Machine, consumed: nat)
    requires ActsAsLineStep(step) && IsRecord(m, hs, ps)
    ensures Drive(step, pre + Concat(EncodeLines(RecordLines(hs, ps))) + post, |pre|, m, consumed)
      == Run(|pre| + |Concat(EncodeLines(RecordLines(hs, ps)))|, AfterRecord(m, hs, ps),
             Consumed(consumed + |Concat(EncodeLines(RecordLines(hs, ps)))|))
  {
    RecordRuns(step, hs, ps, m);
    DriveLines(step, pre, EncodeLines(RecordLines(hs, ps)), post, m, AfterRecord(m, hs, ps), consumed);
  }

  /** A record's lines, read from Start or Between, keep reading up to `END IONS`, which ends the read. */
  lemma RecordRuns(step: LineReader, hs: seq<string>, ps: seq<string>, m: Machine)
    requires ActsAsLineStep(step) && IsRecord(m, hs, ps)
    ensures var lines := EncodeLines(RecordLines(hs, ps));
      forall i :: 0 <= i < |lines| ==> IsWholeLine(lines[i])
    ensures RunLines(step, EncodeLines(RecordLines(hs, ps)), m) == Some(AfterRecord(m, hs, ps))
  {
    var opening := EncodeLines([BeginIons] + hs + ps);
    RecordLayout(hs, ps);
    RecordSteps(step, hs, ps, m);
    EndLineStep(step, StepLines(step, opening, m).value);
    RunLinesLast(step, opening, LineBytes(EndIons), m);
  }

  /** A record's lines: the opening, header and peak lines, all whole, then the `END IONS` line. */
  lemma RecordLayout(hs: seq<string>, ps: seq<string>)
    requires forall i :: 0 <= i < |hs| ==> IsHeaderLine(hs[i])
    requires forall i :: 0 <= i < |ps| ==> IsPeakLine(ps[i])
    ensures var opening := EncodeLines([BeginIons] + hs + ps);
      && EncodeLines(RecordLines(hs, ps)) == opening + [LineBytes(EndIons)]
      && |Concat(EncodeLines(RecordLines(hs, ps)))| == |Concat(opening)| + |LineBytes(EndIons)|
      && (forall i :: 0 <= i < |opening| + 1 ==> IsWholeLine((opening + [LineBytes(EndIons)])[i]))
  {
    var opening, end := EncodeLines([BeginIons] + hs + ps), LineBytes(EndIons);
    assert EncodeLines(RecordLines(hs, ps)) == opening + [end];
    ConcatAppend(opening, [end]);
    assert Concat([end]) == end;
    assert IsTrimmedLine(BeginIons) && IsTrimmedLine(EndIons);
    EncodedWholeLines([BeginIons] + hs + ps);
    ReadTrimmedLine(EndIons);
  }

  /**
   * `read_next` on a well-formed record: a fresh record read from Start or
   * Between comes back holding exactly the record's headers and peaks.
   */
  lemma ReadNextRecord(pre: seq<byte>, hs: seq<string>, ps: seq<string>, post: seq<byte>, m: Machine)
    requires IsRecord(m, hs, ps) && m.spectrum == NewScan()
    ensures NextRecord(ReadFrom(pre + Concat(EncodeLines(RecordLines(hs, ps))) + post, |pre|, m, 0))
         == Ok(Some(Spectrum(ApplyHeaders(NewScan().description, hs).value, LinePeaks(ps))))
  {
    LineStepActsAsLineStep();
    DriveNextRecord(LineStep, pre, hs, ps, post, m);
  }

  /** ReadNextRecord for any line reader that acts as the MGF line transition. */
  lemma DriveNextRecord(step: LineReader, pre: seq<byte>, hs: seq<string>, ps: seq<string>, post: seq<byte>, m: Machine)
    requires ActsAsLineStep(step) && IsRecord(m, hs, ps) && m.spectrum == NewScan()
    ensures NextRecord(Drive(step, pre + Concat(EncodeLines(RecordLines(hs, ps))) + post, |pre|, m, 0))
         == Ok(Some(Spectrum(ApplyHeaders(NewScan().description, hs).value, LinePeaks(ps))))
  {
    DriveRecord(step, pre, hs, ps, post, m, 0);
    RecordIsNotEmpty(hs, ps);
    assert AfterRecord(m, hs, ps).spectrum == Spectrum(ApplyHeaders(NewScan().description, hs).value, LinePeaks(ps));
  }

  /** A record has at least its `BEGIN IONS` line, so reading it consumes bytes. */
  lemma RecordIsNotEmpty(hs: seq<string>, ps: seq<string>)
    ensures |Concat(EncodeLines(RecordLines(hs, ps)))| > 0
  {
    var lines := EncodeLines(RecordLines(hs, ps));
    assert lines[0] == LineBytes(BeginIons);
    ReadTrimmedLine(BeginIons);
    assert Concat(lines) == lines[0] + Concat(lines[1..]);
  }
}
