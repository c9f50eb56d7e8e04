/**
 * The MGF reader object: a byte stream with a cursor, the parser state and
 * error code that its handlers update in place, and the offset index built by
 * the pre-scan.  Each method does what the corresponding Rust method does, step
 * by step, and is proved equal to the pure transition functions of modules
 * MgfDecoder and MgfIndex.
 */
module Mgf {
  import opened Wrappers
  import opened Text
  import opened Spectra
  import opened MgfDecoder
  import opened OffsetIndexing
  import MgfIndex

  /** The largest offset a seek accepts: a file offset is a signed 64-bit integer. */
  const MaxSeekOffset: nat := 0x7FFF_FFFF_FFFF_FFFF

  /** Why a seek-and-continue access fails. */
  datatype ScanAccessError = ScanNotFound | SeekIOError

  /** What a handler method returns: whether to keep reading, or the panic it raised. */
  function HandlerResult(h: Handled): (r: Result<bool, Panic>)
    ensures r.Ok? <==> h.Handled?
  {
    match h
    case Handled(_, work) => Ok(work)
    case Panicked(_, reason) => Err(reason)
  }

  class MgfReader {
    /** The contents of the underlying file. */
    const stream: seq<byte>
    /** The read cursor of the buffered handle. */
    var pos: nat
    var state: ParserState
    var error: MgfError
    var index: OffsetIndex

    /** The machine the handlers act on, with `s` as the record being filled. */
    function MachineWith(s: Spectrum): Machine
      reads this
    {
      Machine(state, error, s)
    }

    /** The file fits in the seekable range, the cursor is one a seek could set, the index is well formed. */
    ghost predicate Valid()
      reads this
    {
      |stream| <= MaxSeekOffset && pos <= MaxSeekOffset && OffsetIndexing.Valid(index)
    }

    /** `MGFReader::new`: at the start of the file, in Start, no error, an empty index named "spectrum". */
    constructor (file: seq<byte>)
      requires |file| <= MaxSeekOffset
      ensures Valid()
      ensures stream == file && pos == 0 && state == Start && error == NoError
      ensures index == NewIndex("spectrum")
    {
      stream := file;
      pos := 0;
      state := Start;
      error := NoError;
      index := NewIndex("spectrum");
    }

    /** `MGFReader::new_indexed`: a new reader whose index has been built. */
    constructor Indexed(file: seq<byte>)
      requires |file| <= MaxSeekOffset
      ensures Valid()
      ensures stream == file && pos == 0 && state == Start && error == NoError
      ensures index == MgfIndex.BuildFrom(file, NewIndex("spectrum")).index.(init := true)
      ensures forall k :: k in index.offsets ==> MgfIndex.Titled(file, k, index.offsets[k])
      ensures forall k: string, o: nat :: MgfIndex.Titled(file, k, o) ==> k in index.offsets
    {
      stream := file;
      pos := 0;
      state := Start;
      error := NoError;
      index := NewIndex("spectrum");
      new;
      var _ := BuildIndex();
      MgfIndex.BuiltEntriesAreTitledRecords(file, "spectrum");
    }

    // -------------------------------------------------------------------------
    // Handlers
    // -------------------------------------------------------------------------

    /**
     * `parse_peak_from_line`: classifies the line; with a single column it
     * records the column-count error in the reader before the panic.
     */
    method ParsePeakFromLine(line: string) returns (r: PeakParse)
      requires |line| > 0
      modifies this`state, this`error
      ensures r == PeakFromLine(line)
      ensures r.TooFewColumns? ==> state == Error && error == TooManyColumnsForPeakLine
      ensures !r.TooFewColumns? ==> state == old(state) && error == old(error)
    {
      if !IsNumeric(line[0]) {
        return NotPeak;
      }
      var parts := SplitPeakFields(line);
      if |parts| < 2 {
        state := Error;
        error := TooManyColumnsForPeakLine;
      }
      if !IsFloatLiteral(parts[0]) {
        r := if |parts| < 2 then TooFewColumns(BadNumber(parts[0])) else BadPeak(BadNumber(parts[0]));
        return;
      }
      if |parts| < 2 {
        return TooFewColumns(MissingField);
      }
      if !IsFloatLiteral(parts[1]) {
        return BadPeak(BadNumber(parts[1]));
      }
      r := PeakFound(Peak(parts[0], parts[1]));
    }

    /** `handle_start`. */
    method HandleStart(line: string) returns (work: bool)
      modifies this`state
      ensures forall s :: StartStep(old(MachineWith(s)), line) == Handled(MachineWith(s), work)
    {
      if '=' in line {
      } else if line == BeginIons {
        state := ScanHeaders;
      }
      work := true;
    }

    /** `handle_between`. */
    method HandleBetween(line: string) returns (work: bool)
      modifies this`state
      ensures forall s :: BetweenStep(old(MachineWith(s)), line) == Handled(MachineWith(s), work)
    {
      if line == BeginIons {
        state := ScanHeaders;
      }
      work := true;
    }

    /** `handle_scan_header`, filling `s`. */
    method HandleScanHeader(line: string, s: Spectrum) returns (r: Result<bool, Panic>, filled: Spectrum)
      requires |line| > 0
      modifies this`state, this`error
      ensures var h := ScanHeaderStep(old(MachineWith(s)), line);
        MachineWith(filled) == h.machine && r == HandlerResult(h)
    {
      filled := s;
      var peak := ParsePeakFromLine(line);
      match peak {
        case PeakFound(p) =>
          filled := AddPeak(filled, p);
          state := Peaks;
          return Ok(true), filled;
        case TooFewColumns(reason) =>
          return Err(reason), filled;
        case BadPeak(reason) =>
          return Err(reason), filled;
        case NotPeak =>
      }
      if line == EndIons {
        state := Between;
        r := Ok(true);
      } else if '=' in line {
        match ApplyHeader(filled.description, HeaderKey(line), HeaderValue(line)) {
          case Ok(d) =>
            filled := filled.(description := d);
            r := Ok(true);
          case Err(reason) =>
            r := Err(reason);
        }
      } else {
        state := Error;
        error := MalformedHeaderLine;
        r := Ok(false);
      }
    }

    /** `handle_peak`, filling `s`. */
    method HandlePeak(line: string, s: Spectrum) returns (r: Result<bool, Panic>, filled: Spectrum)
      requires |line| > 0
      modifies this`state, this`error
      ensures var h := PeakStep(old(MachineWith(s)), line);
        MachineWith(filled) == h.machine && r == HandlerResult(h)
    {
      filled := s;
      var peak := ParsePeakFromLine(line);
      match peak {
        case PeakFound(p) =>
          filled := AddPeak(filled, p);
          return Ok(true), filled;
        case TooFewColumns(reason) =>
          return Err(reason), filled;
        case BadPeak(reason) =>
          return Err(reason), filled;
        case NotPeak =>
      }
      if line == EndIons {
        state := Between;
        r := Ok(false);
      } else {
        state := Error;
        error := MalformedPeakLine;
        r := Ok(false);
      }
    }

    // -------------------------------------------------------------------------
    // Sequential reading
    // -------------------------------------------------------------------------

    /** The dispatch of `read_into`: the handler of the current state; Done, FileHeader and Error have none. */
    method Dispatch(line: string, s: Spectrum) returns (r: Result<bool, Panic>, filled: Spectrum)
      requires |line| > 0
      modifies this`state, this`error
      ensures var h := HandleLine(old(MachineWith(s)), line);
        MachineWith(filled) == h.machine && r == HandlerResult(h)
    {
      filled := s;
      if state == Start {
        var work := HandleStart(line);
        r := Ok(work);
      } else if state == Between {
        var work := HandleBetween(line);
        r := Ok(work);
      } else if state == ScanHeaders {
        r, filled := HandleScanHeader(line, filled);
      } else if state == Peaks {
        r, filled := HandlePeak(line, filled);
      } else {
        r := Ok(true);
      }
    }

    /**
     * The body of the `read_into` loop for one line read from the handle: a
     * line that is not UTF-8 sets the I/O error; a blank line is skipped;
     * otherwise the state's handler runs and entering Error panics.
     */
    method StepLine(bytes: seq<byte>, s: Spectrum, ghost step: LineReader) returns (e: LineEffect)
      requires ActsAsLineStep(step)
      modifies this`state, this`error
      ensures e == step(Machine(old(state), old(error), s), bytes)
      ensures e.machine == Machine(state, error, e.machine.spectrum)
      ensures e.Fail? ==> error == IOError
    {
      assert step(Machine(state, error, s), bytes) == LineStep(Machine(state, error, s), bytes);
      var text := Utf8Decode(bytes);
      if text.None? {
        error := IOError;
        state := Error;
        return Fail(Machine(state, error, s));
      }
      var line := Trim(text.value);
      if |line| == 0 {
        return Next(Machine(state, error, s));
      }
      var result, filled := Dispatch(line, s);
      if result.Err? {
        return Abort(Machine(state, error, filled), result.error);
      }
      if state == Error {
        return Abort(Machine(state, error, filled), ParsingError(error));
      }
      e := if result.value then Next(Machine(state, error, filled)) else Finish(Machine(state, error, filled));
    }

    /**
     * One turn of the `read_into` loop: reads the line at the cursor, moving
     * the cursor past it, and runs `StepLine` on it.  What is left of the read
     * is the rest of `ReadFrom` after that line.
     */
    method ReadLine(s: Spectrum, ghost step: LineReader, ghost consumed: nat) returns (e: LineEffect, read: nat)
      requires pos < |stream| && ActsAsLineStep(step)
      modifies this`pos, this`state, this`error
      ensures pos == LineEnd(stream, old(pos)) == old(pos) + read
      ensures e.machine == Machine(state, error, e.machine.spectrum)
      ensures e.Fail? ==> error == IOError
      ensures Drive(step, stream, old(pos), Machine(old(state), old(error), s), consumed) == match e
        case Next(m') => Drive(step, stream, pos, m', consumed + read)
        case Finish(m') => Run(pos, m', Consumed(consumed + read))
        case Fail(m') => Run(pos, m', Failed(IOError))
        case Abort(m', reason) => Run(pos, m', Aborted(reason))
    {
      ghost var m0 := Machine(state, error, s);
      var end := LineEnd(stream, pos);
      var bytes := stream[pos..end];
      e := StepLine(bytes, s, step);
      DriveLine(step, stream, pos, m0, consumed);
      read := |bytes|;
      pos := end;
    }

    /**
     * `read_into`: reads lines into `s` until a handler stops the read or the
     * stream runs out, and returns the number of bytes read; a line that is not
     * UTF-8 is an I/O error; entering the Error state panics.
     */
    method ReadInto(s: Spectrum) returns (outcome: ReadOutcome, filled: Spectrum)
      requires Valid()
      modifies this`pos, this`state, this`error
      ensures Valid()
      ensures var run := ReadFrom(stream, old(pos), Machine(old(state), old(error), s), 0);
        pos == run.pos && Machine(state, error, filled) == run.machine && outcome == run.outcome
    {
      LineStepActsAsLineStep();
      ghost var step: LineReader :| ActsAsLineStep(step);
      DriveAgrees(step, stream, pos, Machine(state, error, s), 0);
      ReadFromCountsBytes(stream, pos, Machine(state, error, s), 0);
      outcome, filled := ReadLines(s, step);
    }

    /**
     * The loop of `read_into`, proved line by line against a `step` that acts
     * as `LineStep`.
     */
    method ReadLines(s: Spectrum, ghost step: LineReader) returns (outcome: ReadOutcome, filled: Spectrum)
      requires ActsAsLineStep(step)
      modifies this`pos, this`state, this`error
      ensures var run := Drive(step, stream, old(pos), Machine(old(state), old(error), s), 0);
        pos == run.pos && Machine(state, error, filled) == run.machine && outcome == run.outcome
    {
      ghost var run := Drive(step, stream, pos, Machine(state, error, s), 0);
      var work := true;
      var offset: nat := 0;
      filled := s;
      while work
        invariant work ==> Drive(step, stream, pos, Machine(state, error, filled), offset) == run
        invariant !work ==> Run(pos, Machine(state, error, filled), Consumed(offset)) == run
        decreases |stream| - pos, work
      {
        if pos >= |stream| {
          // `read_line` returned 0 bytes
          state := Done;
          return Consumed(offset), filled;
        }
        var e, read := ReadLine(filled, step, offset);
        filled := e.machine.spectrum;
        match e {
          case Fail(_) =>
            return Failed(error), filled;
          case Abort(_, reason) =>
            return Aborted(reason), filled;
          case Next(_) =>
            offset := offset + read;
          case Finish(_) =>
            offset := offset + read;
            work := false;
        }
      }
      outcome := Consumed(offset);
    }

    /**
     * `read_next`: reads into a fresh record and returns it when bytes were
     * read; an I/O error is reported as no record.
     */
    method ReadNext() returns (r: Result<Option<Spectrum>, Panic>)
      requires Valid()
      modifies this`pos, this`state, this`error
      ensures Valid()
      ensures var run := ReadFrom(stream, old(pos), old(MachineWith(NewScan())), 0);
        r == NextRecord(run) && pos == run.pos && state == run.machine.state && error == run.machine.error
    {
      var scan := NewScan();
      var outcome, filled := ReadInto(scan);
      match outcome
      case Consumed(offset) =>
        r := Ok(if offset > 0 then Some(filled) else None);
      case Failed(_) =>
        r := Ok(None);
      case Aborted(reason) =>
        r := Err(reason);
    }

    // -------------------------------------------------------------------------
    // Indexing and random access
    // -------------------------------------------------------------------------

    /** `seek(SeekFrom::Start(offset))`: moves the cursor unless the offset is out of range. */
    method Seek(offset: nat) returns (ok: bool)
      modifies this`pos
      ensures ok <==> offset <= MaxSeekOffset
      ensures pos == if ok then offset else old(pos)
    {
      ok := offset <= MaxSeekOffset;
      if ok {
        pos := offset;
      }
    }

    /**
     * The body of the `build_index` loop for one line at byte `offset`: a
     * `BEGIN IONS` line remembers its offset; an awaited `TITLE=` line inserts
     * its UTF-8 identifier and stops waiting.
     */
    method IndexLine(buffer: seq<byte>, offset: nat, lastStart: nat, foundStart: bool) returns (last: nat, found: bool)
      requires OffsetIndexing.Valid(index)
      modifies this`index
      ensures MgfIndex.ScanLine(MgfIndex.Scan(offset, lastStart, foundStart, old(index)), buffer)
        == MgfIndex.Scan(offset + |buffer|, last, found, index)
    {
      last, found := lastStart, foundStart;
      if StartsWith(buffer, MgfIndex.BeginIonsBytes) {
        found := true;
        last := offset;
      } else if foundStart && StartsWith(buffer, MgfIndex.TitlePrefix) {
        match Utf8Decode(buffer[|MgfIndex.TitlePrefix|..]) {
          case Some(key) =>
            index := Insert(index, key, lastStart);
          case None =>
        }
        found := false;
        last := 0;
      }
    }

    /**
     * `build_index`: scans the whole stream from byte 0, inserting into the
     * index, restores the cursor, marks the index initialised and returns the
     * number of bytes scanned.
     */
    method BuildIndex() returns (total: nat)
      requires Valid()
      modifies this`pos, this`index
      ensures Valid()
      ensures pos == old(pos)
      ensures index == MgfIndex.BuildFrom(stream, old(index)).index.(init := true)
      ensures forall k :: k in index.offsets ==>
        MgfIndex.Titled(stream, k, index.offsets[k]) || Get(index, k) == Get(old(index), k)
      ensures forall k: string, o: nat :: MgfIndex.Titled(stream, k, o) ==> k in index.offsets
      ensures total == |stream|
    {
      MgfIndex.BuildFromEntries(stream, index);
      ghost var scan := MgfIndex.BuildFrom(stream, index);
      MgfIndex.ScanCountsStream(stream, MgfIndex.Scan(0, 0, false, index));
      var start := pos;
      var _ := Seek(0);
      var offset: nat := 0;
      var lastStart: nat := 0;
      var foundStart := false;
      while true
        invariant OffsetIndexing.Valid(index) && pos == offset
        invariant MgfIndex.ScanFrom(stream, MgfIndex.Scan(offset, lastStart, foundStart, index)) == scan
        decreases |stream| - pos
      {
        if pos >= |stream| {
          // `read_until` returned 0 bytes
          break;
        }
        var end := LineEnd(stream, pos);
        var buffer := stream[pos..end];
        pos := end;
        lastStart, foundStart := IndexLine(buffer, offset, lastStart, foundStart);
        offset := offset + |buffer|;
      }
      var _ := Seek(start);
      index := index.(init := true);
      total := offset;
    }

    /**
     * `get_spectrum_by_id`: looks the identifier up (a missing one panics),
     * seeks there, reads one record from the current parser state and restores
     * the cursor.
     */
    method GetSpectrumById(id: string) returns (r: Result<Option<Spectrum>, Panic>)
      requires Valid()
      modifies this`pos, this`state, this`error
      ensures Valid()
      ensures Get(index, id).None? ==> r == Err(OffsetNotFound) && pos == old(pos) && state == old(state) && error == old(error)
      ensures Get(index, id).Some? && Get(index, id).value > MaxSeekOffset ==>
        r == Err(SeekFailed) && pos == old(pos) && state == old(state) && error == old(error)
      ensures Get(index, id).Some? && Get(index, id).value <= MaxSeekOffset ==>
        var run := ReadFrom(stream, Get(index, id).value, old(MachineWith(NewScan())), 0);
        && r == NextRecord(run)
        && state == run.machine.state && error == run.machine.error
        && (r.Ok? ==> pos == old(pos))
        && (r.Err? ==> pos == run.pos)
    {
      var offset := Get(index, id);
      if offset.None? {
        return Err(OffsetNotFound);
      }
      var start := pos;
      var moved := Seek(offset.value);
      if !moved {
        return Err(SeekFailed);
      }
      r := ReadNext();
      if r.Err? {
        // the panic unwinds before the cursor is restored
        return;
      }
      var _ := Seek(start);
    }

    /**
     * `get_spectrum_by_index`: like `get_spectrum_by_id`, but an unknown
     * position or a failed seek yields no record instead of a panic.
     */
    method GetSpectrumByIndex(i: nat) returns (r: Result<Option<Spectrum>, Panic>)
      requires Valid()
      modifies this`pos, this`state, this`error
      ensures Valid()
      ensures GetIndex(index, i).None? ==> r == Ok(None) && pos == old(pos) && state == old(state) && error == old(error)
      ensures GetIndex(index, i).Some? && GetIndex(index, i).value.1 > MaxSeekOffset ==>
        r == Ok(None) && pos == old(pos) && state == old(state) && error == old(error)
      ensures GetIndex(index, i).Some? && GetIndex(index, i).value.1 <= MaxSeekOffset ==>
        var run := ReadFrom(stream, GetIndex(index, i).value.1, old(MachineWith(NewScan())), 0);
        && r == NextRecord(run)
        && state == run.machine.state && error == run.machine.error
        && (r.Ok? ==> pos == old(pos))
        && (r.Err? ==> pos == run.pos)
    {
      var entry := GetIndex(index, i);
      if entry.None? {
        return Ok(None);
      }
      var start := pos;
      var moved := Seek(entry.value.1);
      if !moved {
        return Ok(None);
      }
      r := ReadNext();
      if r.Err? {
        return;
      }
      var _ := Seek(start);
    }

    /** `reset`: back to the start of the stream; the parser state is left as it is. */
    method Reset()
      requires Valid()
      modifies this`pos
      ensures Valid()
      ensures pos == 0
    {
      var _ := Seek(0);
    }

    /** Seeks to a resolved offset, or reports why it cannot. */
    method StartFrom(offset: Option<nat>) returns (r: Result<(), ScanAccessError>)
      requires Valid()
      modifies this`pos
      ensures Valid()
      ensures offset.None? ==> r == Err(ScanNotFound) && pos == old(pos)
      ensures offset.Some? && offset.value > MaxSeekOffset ==> r == Err(SeekIOError) && pos == old(pos)
      ensures offset.Some? && offset.value <= MaxSeekOffset ==> r == Ok(()) && pos == offset.value
    {
      match offset {
        case None =>
          r := Err(ScanNotFound);
        case Some(o) =>
          var moved := Seek(o);
          r := if moved then Ok(()) else Err(SeekIOError);
      }
    }

    /** `start_from_id`: positions the cursor at the record with this identifier, without reading. */
    method StartFromId(id: string) returns (r: Result<(), ScanAccessError>)
      requires Valid()
      modifies this`pos
      ensures Valid()
      ensures Get(index, id).None? ==> r == Err(ScanNotFound) && pos == old(pos)
      ensures Get(index, id).Some? ==>
        if Get(index, id).value <= MaxSeekOffset then r == Ok(()) && pos == Get(index, id).value
        else r == Err(SeekIOError) && pos == old(pos)
    {
      r := StartFrom(Get(index, id));
    }

    /** `start_from_index`: positions the cursor at the record at position `i`, without reading. */
    method StartFromIndex(i: nat) returns (r: Result<(), ScanAccessError>)
      requires Valid()
      modifies this`pos
      ensures Valid()
      ensures i >= Len(index) ==> r == Err(ScanNotFound) && pos == old(pos)
      ensures i < Len(index) ==>
        var o := index.offsets[index.keys[i]];
        if o <= MaxSeekOffset then r == Ok(()) && pos == o else r == Err(SeekIOError) && pos == old(pos)
    {
      var entry := GetIndex(index, i);
      r := StartFrom(if entry.Some? then Some(entry.value.1) else None);
    }

    /**
     * `start_from_time`: positions the cursor at the offset the time lookup
     * resolved (`resolved`), without reading.
     */
    method StartFromTime(resolved: Option<nat>) returns (r: Result<(), ScanAccessError>)
      requires Valid()
      modifies this`pos
      ensures Valid()
      ensures resolved.None? ==> r == Err(ScanNotFound) && pos == old(pos)
      ensures resolved.Some? ==>
        if resolved.value <= MaxSeekOffset then r == Ok(()) && pos == resolved.value
        else r == Err(SeekIOError) && pos == old(pos)
    {
      r := StartFrom(resolved);
    }
  }
}
