/**
 * The index pre-scan of an MGF byte stream (`build_index`): one pass over the
 * raw lines, without decoding records.  A line that starts with the bytes
 * `BEGIN IONS` remembers its offset; the next line that starts with `TITLE=`
 * stores the rest of that line, when it is UTF-8, as the identifier of the
 * remembered offset.  The tests are on the raw bytes, so the identifier keeps
 * the line terminator.
 */
module MgfIndex {
  import opened Wrappers
  import opened Text
  import opened OffsetIndexing

  /** The bytes of `BEGIN IONS`. */
  const BeginIonsBytes: seq<byte> := [66, 69, 71, 73, 78, 32, 73, 79, 78, 83]

  /** The bytes of `TITLE=`. */
  const TitlePrefix: seq<byte> := [84, 73, 84, 76, 69, 61]

  /** The loop variables of the pre-scan: bytes seen, last record start, whether a title is awaited, the index. */
  datatype Scan = Scan(offset: nat, lastStart: nat, foundStart: bool, index: OffsetIndex)

  /** The identifier a `TITLE=` line names: the bytes after the prefix, when they are UTF-8. */
  function TitleKey(line: seq<byte>): Option<string>
    requires StartsWith(line, TitlePrefix)
  {
    Utf8Decode(line[|TitlePrefix|..])
  }

  /**
   * One line of the pre-scan.  A title line after a record start inserts its
   * identifier (or nothing, when it is not UTF-8) and, either way, stops waiting
   * for a title.
   */
  function ScanLine(sc: Scan, line: seq<byte>): (r: Scan)
    requires Valid(sc.index)
    ensures Valid(r.index)
    ensures r.offset == sc.offset + |line|
    ensures r.index.name == sc.index.name && r.index.init == sc.index.init
  {
    if StartsWith(line, BeginIonsBytes) then
      sc.(offset := sc.offset + |line|, lastStart := sc.offset, foundStart := true)
    else if sc.foundStart && StartsWith(line, TitlePrefix) then
      var index := match TitleKey(line)
        case Some(key) => Insert(sc.index, key, sc.lastStart)
        case None => sc.index;
      Scan(sc.offset + |line|, 0, false, index)
    else
      sc.(offset := sc.offset + |line|)
  }

  /** The pre-scan loop from `sc.offset` to the end of the stream. */
  function ScanFrom(stream: seq<byte>, sc: Scan): (r: Scan)
    requires Valid(sc.index)
    ensures Valid(r.index)
    decreases |stream| - sc.offset
  {
    if sc.offset >= |stream| then sc
    else ScanFrom(stream, ScanLine(sc, stream[sc.offset..LineEnd(stream, sc.offset)]))
  }

  /** The whole pre-scan from byte 0, adding to `index`, which is not cleared first. */
  function BuildFrom(stream: seq<byte>, index: OffsetIndex): (r: Scan)
    requires Valid(index)
    ensures Valid(r.index)
  {
    ScanFrom(stream, Scan(0, 0, false, index))
  }

  // ---------------------------------------------------------------------------
  // What the scan counts and where the offsets point
  // ---------------------------------------------------------------------------

  /** The scan counts every byte of the stream: `build_index` returns the stream length. */
  lemma {:induction false} ScanCountsStream(stream: seq<byte>, sc: Scan)
    requires Valid(sc.index) && sc.offset <= |stream|
    ensures ScanFrom(stream, sc).offset == |stream|
    ensures ScanFrom(stream, sc).index.name == sc.index.name
    ensures ScanFrom(stream, sc).index.init == sc.index.init
    decreases |stream| - sc.offset
  {
    if sc.offset < |stream| {
      var end := LineEnd(stream, sc.offset);
      ScanCountsStream(stream, ScanLine(sc, stream[sc.offset..end]));
    }
  }

  /** The next line boundary is a line start. */
  lemma NextLineStart(stream: seq<byte>, offset: nat)
    requires offset < |stream|
    ensures LineEnd(stream, offset) < |stream| ==> IsLineStart(stream, LineEnd(stream, offset))
  {
  }

  /** No line begins strictly inside the line that begins at `offset`. */
  lemma NoLineStartInside(stream: seq<byte>, offset: nat, u: nat)
    requires offset < |stream| && offset < u < LineEnd(stream, offset)
    ensures !IsLineStart(stream, u)
  {
  }

  /** A line cannot start with both `BEGIN IONS` and `TITLE=`. */
  lemma MarkersDiffer(line: seq<byte>)
    ensures !(StartsWith(line, BeginIonsBytes) && StartsWith(line, TitlePrefix))
  {
    if StartsWith(line, BeginIonsBytes) {
      assert line[0] == BeginIonsBytes[0];
    }
  }

  /** The line that begins at `u`, with its terminator. */
  function LineAt(stream: seq<byte>, u: nat): seq<byte>
    requires u < |stream|
  {
    stream[u..LineEnd(stream, u)]
  }

  /** A line begins at `u` and starts with `BEGIN IONS`. */
  ghost predicate OpensRecord(stream: seq<byte>, u: nat)
  {
    u < |stream| && IsLineStart(stream, u) && StartsWith(LineAt(stream, u), BeginIonsBytes)
  }

  /** A line begins at `u` and starts with `TITLE=`. */
  ghost predicate IsTitleLine(stream: seq<byte>, u: nat)
  {
    u < |stream| && IsLineStart(stream, u) && StartsWith(LineAt(stream, u), TitlePrefix)
  }

  /** No line strictly between `o` and `t` starts with `BEGIN IONS` or `TITLE=`. */
  ghost predicate NoMarkerBetween(stream: seq<byte>, o: nat, t: nat)
  {
    forall u :: o < u < t ==> !OpensRecord(stream, u) && !IsTitleLine(stream, u)
  }

  /**
   * The record that opens at `o` is titled by the line at `t`: `t` is the
   * first title line after `o`, and no other record opens in between.
   */
  ghost predicate TitlePair(stream: seq<byte>, o: nat, t: nat)
  {
    o < t && OpensRecord(stream, o) && IsTitleLine(stream, t) && NoMarkerBetween(stream, o, t)
  }

  /** The record that opens at `o` carries the identifier `k`. */
  ghost predicate Titled(stream: seq<byte>, k: string, o: nat)
  {
    exists t :: TitlePair(stream, o, t) && TitleKey(LineAt(stream, t)) == Some(k)
  }

  /** Where the scan stands: a line start, and an awaited title belongs to a record still open. */
  ghost predicate ScanState(stream: seq<byte>, offset: nat, lastStart: nat, foundStart: bool)
  {
    && offset <= |stream| && (offset < |stream| ==> IsLineStart(stream, offset))
    && (foundStart ==> lastStart < offset && OpensRecord(stream, lastStart) && NoMarkerBetween(stream, lastStart, offset))
  }

  /** Each pair names a record of `stream` by its title. */
  ghost predicate AllTitled(stream: seq<byte>, entries: seq<(string, nat)>)
  {
    forall i :: 0 <= i < |entries| ==> Titled(stream, entries[i].0, entries[i].1)
  }

  /** Every pair the scan inserts names a record by its title. */
  lemma {:induction false} TitleEntriesAreTitled(stream: seq<byte>, offset: nat, lastStart: nat, foundStart: bool)
    requires ScanState(stream, offset, lastStart, foundStart)
    ensures AllTitled(stream, TitleEntries(stream, offset, lastStart, foundStart))
    decreases |stream| - offset
  {
    if offset < |stream| {
      var end := LineEnd(stream, offset);
      var line := LineAt(stream, offset);
      NextLineStart(stream, offset);
      forall u | offset < u < end
        ensures !IsLineStart(stream, u)
      {
        NoLineStartInside(stream, offset, u);
      }
      var es := TitleEntries(stream, offset, lastStart, foundStart);
      if StartsWith(line, BeginIonsBytes) {
        assert ScanState(stream, end, offset, true);
        assert es == TitleEntries(stream, end, offset, true);
        TitleEntriesAreTitled(stream, end, offset, true);
      } else if foundStart && StartsWith(line, TitlePrefix) {
        TitleEntriesAreTitled(stream, end, 0, false);
        match TitleKey(line)
        case Some(key) =>
          assert TitlePair(stream, lastStart, offset);
          assert es == [(key, lastStart)] + TitleEntries(stream, end, 0, false);
        case None =>
      } else {
        assert ScanState(stream, end, lastStart, foundStart);
        TitleEntriesAreTitled(stream, end, lastStart, foundStart);
      }
    }
  }

  /** One of the pairs is (`k`, `o`). */
  ghost predicate HasEntry(entries: seq<(string, nat)>, k: string, o: nat)
  {
    exists i :: 0 <= i < |entries| && entries[i] == (k, o)
  }

  /** Every titled record the scan has not passed, or is inside, gets a pair. */
  lemma {:induction false} TitledAreEntries(stream: seq<byte>, offset: nat, lastStart: nat, foundStart: bool, o: nat, t: nat)
    requires offset < |stream| ==> IsLineStart(stream, offset)
    requires TitlePair(stream, o, t) && TitleKey(LineAt(stream, t)).Some? && offset <= t
    requires o >= offset || (foundStart && lastStart == o)
    ensures HasEntry(TitleEntries(stream, offset, lastStart, foundStart), TitleKey(LineAt(stream, t)).value, o)
    decreases |stream| - offset
  {
    var k := TitleKey(LineAt(stream, t)).value;
    var end := LineEnd(stream, offset);
    var line := LineAt(stream, offset);
    NextLineStart(stream, offset);
    if offset < t < end {
      NoLineStartInside(stream, offset, t);
    }
    if offset < o < end {
      NoLineStartInside(stream, offset, o);
    }
    MarkersDiffer(line);
    var es := TitleEntries(stream, offset, lastStart, foundStart);
    if StartsWith(line, BeginIonsBytes) {
      assert OpensRecord(stream, offset);
      assert es == TitleEntries(stream, end, offset, true);
      TitledAreEntries(stream, end, offset, true, o, t);
    } else if foundStart && StartsWith(line, TitlePrefix) {
      assert IsTitleLine(stream, offset);
      var rest := TitleEntries(stream, end, 0, false);
      if t == offset {
        assert es == [(k, lastStart)] + rest;
        assert es[0] == (k, o);
      } else {
        TitledAreEntries(stream, end, 0, false, o, t);
        var i :| 0 <= i < |rest| && rest[i] == (k, o);
        match TitleKey(line)
        case Some(key) =>
          assert es == [(key, lastStart)] + rest;
          assert es[i + 1] == rest[i];
        case None =>
          assert es == rest;
      }
    } else {
      TitledAreEntries(stream, end, lastStart, foundStart, o, t);
    }
  }

  /** The last pair for `k` is one of the pairs. */
  lemma {:induction false} LastOffsetIsEntry(entries: seq<(string, nat)>, k: string)
    requires LastOffset(entries, k).Some?
    ensures exists i :: 0 <= i < |entries| && entries[i] == (k, LastOffset(entries, k).value)
    decreases |entries|
  {
    if LastOffset(entries[1..], k).Some? {
      LastOffsetIsEntry(entries[1..], k);
      var i :| 0 <= i < |entries[1..]| && entries[1..][i] == (k, LastOffset(entries[1..], k).value);
      assert entries[i + 1] == entries[1..][i];
    } else {
      assert entries[0] == (k, LastOffset(entries, k).value);
    }
  }

  /**
   * What the pre-scan leaves in the index: every identifier either names the
   * record its offset opens, by that record's title line, or kept the lookup it
   * had before the scan; and the identifier of every titled record is present.
   */
  lemma BuildFromEntries(stream: seq<byte>, index: OffsetIndex)
    requires Valid(index)
    ensures var r := BuildFrom(stream, index).index;
      forall k :: k in r.offsets ==> Titled(stream, k, r.offsets[k]) || Get(r, k) == Get(index, k)
    ensures var r := BuildFrom(stream, index).index;
      forall k: string, o: nat :: Titled(stream, k, o) ==> k in r.offsets
  {
    var r := BuildFrom(stream, index).index;
    var es := TitleEntries(stream, 0, 0, false);
    ScanFromInserts(stream, Scan(0, 0, false, index));
    assert ScanState(stream, 0, 0, false);
    TitleEntriesAreTitled(stream, 0, 0, false);
    forall k | k in r.offsets
      ensures Titled(stream, k, r.offsets[k]) || Get(r, k) == Get(index, k)
    {
      InsertAllLookup(index, es, k);
      if LastOffset(es, k).Some? {
        LastOffsetIsEntry(es, k);
      }
    }
    InsertAllAddsKeys(index, es);
    forall k: string, o: nat | Titled(stream, k, o)
      ensures k in r.offsets
    {
      var t :| TitlePair(stream, o, t) && TitleKey(LineAt(stream, t)) == Some(k);
      TitledAreEntries(stream, 0, 0, false, o, t);
      var i :| 0 <= i < |es| && es[i] == (k, o);
    }
  }

  /**
   * Built from an empty index, the identifiers are exactly those of the titled
   * records, and each maps to a record its title names.
   */
  lemma BuiltEntriesAreTitledRecords(stream: seq<byte>, name: string)
    ensures var r := BuildFrom(stream, NewIndex(name)).index;
      forall k :: k in r.offsets ==> Titled(stream, k, r.offsets[k])
    ensures var r := BuildFrom(stream, NewIndex(name)).index;
      forall k: string, o: nat :: Titled(stream, k, o) ==> k in r.offsets
  {
    BuildFromEntries(stream, NewIndex(name));
  }

  // ---------------------------------------------------------------------------
  // The scan as a sequence of insertions
  // ---------------------------------------------------------------------------

  /** The (identifier, offset) pairs the scan inserts, in order; they do not depend on the index. */
  function TitleEntries(stream: seq<byte>, offset: nat, lastStart: nat, foundStart: bool): seq<(string, nat)>
    decreases |stream| - offset
  {
    if offset >= |stream| then []
    else
      var end := LineEnd(stream, offset);
      var line := stream[offset..end];
      if StartsWith(line, BeginIonsBytes) then TitleEntries(stream, end, offset, true)
      else if foundStart && StartsWith(line, TitlePrefix) then
        match TitleKey(line)
        case Some(key) => [(key, lastStart)] + TitleEntries(stream, end, 0, false)
        case None => TitleEntries(stream, end, 0, false)
      else TitleEntries(stream, end, lastStart, foundStart)
  }

  /** Inserting the pairs one after another. */
  function InsertAll(index: OffsetIndex, entries: seq<(string, nat)>): (r: OffsetIndex)
    requires Valid(index)
    ensures Valid(r)
    decreases |entries|
  {
    if |entries| == 0 then index
    else InsertAll(Insert(index, entries[0].0, entries[0].1), entries[1..])
  }

  /** The scan is exactly the insertion of its title entries into the index it started with. */
  lemma {:induction false} ScanFromInserts(stream: seq<byte>, sc: Scan)
    requires Valid(sc.index)
    ensures ScanFrom(stream, sc).index
         == InsertAll(sc.index, TitleEntries(stream, sc.offset, sc.lastStart, sc.foundStart))
    decreases |stream| - sc.offset
  {
    if sc.offset < |stream| {
      var end := LineEnd(stream, sc.offset);
      var line := stream[sc.offset..end];
      var next := ScanLine(sc, line);
      var rest := TitleEntries(stream, end, next.lastStart, next.foundStart);
      ScanFromInserts(stream, next);
      var all := TitleEntries(stream, sc.offset, sc.lastStart, sc.foundStart);
      if StartsWith(line, BeginIonsBytes) {
        assert next == sc.(offset := end, lastStart := sc.offset, foundStart := true);
        assert all == rest;
      } else if sc.foundStart && StartsWith(line, TitlePrefix) {
        match TitleKey(line)
        case Some(key) =>
          assert next == Scan(end, 0, false, Insert(sc.index, key, sc.lastStart));
          assert all == [(key, sc.lastStart)] + rest;
          assert all[1..] == rest;
        case None =>
          assert next == Scan(end, 0, false, sc.index);
          assert all == rest;
      } else {
        assert next == sc.(offset := end);
        assert all == rest;
      }
    }
  }

  /** Inserting pairs whose identifiers are all present keeps the order of the keys. */
  lemma {:induction false} InsertAllPresentKeepsKeys(index: OffsetIndex, entries: seq<(string, nat)>)
    requires Valid(index)
    requires forall i :: 0 <= i < |entries| ==> entries[i].0 in index.offsets
    ensures InsertAll(index, entries).keys == index.keys
    decreases |entries|
  {
    if |entries| > 0 {
      var next := Insert(index, entries[0].0, entries[0].1);
      InsertAllPresentKeepsKeys(next, entries[1..]);
    }
  }

  /** After inserting the pairs, each of their identifiers is present. */
  lemma {:induction false} InsertAllAddsKeys(index: OffsetIndex, entries: seq<(string, nat)>)
    requires Valid(index)
    ensures forall k :: k in index.offsets ==> k in InsertAll(index, entries).offsets
    ensures forall i :: 0 <= i < |entries| ==> entries[i].0 in InsertAll(index, entries).offsets
    decreases |entries|
  {
    if |entries| > 0 {
      InsertAllAddsKeys(Insert(index, entries[0].0, entries[0].1), entries[1..]);
    }
  }

  /** The value the last pair for `k` carries, if any pair does. */
  function LastOffset(entries: seq<(string, nat)>, k: string): Option<nat>
    decreases |entries|
  {
    if |entries| == 0 then None
    else match LastOffset(entries[1..], k)
      case Some(o) => Some(o)
      case None => if entries[0].0 == k then Some(entries[0].1) else None
  }

  /** After the insertions an identifier maps to the last offset given for it, or else to what it had. */
  lemma {:induction false} InsertAllLookup(index: OffsetIndex, entries: seq<(string, nat)>, k: string)
    requires Valid(index)
    ensures Get(InsertAll(index, entries), k)
         == if LastOffset(entries, k).Some? then LastOffset(entries, k) else Get(index, k)
    decreases |entries|
  {
    if |entries| > 0 {
      InsertAllLookup(Insert(index, entries[0].0, entries[0].1), entries[1..], k);
    }
  }

  /** Two indexes with the same keys in the same order and the same lookups are equal. */
  lemma SameLookups(a: OffsetIndex, b: OffsetIndex)
    requires a.name == b.name && a.init == b.init && a.keys == b.keys
    requires forall k :: Get(a, k) == Get(b, k)
    ensures a == b
  {
    forall k | k in a.offsets
      ensures k in b.offsets && a.offsets[k] == b.offsets[k]
    {
      assert Get(a, k) == Get(b, k);
    }
    forall k | k in b.offsets
      ensures k in a.offsets
    {
      assert Get(a, k) == Get(b, k);
    }
    assert a.offsets == b.offsets;
  }

  /** Inserting the same pairs a second time changes nothing. */
  lemma InsertAllTwice(index: OffsetIndex, entries: seq<(string, nat)>)
    requires Valid(index)
    ensures InsertAll(InsertAll(index, entries), entries) == InsertAll(index, entries)
  {
    var once := InsertAll(index, entries);
    var twice := InsertAll(once, entries);
    InsertAllAddsKeys(index, entries);
    InsertAllPresentKeepsKeys(once, entries);
    forall k
      ensures Get(twice, k) == Get(once, k)
    {
      InsertAllLookup(index, entries, k);
      InsertAllLookup(once, entries, k);
    }
    InsertAllNameInit(once, entries);
    SameLookups(twice, once);
  }

  /** Insertions keep the index's name and initialisation flag. */
  lemma {:induction false} InsertAllNameInit(index: OffsetIndex, entries: seq<(string, nat)>)
    requires Valid(index)
    ensures InsertAll(index, entries).name == index.name
    ensures InsertAll(index, entries).init == index.init
    decreases |entries|
  {
    if |entries| > 0 {
      InsertAllNameInit(Insert(index, entries[0].0, entries[0].1), entries[1..]);
    }
  }

  /**
   * Building the index a second time over the same stream, without clearing
   * it, gives the same index: every pair is inserted again, with the same
   * final offsets and no new positions.
   */
  lemma RebuildIsIdempotent(stream: seq<byte>, index: OffsetIndex)
    requires Valid(index)
    ensures BuildFrom(stream, BuildFrom(stream, index).index).index == BuildFrom(stream, index).index
  {
    var es := TitleEntries(stream, 0, 0, false);
    var once := BuildFrom(stream, index).index;
    ScanFromInserts(stream, Scan(0, 0, false, index));
    ScanFromInserts(stream, Scan(0, 0, false, once));
    InsertAllTwice(index, es);
  }

  // ---------------------------------------------------------------------------
  // A file given line by line, and two records
  // ---------------------------------------------------------------------------

  /** The scan of a file given as its lines: one `ScanLine` per line. */
  function ScanLines(sc: Scan, lines: seq<seq<byte>>): (r: Scan)
    requires Valid(sc.index)
    ensures Valid(r.index)
    decreases |lines|
  {
    if |lines| == 0 then sc else ScanLines(ScanLine(sc, lines[0]), lines[1..])
  }

  /** Over a stream made of whole lines, the scan takes exactly those lines, in order. */
  lemma {:induction false} ScanFromWholeLines(pre: seq<byte>, lines: seq<seq<byte>>, sc: Scan)
    requires Valid(sc.index) && sc.offset == |pre|
    requires forall i :: 0 <= i < |lines| ==> IsWholeLine(lines[i])
    ensures ScanFrom(pre + Concat(lines), sc) == ScanLines(sc, lines)
    decreases |lines|
  {
    var s := pre + Concat(lines);
    if |lines| == 0 {
      assert s == pre;
    } else {
      var rest := Concat(lines[1..]);
      assert s == pre + lines[0] + rest;
      LineEndOfWholeLine(pre, lines[0], rest);
      ScanFromWholeLines(pre + lines[0], lines[1..], ScanLine(sc, lines[0]));
    }
  }

  /** The lines of two records titled A and B. */
  const BeginLine: seq<byte> := [66, 69, 71, 73, 78, 32, 73, 79, 78, 83, 10]
  const TitleALine: seq<byte> := [84, 73, 84, 76, 69, 61, 65, 10]
  const TitleBLine: seq<byte> := [84, 73, 84, 76, 69, 61, 66, 10]
  const EndLine: seq<byte> := [69, 78, 68, 32, 73, 79, 78, 83, 10]
  const TwoRecordLines: seq<seq<byte>> := [BeginLine, TitleALine, EndLine, BeginLine, TitleBLine, EndLine]

  /** A one-character title line decodes to that character followed by the line terminator. */
  lemma OneLetterTitle(c: char, line: seq<byte>)
    requires c as int < 0x80 && line == TitlePrefix + [c as int, 10]
    ensures StartsWith(line, TitlePrefix) && TitleKey(line) == Some([c, '\n'])
  {
    DecodeEncode([c, '\n']);
    assert Utf8Encode(['\n']) == [10];
    assert Utf8Encode([c, '\n']) == [c as int] + Utf8Encode(['\n']);
    assert line[|TitlePrefix|..] == [c as int, 10];
  }

  /** Each of the lines of the two records is a whole line. */
  lemma TwoRecordLinesAreWhole()
    ensures forall i :: 0 <= i < |TwoRecordLines| ==> IsWholeLine(TwoRecordLines[i])
  {
    assert IsWholeLine(BeginLine) && IsWholeLine(EndLine);
    assert IsWholeLine(TitleALine) && IsWholeLine(TitleBLine);
  }

  /** The two A and B entries, inserted in this order into an empty index. */
  function TwoRecordEntries(): OffsetIndex
  {
    Insert(Insert(NewIndex("spectrum"), "A\n", 0), "B\n", 28)
  }

  /** The scan of the two records, line by line. */
  lemma TwoRecordsScanLines()
    ensures ScanLines(Scan(0, 0, false, NewIndex("spectrum")), TwoRecordLines) == Scan(56, 0, false, TwoRecordEntries())
  {
    var lines := TwoRecordLines;
    var idx := NewIndex("spectrum");
    OneLetterTitle('A', TitleALine);
    OneLetterTitle('B', TitleBLine);
    var a := Insert(idx, "A\n", 0);
    var s1 := ScanLine(Scan(0, 0, false, idx), BeginLine);
    assert s1 == Scan(11, 0, true, idx);
    var s2 := ScanLine(s1, TitleALine);
    assert s2 == Scan(19, 0, false, a);
    var s3 := ScanLine(s2, EndLine);
    assert s3 == Scan(28, 0, false, a);
    var s4 := ScanLine(s3, BeginLine);
    assert s4 == Scan(39, 28, true, a);
    var s5 := ScanLine(s4, TitleBLine);
    assert s5 == Scan(47, 0, false, TwoRecordEntries());
    var s6 := ScanLine(s5, EndLine);
    assert s6 == Scan(56, 0, false, TwoRecordEntries());
    assert ScanLines(s5, lines[5..]) == s6;
    assert ScanLines(s4, lines[4..]) == s6;
    assert ScanLines(s3, lines[3..]) == s6;
    assert ScanLines(s2, lines[2..]) == s6;
    assert ScanLines(s1, lines[1..]) == s6;
  }

  /**
   * Indexing two records titled A and B: position 0 is A's record at byte 0,
   * position 1 is B's at byte 28, and the scan counts all 56 bytes.  The
   * identifiers are stored with their line terminator, so the bare title is
   * not a key.
   */
  lemma TwoRecordsIndex()
    ensures var r := BuildFrom(Concat(TwoRecordLines), NewIndex("spectrum"));
      && r.offset == 56
      && Len(r.index) == 2
      && GetIndex(r.index, 0) == Some(("A\n", 0))
      && GetIndex(r.index, 1) == Some(("B\n", 28))
      && Get(r.index, "A") == None
  {
    TwoRecordsBuild();
    TwoRecordEntriesLookups();
  }

  /** The pre-scan of the two records' bytes is their line-by-line scan. */
  lemma TwoRecordsBuild()
    ensures BuildFrom(Concat(TwoRecordLines), NewIndex("spectrum")) == Scan(56, 0, false, TwoRecordEntries())
  {
    TwoRecordLinesAreWhole();
    ScanFromWholeLines([], TwoRecordLines, Scan(0, 0, false, NewIndex("spectrum")));
    assert [] + Concat(TwoRecordLines) == Concat(TwoRecordLines);
    TwoRecordsScanLines();
  }

  /** The positions and lookups of the two inserted entries. */
  lemma TwoRecordEntriesLookups()
    ensures var e := TwoRecordEntries();
      && Len(e) == 2
      && GetIndex(e, 0) == Some(("A\n", 0))
      && GetIndex(e, 1) == Some(("B\n", 28))
      && Get(e, "A") == None
  {
    assert TwoRecordEntries().keys == ["A\n", "B\n"];
  }
}
