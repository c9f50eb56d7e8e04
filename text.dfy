/**
 * The pieces of Rust's standard text handling that the MGF reader relies on:
 * line boundaries of `read_line`/`read_until(b'\n')`, UTF-8 validation, `str::trim`,
 * the peak-column separator `\t|\s+`, `split_ascii_whitespace`, `splitn(2, '=')`,
 * `to_lowercase`, `char::is_numeric` and the literal grammars of `f64::from_str`
 * and `i32::from_str`.
 */
module Text {
  import opened Wrappers

  /** One byte of the underlying file. */
  type byte = b: int | 0 <= b < 256

  const Newline: byte := 10

  // ---------------------------------------------------------------------------
  // Lines of a byte stream
  // ---------------------------------------------------------------------------

  /**
   * End (exclusive) of the line that starts at `from`: just past the next '\n',
   * or the end of the stream when no '\n' follows.  This is how far one call of
   * `read_line` or `read_until(b'\n')` advances the cursor.
   */
  function LineEnd(s: seq<byte>, from: nat): (e: nat)
    requires from < |s|
    ensures from < e <= |s|
    ensures forall k :: from <= k < e - 1 ==> s[k] != Newline
    ensures e < |s| ==> s[e - 1] == Newline
    decreases |s| - from
  {
    if s[from] == Newline || from + 1 == |s| then from + 1 else LineEnd(s, from + 1)
  }

  /** `t` is where a line begins: the start of the stream or just after a '\n'. */
  predicate IsLineStart(s: seq<byte>, t: nat)
  {
    t <= |s| && (t == 0 || s[t - 1] == Newline)
  }

  /** One whole line: it ends with its only '\n'. */
  predicate IsWholeLine(line: seq<byte>)
  {
    && |line| > 0 && line[|line| - 1] == Newline
    && forall k :: 0 <= k < |line| - 1 ==> line[k] != Newline
  }

  /** A file written line by line. */
  function Concat(lines: seq<seq<byte>>): (s: seq<byte>)
    decreases |lines|
  {
    if |lines| == 0 then [] else lines[0] + Concat(lines[1..])
  }

  /** Wherever a whole line sits in a stream, one read from its first byte takes exactly that line. */
  lemma LineEndOfWholeLine(pre: seq<byte>, line: seq<byte>, post: seq<byte>)
    requires IsWholeLine(line)
    ensures |pre| < |pre + line + post|
    ensures LineEnd(pre + line + post, |pre|) == |pre| + |line|
    ensures (pre + line + post)[|pre|..|pre| + |line|] == line
  {
    var s := pre + line + post;
    var e := LineEnd(s, |pre|);
    assert forall k :: |pre| <= k < |pre| + |line| ==> s[k] == line[k - |pre|];
    assert s[|pre|..|pre| + |line|] == line;
  }

  /** The bytes `p` open `s` (Rust's `starts_with` on a byte buffer). */
  predicate StartsWith(s: seq<byte>, p: seq<byte>)
  {
    |p| <= |s| && s[..|p|] == p
  }

  // ---------------------------------------------------------------------------
  // UTF-8 (the validation `read_line` and `str::from_utf8` perform)
  // ---------------------------------------------------------------------------

  predicate IsContinuation(b: byte)
  {
    0x80 <= b <= 0xBF
  }

  /**
   * Number of bytes of the well-formed UTF-8 sequence at the front of `bs`, or 0
   * when it is ill-formed (Table 3-7 of the Unicode Standard: no overlong forms,
   * no surrogates, nothing above U+10FFFF).
   */
  function SequenceLength(bs: seq<byte>): (n: nat)
    requires |bs| > 0
    ensures n <= 4 && n <= |bs|
  {
    var b0 := bs[0];
    if b0 <= 0x7F then 1
    else if 0xC2 <= b0 <= 0xDF then
      if 2 <= |bs| && IsContinuation(bs[1]) then 2 else 0
    else if 0xE0 <= b0 <= 0xEF then
      var lo := if b0 == 0xE0 then 0xA0 else 0x80;
      var hi := if b0 == 0xED then 0x9F else 0xBF;
      if 3 <= |bs| && lo <= bs[1] <= hi && IsContinuation(bs[2]) then 3 else 0
    else if 0xF0 <= b0 <= 0xF4 then
      var lo := if b0 == 0xF0 then 0x90 else 0x80;
      var hi := if b0 == 0xF4 then 0x8F else 0xBF;
      if 4 <= |bs| && lo <= bs[1] <= hi && IsContinuation(bs[2]) && IsContinuation(bs[3]) then 4 else 0
    else 0
  }

  /** The scalar value that the well-formed sequence at the front of `bs` encodes. */
  function ScalarValue(bs: seq<byte>): char
    requires |bs| > 0 && SequenceLength(bs) > 0
  {
    var n := SequenceLength(bs);
    var b0: int := bs[0];
    if n == 1 then b0 as char
    else
      var b1: int := bs[1] - 0x80;
      if n == 2 then ((b0 - 0xC0) * 64 + b1) as char
      else
        var b2: int := bs[2] - 0x80;
        if n == 3 then ((b0 - 0xE0) * 4096 + b1 * 64 + b2) as char
        else ((b0 - 0xF0) * 262144 + b1 * 4096 + b2 * 64 + (bs[3] - 0x80)) as char
  }

  /** Strict UTF-8 decoding: `None` exactly when `bs` is not well-formed UTF-8. */
  function Utf8Decode(bs: seq<byte>): Option<string>
    decreases |bs|
  {
    if |bs| == 0 then Some([])
    else
      var n := SequenceLength(bs);
      if n == 0 then None
      else match Utf8Decode(bs[n..])
        case None => None
        case Some(rest) => Some([ScalarValue(bs)] + rest)
  }

  /** The UTF-8 encoding of one scalar value. */
  function EncodeChar(c: char): (bs: seq<byte>)
    ensures 1 <= |bs| <= 4
  {
    var v := c as int;
    if v < 0x80 then [v]
    else if v < 0x800 then [0xC0 + v / 64, 0x80 + v % 64]
    else if v < 0x10000 then [0xE0 + v / 4096, 0x80 + (v / 64) % 64, 0x80 + v % 64]
    else [0xF0 + v / 262144, 0x80 + (v / 4096) % 64, 0x80 + (v / 64) % 64, 0x80 + v % 64]
  }

  /** The UTF-8 encoding of a string (how a Rust `String` is laid out in a file). */
  function Utf8Encode(s: string): seq<byte>
  {
    if |s| == 0 then [] else EncodeChar(s[0]) + Utf8Encode(s[1..])
  }

  lemma DecodeTwoByteChar(v: int, bs: seq<byte>)
    requires 0x80 <= v < 0x800
    requires |bs| >= 2 && bs[0] == 0xC0 + v / 64 && bs[1] == 0x80 + v % 64
    ensures SequenceLength(bs) == 2 && ScalarValue(bs) as int == v
  {
    assert (v / 64) * 64 + v % 64 == v;
  }

  lemma DecodeThreeByteChar(v: int, bs: seq<byte>)
    requires 0x800 <= v < 0x10000 && !(0xD800 <= v < 0xE000)
    requires |bs| >= 3 && bs[0] == 0xE0 + v / 4096 && bs[1] == 0x80 + (v / 64) % 64 && bs[2] == 0x80 + v % 64
    ensures SequenceLength(bs) == 3 && ScalarValue(bs) as int == v
  {
    var hi, mid, lo := v / 4096, (v / 64) % 64, v % 64;
    assert hi * 64 + mid == v / 64;
    assert (v / 64) * 64 + lo == v;
  }

  lemma DecodeFourByteChar(v: int, bs: seq<byte>)
    requires 0x10000 <= v < 0x11_0000
    requires |bs| >= 4 && bs[0] == 0xF0 + v / 262144 && bs[1] == 0x80 + (v / 4096) % 64
    requires bs[2] == 0x80 + (v / 64) % 64 && bs[3] == 0x80 + v % 64
    ensures SequenceLength(bs) == 4 && ScalarValue(bs) as int == v
  {
    var top, hi, mid, lo := v / 262144, (v / 4096) % 64, (v / 64) % 64, v % 64;
    assert top * 64 + hi == v / 4096;
    assert (v / 4096) * 64 + mid == v / 64;
    assert (v / 64) * 64 + lo == v;
  }

  /** Decoding the front of an encoded character gives that character back, consuming exactly its bytes. */
  lemma DecodeEncodedChar(c: char, rest: seq<byte>)
    ensures var bs := EncodeChar(c) + rest;
      SequenceLength(bs) == |EncodeChar(c)| && ScalarValue(bs) == c
  {
    var v := c as int;
    var bs := EncodeChar(c) + rest;
    if v < 0x80 {
    } else if v < 0x800 {
      DecodeTwoByteChar(v, bs);
    } else if v < 0x10000 {
      DecodeThreeByteChar(v, bs);
    } else {
      DecodeFourByteChar(v, bs);
    }
  }

  /** Every string survives a UTF-8 round trip through the file. */
  lemma {:induction false} DecodeEncode(s: string)
    ensures Utf8Decode(Utf8Encode(s)) == Some(s)
  {
    if |s| > 0 {
      var bs := Utf8Encode(s);
      DecodeEncodedChar(s[0], Utf8Encode(s[1..]));
      assert bs[|EncodeChar(s[0])|..] == Utf8Encode(s[1..]);
      DecodeEncode(s[1..]);
      assert [s[0]] + s[1..] == s;
    }
  }

  /** A text line as it sits in a file: its UTF-8 encoding followed by '\n'. */
  function LineBytes(l: string): seq<byte>
  {
    Utf8Encode(l + "\n")
  }

  /** Text lines as they sit in a file, one after another. */
  function EncodeLines(ls: seq<string>): seq<seq<byte>>
  {
    seq(|ls|, i requires 0 <= i < |ls| => LineBytes(ls[i]))
  }

  /** The first encoded line, and the rest. */
  lemma EncodeLinesCons(ls: seq<string>)
    requires |ls| > 0
    ensures EncodeLines(ls)[0] == LineBytes(ls[0])
    ensures EncodeLines(ls)[1..] == EncodeLines(ls[1..])
  {
    assert EncodeLines(ls)[1..] == EncodeLines(ls[1..]);
  }

  /** Encoding two runs of lines encodes the first and then the second. */
  lemma EncodeLinesAppend(a: seq<string>, b: seq<string>)
    ensures EncodeLines(a + b) == EncodeLines(a) + EncodeLines(b)
  {
    forall i | 0 <= i < |a + b|
      ensures EncodeLines(a + b)[i] == (EncodeLines(a) + EncodeLines(b))[i]
    {
      if i < |a| {
        assert (a + b)[i] == a[i];
      } else {
        assert (a + b)[i] == b[i - |a|];
      }
    }
  }

  /** Writing two runs of lines writes the first run and then the second. */
  lemma {:induction false} ConcatAppend(a: seq<seq<byte>>, b: seq<seq<byte>>)
    ensures Concat(a + b) == Concat(a) + Concat(b)
    decreases |a|
  {
    if |a| == 0 {
      assert a + b == b;
    } else {
      assert (a + b)[1..] == a[1..] + b;
      ConcatAppend(a[1..], b);
    }
  }

  /** Where `a + b` sits in `s`, `a` sits at the same place and `b` right after it. */
  lemma SliceParts(s: seq<byte>, at: nat, a: seq<byte>, b: seq<byte>)
    requires at + |a| + |b| <= |s| && s[at..at + |a| + |b|] == a + b
    ensures s[at..at + |a|] == a && s[at + |a|..at + |a| + |b|] == b
  {
    assert s[at..at + |a|] == s[at..at + |a| + |b|][..|a|];
    assert s[at + |a|..at + |a| + |b|] == s[at..at + |a| + |b|][|a|..];
  }

  /** `lines` lie one after another in `s` from position `at`, each a whole line. */
  predicate LinesAt(s: seq<byte>, at: nat, lines: seq<seq<byte>>)
    decreases |lines|
  {
    |lines| == 0 ||
      (&& IsWholeLine(lines[0]) && at + |lines[0]| <= |s| && s[at..at + |lines[0]|] == lines[0]
       && LinesAt(s, at + |lines[0]|, lines[1..]))
  }

  /** Whole lines written between `pre` and `post` lie right after `pre`. */
  lemma {:induction false} LinesAtConcat(pre: seq<byte>, lines: seq<seq<byte>>, post: seq<byte>)
    requires forall i :: 0 <= i < |lines| ==> IsWholeLine(lines[i])
    ensures LinesAt(pre + Concat(lines) + post, |pre|, lines)
    decreases |lines|
  {
    if |lines| > 0 {
      var line, rest := lines[0], Concat(lines[1..]);
      assert pre + Concat(lines) + post == (pre + line) + rest + post;
      LinesAtConcat(pre + line, lines[1..], post);
      assert (pre + line + rest + post)[|pre|..|pre| + |line|] == line;
    }
  }

  /** Wherever a whole line sits in a stream, one read from its first byte takes exactly that line. */
  lemma LineEndAt(s: seq<byte>, at: nat, line: seq<byte>)
    requires IsWholeLine(line) && at + |line| <= |s| && s[at..at + |line|] == line
    ensures at < |s| && LineEnd(s, at) == at + |line|
  {
    assert s == s[..at] + line + s[at + |line|..];
    LineEndOfWholeLine(s[..at], line, s[at + |line|..]);
  }

  /** Only the line feed character is encoded with the byte '\n'. */
  lemma EncodeCharNotNewline(c: char)
    requires c != '\n'
    ensures forall k :: 0 <= k < |EncodeChar(c)| ==> EncodeChar(c)[k] != Newline
  {
  }

  /** A text without a line feed encodes to bytes without '\n'; the line feed adds one byte 10. */
  lemma {:induction false} EncodeLine(l: string)
    requires '\n' !in l
    ensures Utf8Encode(l + "\n") == Utf8Encode(l) + [Newline]
    ensures forall k :: 0 <= k < |Utf8Encode(l)| ==> Utf8Encode(l)[k] != Newline
  {
    if |l| == 0 {
      assert l + "\n" == "\n";
    } else {
      assert (l + "\n")[1..] == l[1..] + "\n";
      EncodeLine(l[1..]);
      EncodeCharNotNewline(l[0]);
    }
  }

  /**
   * A line that is not blank, has no line feed inside, and starts and ends
   * with a non-whitespace character: `read_line` returns it with its '\n' and
   * `str::trim` gives it back unchanged.
   */
  predicate IsTrimmedLine(l: string)
  {
    |l| > 0 && !IsWhitespace(l[0]) && !IsWhitespace(l[|l| - 1]) && '\n' !in l
  }

  /** Reading such a line from a file: one whole line, valid UTF-8, trimmed back to the text. */
  lemma ReadTrimmedLine(l: string)
    requires IsTrimmedLine(l)
    ensures IsWholeLine(LineBytes(l))
    ensures Utf8Decode(LineBytes(l)) == Some(l + "\n")
    ensures Trim(l + "\n") == l
  {
    EncodeLine(l);
    DecodeEncode(l + "\n");
    assert (l + "\n")[..|l|] == l;
    assert TrimStart(l + "\n") == l + "\n";
  }

  // ---------------------------------------------------------------------------
  // Whitespace and trimming
  // ---------------------------------------------------------------------------

  /**
   * The Unicode White_Space property: what `char::is_whitespace`, `str::trim`
   * and the regex class `\s` treat as whitespace.
   */
  predicate IsWhitespace(c: char)
  {
    ('\t' <= c <= '\r') || c == ' ' || c == '\U{85}' || c == '\U{A0}' || c == '\U{1680}'
    || ('\U{2000}' <= c <= '\U{200A}') || c == '\U{2028}' || c == '\U{2029}'
    || c == '\U{202F}' || c == '\U{205F}' || c == '\U{3000}'
  }

  /** `u8::is_ascii_whitespace`: space, tab, line feed, form feed, carriage return (not vertical tab). */
  predicate IsAsciiWhitespace(c: char)
  {
    c == ' ' || c == '\t' || c == '\n' || c == '\U{0C}' || c == '\r'
  }

  predicate NoWhitespace(s: string)
  {
    forall k :: 0 <= k < |s| ==> !IsWhitespace(s[k])
  }

  /** `str::trim_start`. */
  function TrimStart(s: string): (r: string)
    ensures |r| <= |s| && r == s[|s| - |r|..]
    ensures forall k :: 0 <= k < |s| - |r| ==> IsWhitespace(s[k])
    ensures |r| > 0 ==> !IsWhitespace(r[0])
  {
    if |s| > 0 && IsWhitespace(s[0]) then TrimStart(s[1..]) else s
  }

  /** `str::trim_end`. */
  function TrimEnd(s: string): (r: string)
    ensures |r| <= |s| && r == s[..|r|]
    ensures forall k :: |r| <= k < |s| ==> IsWhitespace(s[k])
    ensures |r| > 0 ==> !IsWhitespace(r[|r| - 1])
  {
    if |s| > 0 && IsWhitespace(s[|s| - 1]) then TrimEnd(s[..|s| - 1]) else s
  }

  /**
   * `str::trim`: the part of `s` between its leading and trailing whitespace;
   * what remains starts and ends with a non-whitespace character.
   */
  function Trim(s: string): (r: string)
    ensures |r| <= |s|
    ensures |r| > 0 ==> !IsWhitespace(r[0]) && !IsWhitespace(r[|r| - 1])
  {
    TrimEnd(TrimStart(s))
  }

  /** What `Trim` keeps is one slice of `s`, and everything it cuts off is whitespace. */
  lemma TrimIsSlice(s: string)
    ensures var i, r := |s| - |TrimStart(s)|, Trim(s);
      && i + |r| <= |s| && r == s[i..i + |r|]
      && (forall k :: 0 <= k < i ==> IsWhitespace(s[k]))
      && (forall k :: i + |r| <= k < |s| ==> IsWhitespace(s[k]))
  {
    var t := TrimStart(s);
    var r := TrimEnd(t);
    var i := |s| - |t|;
    assert t == s[i..];
    assert r == t[..|r|];
    forall k | i + |r| <= k < |s|
      ensures IsWhitespace(s[k])
    {
      assert s[k] == t[k - i];
    }
  }

  // ---------------------------------------------------------------------------
  // Splitting
  // ---------------------------------------------------------------------------

  /** Index of the first whitespace character of `s` at or after `from`, or |s| when there is none. */
  function WhitespaceFrom(s: string, from: nat): (i: nat)
    requires from <= |s|
    ensures from <= i <= |s|
    ensures forall k :: from <= k < i ==> !IsWhitespace(s[k])
    ensures i < |s| ==> IsWhitespace(s[i])
    decreases |s| - from
  {
    if from == |s| || IsWhitespace(s[from]) then from else WhitespaceFrom(s, from + 1)
  }

  /** Index of the first non-whitespace character of `s` at or after `from`, or |s|. */
  function RunEnd(s: string, from: nat): (i: nat)
    requires from <= |s|
    ensures from <= i <= |s|
    ensures forall k :: from <= k < i ==> IsWhitespace(s[k])
    ensures i < |s| ==> !IsWhitespace(s[i])
    decreases |s| - from
  {
    if from < |s| && IsWhitespace(s[from]) then RunEnd(s, from + 1) else from
  }

  /** The contract of `WhitespaceFrom` pins its result down. */
  lemma WhitespaceFromIs(s: string, from: nat, j: nat)
    requires from <= j <= |s|
    requires forall k :: from <= k < j ==> !IsWhitespace(s[k])
    requires j < |s| ==> IsWhitespace(s[j])
    ensures WhitespaceFrom(s, from) == j
  {
  }

  /** The contract of `RunEnd` pins its result down. */
  lemma RunEndIs(s: string, from: nat, j: nat)
    requires from <= j <= |s|
    requires forall k :: from <= k < j ==> IsWhitespace(s[k])
    requires j < |s| ==> !IsWhitespace(s[j])
    ensures RunEnd(s, from) == j
  {
  }

  /** `s` holds no whitespace exactly when there is none from its start to its end. */
  lemma NoWhitespaceAtEnd(s: string)
    ensures NoWhitespace(s) <==> WhitespaceFrom(s, 0) == |s|
  {
    if WhitespaceFrom(s, 0) < |s| {
      assert IsWhitespace(s[WhitespaceFrom(s, 0)]);
    }
  }

  /**
   * Where the separator that starts at the whitespace character `s[i]` ends:
   * a tab is a separator on its own, any other whitespace takes the whole run.
   */
  function SeparatorEnd(s: string, i: nat): (next: nat)
    requires i < |s| && IsWhitespace(s[i])
    ensures i < next <= |s|
    ensures forall k :: i <= k < next ==> IsWhitespace(s[k])
    ensures s[i] != '\t' && next < |s| ==> !IsWhitespace(s[next])
  {
    if s[i] == '\t' then i + 1 else RunEnd(s, i)
  }

  /**
   * The fields of `s` from position `from` on, splitting on the regular
   * expression `\t|\s+` with leftmost-first matching: at the first whitespace
   * character a tab is a separator on its own (the first alternative wins), any
   * other whitespace starts a separator that runs to the end of the whitespace
   * (tabs included).  The first field runs up to the next whitespace, and it is
   * the only one exactly when there is none.
   */
  function FieldsFrom(s: string, from: nat): (parts: seq<string>)
    requires from <= |s|
    ensures |parts| >= 1
    ensures parts[0] == s[from..WhitespaceFrom(s, from)]
    ensures |parts| == 1 <==> WhitespaceFrom(s, from) == |s|
    decreases |s| - from
  {
    var i := WhitespaceFrom(s, from);
    if i == |s| then [s[from..]]
    else
      [s[from..i]] + FieldsFrom(s, SeparatorEnd(s, i))
  }

  /** `regex::Regex::new(r"\t|\s+").split(s)`: the fields of the whole line. */
  function SplitPeakFields(s: string): (parts: seq<string>)
    ensures |parts| >= 1
    ensures parts[0] == s[..WhitespaceFrom(s, 0)]
    ensures |parts| == 1 <==> NoWhitespace(s)
    ensures |parts| >= 2 ==>
      var next := SeparatorEnd(s, WhitespaceFrom(s, 0));
      parts[1] == s[next..WhitespaceFrom(s, next)]
  {
    NoWhitespaceAtEnd(s);
    FieldsFrom(s, 0)
  }

  /** Every field in `parts` is free of whitespace. */
  predicate FieldsHaveNoWhitespace(parts: seq<string>)
  {
    forall k :: 0 <= k < |parts| ==> NoWhitespace(parts[k])
  }

  lemma FieldsHaveNoWhitespaceCons(head: string, rest: seq<string>)
    requires NoWhitespace(head) && FieldsHaveNoWhitespace(rest)
    ensures FieldsHaveNoWhitespace([head] + rest)
  {
    var parts := [head] + rest;
    forall k | 0 < k < |parts|
      ensures NoWhitespace(parts[k])
    {
      assert parts[k] == rest[k - 1];
    }
  }

  /** The slice `s[from..to]` holds no whitespace when none of its positions does. */
  lemma SliceHasNoWhitespace(s: string, from: nat, to: nat)
    requires from <= to <= |s|
    requires forall k :: from <= k < to ==> !IsWhitespace(s[k])
    ensures NoWhitespace(s[from..to])
  {
    var p := s[from..to];
    assert forall k :: 0 <= k < |p| ==> p[k] == s[from + k];
  }

  /** No field of `FieldsFrom` holds whitespace. */
  lemma {:induction false} FieldsFromHaveNoWhitespace(s: string, from: nat)
    requires from <= |s|
    ensures FieldsHaveNoWhitespace(FieldsFrom(s, from))
    decreases |s| - from
  {
    var i := WhitespaceFrom(s, from);
    SliceHasNoWhitespace(s, from, i);
    if i < |s| {
      var next := SeparatorEnd(s, i);
      FieldsFromHaveNoWhitespace(s, next);
      FieldsHaveNoWhitespaceCons(s[from..i], FieldsFrom(s, next));
    }
  }

  /** No field of `SplitPeakFields` holds whitespace. */
  lemma SplitFieldsHaveNoWhitespace(s: string)
    ensures FieldsHaveNoWhitespace(SplitPeakFields(s))
  {
    FieldsFromHaveNoWhitespace(s, 0);
  }

  /** A whitespace-free tail of `s` is its own last field. */
  lemma FieldsFromTail(s: string, from: nat)
    requires from <= |s| && NoWhitespace(s[from..])
    ensures FieldsFrom(s, from) == [s[from..]]
  {
    forall k | from <= k < |s|
      ensures !IsWhitespace(s[k])
    {
      assert s[k] == s[from..][k - from];
    }
    WhitespaceFromIs(s, from, |s|);
  }

  /** A field without whitespace splits into itself alone. */
  lemma SplitPeakFieldsOfOne(a: string)
    requires NoWhitespace(a)
    ensures SplitPeakFields(a) == [a]
  {
    FieldsFromTail(a, 0);
    assert a[0..] == a;
  }

  /**
   * Two whitespace-free fields joined by a tab, or by a run of whitespace that
   * does not start with a tab, split into exactly those two fields.
   */
  lemma SplitPeakFieldsOfTwo(a: string, sep: string, b: string)
    requires |a| > 0 && |b| > 0 && NoWhitespace(a) && NoWhitespace(b)
    requires sep == "\t" || (|sep| > 0 && sep[0] != '\t' && forall k :: 0 <= k < |sep| ==> IsWhitespace(sep[k]))
    ensures SplitPeakFields(a + sep + b) == [a, b]
  {
    var s := a + sep + b;
    var n := |a| + |sep|;
    assert forall k :: 0 <= k < |a| ==> s[k] == a[k];
    assert forall k :: |a| <= k < n ==> s[k] == sep[k - |a|];
    assert s[..|a|] == a && s[n..] == b;
    WhitespaceFromIs(s, 0, |a|);
    if sep != "\t" {
      assert s[n] == b[0];
      RunEndIs(s, |a|, n);
    }
    FieldsFromTail(s, n);
  }

  /** A field `w` placed at `from` and followed by whitespace or the end runs to `from + |w|`. */
  lemma FieldAt(s: string, from: nat, w: string)
    requires from + |w| <= |s| && s[from..from + |w|] == w && NoWhitespace(w)
    requires from + |w| < |s| ==> IsWhitespace(s[from + |w|])
    ensures WhitespaceFrom(s, from) == from + |w|
  {
    forall k | from <= k < from + |w|
      ensures !IsWhitespace(s[k])
    {
      assert s[k] == w[k - from];
    }
    WhitespaceFromIs(s, from, from + |w|);
  }

  /** A separator `sep` placed at `i` and followed by a non-whitespace character ends at `i + |sep|`. */
  lemma SeparatorAt(s: string, i: nat, sep: string)
    requires sep == "\t" || (|sep| > 0 && sep[0] != '\t' && forall k :: 0 <= k < |sep| ==> IsWhitespace(sep[k]))
    requires i + |sep| < |s| && s[i..i + |sep|] == sep && !IsWhitespace(s[i + |sep|])
    ensures IsWhitespace(s[i]) && SeparatorEnd(s, i) == i + |sep|
  {
    assert s[i] == sep[0];
    if sep != "\t" {
      forall k | i <= k < i + |sep|
        ensures IsWhitespace(s[k])
      {
        assert s[k] == sep[k - i];
      }
      RunEndIs(s, i, i + |sep|);
    }
  }

  /**
   * A line that begins with a field, a separator (one tab, or a run of
   * whitespace starting with something else) and a second field has those two
   * as its first fields, whatever follows the second one after whitespace.
   */
  lemma SplitPeakFieldsLeading(a: string, sep: string, b: string, tail: string)
    requires |a| > 0 && |b| > 0 && NoWhitespace(a) && NoWhitespace(b)
    requires sep == "\t" || (|sep| > 0 && sep[0] != '\t' && forall k :: 0 <= k < |sep| ==> IsWhitespace(sep[k]))
    requires tail == "" || IsWhitespace(tail[0])
    ensures var parts := SplitPeakFields(a + sep + b + tail);
      |parts| >= 2 && parts[0] == a && parts[1] == b
  {
    var s := a + sep + b + tail;
    var n := |a| + |sep|;
    var m := n + |b|;
    PiecesOfFour(a, sep, b, tail);
    SeparatorAt(s, |a|, sep);
    FieldAt(s, 0, a);
    FieldAt(s, n, b);
    FirstTwoFields(s, |a|, n, m);
  }

  /** Where the four pieces of `a + sep + b + tail` sit. */
  lemma PiecesOfFour(a: string, sep: string, b: string, tail: string)
    requires |b| > 0
    ensures var s := a + sep + b + tail;
      var n := |a| + |sep|;
      && s[0..|a|] == a && s[|a|..n] == sep && s[n..n + |b|] == b
      && s[n] == b[0] && (|tail| > 0 ==> s[n + |b|] == tail[0])
  {
  }

  /** The first two fields, from where the first whitespace and the separator after it end. */
  lemma FirstTwoFields(s: string, i: nat, n: nat, m: nat)
    requires i < |s| && WhitespaceFrom(s, 0) == i
    requires IsWhitespace(s[i]) && SeparatorEnd(s, i) == n && n <= |s| && WhitespaceFrom(s, n) == m
    ensures var parts := SplitPeakFields(s);
      |parts| >= 2 && parts[0] == s[..i] && parts[1] == s[n..m]
  {
  }

  /** Two tabs in a row: the second is a separator of its own, with an empty field between them. */
  lemma SplitPeakFieldsDoubleTab(a: string, b: string)
    requires |a| > 0 && |b| > 0 && NoWhitespace(a) && NoWhitespace(b)
    ensures SplitPeakFields(a + "\t\t" + b) == [a, "", b]
  {
    var s := a + "\t\t" + b;
    var n := |a|;
    assert forall k :: 0 <= k < n ==> s[k] == a[k];
    assert s[n] == '\t' && s[n + 1] == '\t';
    assert s[..n] == a && s[n + 1..n + 1] == "" && s[n + 2..] == b;
    WhitespaceFromIs(s, 0, n);
    assert FieldsFrom(s, 0) == [a] + FieldsFrom(s, n + 1);
    WhitespaceFromIs(s, n + 1, n + 1);
    assert FieldsFrom(s, n + 1) == [""] + FieldsFrom(s, n + 2);
    FieldsFromTail(s, n + 2);
  }

  /** Length of the run at the front of `s` that holds no ASCII whitespace. */
  function WordRun(s: string): (n: nat)
    ensures n <= |s|
    ensures forall k :: 0 <= k < n ==> !IsAsciiWhitespace(s[k])
    ensures n < |s| ==> IsAsciiWhitespace(s[n])
  {
    if |s| > 0 && !IsAsciiWhitespace(s[0]) then 1 + WordRun(s[1..]) else 0
  }

  /**
   * `str::split_ascii_whitespace`: the maximal non-empty runs free of ASCII
   * whitespace, in order.  There are none exactly when `s` is all ASCII whitespace.
   */
  function SplitAsciiWhitespace(s: string): (parts: seq<string>)
    ensures forall k :: 0 <= k < |parts| ==>
      |parts[k]| > 0 && forall j :: 0 <= j < |parts[k]| ==> !IsAsciiWhitespace(parts[k][j])
    ensures parts == [] <==> forall k :: 0 <= k < |s| ==> IsAsciiWhitespace(s[k])
    decreases |s|
  {
    if |s| == 0 then []
    else if IsAsciiWhitespace(s[0]) then SplitAsciiWhitespace(s[1..])
    else
      var n := WordRun(s);
      [s[..n]] + SplitAsciiWhitespace(s[n..])
  }

  /** A non-empty run without ASCII whitespace: one field of `split_ascii_whitespace`. */
  predicate IsAsciiWord(w: string)
  {
    |w| > 0 && forall k :: 0 <= k < |w| ==> !IsAsciiWhitespace(w[k])
  }

  /** A word alone is one field. */
  lemma SplitAsciiWhitespaceOfWord(w: string)
    requires IsAsciiWord(w)
    ensures SplitAsciiWhitespace(w) == [w]
  {
    assert WordRun(w) == |w|;
    assert w[..|w|] == w;
  }

  /** A word followed by a space and more text: the word is the first field, the rest follows. */
  lemma SplitAsciiWhitespaceOfWords(w: string, rest: string)
    requires IsAsciiWord(w)
    ensures SplitAsciiWhitespace(w + " " + rest) == [w] + SplitAsciiWhitespace(rest)
  {
    var s := w + " " + rest;
    assert s[|w|] == ' ';
    assert WordRun(s) == |w| by {
      assert forall k :: 0 <= k < |w| ==> s[k] == w[k];
    }
    assert s[..|w|] == w;
    assert s[|w|..] == " " + rest;
    assert (" " + rest)[1..] == rest;
  }

  /** Three words separated by single spaces split back into those three words. */
  lemma SplitAsciiWhitespaceOfThree(a: string, b: string, c: string)
    requires IsAsciiWord(a) && IsAsciiWord(b) && IsAsciiWord(c)
    ensures SplitAsciiWhitespace(a + " " + b + " " + c) == [a, b, c]
  {
    var r := b + " " + c;
    assert a + " " + b + " " + c == a + " " + r;
    SplitAsciiWhitespaceOfWords(a, r);
    SplitAsciiWhitespaceOfWords(b, c);
    SplitAsciiWhitespaceOfWord(c);
  }

  /** The text `seps[0] + words[0] + seps[1] + ... + words[n-1] + seps[n]`. */
  function Weave(seps: seq<string>, words: seq<string>): string
    requires |seps| == |words| + 1
    decreases |words|
  {
    if |words| == 0 then seps[0] else seps[0] + (words[0] + Weave(seps[1..], words[1..]))
  }

  predicate AllAsciiWhitespace(w: string)
  {
    forall k :: 0 <= k < |w| ==> IsAsciiWhitespace(w[k])
  }

  /** ASCII-whitespace separators: the outer two may be empty, the inner ones may not. */
  predicate IsSeparation(seps: seq<string>)
  {
    forall i :: 0 <= i < |seps| ==> AllAsciiWhitespace(seps[i]) && (0 < i < |seps| - 1 ==> |seps[i]| > 0)
  }

  /** `s` is `words` laid out between the separators `seps`. */
  predicate WovenFrom(s: string, seps: seq<string>, words: seq<string>)
  {
    |seps| == |words| + 1 && IsSeparation(seps) && s == Weave(seps, words)
  }

  /** The contract of `WordRun` pins its result down. */
  lemma WordRunIs(s: string, n: nat)
    requires n <= |s| && (forall k :: 0 <= k < n ==> !IsAsciiWhitespace(s[k]))
    requires n < |s| ==> IsAsciiWhitespace(s[n])
    ensures WordRun(s) == n
  {
  }

  /** Leading ASCII whitespace adds no field. */
  lemma {:induction false} SplitSkipsWhitespace(ws: string, t: string)
    requires AllAsciiWhitespace(ws)
    ensures SplitAsciiWhitespace(ws + t) == SplitAsciiWhitespace(t)
    decreases |ws|
  {
    if |ws| > 0 {
      assert (ws + t)[0] == ws[0];
      assert (ws + t)[1..] == ws[1..] + t;
      assert SplitAsciiWhitespace(ws + t) == SplitAsciiWhitespace(ws[1..] + t);
      SplitSkipsWhitespace(ws[1..], t);
    } else {
      assert ws + t == t;
    }
  }

  /** A word followed by nothing, or by whitespace, is the first field. */
  lemma SplitWordThen(w: string, rest: string)
    requires IsAsciiWord(w) && (rest == "" || IsAsciiWhitespace(rest[0]))
    ensures SplitAsciiWhitespace(w + rest) == [w] + SplitAsciiWhitespace(rest)
  {
    var s := w + rest;
    assert forall k :: 0 <= k < |w| ==> s[k] == w[k];
    if |rest| > 0 {
      assert s[|w|] == rest[0];
    }
    WordRunIs(s, |w|);
    assert s[..|w|] == w && s[|w|..] == rest;
  }

  /** Prefixing the first separator. */
  lemma WeavePrepend(x: string, seps: seq<string>, words: seq<string>)
    requires |seps| == |words| + 1
    ensures Weave([x + seps[0]] + seps[1..], words) == x + Weave(seps, words)
  {
    var seps' := [x + seps[0]] + seps[1..];
    assert seps'[1..] == seps[1..];
  }

  /** Dropping the first separator keeps a separation. */
  lemma SeparationTail(seps: seq<string>)
    requires |seps| >= 2 && IsSeparation(seps)
    ensures IsSeparation(seps[1..])
  {
    forall i | 0 <= i < |seps| - 1
      ensures seps[1..][i] == seps[i + 1]
    {
    }
  }

  /** After the first word of a layout comes nothing or whitespace. */
  lemma WeaveAfterWord(seps: seq<string>, words: seq<string>)
    requires |seps| == |words| + 1 && |words| > 0 && IsSeparation(seps)
    ensures Weave(seps[1..], words[1..]) == "" || IsAsciiWhitespace(Weave(seps[1..], words[1..])[0])
  {
    var rest := Weave(seps[1..], words[1..]);
    if |seps[1]| > 0 {
      assert rest[0] == seps[1][0];
    } else {
      assert rest == seps[1];
    }
  }

  /**
   * The fields of a text laid out from words and separators are those words:
   * `split_ascii_whitespace` undoes the layout.
   */
  lemma {:induction false} WeaveSplits(seps: seq<string>, words: seq<string>)
    requires |seps| == |words| + 1 && IsSeparation(seps) && AllAsciiWords(words)
    ensures SplitAsciiWhitespace(Weave(seps, words)) == words
    decreases |words|
  {
    if |words| > 0 {
      SeparationTail(seps);
      assert AllAsciiWords(words[1..]) by {
        forall i | 0 <= i < |words| - 1
          ensures words[1..][i] == words[i + 1]
        {
        }
      }
      WeaveSplits(seps[1..], words[1..]);
      WeaveSplitsStep(seps, words);
    }
  }

  /** Every one of `words` is a field. */
  predicate AllAsciiWords(words: seq<string>)
  {
    forall i :: 0 <= i < |words| ==> IsAsciiWord(words[i])
  }

  /** One step of `WeaveSplits`: the first word, then the fields of the rest. */
  lemma WeaveSplitsStep(seps: seq<string>, words: seq<string>)
    requires |seps| == |words| + 1 && |words| > 0 && IsSeparation(seps) && IsAsciiWord(words[0])
    requires SplitAsciiWhitespace(Weave(seps[1..], words[1..])) == words[1..]
    ensures SplitAsciiWhitespace(Weave(seps, words)) == words
  {
    var rest := Weave(seps[1..], words[1..]);
    WeaveAfterWord(seps, words);
    calc {
      SplitAsciiWhitespace(Weave(seps, words));
      SplitAsciiWhitespace(seps[0] + (words[0] + rest));
      { SplitSkipsWhitespace(seps[0], words[0] + rest); }
      SplitAsciiWhitespace(words[0] + rest);
      { SplitWordThen(words[0], rest); }
      [words[0]] + words[1..];
      words;
    }
  }

  /** A whitespace character in front joins the first separator. */
  lemma WeaveLeadingWhitespace(c: char, t: string, seps: seq<string>, words: seq<string>)
    requires IsAsciiWhitespace(c) && WovenFrom(t, seps, words)
    ensures WovenFrom([c] + t, [[c] + seps[0]] + seps[1..], words)
  {
    var seps' := [[c] + seps[0]] + seps[1..];
    WeavePrepend([c], seps, words);
    forall i | 0 < i < |seps'|
      ensures seps'[i] == seps[i]
    {
    }
  }

  /** Text that starts with whitespace but continues with a word has the whitespace in front. */
  lemma WhitespaceBeforeWord(x: string, y: string)
    requires |y| > 0 && !IsAsciiWhitespace(y[0]) && IsAsciiWhitespace((x + y)[0])
    ensures |x| > 0
  {
  }

  /** A word in front, before whitespace or nothing, is a new first word after an empty separator. */
  lemma WeaveLeadingWord(w: string, t: string, seps: seq<string>, words: seq<string>)
    requires IsAsciiWord(w) && (t == "" || IsAsciiWhitespace(t[0])) && WovenFrom(t, seps, words)
    requires |words| > 0 ==> IsAsciiWord(words[0])
    ensures WovenFrom(w + t, [""] + seps, [w] + words)
  {
    var seps' := [""] + seps;
    assert seps'[1..] == seps && ([w] + words)[1..] == words;
    if |words| > 0 {
      assert t == seps[0] + (words[0] + Weave(seps[1..], words[1..]));
      WhitespaceBeforeWord(seps[0], words[0] + Weave(seps[1..], words[1..]));
    }
    forall i | 0 < i < |seps'|
      ensures seps'[i] == seps[i - 1]
    {
    }
  }

  /**
   * Every text is its fields laid out between ASCII-whitespace separators:
   * together with `WeaveSplits`, the fields are exactly the maximal runs
   * without ASCII whitespace, in order.
   */
  lemma {:induction false} SplitAsciiWhitespaceWeaves(s: string)
    ensures exists seps :: WovenFrom(s, seps, SplitAsciiWhitespace(s))
    decreases |s|
  {
    if |s| == 0 {
      assert WovenFrom(s, [""], SplitAsciiWhitespace(s));
    } else if IsAsciiWhitespace(s[0]) {
      SplitAsciiWhitespaceWeaves(s[1..]);
      var seps :| WovenFrom(s[1..], seps, SplitAsciiWhitespace(s[1..]));
      WeavesAfterWhitespace(s, seps);
    } else {
      var n := WordRun(s);
      SplitAsciiWhitespaceWeaves(s[n..]);
      var seps :| WovenFrom(s[n..], seps, SplitAsciiWhitespace(s[n..]));
      WeavesAfterWord(s, seps);
    }
  }

  /** The layout step of `SplitAsciiWhitespaceWeaves` for leading whitespace. */
  lemma WeavesAfterWhitespace(s: string, seps: seq<string>)
    requires |s| > 0 && IsAsciiWhitespace(s[0]) && WovenFrom(s[1..], seps, SplitAsciiWhitespace(s[1..]))
    ensures WovenFrom(s, [[s[0]] + seps[0]] + seps[1..], SplitAsciiWhitespace(s))
  {
    WeaveLeadingWhitespace(s[0], s[1..], seps, SplitAsciiWhitespace(s[1..]));
    assert s == [s[0]] + s[1..];
  }

  /** A text is its two halves around `n`. */
  lemma SliceJoin(s: string, n: nat)
    requires n <= |s|
    ensures s == s[..n] + s[n..]
  {
  }

  /** The layout step of `SplitAsciiWhitespaceWeaves` for a leading word. */
  lemma WeavesAfterWord(s: string, seps: seq<string>)
    requires |s| > 0 && !IsAsciiWhitespace(s[0])
    requires WovenFrom(s[WordRun(s)..], seps, SplitAsciiWhitespace(s[WordRun(s)..]))
    ensures WovenFrom(s, [""] + seps, SplitAsciiWhitespace(s))
  {
    var n := WordRun(s);
    var w, t := s[..n], s[n..];
    SliceJoin(s, n);
    var rest := SplitAsciiWhitespace(t);
    assert SplitAsciiWhitespace(s) == [w] + rest;
    assert IsAsciiWord(w) by {
      assert w[0] == s[0];
      forall k | 0 <= k < |w|
        ensures w[k] == s[k]
      {
      }
    }
    assert t == "" || t[0] == s[n];
    WeaveLeadingWord(w, t, seps, rest);
  }

  /** Index of the first `c` in `s`, or |s| when `c` does not occur. */
  function IndexOf(s: string, c: char): (i: nat)
    ensures i <= |s|
    ensures i < |s| ==> s[i] == c
    ensures forall k :: 0 <= k < i ==> s[k] != c
  {
    if |s| == 0 || s[0] == c then 0 else 1 + IndexOf(s[1..], c)
  }

  // ---------------------------------------------------------------------------
  // Case and numeric classes
  // ---------------------------------------------------------------------------

  /** `char::to_lowercase` for the letters of Latin-1 (A-Z and U+00C0..U+00DE but U+00D7). */
  function LowerChar(c: char): char
  {
    if 'A' <= c <= 'Z' || ('\U{C0}' <= c <= '\U{DE}' && c != '\U{D7}') then (c as int + 32) as char else c
  }

  /** `str::to_lowercase`, character by character. */
  function ToLower(s: string): (r: string)
    ensures |r| == |s|
  {
    seq(|s|, k requires 0 <= k < |s| => LowerChar(s[k]))
  }

  /**
   * `char::is_numeric` (general categories Nd, Nl and No) on U+0000..U+00FF:
   * the ASCII digits, the superscripts two, three and one, and the vulgar
   * fractions one quarter, one half and three quarters.
   */
  predicate IsNumeric(c: char)
  {
    ('0' <= c <= '9') || c == '\U{B2}' || c == '\U{B3}' || c == '\U{B9}' || ('\U{BC}' <= c <= '\U{BE}')
  }

  predicate IsDigit(c: char)
  {
    '0' <= c <= '9'
  }

  predicate AllDigits(s: string)
  {
    forall k :: 0 <= k < |s| ==> IsDigit(s[k])
  }

  // ---------------------------------------------------------------------------
  // Number literals
  // ---------------------------------------------------------------------------

  function StripSign(s: string): (r: string)
  {
    if |s| > 0 && (s[0] == '+' || s[0] == '-') then s[1..] else s
  }

  /** Digits with at most one '.', and at least one digit. */
  predicate IsMantissa(m: string)
  {
    var d := IndexOf(m, '.');
    if d == |m| then |m| > 0 && AllDigits(m)
    else |m| > 1 && AllDigits(m[..d]) && AllDigits(m[d + 1..])
  }

  /** Index of the first 'e' or 'E', or |s|. */
  function ExponentMark(s: string): (i: nat)
    ensures i <= |s|
    ensures i < |s| ==> s[i] == 'e' || s[i] == 'E'
    ensures forall k :: 0 <= k < i ==> s[k] != 'e' && s[k] != 'E'
  {
    if |s| == 0 || s[0] == 'e' || s[0] == 'E' then 0 else 1 + ExponentMark(s[1..])
  }

  predicate IsDecimal(s: string)
  {
    var e := ExponentMark(s);
    if e == |s| then IsMantissa(s)
    else
      var exp := StripSign(s[e + 1..]);
      IsMantissa(s[..e]) && |exp| > 0 && AllDigits(exp)
  }

  /**
   * The text `f64::from_str` and `f32::from_str` accept: an optional sign, then
   * `inf`, `infinity` or `nan` in any case, or a decimal number with an optional
   * exponent.  Out-of-range values round to infinity, so they are not errors.
   */
  predicate IsFloatLiteral(s: string)
  {
    var body := StripSign(s);
    ToLower(body) in {"inf", "infinity", "nan"} || IsDecimal(body)
  }

  /** A float literal starts with a sign, a digit, '.', or the first letter of `inf`/`nan`. */
  lemma FloatLiteralFirstChar(s: string)
    requires IsFloatLiteral(s)
    ensures |s| > 0
    ensures s[0] in "+-.0123456789iInN"
  {
    if !(|s| > 0 && (s[0] == '+' || s[0] == '-')) {
      assert StripSign(s) == s;
      if ToLower(s) in {"inf", "infinity", "nan"} {
        SpecialLiteralFirstChar(s);
      } else {
        DecimalFirstChar(s);
      }
    }
  }

  /** `inf`, `infinity` and `nan`, in any case, start with `i`, `I`, `n` or `N`. */
  lemma SpecialLiteralFirstChar(s: string)
    requires ToLower(s) in {"inf", "infinity", "nan"}
    ensures |s| > 0 && s[0] in "iInN"
  {
    assert |s| > 0 && LowerChar(s[0]) == ToLower(s)[0];
  }

  /** A decimal starts with a digit or '.'. */
  lemma DecimalFirstChar(s: string)
    requires IsDecimal(s)
    ensures |s| > 0 && s[0] in ".0123456789"
  {
    var e := ExponentMark(s);
    var m := if e == |s| then s else s[..e];
    assert IsMantissa(m);
    assert |m| > 0 && m[0] == s[0];
    var d := IndexOf(m, '.');
    if d != 0 {
      assert IsDigit(m[0]);
    }
  }

  /** Value of a run of decimal digits. */
  function DigitsValue(s: string): (v: nat)
    requires AllDigits(s)
  {
    if |s| == 0 then 0 else DigitsValue(s[..|s| - 1]) * 10 + (s[|s| - 1] as int - '0' as int)
  }

  const I32Min: int := -0x8000_0000
  const I32Max: int := 0x7FFF_FFFF

  /** The value of an optionally signed run of digits: negated after a leading '-'. */
  function SignedValue(s: string): int
    requires AllDigits(StripSign(s))
  {
    if |s| > 0 && s[0] == '-' then -(DigitsValue(StripSign(s)) as int) else DigitsValue(StripSign(s))
  }

  /**
   * `i32::from_str`: an optional sign and at least one ASCII digit, with the value
   * inside the 32-bit signed range; anything else is a parse error (`None`).
   */
  function ParseI32(s: string): (r: Option<int>)
    ensures r.Some? <==>
      |StripSign(s)| > 0 && AllDigits(StripSign(s)) && I32Min <= SignedValue(s) <= I32Max
    ensures r.Some? ==> r.value == SignedValue(s)
  {
    var digits := StripSign(s);
    if |digits| == 0 || !AllDigits(digits) then None
    else
      var v: int := if s[0] == '-' then -(DigitsValue(digits) as int) else DigitsValue(digits);
      if I32Min <= v <= I32Max then Some(v) else None
  }

  /** The ASCII digit for `d`. */
  function DigitChar(d: nat): char
    requires d < 10
  {
    ('0' as int + d) as char
  }

  /** Decimal digits of `n`, most significant first, without leading zeros. */
  function Digits(n: nat): (s: string)
    ensures |s| > 0 && AllDigits(s)
    decreases n
  {
    if n < 10 then [DigitChar(n)] else Digits(n / 10) + [DigitChar(n % 10)]
  }

  /** `n` written in decimal, with a '-' when negative: what `i32`'s `Display` prints. */
  function DecimalText(n: int): string
  {
    if n < 0 then "-" + Digits(-n) else Digits(n)
  }

  /** Reading back the digits of `n` gives `n`. */
  lemma {:induction false} DigitsValueOfDigits(n: nat)
    ensures DigitsValue(Digits(n)) == n
    decreases n
  {
    var s := Digits(n);
    if n >= 10 {
      DigitsValueOfDigits(n / 10);
      assert s[..|s| - 1] == Digits(n / 10);
    }
  }

  /** `i32::from_str` reads back whatever `i32` prints. */
  lemma ParseDecimalText(n: int)
    requires I32Min <= n <= I32Max
    ensures ParseI32(DecimalText(n)) == Some(n)
  {
    var s := DecimalText(n);
    if n < 0 {
      assert StripSign(s) == Digits(-n);
      DigitsValueOfDigits(-n);
    } else {
      assert IsDigit(Digits(n)[0]);
      assert StripSign(s) == Digits(n);
      DigitsValueOfDigits(n);
    }
  }
}
