/**
 * Record framing of src/ecuabs/FsAbs: a record is its text, a separator, eight hexadecimal digits of its
 * CRC-32 and a line end.
 */
module FsFrame {
  import opened Base
  import Crc
  import CrcCheck
  import CrcTable

  const CRC_SEPARATOR: char := '|'
  const NEWLINE: char := '\n'
  const CRC_FIELD_CHARS := 8
  const LINE_BUFFER_SIZE := 2316
  /** Bytes one read of the line buffer asks for. */
  const READ_SIZE := 2315
  /** The longest text whose line one read can hold. */
  const MAX_READABLE := 2305
  /** The longest text the writer accepts. */
  const MAX_WRITABLE := 2306

  // ---------------------------------------------------------------------------------------------
  // The CRC field
  // ---------------------------------------------------------------------------------------------

  function BytesOf(text: string): (b: seq<byte>)
    ensures |b| == |text|
  {
    seq(|text|, i requires 0 <= i < |text| => text[i] as int % 256)
  }

  function Crc32(text: string): uint32 {
    Crc.PowersOfTwo();
    Crc.Of(Crc.CRC32, BytesOf(text))
  }

  /** The call both sides make: a first call of Crc_CalculateCRC32 over the whole text. */
  method Checksum(text: string) returns (crc: uint32)
    ensures crc == Crc32(text)
  {
    hide Crc.Of, BytesOf;
    var routine := new CrcTable.Crc32Routine.Crc32();
    crc := routine.Calculate(BytesOf(text), 0, true, []);
  }

  function HexDigit(nibble: nat): char
    requires nibble < 16
  {
    if nibble < 10 then ('0' as int + nibble) as char else ('A' as int + nibble - 10) as char
  }

  function HexValue(c: char): Option<nat> {
    if '0' <= c <= '9' then Some(c as int - '0' as int)
    else if 'A' <= c <= 'F' then Some(c as int - 'A' as int + 10)
    else None
  }

  /** The low n hexadecimal digits of v, most significant first. */
  function Hex(v: nat, n: nat): (s: string)
    ensures |s| == n
  {
    if n == 0 then "" else Hex(v / 16, n - 1) + [HexDigit(v % 16)]
  }

  function ParseHex(s: string): Option<nat> {
    if s == "" then Some(0)
    else match (ParseHex(s[..|s| - 1]), HexValue(s[|s| - 1]))
      case (Some(v), Some(d)) => Some(16 * v + d)
      case _ => None
  }

  function Pow16(n: nat): nat {
    if n == 0 then 1 else 16 * Pow16(n - 1)
  }

  lemma {:induction false} HexRoundTrip(v: nat, n: nat)
    requires v < Pow16(n)
    ensures ParseHex(Hex(v, n)) == Some(v)
  {
    if n > 0 {
      HexRoundTrip(v / 16, n - 1);
      assert Hex(v, n)[..n - 1] == Hex(v / 16, n - 1);
    }
  }

  lemma {:induction false} HexCharacters(v: nat, n: nat)
    ensures CRC_SEPARATOR !in Hex(v, n) && NEWLINE !in Hex(v, n)
  {
    if n > 0 { HexCharacters(v / 16, n - 1); }
  }

  lemma CrcFieldRoundTrip(crc: uint32)
    ensures ParseHex(Hex(crc, CRC_FIELD_CHARS)) == Some(crc)
  {
    assert Pow16(4) == 65536;
    assert Pow16(8) == U32;
    HexRoundTrip(crc, CRC_FIELD_CHARS);
  }

  /** FsAbs_WriteCrcField: digit i is the nibble at shift 28 - 4 i. */
  method WriteCrcField(crc: uint32) returns (field: string)
    ensures field == Hex(crc, CRC_FIELD_CHARS)
  {
    field := "";
    var rest: nat, i := crc, 0;
    while i < CRC_FIELD_CHARS
      invariant 0 <= i <= CRC_FIELD_CHARS && Hex(crc, CRC_FIELD_CHARS) == Hex(rest, CRC_FIELD_CHARS - i) + field
    {
      field := [HexDigit(rest % 16)] + field;
      rest := rest / 16;
      i := i + 1;
    }
  }

  /** FsAbs_ParseCrcField: the value, or nothing on the first character that is not a digit. */
  method ParseCrcField(text: string) returns (value: Option<nat>)
    requires |text| == CRC_FIELD_CHARS
    ensures value == ParseHex(text)
  {
    var v: nat := 0;
    for i := 0 to CRC_FIELD_CHARS
      invariant ParseHex(text[..i]) == Some(v)
    {
      assert text[..i + 1][..i] == text[..i];
      match HexValue(text[i]) {
        case None =>
          NotHex(text, i);
          return None;
        case Some(d) =>
          v := 16 * v + d;
      }
    }
    assert text[..CRC_FIELD_CHARS] == text;
    value := Some(v);
  }

  lemma {:induction false} NotHex(s: string, i: nat)
    requires i < |s| && HexValue(s[i]) == None
    ensures ParseHex(s) == None
    decreases |s|
  {
    if i < |s| - 1 { NotHex(s[..|s| - 1], i); }
  }

  // ---------------------------------------------------------------------------------------------
  // Lines
  // ---------------------------------------------------------------------------------------------

  /** The line a record is stored as. */
  function LineOf(text: string): (line: string)
    ensures |line| == |text| + CRC_FIELD_CHARS + 2
  {
    text + [CRC_SEPARATOR] + Hex(Crc32(text), CRC_FIELD_CHARS) + [NEWLINE]
  }

  /** What is stored of the text 123456789, down to the letter case of its field. */
  lemma LineCheckValue()
    ensures LineOf("123456789") == "123456789|CBF43926\n"
  {
    CrcOfDigits();
    HexOfCheckValue();
    hide Hex, Crc32;
    assert "123456789" + [CRC_SEPARATOR] + "CBF43926" + [NEWLINE] == "123456789|CBF43926\n";
  }

  lemma CrcOfDigits()
    ensures Crc32("123456789") == 0xCBF43926
  {
    hide Crc.Of;
    assert BytesOf("123456789") == CrcCheck.DIGITS;
    CrcCheck.CheckValues();
  }

  lemma HexOfCheckValue()
    ensures Hex(0xCBF43926, 8) == "CBF43926"
  {
    assert Hex(0xCBF4, 4) == "CBF4";
    assert Hex(0xCBF439, 6) == "CBF439";
  }

  /** Index of the first line end, or the length when there is none. */
  function FirstNewline(s: string): (n: nat)
    ensures n <= |s| && NEWLINE !in s[..n] && (n < |s| ==> s[n] == NEWLINE)
  {
    if s == "" || s[0] == NEWLINE then 0 else 1 + FirstNewline(s[1..])
  }

  /** Index just after the last separator, or zero when there is none. */
  function AfterLastSeparator(s: string): (n: nat)
    ensures n <= |s| && CRC_SEPARATOR !in s[n..] && (n > 0 ==> s[n - 1] == CRC_SEPARATOR)
  {
    if s == "" then 0
    else if s[|s| - 1] == CRC_SEPARATOR then |s|
    else AfterLastSeparator(s[..|s| - 1])
  }

  /** What the bytes at the cursor turn out to be, and how far the cursor must move to pass them. */
  datatype Verdict = Damaged(span: nat) | Good(text: string, span: nat)

  function Judge(chunk: string): Verdict {
    var n := FirstNewline(chunk);
    if n == |chunk| then Damaged(|chunk|)
    else
      var sep := AfterLastSeparator(chunk[..n]);
      if sep == 0 || n - sep != CRC_FIELD_CHARS then Damaged(n + 1)
      else if ParseHex(chunk[sep..n]) != Some(Crc32(chunk[..sep - 1])) then Damaged(n + 1)
      else Good(chunk[..sep - 1], n + 1)
  }

  lemma {:induction false} FirstNewlineAt(a: string, b: string)
    requires NEWLINE !in a
    ensures FirstNewline(a + [NEWLINE] + b) == |a|
  {
    if a != "" {
      assert (a + [NEWLINE] + b)[1..] == a[1..] + [NEWLINE] + b;
      FirstNewlineAt(a[1..], b);
    }
  }

  lemma {:induction false} AfterLastSeparatorAt(a: string, b: string)
    requires CRC_SEPARATOR !in b
    ensures AfterLastSeparator(a + [CRC_SEPARATOR] + b) == |a| + 1
    decreases |b|
  {
    var s := a + [CRC_SEPARATOR] + b;
    if b != "" {
      var n := |b| - 1;
      assert s[..|s| - 1] == a + [CRC_SEPARATOR] + b[..n];
      assert s[|s| - 1] == b[n];
      AfterLastSeparatorAt(a, b[..n]);
    }
  }

  /** What Judge makes of a terminated line with a field of the right width. */
  lemma JudgeLine(text: string, field: string, rest: string)
    requires NEWLINE !in text && NEWLINE !in field && CRC_SEPARATOR !in field && |field| == CRC_FIELD_CHARS
    ensures Judge(text + [CRC_SEPARATOR] + field + [NEWLINE] + rest)
         == if ParseHex(field) == Some(Crc32(text)) then Good(text, |text| + CRC_FIELD_CHARS + 2)
            else Damaged(|text| + CRC_FIELD_CHARS + 2)
  {
    hide Crc32, ParseHex, FirstNewline, AfterLastSeparator;
    var body := text + [CRC_SEPARATOR] + field;
    var chunk := text + [CRC_SEPARATOR] + field + [NEWLINE] + rest;
    FirstNewlineAt(body, rest);
    AfterLastSeparatorAt(text, field);
    assert chunk[..|body|] == body && chunk[|text| + 1..|body|] == field && chunk[..|text|] == text;
  }

  /** A stored line is recognised whatever follows it, separators in its text included. */
  lemma LineRoundTrip(text: string, rest: string)
    requires NEWLINE !in text
    ensures Judge(LineOf(text) + rest) == Good(text, |LineOf(text)|)
  {
    hide Crc32, Judge, Hex, ParseHex;
    var field := Hex(Crc32(text), CRC_FIELD_CHARS);
    HexCharacters(Crc32(text), CRC_FIELD_CHARS);
    CrcFieldRoundTrip(Crc32(text));
    JudgeLine(text, field, rest);
    assert LineOf(text) + rest == text + [CRC_SEPARATOR] + field + [NEWLINE] + rest;
  }

  /** The verdict never looks past the first line end, and always moves the cursor. */
  lemma JudgeSpan(chunk: string)
    requires chunk != ""
    ensures 0 < Judge(chunk).span <= |chunk|
    ensures Judge(chunk).span == Min(FirstNewline(chunk) + 1, |chunk|)
  {}

  /** Damage to at most four adjacent characters of a stored text is never delivered as that record. */
  lemma DamageDetected(good: string, bad: string, from: nat, n: nat)
    requires n <= 4 && Crc.DifferWithin(BytesOf(good), BytesOf(bad), from, n)
    ensures Crc32(bad) != Crc32(good)
  {
    Crc.TableIsValid(4);
    Crc.AdjacentBytesDetected(Crc.CRC32, BytesOf(good), BytesOf(bad), from, n,
                              Crc.BitsOf(Crc.CRC32.init, Crc.CRC32.width));
  }

  /** A line whose text was so damaged, its CRC field intact, is reported damaged and not delivered. */
  lemma DamagedLineRejected(good: string, bad: string, from: nat, n: nat, rest: string)
    requires n <= 4 && Crc.DifferWithin(BytesOf(good), BytesOf(bad), from, n) && NEWLINE !in bad
    ensures Judge(bad + LineOf(good)[|good|..] + rest) == Damaged(|LineOf(good)|)
  {
    hide Crc32, Judge, Hex, ParseHex, BytesOf;
    hide Crc.DifferWithin;
    var field := Hex(Crc32(good), CRC_FIELD_CHARS);
    DamageDetected(good, bad, from, n);
    assert |bad| == |good| by { DamageKeepsLength(good, bad, from, n); }
    HexCharacters(Crc32(good), CRC_FIELD_CHARS);
    CrcFieldRoundTrip(Crc32(good));
    assert LineOf(good)[|good|..] == [CRC_SEPARATOR] + field + [NEWLINE];
    JudgeLine(bad, field, rest);
    assert bad + LineOf(good)[|good|..] + rest == bad + [CRC_SEPARATOR] + field + [NEWLINE] + rest;
  }

  lemma DamageKeepsLength(good: string, bad: string, from: nat, n: nat)
    requires Crc.DifferWithin(BytesOf(good), BytesOf(bad), from, n)
    ensures |bad| == |good|
  {}

  /** The scan loops of FsAbs_ReadRecordAtCursor: first line end, then last separator before it. */
  method JudgeChunk(chunk: string) returns (verdict: Verdict)
    ensures verdict == Judge(chunk)
  {
    var lineEnd := 0;
    while lineEnd < |chunk| && chunk[lineEnd] != NEWLINE
      invariant 0 <= lineEnd <= |chunk| && NEWLINE !in chunk[..lineEnd]
    {
      lineEnd := lineEnd + 1;
    }
    FirstNewlineIs(chunk, lineEnd);
    if lineEnd == |chunk| {
      return Damaged(|chunk|);
    }
    var separator := 0;
    for i := 0 to lineEnd
      invariant separator == AfterLastSeparator(chunk[..i])
    {
      assert chunk[..i + 1][..i] == chunk[..i];
      if chunk[i] == CRC_SEPARATOR {
        separator := i + 1;
      }
    }
    if separator == 0 || lineEnd - separator != CRC_FIELD_CHARS {
      return Damaged(lineEnd + 1);
    }
    var stored := ParseCrcField(chunk[separator..lineEnd]);
    if stored == None {
      return Damaged(lineEnd + 1);
    }
    var computed := Checksum(chunk[..separator - 1]);
    if stored.value != computed {
      return Damaged(lineEnd + 1);
    }
    verdict := Good(chunk[..separator - 1], lineEnd + 1);
  }

  lemma {:induction false} FirstNewlineIs(s: string, n: nat)
    requires n <= |s| && NEWLINE !in s[..n] && (n < |s| ==> s[n] == NEWLINE)
    ensures FirstNewline(s) == n
    decreases n
  {
    if n > 0 {
      assert s[0] in s[..n];
      assert s[1..][..n - 1] == s[..n][1..];
      FirstNewlineIs(s[1..], n - 1);
    }
  }
}
