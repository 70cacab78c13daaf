/**
 * The bounded output writer of src/services/Com: an append-only cursor over a caller's buffer with a sticky
 * overflow flag. `text` is what an unbounded writer would hold; the buffer always holds its longest prefix
 * that fits, terminated.
 */
module ComWriter {
  import opened Base
  import opened ComText

  const NUL: char := '\0'

  class Writer {
    const buffer: array<char>
    var length: nat
    var overflow: bool
    ghost var text: string

    ghost predicate Valid()
      reads this, buffer
    {
      (overflow <==> |text| + 1 > buffer.Length) &&
      length == Min(|text|, if buffer.Length == 0 then 0 else buffer.Length - 1) &&
      (buffer.Length > 0 ==> length < buffer.Length && buffer[..length] == text[..length] && buffer[length] == NUL)
    }

    constructor (buffer: array<char>)
      modifies buffer
      ensures Valid() && text == "" && this.buffer == buffer
    {
      this.buffer := buffer;
      length := 0;
      overflow := buffer.Length == 0;
      text := "";
      new;
      if buffer.Length > 0 {
        buffer[0] := NUL;
      }
    }

    method WriteChar(c: char)
      requires Valid()
      modifies this, buffer
      ensures Valid() && text == old(text) + [c]
    {
      text := text + [c];
      if overflow {
        assert text[..length] == old(text)[..length];
        return;
      }
      if length + 2 > buffer.Length {
        overflow := true;
        assert text[..length] == old(text)[..length];
        return;
      }
      buffer[length] := c;
      length := length + 1;
      buffer[length] := NUL;
      assert buffer[..length] == buffer[..length - 1] + [c];
    }

    /** Stops at the first character that does not fit. */
    method WriteString(s: string)
      requires Valid()
      modifies this, buffer
      ensures Valid() && text == old(text) + s
    {
      var i := 0;
      while i < |s|
        invariant 0 <= i <= |s| && Valid() && text == old(text) + s[..i]
      {
        WriteChar(s[i]);
        assert s[..i + 1] == s[..i] + [s[i]];
        if overflow {
          text := old(text) + s;
          return;
        }
        i := i + 1;
      }
      assert s[..|s|] == s;
    }

    /** Digits are produced low end first into a scratch array and copied out backwards. */
    method WriteU64(value: nat)
      requires Valid() && value < U64
      modifies this, buffer
      ensures Valid() && text == old(text) + Decimal(value)
    {
      hide Valid;
      if value == 0 {
        WriteChar('0');
        return;
      }
      var digits := new char[21];
      var count, rest := 0, value;
      TwentyDigits(value);
      while rest > 0 && count < 21
        invariant 0 <= count && count + |Digits(rest)| == |Digits(value)| <= 20
        invariant Digits(value)[..|Digits(rest)|] == Digits(rest)
        invariant forall k :: 0 <= k < count ==> digits[k] == Digits(value)[|Digits(value)| - 1 - k]
        invariant Valid() && text == old(text)
        modifies digits
      {
        digits[count] := DigitChar(rest % 10);
        rest := rest / 10;
        count := count + 1;
      }
      while count > 0
        invariant 0 <= count <= |Digits(value)| <= 20
        invariant forall k :: 0 <= k < count ==> digits[k] == Digits(value)[|Digits(value)| - 1 - k]
        invariant Valid() && text == old(text) + Digits(value)[..|Digits(value)| - count]
      {
        count := count - 1;
        WriteChar(digits[count]);
      }
      assert Digits(value)[..|Digits(value)|] == Digits(value);
    }

    /** The most negative value is negated through the unsigned type. */
    method WriteS32(value: int)
      requires Valid() && -0x8000_0000 <= value < 0x8000_0000
      modifies this, buffer
      ensures Valid() && text == old(text) + Signed(value)
    {
      hide Decimal, Valid;
      if value < 0 {
        WriteChar('-');
        var unsigned := value % U32;
        assert unsigned == value + U32;
        WriteU64((0xFFFF_FFFF - unsigned) + 1);
        assert text == old(text) + ("-" + Decimal(-value));
      } else {
        WriteU64(value);
      }
    }
  }

  lemma TwentyDigits(v: nat)
    requires v < U64
    ensures |Digits(v)| <= 20
  {
    assert Pow10(10) == 1_0000_0000_00 by { assert Pow10(5) == 1_0000_0; }
    assert Pow10(15) == 1_0000_0000_0000_000;
    assert Pow10(20) == 1_0000_0000_0000_0000_0000;
    DigitsLength(v, 20);
  }
}
