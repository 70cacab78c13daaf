/**
 * The CRC registers of src/services/Crc as machine words, and by them the check value that tools/crc_reference.py
 * gives for every profile: the CRC of the nine characters 123456789.
 */
module CrcCheck {
  import opened Base
  import opened Crc
  import opened CrcTable
  import opened Word32

  const DIGITS: seq<byte> := [0x31, 0x32, 0x33, 0x34, 0x35, 0x36, 0x37, 0x38, 0x39]

  // ---------------------------------------------------------------------------------------------
  // Bits in a word
  // ---------------------------------------------------------------------------------------------

  /** At most 32 bits, the last one lowest. */
  function WordOf(b: Bits): bv32 {
    if b == [] then 0 else Push(WordOf(b[..|b| - 1]), b[|b| - 1])
  }

  lemma WordUnfolds(b: Bits)
    requires b != []
    ensures WordOf(b) == Push(WordOf(b[..|b| - 1]), b[|b| - 1])
  {}

  lemma EmptyWord(b: Bits)
    requires b == []
    ensures WordOf(b) == 0
  {}

  function Ones(n: nat): bv32 {
    if n == 0 then 0 else Push(Ones(n - 1), true)
  }

  lemma {:induction false} WordWithin(b: Bits, n: nat)
    requires |b| <= n
    ensures AndWord(WordOf(b), Ones(n)) == WordOf(b)
    decreases n
  {
    hide Push, AndWord;
    if b == [] {
      AndZero(Ones(n));
    } else {
      WordWithin(b[..|b| - 1], n - 1);
      PushWithin(WordOf(b[..|b| - 1]), Ones(n - 1), b[|b| - 1]);
    }
  }

  lemma OnesAre()
    ensures Ones(7) == 0x7F && Ones(15) == 0x7FFF && Ones(31) == 0x7FFF_FFFF
  {
    assert Ones(4) == 0xF;
    assert Ones(11) == 0x7FF;
    assert Ones(19) == 0x7_FFFF;
    assert Ones(23) == 0x7F_FFFF;
    assert Ones(27) == 0x7FF_FFFF;
  }

  /** Fewer than 32 bits leave the top of the word free. */
  lemma Room(b: Bits)
    requires |b| <= 31
    ensures Roomy(WordOf(b))
  {
    hide *;
    WordWithin(b, 31);
    OnesAre();
    RoomUnder(WordOf(b));
  }

  lemma {:induction false} WordIsInjective(a: Bits, b: Bits)
    requires |a| == |b| <= 32 && WordOf(a) == WordOf(b)
    ensures a == b
    decreases |a|
  {
    hide *;
    if a != [] {
      var n := |a| - 1;
      WordUnfolds(a);
      WordUnfolds(b);
      Room(a[..n]);
      Room(b[..n]);
      SamePush(WordOf(a[..n]), WordOf(b[..n]), a[n], b[n]);
      WordIsInjective(a[..n], b[..n]);
      assert a == a[..n] + [a[n]] && b == b[..n] + [b[n]];
    }
  }

  lemma {:induction false} XorIsXorWord(a: Bits, b: Bits)
    requires |a| == |b|
    ensures WordOf(Xor(a, b)) == XorWord(WordOf(a), WordOf(b))
    decreases |a|
  {
    hide *;
    if a == [] {
      EmptyWord(a);
      EmptyWord(b);
      EmptyWord(Xor(a, b));
      AndZero(0);
    } else {
      var n := |a| - 1;
      WordUnfolds(a);
      WordUnfolds(b);
      WordUnfolds(Xor(a, b));
      XorIsXorWord(a[..n], b[..n]);
      assert Xor(a, b)[..n] == Xor(a[..n], b[..n]);
      PushXor(WordOf(a[..n]), WordOf(b[..n]), a[n], b[n]);
    }
  }

  lemma {:induction false} LeadingZeros(n: nat, b: Bits)
    ensures WordOf(Zeros(n) + b) == WordOf(b)
    decreases n + |b|
  {
    hide WordOf, Push;
    if b != [] {
      WordUnfolds(b);
      WordUnfolds(Zeros(n) + b);
      LeadingZeros(n, b[..|b| - 1]);
      assert (Zeros(n) + b)[..n + |b| - 1] == Zeros(n) + b[..|b| - 1];
    } else if n > 0 {
      WordUnfolds(Zeros(n) + b);
      LeadingZeros(n - 1, b);
      assert (Zeros(n) + b)[..n - 1] == Zeros(n - 1) + b;
      EmptyWord(b);
      PushFirst(false);
    } else {
      assert Zeros(0) + b == b;
    }
  }

  lemma WordSnoc(a: Bits, bit: bool)
    ensures WordOf(a + [bit]) == Push(WordOf(a), bit)
  {
    hide Push;
    assert (a + [bit])[..|a|] == a;
  }

  // ---------------------------------------------------------------------------------------------
  // Numbers in a word
  // ---------------------------------------------------------------------------------------------

  function NibbleOf(v: nat): bv32 {
    if v < 8 then
      if v < 4 then (if v < 2 then (if v == 0 then 0x0 else 0x1) else if v == 2 then 0x2 else 0x3)
      else if v < 6 then (if v == 4 then 0x4 else 0x5) else if v == 6 then 0x6 else 0x7
    else if v < 12 then (if v < 10 then (if v == 8 then 0x8 else 0x9) else if v == 10 then 0xA else 0xB)
    else if v < 14 then (if v == 12 then 0xC else 0xD) else if v == 14 then 0xE else 0xF
  }

  lemma NibbleIs(v: nat)
    requires v < 16
    ensures NibbleWord(v / 8 % 2 == 1, v / 4 % 2 == 1, v / 2 % 2 == 1, v % 2 == 1) == NibbleOf(v)
  {
    if v < 8 {
      if v < 4 {} else {}
    } else {
      if v < 12 {} else {}
    }
  }

  function ByteWord(v: byte): bv32 {
    PushNibble(NibbleOf(v / 16), NibbleOf(v % 16))
  }

  lemma WordOfNibble(a: Bits, v: nat)
    requires v < 16
    ensures WordOf(a + BitsOf(v, 4)) == PushNibble(WordOf(a), NibbleOf(v))
  {
    hide BitsOf, WordOf, Push, PushNibble, NibbleWord, NibbleOf;
    NibbleIs(v);
    NibbleBits(v);
    var p, q, r, s := v / 8 % 2 == 1, v / 4 % 2 == 1, v / 2 % 2 == 1, v % 2 == 1;
    WordOfFour(a, p, q, r, s);
    PushFour(WordOf(a), p, q, r, s);
  }

  lemma WordOfFour(a: Bits, p: bool, q: bool, r: bool, s: bool)
    ensures WordOf(a + [p, q, r, s]) == Push(Push(Push(Push(WordOf(a), p), q), r), s)
  {
    hide *;
    WordSnoc(a, p);
    WordSnoc(a + [p], q);
    WordSnoc(a + [p] + [q], r);
    WordSnoc(a + [p] + [q] + [r], s);
    assert a + [p, q, r, s] == a + [p] + [q] + [r] + [s];
  }

  lemma WordOfByte(a: Bits, v: byte)
    ensures WordOf(a + BitsOf(v, 8)) == PushByte(WordOf(a), ByteWord(v))
  {
    hide BitsOf, WordOf, NibbleOf, PushNibble, PushByte;
    var h, l := v / 16, v % 16;
    assert Pow2(4) == 16;
    BitsSplit(h, l, 4, 4);
    WordOfNibble(a, h);
    WordOfNibble(a + BitsOf(h, 4), l);
    assert a + BitsOf(v, 8) == a + BitsOf(h, 4) + BitsOf(l, 4);
    NibblesAreByte(WordOf(a), NibbleOf(h), NibbleOf(l));
  }

  lemma WordOfOctet(v: byte)
    ensures WordOf(BitsOf(v, 8)) == ByteWord(v)
  {
    hide *;
    WordOfByte([], v);
    EmptyWord([]);
    assert [] + BitsOf(v, 8) == BitsOf(v, 8);
    PushByteFirst(ByteWord(v));
  }

  lemma WordOfTwo(a: byte, b: byte)
    ensures WordOf(BitsOf(256 * a + b, 16)) == PushByte(ByteWord(a), ByteWord(b))
  {
    hide *;
    BitsOfTwo(a, b);
    WordOfOctet(a);
    WordOfByte(BitsOf(a, 8), b);
  }

  lemma WordOfFourBytes(a: byte, b: byte, c: byte, d: byte)
    ensures WordOf(BitsOf(0x100_0000 * a + 0x1_0000 * b + 256 * c + d, 32))
         == PushByte(PushByte(PushByte(ByteWord(a), ByteWord(b)), ByteWord(c)), ByteWord(d))
  {
    hide *;
    BitsOfFour(a, b, c, d);
    WordOfOctet(a);
    WordOfByte(BitsOf(a, 8), b);
    WordOfByte(BitsOf(a, 8) + BitsOf(b, 8), c);
    WordOfByte(BitsOf(a, 8) + BitsOf(b, 8) + BitsOf(c, 8), d);
  }

  /** A register whose word is a number's holds that number. */
  lemma ValueOfWord(b: Bits, v: nat)
    requires |b| <= 32 && v < Pow2(|b|) && WordOf(b) == WordOf(BitsOf(v, |b|))
    ensures Value(b) == v
  {
    hide BitsOf, Value, WordOf;
    WordIsInjective(b, BitsOf(v, |b|));
    ValueOfBitsOf(v, |b|);
  }

  // ---------------------------------------------------------------------------------------------
  // Registers clocked towards the low end
  // ---------------------------------------------------------------------------------------------

  lemma ShiftDropsLast(q: Bits)
    requires q != []
    ensures WordOf(Shr(q)) == WordOf(q[..|q| - 1])
  {
    hide WordOf;
    LeadingZeros(1, q[..|q| - 1]);
    assert Shr(q) == Zeros(1) + q[..|q| - 1];
  }

  lemma MirrorStepIs(poly: Bits, q: Bits)
    requires |q| == |poly| > 0
    ensures MirrorStep(poly, q) == if q[|q| - 1] then Xor(Shr(q), poly) else Shr(q)
  {
    hide Xor, Shr;
  }

  lemma StepIsClockLow(poly: Bits, q: Bits)
    requires 0 < |q| == |poly| <= 32
    ensures WordOf(MirrorStep(poly, q)) == ClockLow(WordOf(poly), WordOf(q))
  {
    hide *;
    var n := |q| - 1;
    MirrorStepIs(poly, q);
    ShiftDropsLast(q);
    XorIsXorWord(Shr(q), poly);
    WordUnfolds(q);
    Room(q[..n]);
    ClockLowPushed(WordOf(poly), WordOf(q[..n]), q[n]);
  }

  lemma {:induction false} ClocksLowAre(poly: Bits, q: Bits, n: nat)
    requires 0 < |q| == |poly| <= 32
    ensures WordOf(MirrorSteps(poly, q, n)) == ClocksLow(WordOf(poly), WordOf(q), n)
    decreases n
  {
    hide MirrorStep, WordOf, ClockLow;
    if n > 0 {
      StepIsClockLow(poly, q);
      ClocksLowAre(poly, MirrorStep(poly, q), n - 1);
    }
  }

  lemma FeedLowIs(poly: Bits, q: Bits, b: byte)
    requires 8 <= |q| == |poly| <= 32
    ensures WordOf(MirrorFeed(poly, q, b)) == ClocksLow(WordOf(poly), XorWord(WordOf(q), ByteWord(b)), 8)
  {
    hide MirrorSteps, WordOf, ClocksLow, Xor, BitsOf, ByteWord, XorWord;
    LeadingZeros(|q| - 8, BitsOf(b, 8));
    WordOfOctet(b);
    XorIsXorWord(q, Zeros(|q| - 8) + BitsOf(b, 8));
    ClocksLowAre(poly, Xor(q, Zeros(|q| - 8) + BitsOf(b, 8)), 8);
  }

  // ---------------------------------------------------------------------------------------------
  // Registers clocked towards the high end
  // ---------------------------------------------------------------------------------------------

  /** The highest bit of an n-bit register. */
  function Top(n: nat): bv32
    requires n > 0
  {
    if n == 1 then 1 else Push(Top(n - 1), false)
  }

  lemma {:induction false} TopBit(r: Bits)
    requires 0 < |r| <= 32
    ensures AndWord(WordOf(r), Top(|r|)) != 0 <==> r[0]
    decreases |r|
  {
    hide WordOf, Push, AndWord, Roomy;
    var n := |r| - 1;
    WordUnfolds(r);
    if n == 0 {
      EmptyWord(r[..0]);
      PushFirst(r[0]);
    } else {
      var w, t := WordOf(r[..n]), Top(n);
      TopBit(r[..n]);
      PushTop(w, t, r[n]);
      Room(r[..n]);
      RoomMeets(w, t);
      PushZero(AndWord(w, t));
    }
  }

  lemma {:induction false} TailWord(r: Bits)
    requires r != []
    ensures WordOf(r[1..]) == AndWord(WordOf(r), Ones(|r| - 1))
    decreases |r|
  {
    hide WordOf, Push, AndWord;
    var n := |r| - 1;
    if n == 0 {
      EmptyWord(r[1..]);
      AndZero(WordOf(r));
    } else {
      WordUnfolds(r);
      WordUnfolds(r[1..]);
      assert r[1..][..n - 1] == r[..n][1..];
      TailWord(r[..n]);
      PushMask(WordOf(r[..n]), Ones(n - 1), r[n]);
    }
  }

  lemma StepIsClockHigh(poly: Bits, r: Bits)
    requires 0 < |r| == |poly| <= 32
    ensures WordOf(Step(poly, r)) == ClockHigh(Top(|r|), Ones(|r| - 1), WordOf(poly), WordOf(r))
  {
    hide Xor, WordOf, Top, Ones, AndWord, XorWord, Push, Twice, ClockHigh;
    ClockHighIs(Top(|r|), Ones(|r| - 1), WordOf(poly), WordOf(r));
    PushZeroIsTwice(AndWord(WordOf(r), Ones(|r| - 1)));
    TopBit(r);
    TailWord(r);
    WordSnoc(r[1..], false);
    XorIsXorWord(Shl(r), poly);
  }

  lemma {:induction false} ClocksHighAre(poly: Bits, r: Bits, n: nat)
    requires 0 < |r| == |poly| <= 32
    ensures WordOf(Steps(poly, r, n)) == ClocksHigh(Top(|r|), Ones(|r| - 1), WordOf(poly), WordOf(r), n)
    decreases n
  {
    hide Step, WordOf, ClockHigh, Top, Ones;
    if n > 0 {
      StepIsClockHigh(poly, r);
      ClocksHighAre(poly, Step(poly, r), n - 1);
    }
  }

  /** Zeros behind a word. */
  function Padded(w: bv32, n: nat): bv32 {
    if n == 0 then w else Push(Padded(w, n - 1), false)
  }

  lemma {:induction false} TrailingZeros(b: Bits, n: nat)
    ensures WordOf(b + Zeros(n)) == Padded(WordOf(b), n)
  {
    hide Push, WordOf;
    if n == 0 {
      assert b + Zeros(0) == b;
    } else {
      TrailingZeros(b, n - 1);
      WordSnoc(b + Zeros(n - 1), false);
      assert b + Zeros(n) == b + Zeros(n - 1) + [false];
    }
  }

  lemma FeedHighIs(p: Profile, r: Bits, b: byte)
    requires 8 <= p.width == |r| <= 32 && !p.refin
    ensures WordOf(Feed(p, r, b))
         == ClocksHigh(Top(|r|), Ones(|r| - 1), WordOf(BitsOf(p.poly, p.width)),
                       XorWord(WordOf(r), Padded(ByteWord(b), |r| - 8)), 8)
  {
    hide Steps, WordOf, ClocksHigh, Xor, BitsOf, Top, Ones, XorWord, ByteWord, Padded;
    WordOfOctet(b);
    TrailingZeros(BitsOf(b, 8), |r| - 8);
    XorIsXorWord(r, BitsOf(b, 8) + Zeros(|r| - 8));
    ClocksHighAre(BitsOf(p.poly, p.width), Combine(r, Octet(p, b)), 8);
  }

  // ---------------------------------------------------------------------------------------------
  // The nine digits
  // ---------------------------------------------------------------------------------------------

  function DigitWord(k: nat): bv32
    requires k < 9
  {
    ByteWord(DIGITS[k])
  }

  lemma DigitWords()
    ensures DigitWord(0) == 0x31 && DigitWord(1) == 0x32 && DigitWord(2) == 0x33 && DigitWord(3) == 0x34
    ensures DigitWord(4) == 0x35 && DigitWord(5) == 0x36 && DigitWord(6) == 0x37 && DigitWord(7) == 0x38
    ensures DigitWord(8) == 0x39
  {}

  /** The word of a register fed the first n digits, clocked towards the low end. */
  function LowAfter(poly: Bits, q: Bits, n: nat): bv32
    requires 8 <= |q| == |poly| <= 32 && n <= 9
  {
    WordOf(MirrorRegister(poly, q, DIGITS[..n]))
  }

  lemma LowEnds(poly: Bits, q: Bits)
    requires 8 <= |q| == |poly| <= 32
    ensures LowAfter(poly, q, 0) == WordOf(q) && LowAfter(poly, q, 9) == WordOf(MirrorRegister(poly, q, DIGITS))
  {
    hide WordOf, MirrorFeed;
    assert DIGITS[..0] == [] && DIGITS[..9] == DIGITS;
  }

  lemma FedLow(poly: Bits, q: Bits, k: nat)
    requires 8 <= |q| == |poly| <= 32 && k < 9
    ensures LowAfter(poly, q, k + 1) == ClocksLow(WordOf(poly), XorWord(LowAfter(poly, q, k), DigitWord(k)), 8)
  {
    hide MirrorRegister, MirrorFeed, WordOf, ClocksLow, XorWord, ByteWord;
    MirrorRegisterSnoc(poly, q, DIGITS, k);
    FeedLowIs(poly, MirrorRegister(poly, q, DIGITS[..k]), DIGITS[k]);
  }

  /** A register clocked to the low end takes these words as it is fed the nine digits. */
  lemma NineLow(poly: Bits, q: Bits, p: bv32, w0: bv32, w1: bv32, w2: bv32, w3: bv32, w4: bv32, w5: bv32, w6: bv32,
                w7: bv32, w8: bv32, w9: bv32)
    requires 8 <= |q| == |poly| <= 32 && WordOf(poly) == p && WordOf(q) == w0
    requires ClocksLow(p, XorWord(w0, 0x31), 8) == w1
    requires ClocksLow(p, XorWord(w1, 0x32), 8) == w2
    requires ClocksLow(p, XorWord(w2, 0x33), 8) == w3
    requires ClocksLow(p, XorWord(w3, 0x34), 8) == w4
    requires ClocksLow(p, XorWord(w4, 0x35), 8) == w5
    requires ClocksLow(p, XorWord(w5, 0x36), 8) == w6
    requires ClocksLow(p, XorWord(w6, 0x37), 8) == w7
    requires ClocksLow(p, XorWord(w7, 0x38), 8) == w8
    requires ClocksLow(p, XorWord(w8, 0x39), 8) == w9
    ensures WordOf(MirrorRegister(poly, q, DIGITS)) == w9
  {
    hide *;
    DigitWords();
    LowEnds(poly, q);
    FedLow(poly, q, 0);
    FedLow(poly, q, 1);
    FedLow(poly, q, 2);
    FedLow(poly, q, 3);
    FedLow(poly, q, 4);
    FedLow(poly, q, 5);
    FedLow(poly, q, 6);
    FedLow(poly, q, 7);
    FedLow(poly, q, 8);
  }

  /** The word of a register fed the first n digits, clocked towards the high end. */
  function HighAfter(p: Profile, r: Bits, n: nat): bv32
    requires 8 <= p.width == |r| <= 32 && n <= 9
  {
    WordOf(Register(p, r, DIGITS[..n]))
  }

  lemma HighEnds(p: Profile, r: Bits)
    requires 8 <= p.width == |r| <= 32
    ensures HighAfter(p, r, 0) == WordOf(r) && HighAfter(p, r, 9) == WordOf(Register(p, r, DIGITS))
  {
    hide WordOf, Feed;
    assert DIGITS[..0] == [] && DIGITS[..9] == DIGITS;
  }

  lemma FedHighAt(p: Profile, r: Bits, data: seq<byte>, k: nat)
    requires 8 <= p.width == |r| <= 32 && !p.refin && k < |data|
    ensures WordOf(Register(p, r, data[..k + 1]))
         == ClocksHigh(Top(|r|), Ones(|r| - 1), WordOf(BitsOf(p.poly, p.width)),
                       XorWord(WordOf(Register(p, r, data[..k])), Padded(ByteWord(data[k]), |r| - 8)), 8)
  {
    hide *;
    RegisterSnoc(p, r, data, k);
    FeedHighIs(p, Register(p, r, data[..k]), data[k]);
  }

  lemma FedHigh(p: Profile, r: Bits, k: nat)
    requires 8 <= p.width == |r| <= 32 && !p.refin && k < 9
    ensures HighAfter(p, r, k + 1)
         == ClocksHigh(Top(|r|), Ones(|r| - 1), WordOf(BitsOf(p.poly, p.width)),
                       XorWord(HighAfter(p, r, k), Padded(DigitWord(k), |r| - 8)), 8)
  {
    hide Register, WordOf, ClocksHigh, XorWord, ByteWord, Top, Ones, Padded, BitsOf;
    FedHighAt(p, r, DIGITS, k);
  }

  /** A register clocked to the high end takes these words as it is fed the nine digits. */
  lemma NineHigh(p: Profile, r: Bits, poly: bv32, top: bv32, rest: bv32, w0: bv32, w1: bv32, w2: bv32, w3: bv32,
                 w4: bv32, w5: bv32, w6: bv32, w7: bv32, w8: bv32, w9: bv32)
    requires 8 <= p.width == |r| <= 32 && !p.refin && WordOf(r) == w0
    requires WordOf(BitsOf(p.poly, p.width)) == poly && Top(|r|) == top && Ones(|r| - 1) == rest
    requires ClocksHigh(top, rest, poly, XorWord(w0, Padded(0x31, |r| - 8)), 8) == w1
    requires ClocksHigh(top, rest, poly, XorWord(w1, Padded(0x32, |r| - 8)), 8) == w2
    requires ClocksHigh(top, rest, poly, XorWord(w2, Padded(0x33, |r| - 8)), 8) == w3
    requires ClocksHigh(top, rest, poly, XorWord(w3, Padded(0x34, |r| - 8)), 8) == w4
    requires ClocksHigh(top, rest, poly, XorWord(w4, Padded(0x35, |r| - 8)), 8) == w5
    requires ClocksHigh(top, rest, poly, XorWord(w5, Padded(0x36, |r| - 8)), 8) == w6
    requires ClocksHigh(top, rest, poly, XorWord(w6, Padded(0x37, |r| - 8)), 8) == w7
    requires ClocksHigh(top, rest, poly, XorWord(w7, Padded(0x38, |r| - 8)), 8) == w8
    requires ClocksHigh(top, rest, poly, XorWord(w8, Padded(0x39, |r| - 8)), 8) == w9
    ensures WordOf(Register(p, r, DIGITS)) == w9
  {
    hide *;
    DigitWords();
    HighEnds(p, r);
    FedHigh(p, r, 0);
    FedHigh(p, r, 1);
    FedHigh(p, r, 2);
    FedHigh(p, r, 3);
    FedHigh(p, r, 4);
    FedHigh(p, r, 5);
    FedHigh(p, r, 6);
    FedHigh(p, r, 7);
    FedHigh(p, r, 8);
  }

  // ---------------------------------------------------------------------------------------------
  // Check values
  // ---------------------------------------------------------------------------------------------

  lemma PolyCrc32()
    ensures WordOf(BitsOf(0xEDB8_8320, 32)) == 0xEDB8_8320
  {
    hide BitsOf, WordOf;
    WordOfFourBytes(0xED, 0xB8, 0x83, 0x20);
  }

  lemma PolyCrc32P4()
    ensures WordOf(BitsOf(0xC8DF_352F, 32)) == 0xC8DF_352F
  {
    hide BitsOf, WordOf;
    WordOfFourBytes(0xC8, 0xDF, 0x35, 0x2F);
  }

  lemma Full()
    ensures WordOf(BitsOf(0xFFFF_FFFF, 32)) == 0xFFFF_FFFF
  {
    hide BitsOf, WordOf;
    WordOfFourBytes(0xFF, 0xFF, 0xFF, 0xFF);
  }

  lemma CheckCrc32()
    ensures WordOf(BitsOf(0xCBF4_3926, 32)) == 0xCBF4_3926
  {
    hide BitsOf, WordOf;
    WordOfFourBytes(0xCB, 0xF4, 0x39, 0x26);
  }

  lemma CheckCrc32P4()
    ensures WordOf(BitsOf(0x1697_D06A, 32)) == 0x1697_D06A
  {
    hide BitsOf, WordOf;
    WordOfFourBytes(0x16, 0x97, 0xD0, 0x6A);
  }

  lemma RegisterOfCrc32()
    ensures WordOf(MirrorRegister(BitsOf(0xEDB8_8320, 32), Inverted(32), DIGITS)) == 0x340B_C6D9
  {
    hide BitsOf, WordOf, Inverted, MirrorRegister;
    PolyCrc32();
    Full();
    AllOnes();
    NineLow(BitsOf(0xEDB8_8320, 32), Inverted(32), 0xEDB8_8320, 0xFFFF_FFFF, 0x7C23_1048, 0xB0AC_BB32, 0x77B7_9C2D,
            0x641C_1F5C, 0x340A_C5E3, 0xF68D_2C9E, 0xAFFC_9660, 0x651F_2550, 0x340B_C6D9);
  }

  lemma RegisterOfCrc32P4()
    ensures WordOf(MirrorRegister(BitsOf(0xC8DF_352F, 32), Inverted(32), DIGITS)) == 0xE968_2F95
  {
    hide BitsOf, WordOf, Inverted, MirrorRegister;
    PolyCrc32P4();
    Full();
    AllOnes();
    NineLow(BitsOf(0xC8DF_352F, 32), Inverted(32), 0xC8DF_352F, 0xFFFF_FFFF, 0xD218_50A1, 0xB2AE_168E, 0x521E_C2DD,
            0x1776_C98B, 0x0334_0A1D, 0x1242_663E, 0x2501_5864, 0x503B_AF2D, 0xE968_2F95);
  }

  lemma PolyArc()
    ensures WordOf(BitsOf(0xA001, 16)) == 0xA001
  {
    hide BitsOf, WordOf;
    WordOfTwo(0xA0, 0x01);
  }

  lemma CheckArc()
    ensures WordOf(BitsOf(0xBB3D, 16)) == 0xBB3D
  {
    hide BitsOf, WordOf;
    WordOfTwo(0xBB, 0x3D);
  }

  lemma PolyCrc8()
    ensures WordOf(BitsOf(0x1D, 8)) == 0x1D
  {
    hide BitsOf, WordOf;
    WordOfOctet(0x1D);
  }

  lemma CheckCrc8()
    ensures WordOf(BitsOf(0x4B, 8)) == 0x4B
  {
    hide BitsOf, WordOf;
    WordOfOctet(0x4B);
  }

  lemma PolyCrc8H2F()
    ensures WordOf(BitsOf(0x2F, 8)) == 0x2F
  {
    hide BitsOf, WordOf;
    WordOfOctet(0x2F);
  }

  lemma CheckCrc8H2F()
    ensures WordOf(BitsOf(0xDF, 8)) == 0xDF
  {
    hide BitsOf, WordOf;
    WordOfOctet(0xDF);
  }

  lemma FullOctet()
    ensures WordOf(BitsOf(0xFF, 8)) == 0xFF
  {
    hide BitsOf, WordOf;
    WordOfOctet(0xFF);
  }

  lemma PolyCrc16()
    ensures WordOf(BitsOf(0x1021, 16)) == 0x1021
  {
    hide BitsOf, WordOf;
    WordOfTwo(0x10, 0x21);
  }

  lemma FullTwo()
    ensures WordOf(BitsOf(0xFFFF, 16)) == 0xFFFF
  {
    hide BitsOf, WordOf;
    WordOfTwo(0xFF, 0xFF);
  }

  lemma CheckCrc16()
    ensures WordOf(BitsOf(0x29B1, 16)) == 0x29B1
  {
    hide BitsOf, WordOf;
    WordOfTwo(0x29, 0xB1);
  }

  lemma Masks()
    ensures Top(8) == 0x80 && Ones(7) == 0x7F && Top(16) == 0x8000 && Ones(15) == 0x7FFF
  {
    OnesAre();
    assert Top(4) == 0x8;
    assert Top(12) == 0x800;
  }

  lemma RegisterOfArc()
    ensures WordOf(MirrorRegister(BitsOf(0xA001, 16), Zeros(16), DIGITS)) == 0xBB3D
  {
    hide BitsOf, WordOf, MirrorRegister;
    PolyArc();
    ZeroWord(16);
    NineLow(BitsOf(0xA001, 16), Zeros(16), 0xA001, 0x0000, 0xD4C1, 0x4594, 0xBA04, 0x14BA, 0xA455, 0x29E4, 0x9D68,
            0x3C9D,
            0xBB3D);
  }

  lemma ZeroWord(n: nat)
    ensures WordOf(Zeros(n)) == 0
  {
    LeadingZeros(n, []);
    assert Zeros(n) + [] == Zeros(n);
  }

  lemma RunOfCrc8()
    ensures ClocksHigh(0x80, 0x7F, 0x1D, XorWord(0xFF, Padded(0x31, 0)), 8) == 0x93
    ensures ClocksHigh(0x80, 0x7F, 0x1D, XorWord(0x93, Padded(0x32, 0)), 8) == 0xBC
    ensures ClocksHigh(0x80, 0x7F, 0x1D, XorWord(0xBC, Padded(0x33, 0)), 8) == 0x9D
    ensures ClocksHigh(0x80, 0x7F, 0x1D, XorWord(0x9D, Padded(0x34, 0)), 8) == 0x54
    ensures ClocksHigh(0x80, 0x7F, 0x1D, XorWord(0x54, Padded(0x35, 0)), 8) == 0x89
    ensures ClocksHigh(0x80, 0x7F, 0x1D, XorWord(0x89, Padded(0x36, 0)), 8) == 0xD7
    ensures ClocksHigh(0x80, 0x7F, 0x1D, XorWord(0xD7, Padded(0x37, 0)), 8) == 0xB2
    ensures ClocksHigh(0x80, 0x7F, 0x1D, XorWord(0xB2, Padded(0x38, 0)), 8) == 0xF4
    ensures ClocksHigh(0x80, 0x7F, 0x1D, XorWord(0xF4, Padded(0x39, 0)), 8) == 0xB4
  {}

  lemma RegisterOfCrc8()
    ensures WordOf(Register(CRC8, BitsOf(0xFF, 8), DIGITS)) == 0xB4
  {
    hide BitsOf, WordOf, Register, Top, Ones, ClocksHigh, XorWord, Padded;
    RunOfCrc8();
    PolyCrc8();
    FullOctet();
    Masks();
    NineHigh(CRC8, BitsOf(0xFF, 8), 0x1D, 0x80, 0x7F, 0xFF, 0x93, 0xBC, 0x9D, 0x54, 0x89, 0xD7, 0xB2, 0xF4, 0xB4);
  }

  lemma RunOfCrc8H2F()
    ensures ClocksHigh(0x80, 0x7F, 0x2F, XorWord(0xFF, Padded(0x31, 0)), 8) == 0xB0
    ensures ClocksHigh(0x80, 0x7F, 0x2F, XorWord(0xB0, Padded(0x32, 0)), 8) == 0xBD
    ensures ClocksHigh(0x80, 0x7F, 0x2F, XorWord(0xBD, Padded(0x33, 0)), 8) == 0x56
    ensures ClocksHigh(0x80, 0x7F, 0x2F, XorWord(0x56, Padded(0x34, 0)), 8) == 0xCB
    ensures ClocksHigh(0x80, 0x7F, 0x2F, XorWord(0xCB, Padded(0x35, 0)), 8) == 0x6D
    ensures ClocksHigh(0x80, 0x7F, 0x2F, XorWord(0x6D, Padded(0x36, 0)), 8) == 0x6E
    ensures ClocksHigh(0x80, 0x7F, 0x2F, XorWord(0x6E, Padded(0x37, 0)), 8) == 0x30
    ensures ClocksHigh(0x80, 0x7F, 0x2F, XorWord(0x30, Padded(0x38, 0)), 8) == 0x57
    ensures ClocksHigh(0x80, 0x7F, 0x2F, XorWord(0x57, Padded(0x39, 0)), 8) == 0x20
  {}

  lemma RegisterOfCrc8H2F()
    ensures WordOf(Register(CRC8H2F, BitsOf(0xFF, 8), DIGITS)) == 0x20
  {
    hide BitsOf, WordOf, Register, Top, Ones, ClocksHigh, XorWord, Padded;
    RunOfCrc8H2F();
    PolyCrc8H2F();
    FullOctet();
    Masks();
    NineHigh(CRC8H2F, BitsOf(0xFF, 8), 0x2F, 0x80, 0x7F, 0xFF, 0xB0, 0xBD, 0x56, 0xCB, 0x6D, 0x6E, 0x30, 0x57, 0x20);
  }

  lemma RunOfCrc16()
    ensures ClocksHigh(0x8000, 0x7FFF, 0x1021, XorWord(0xFFFF, Padded(0x31, 8)), 8) == 0xC782
    ensures ClocksHigh(0x8000, 0x7FFF, 0x1021, XorWord(0xC782, Padded(0x32, 8)), 8) == 0x3DBA
    ensures ClocksHigh(0x8000, 0x7FFF, 0x1021, XorWord(0x3DBA, Padded(0x33, 8)), 8) == 0x5BCE
    ensures ClocksHigh(0x8000, 0x7FFF, 0x1021, XorWord(0x5BCE, Padded(0x34, 8)), 8) == 0x5349
    ensures ClocksHigh(0x8000, 0x7FFF, 0x1021, XorWord(0x5349, Padded(0x35, 8)), 8) == 0x4560
    ensures ClocksHigh(0x8000, 0x7FFF, 0x1021, XorWord(0x4560, Padded(0x36, 8)), 8) == 0x2EF4
    ensures ClocksHigh(0x8000, 0x7FFF, 0x1021, XorWord(0x2EF4, Padded(0x37, 8)), 8) == 0x7718
    ensures ClocksHigh(0x8000, 0x7FFF, 0x1021, XorWord(0x7718, Padded(0x38, 8)), 8) == 0xA12B
    ensures ClocksHigh(0x8000, 0x7FFF, 0x1021, XorWord(0xA12B, Padded(0x39, 8)), 8) == 0x29B1
  {}

  lemma RegisterOfCrc16()
    ensures WordOf(Register(CRC16, BitsOf(0xFFFF, 16), DIGITS)) == 0x29B1
  {
    hide BitsOf, WordOf, Register, Top, Ones, ClocksHigh, XorWord, Padded;
    RunOfCrc16();
    PolyCrc16();
    FullTwo();
    Masks();
    NineHigh(CRC16, BitsOf(0xFFFF, 16), 0x1021, 0x8000, 0x7FFF, 0xFFFF, 0xC782, 0x3DBA, 0x5BCE, 0x5349, 0x4560,
             0x2EF4, 0x7718,
             0xA12B, 0x29B1);
  }

  lemma Crc32CheckValue()
    ensures Of(CRC32, DIGITS) == 0xCBF4_3926
  {
    hide BitsOf, WordOf, Value, Inverted, MirrorRegister, Reverse;
    PowersOfTwo();
    ProfilesAreReflected();
    MirrorGivesCrc(CRC32, BitsOf(0xEDB8_8320, 32), DIGITS);
    var reg := MirrorRegister(BitsOf(0xEDB8_8320, 32), Inverted(32), DIGITS);
    RegisterOfCrc32();
    Full();
    AllOnes();
    CheckCrc32();
    XorIsXorWord(reg, Inverted(32));
    ValueOfWord(Xor(reg, Inverted(32)), 0xCBF4_3926);
  }

  lemma Crc32P4CheckValue()
    ensures Of(CRC32P4, DIGITS) == 0x1697_D06A
  {
    hide BitsOf, WordOf, Value, Inverted, MirrorRegister, Reverse;
    PowersOfTwo();
    ProfilesAreReflected();
    MirrorGivesCrc(CRC32P4, BitsOf(0xC8DF_352F, 32), DIGITS);
    var reg := MirrorRegister(BitsOf(0xC8DF_352F, 32), Inverted(32), DIGITS);
    RegisterOfCrc32P4();
    Full();
    AllOnes();
    CheckCrc32P4();
    XorIsXorWord(reg, Inverted(32));
    ValueOfWord(Xor(reg, Inverted(32)), 0x1697_D06A);
  }

  lemma Crc16ArcCheckValue()
    ensures Of(CRC16ARC, DIGITS) == 0xBB3D
  {
    hide BitsOf, WordOf, Value, MirrorRegister;
    PowersOfTwo();
    ArcGivesCrc(DIGITS);
    RegisterOfArc();
    CheckArc();
    ValueOfWord(MirrorRegister(BitsOf(0xA001, 16), Zeros(16), DIGITS), 0xBB3D);
  }

  lemma Crc8CheckValue()
    ensures Of(CRC8, DIGITS) == 0x4B
  {
    hide BitsOf, WordOf, Value, Register;
    PowersOfTwo();
    RegisterOfCrc8();
    FullOctet();
    CheckCrc8();
    var reg := Register(CRC8, BitsOf(0xFF, 8), DIGITS);
    XorIsXorWord(reg, BitsOf(0xFF, 8));
    ValueOfWord(Xor(reg, BitsOf(0xFF, 8)), 0x4B);
  }

  lemma Crc8H2FCheckValue()
    ensures Of(CRC8H2F, DIGITS) == 0xDF
  {
    hide BitsOf, WordOf, Value, Register;
    PowersOfTwo();
    RegisterOfCrc8H2F();
    FullOctet();
    CheckCrc8H2F();
    var reg := Register(CRC8H2F, BitsOf(0xFF, 8), DIGITS);
    XorIsXorWord(reg, BitsOf(0xFF, 8));
    ValueOfWord(Xor(reg, BitsOf(0xFF, 8)), 0xDF);
  }

  lemma Crc16CheckValue()
    ensures Of(CRC16, DIGITS) == 0x29B1
  {
    hide BitsOf, WordOf, Value, Register;
    PowersOfTwo();
    RegisterOfCrc16();
    CheckCrc16();
    var reg := Register(CRC16, BitsOf(0xFFFF, 16), DIGITS);
    ZeroBits(16);
    assert Xor(reg, Zeros(16)) == reg;
    ValueOfWord(reg, 0x29B1);
  }

  /** The published check values: what each profile gives for the characters 123456789. */
  lemma CheckValues()
    ensures Of(CRC8, DIGITS) == 0x4B && Of(CRC8H2F, DIGITS) == 0xDF
    ensures Of(CRC16, DIGITS) == 0x29B1 && Of(CRC16ARC, DIGITS) == 0xBB3D
    ensures Of(CRC32, DIGITS) == 0xCBF4_3926 && Of(CRC32P4, DIGITS) == 0x1697_D06A
  {
    hide Of;
    Crc8CheckValue();
    Crc8H2FCheckValue();
    Crc16CheckValue();
    Crc16ArcCheckValue();
    Crc32CheckValue();
    Crc32P4CheckValue();
  }
}
