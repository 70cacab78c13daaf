/** The 32-bit words in which src/services/Crc keeps its registers: clocking them, and facts about their bits. */
module Word32 {

  function AndWord(a: bv32, b: bv32): bv32 {
    a & b
  }

  function XorWord(a: bv32, b: bv32): bv32 {
    a ^ b
  }

  /** One more bit at the low end. */
  function Push(w: bv32, bit: bool): bv32 {
    if bit then (w << 1) | 1 else w << 1
  }

  function Twice(w: bv32): bv32 {
    w << 1
  }

  lemma PushZeroIsTwice(w: bv32)
    ensures Push(w, false) == Twice(w)
  {}

  function PushNibble(w: bv32, x: bv32): bv32 {
    (w << 4) | x
  }

  function PushByte(w: bv32, x: bv32): bv32 {
    (w << 8) | x
  }

  function NibbleWord(p: bool, q: bool, r: bool, s: bool): bv32 {
    Push(Push(Push(Push(0, p), q), r), s)
  }

  /** The top bit is free, so that one more can be pushed. */
  predicate Roomy(w: bv32) {
    w & 0x8000_0000 == 0
  }

  /** One clock towards the low end. */
  function ClockLow(poly: bv32, w: bv32): bv32 {
    if w & 1 == 1 then (w >> 1) ^ poly else w >> 1
  }

  function ClocksLow(poly: bv32, w: bv32, n: nat): bv32
    decreases n
  {
    if n == 0 then w else ClocksLow(poly, ClockLow(poly, w), n - 1)
  }

  /** One clock towards the high end, where `top` is the register's highest bit and `rest` all the others. */
  function ClockHigh(top: bv32, rest: bv32, poly: bv32, w: bv32): bv32 {
    if w & top != 0 then XorWord((w & rest) << 1, poly) else (w & rest) << 1
  }

  function ClocksHigh(top: bv32, rest: bv32, poly: bv32, w: bv32, n: nat): bv32
    decreases n
  {
    if n == 0 then w else ClocksHigh(top, rest, poly, ClockHigh(top, rest, poly, w), n - 1)
  }

  lemma SamePush(x: bv32, y: bv32, a: bool, b: bool)
    requires Roomy(x) && Roomy(y) && Push(x, a) == Push(y, b)
    ensures x == y && a == b
  {
    if a { if b {} else {} } else { if b {} else {} }
  }

  lemma ClockLowPushed(poly: bv32, w: bv32, bit: bool)
    requires Roomy(w)
    ensures ClockLow(poly, Push(w, bit)) == if bit then XorWord(w, poly) else w
  {
    if bit {} else {}
  }

  lemma ClockHighIs(top: bv32, rest: bv32, poly: bv32, w: bv32)
    ensures ClockHigh(top, rest, poly, w)
         == if AndWord(w, top) != 0 then XorWord(Twice(AndWord(w, rest)), poly) else Twice(AndWord(w, rest))
  {
    hide XorWord;
    assert AndWord(w, top) == w & top;
    assert Twice(AndWord(w, rest)) == (w & rest) << 1;
    hide AndWord, Twice;
  }

  lemma PushZero(w: bv32)
    requires Roomy(w)
    ensures Push(w, false) == 0 <==> w == 0
  {}

  lemma PushFirst(bit: bool)
    ensures AndWord(Push(0, bit), 1) != 0 <==> bit
    ensures Push(0, false) == 0
  {
    if bit {} else {}
  }

  lemma PushXor(x: bv32, y: bv32, a: bool, b: bool)
    ensures XorWord(Push(x, a), Push(y, b)) == Push(XorWord(x, y), a != b)
  {
    if a { if b {} else {} } else { if b {} else {} }
  }

  lemma PushWithin(x: bv32, y: bv32, bit: bool)
    requires AndWord(x, y) == x
    ensures AndWord(Push(x, bit), Push(y, true)) == Push(x, bit)
  {
    if bit {} else {}
  }

  lemma PushMask(x: bv32, y: bv32, bit: bool)
    ensures AndWord(Push(x, bit), Push(y, true)) == Push(AndWord(x, y), bit)
  {
    if bit {} else {}
  }

  lemma PushTop(x: bv32, y: bv32, bit: bool)
    ensures AndWord(Push(x, bit), Push(y, false)) == Push(AndWord(x, y), false)
  {
    if bit {} else {}
  }

  lemma PushTwo(w: bv32, p: bool, q: bool)
    ensures Push(Push(w, p), q) == PushPair(w, Push(Push(0, p), q))
  {
    if p { if q {} else {} } else { if q {} else {} }
  }

  function PushPair(w: bv32, x: bv32): bv32 {
    (w << 2) | x
  }

  lemma PushFour(w: bv32, p: bool, q: bool, r: bool, s: bool)
    ensures Push(Push(Push(Push(w, p), q), r), s) == PushNibble(w, NibbleWord(p, q, r, s))
  {
    hide Push, PushPair, PushNibble;
    var x, y := Push(Push(0, p), q), Push(Push(0, r), s);
    PushTwo(w, p, q);
    PushTwo(Push(Push(w, p), q), r, s);
    PushTwo(x, r, s);
    PairsAreNibble(w, x, y);
  }

  lemma PairsAreNibble(w: bv32, x: bv32, y: bv32)
    ensures PushPair(PushPair(w, x), y) == PushNibble(w, PushPair(x, y))
  {}

  lemma NibblesAreByte(w: bv32, x: bv32, y: bv32)
    ensures PushNibble(PushNibble(w, x), y) == PushByte(w, PushNibble(x, y))
  {}

  lemma PushByteFirst(w: bv32)
    ensures PushByte(0, w) == w
  {}

  lemma RoomUnder(w: bv32)
    requires AndWord(w, 0x7FFF_FFFF) == w
    ensures Roomy(w)
  {}

  lemma RoomMeets(x: bv32, y: bv32)
    requires Roomy(x)
    ensures Roomy(AndWord(x, y))
  {}

  lemma AndZero(w: bv32)
    ensures AndWord(w, 0) == 0 && AndWord(0, w) == 0 && XorWord(0, 0) == 0
  {}
}
