/**
 * The CRC routines of src/services/Crc that keep the register reflected, bit-at-a-time and by table, refine the
 * bit-at-a-time definition in Crc.
 */
module CrcTable {
  import opened Base
  import opened Crc

  const TABLE_SIZE := 256
  const CRC16ARC_POLY_REFLECTED := 0xA001
  const CRC32_POLY_REFLECTED := 0xEDB88320
  const CRC32P4_POLY_REFLECTED := 0xC8DF352F

  // ---------------------------------------------------------------------------------------------
  // The mirrored register
  // ---------------------------------------------------------------------------------------------

  function Shr(q: Bits): (s: Bits)
    requires |q| > 0
    ensures |s| == |q|
  {
    [false] + q[..|q| - 1]
  }

  /** One clock, towards the low end. */
  function MirrorStep(poly: Bits, q: Bits): (s: Bits)
    requires |q| == |poly| > 0
    ensures |s| == |q|
  {
    if q[|q| - 1] then Xor(Shr(q), poly) else Shr(q)
  }

  function MirrorSteps(poly: Bits, q: Bits, n: nat): (s: Bits)
    requires |q| == |poly| > 0
    ensures |s| == |q|
    decreases n
  {
    if n == 0 then q else MirrorSteps(poly, MirrorStep(poly, q), n - 1)
  }

  /** A byte combined into the low end and clocked through. */
  function MirrorFeed(poly: Bits, q: Bits, b: byte): (s: Bits)
    requires |q| == |poly| >= 8
    ensures |s| == |q|
  {
    MirrorSteps(poly, Xor(q, Zeros(|q| - 8) + BitsOf(b, 8)), 8)
  }

  function MirrorRegister(poly: Bits, q: Bits, data: seq<byte>): (s: Bits)
    requires |q| == |poly| >= 8
    ensures |s| == |q|
    decreases |data|
  {
    if data == [] then q else MirrorRegister(poly, MirrorFeed(poly, q, data[0]), data[1..])
  }

  lemma StepMirrors(poly: Bits, q: Bits)
    requires |q| == |poly| > 0
    ensures Reverse(MirrorStep(poly, q)) == Step(Reverse(poly), Reverse(q))
  {
    assert Reverse(Shr(q)) == Shl(Reverse(q));
    assert Reverse(Xor(Shr(q), poly)) == Xor(Reverse(Shr(q)), Reverse(poly));
  }

  lemma {:induction false} StepsMirror(poly: Bits, q: Bits, n: nat)
    requires |q| == |poly| > 0
    ensures Reverse(MirrorSteps(poly, q, n)) == Steps(Reverse(poly), Reverse(q), n)
    decreases n
  {
    hide Reverse, MirrorStep, Step;
    if n > 0 {
      StepMirrors(poly, q);
      StepsMirror(poly, MirrorStep(poly, q), n - 1);
    }
  }

  lemma FeedMirrors(p: Profile, poly: Bits, q: Bits, b: byte)
    requires p.width >= 8 && p.refin && |q| == |poly| == p.width && Reverse(poly) == BitsOf(p.poly, p.width)
    ensures Reverse(MirrorFeed(poly, q, b)) == Feed(p, Reverse(q), b)
  {
    hide MirrorSteps, Steps, Reverse, Combine, Xor, BitsOf;
    var o := BitsOf(b, 8);
    CombineMirrors(q, o);
    StepsMirror(poly, Xor(q, Zeros(|q| - 8) + o), 8);
  }

  lemma CombineMirrors(q: Bits, o: Bits)
    requires |o| <= |q|
    ensures Reverse(Xor(q, Zeros(|q| - |o|) + o)) == Combine(Reverse(q), Reverse(o))
  {}

  lemma {:induction false} RegisterMirrors(p: Profile, poly: Bits, q: Bits, data: seq<byte>)
    requires p.width >= 8 && p.refin && |q| == |poly| == p.width && Reverse(poly) == BitsOf(p.poly, p.width)
    ensures Reverse(MirrorRegister(poly, q, data)) == Register(p, Reverse(q), data)
    decreases |data|
  {
    hide MirrorFeed, Feed, Reverse, BitsOf;
    if data != [] {
      FeedMirrors(p, poly, q, data[0]);
      RegisterMirrors(p, poly, MirrorFeed(poly, q, data[0]), data[1..]);
    }
  }

  // ---------------------------------------------------------------------------------------------
  // The table
  // ---------------------------------------------------------------------------------------------

  /** What the table holds for one byte. */
  function Entry(poly: Bits, index: nat): (e: Bits)
    requires |poly| == 32
    ensures |e| == 32
  {
    MirrorSteps(poly, BitsOf(index, 32), 8)
  }

  /** Bits that have not reached the low end only shift, whether combined early or late. */
  lemma {:induction false} MirrorDelay(poly: Bits, q: Bits, n: nat, y: Bits)
    requires |q| == |poly| == n + |y| > 0
    ensures MirrorSteps(poly, Xor(q, y + Zeros(n)), n) == Xor(MirrorSteps(poly, q, n), Zeros(n) + y)
    decreases n
  {
    hide Xor, MirrorStep, Shr;
    if n == 0 {
      assert Zeros(0) + y == y == y + Zeros(0);
    } else {
      var x := y + Zeros(n);
      StepDelayed(poly, q, x);
      ShiftInZero(y, n);
      MirrorDelay(poly, MirrorStep(poly, q), n - 1, [false] + y);
      assert Zeros(n - 1) + ([false] + y) == Zeros(n) + y;
    }
  }

  lemma StepDelayed(poly: Bits, q: Bits, x: Bits)
    requires |q| == |poly| == |x| > 0 && !x[|x| - 1]
    ensures MirrorStep(poly, Xor(q, x)) == Xor(MirrorStep(poly, q), Shr(x))
  {
    assert Shr(Xor(q, x)) == Xor(Shr(q), Shr(x));
  }

  lemma ShiftInZero(y: Bits, n: nat)
    requires n > 0
    ensures Shr(y + Zeros(n)) == ([false] + y) + Zeros(n - 1)
  {}

  lemma {:induction false} ValueOfZeros(n: nat)
    ensures Value(Zeros(n)) == 0
  {
    if n > 0 {
      ValueOfZeros(n - 1);
      assert Zeros(n)[..n - 1] == Zeros(n - 1);
    }
  }

  lemma WideBits(low: Bits)
    requires |low| == 8
    ensures Value(low) < TABLE_SIZE && BitsOf(Value(low), 32) == Zeros(24) + low
  {
    hide BitsOf, Value;
    PowersOfTwo();
    BitsOfValue(low);
    ValueOfZeros(24);
    ValueAppend(Zeros(24), low);
    BitsOfValue(Zeros(24) + low);
  }

  /** One look-up does the work of eight clocks. */
  lemma LookupIsFeed(poly: Bits, q: Bits, b: byte)
    requires |q| == |poly| == 32
    ensures var index := Value(Xor(q[24..], BitsOf(b, 8)));
            index < TABLE_SIZE && MirrorFeed(poly, q, b) == Xor(Zeros(8) + q[..24], Entry(poly, index))
  {
    hide MirrorSteps, BitsOf, Value;
    var o := BitsOf(b, 8);
    var low := Xor(q[24..], o);
    WideBits(low);
    MirrorDelay(poly, Zeros(24) + low, 8, q[..24]);
    assert Xor(q, Zeros(24) + o) == Xor(Zeros(24) + low, q[..24] + Zeros(8));
    var e := MirrorSteps(poly, Zeros(24) + low, 8);
    assert Xor(e, Zeros(8) + q[..24]) == Xor(Zeros(8) + q[..24], e);
  }

  lemma MirrorStepsSnoc(poly: Bits, q: Bits, n: nat)
    requires |q| == |poly| > 0
    ensures MirrorSteps(poly, q, n + 1) == MirrorStep(poly, MirrorSteps(poly, q, n))
    decreases n
  {
    if n > 0 { MirrorStepsSnoc(poly, MirrorStep(poly, q), n - 1); }
  }

  /** Crc_BuildTable32, one index at a time. */
  method BuildTable32(table: array<Bits>, poly: Bits)
    requires table.Length == TABLE_SIZE && |poly| == 32
    modifies table
    ensures forall i :: 0 <= i < TABLE_SIZE ==> table[i] == Entry(poly, i)
  {
    hide Entry;
    for index := 0 to TABLE_SIZE
      invariant forall i :: 0 <= i < index ==> table[i] == Entry(poly, i)
    {
      var remainder := Remainder(index, poly);
      table[index] := remainder;
    }
  }

  method Remainder(index: nat, poly: Bits) returns (remainder: Bits)
    requires |poly| == 32
    ensures remainder == Entry(poly, index)
  {
    remainder := BitsOf(index, 32);
    for bit := 0 to 8
      invariant remainder == MirrorSteps(poly, BitsOf(index, 32), bit)
    {
      MirrorStepsSnoc(poly, BitsOf(index, 32), bit);
      remainder := if remainder[31] then Xor(Shr(remainder), poly) else Shr(remainder);
    }
  }

  lemma {:induction false} MirrorRegisterSnoc(poly: Bits, q: Bits, data: seq<byte>, k: nat)
    requires |q| == |poly| >= 8 && k < |data|
    ensures MirrorRegister(poly, q, data[..k + 1]) == MirrorFeed(poly, MirrorRegister(poly, q, data[..k]), data[k])
    decreases k
  {
    hide MirrorFeed;
    var d := data[..k + 1];
    if k == 0 {
      assert d == [data[0]] && d[1..] == [];
    } else {
      assert d[1..] == data[1..][..k] && data[..k][1..] == data[1..][..k - 1];
      MirrorRegisterSnoc(poly, MirrorFeed(poly, q, data[0]), data[1..], k - 1);
    }
  }

  /** Crc_Kernel32. */
  method Kernel32(data: seq<byte>, register: Bits, table: array<Bits>, ghost poly: Bits) returns (result: Bits)
    requires |register| == |poly| == 32 && table.Length == TABLE_SIZE
    requires forall i :: 0 <= i < TABLE_SIZE ==> table[i] == Entry(poly, i)
    ensures result == MirrorRegister(poly, register, data)
  {
    hide MirrorFeed, Entry, BitsOf, Value;
    result := register;
    for k := 0 to |data|
      invariant result == MirrorRegister(poly, register, data[..k]) && |result| == 32
    {
      LookupIsFeed(poly, result, data[k]);
      MirrorRegisterSnoc(poly, register, data, k);
      var index := Value(Xor(result[24..], BitsOf(data[k], 8)));
      result := Xor(Zeros(8) + result[..24], table[index]);
    }
    assert data[..|data|] == data;
  }

  // ---------------------------------------------------------------------------------------------
  // Reflected constants
  // ---------------------------------------------------------------------------------------------

  lemma {:induction false} BitsSplit(v: nat, b: nat, n: nat, k: nat)
    requires b < Pow2(k)
    ensures BitsOf(v * Pow2(k) + b, n + k) == BitsOf(v, n) + BitsOf(b, k)
  {
    if k > 0 {
      var w := v * Pow2(k - 1) + b / 2;
      BitsSplit(v, b / 2, n, k - 1);
      SplitHalves(v, b, Pow2(k - 1));
      BitsSnoc(w, b % 2, n + k - 1);
      BitsSnoc(b / 2, b % 2, k - 1);
    } else {
      assert BitsOf(v, n) + BitsOf(b, 0) == BitsOf(v, n);
    }
  }

  lemma SplitHalves(v: nat, b: nat, p: nat)
    ensures v * (2 * p) + b == 2 * (v * p + b / 2) + b % 2
  {
    Doubled(v, p);
  }

  lemma BitsSnoc(w: nat, bit: nat, n: nat)
    requires bit < 2
    ensures BitsOf(2 * w + bit, n + 1) == BitsOf(w, n) + [bit == 1]
  {}

  lemma BitsOfTwo(a: byte, b: byte)
    ensures BitsOf(256 * a + b, 16) == BitsOf(a, 8) + BitsOf(b, 8)
  {
    PowersOfTwo();
    BitsSplit(a, b, 8, 8);
  }

  lemma BitsOfFour(a: byte, b: byte, c: byte, d: byte)
    ensures BitsOf(0x100_0000 * a + 0x1_0000 * b + 256 * c + d, 32)
         == BitsOf(a, 8) + BitsOf(b, 8) + BitsOf(c, 8) + BitsOf(d, 8)
  {
    hide BitsOf;
    PowersOfTwo();
    BitsOfTwo(a, b);
    BitsOfTwo(c, d);
    BitsSplit(256 * a + b, 256 * c + d, 16, 16);
  }

  lemma NibbleBits(b: nat)
    ensures BitsOf(b, 4) == [b / 8 % 2 == 1, b / 4 % 2 == 1, b / 2 % 2 == 1, b % 2 == 1]
  {
    assert b / 2 / 2 == b / 4 && b / 4 / 2 == b / 8;
    assert BitsOf(b, 4) == BitsOf(b / 4, 2) + [b / 2 % 2 == 1] + [b % 2 == 1];
    assert BitsOf(b / 4, 2) == BitsOf(b / 8, 1) + [b / 4 % 2 == 1];
  }

  /** Two bytes that are each other's reflection. */
  ghost predicate Mirrored(a: byte, b: byte) {
    Reverse(BitsOf(a, 8)) == BitsOf(b, 8)
  }

  predicate NibblesMirror(a: nat, b: nat) {
    a < 16 && b < 16 && a / 8 % 2 == b % 2 && a / 4 % 2 == b / 2 % 2 && a / 2 % 2 == b / 4 % 2 && a % 2 == b / 8 % 2
  }

  lemma NibbleMirror(a: nat, b: nat)
    requires NibblesMirror(a, b)
    ensures Reverse(BitsOf(a, 4)) == BitsOf(b, 4)
  {
    hide BitsOf;
    NibbleBits(a);
    NibbleBits(b);
  }

  lemma ReverseAppend(x: Bits, y: Bits)
    ensures Reverse(x + y) == Reverse(y) + Reverse(x)
  {}

  lemma MirrorByte(a: nat, b: nat, c: nat, d: nat)
    requires NibblesMirror(a, d) && NibblesMirror(b, c)
    ensures Mirrored(16 * a + b, 16 * c + d)
  {
    hide BitsOf, Reverse;
    assert Pow2(4) == 16;
    BitsSplit(a, b, 4, 4);
    BitsSplit(c, d, 4, 4);
    NibbleMirror(a, d);
    NibbleMirror(b, c);
    ReverseAppend(BitsOf(a, 4), BitsOf(b, 4));
  }

  lemma PolyBytesMirror()
    ensures Mirrored(0x20, 0x04) && Mirrored(0x83, 0xC1) && Mirrored(0xB8, 0x1D) && Mirrored(0xED, 0xB7)
    ensures Mirrored(0x2F, 0xF4) && Mirrored(0x35, 0xAC) && Mirrored(0xDF, 0xFB) && Mirrored(0xC8, 0x13)
    ensures Mirrored(0x01, 0x80) && Mirrored(0xA0, 0x05)
  {
    hide Mirrored;
    MirrorByte(0x2, 0x0, 0x0, 0x4);
    MirrorByte(0x8, 0x3, 0xC, 0x1);
    MirrorByte(0xB, 0x8, 0x1, 0xD);
    MirrorByte(0xE, 0xD, 0xB, 0x7);
    MirrorByte(0x2, 0xF, 0xF, 0x4);
    MirrorByte(0x3, 0x5, 0xA, 0xC);
    MirrorByte(0xD, 0xF, 0xF, 0xB);
    MirrorByte(0xC, 0x8, 0x1, 0x3);
    MirrorByte(0x0, 0x1, 0x8, 0x0);
    MirrorByte(0xA, 0x0, 0x0, 0x5);
  }

  lemma FourMirror(a: byte, b: byte, c: byte, d: byte, e: byte, f: byte, g: byte, h: byte)
    requires Mirrored(a, h) && Mirrored(b, g) && Mirrored(c, f) && Mirrored(d, e)
    ensures Reverse(BitsOf(0x100_0000 * a + 0x1_0000 * b + 256 * c + d, 32))
         == BitsOf(0x100_0000 * e + 0x1_0000 * f + 256 * g + h, 32)
  {
    hide BitsOf, Reverse;
    BitsOfFour(a, b, c, d);
    BitsOfFour(e, f, g, h);
    ReverseAppend(BitsOf(a, 8) + BitsOf(b, 8) + BitsOf(c, 8), BitsOf(d, 8));
    ReverseAppend(BitsOf(a, 8) + BitsOf(b, 8), BitsOf(c, 8));
    ReverseAppend(BitsOf(a, 8), BitsOf(b, 8));
    assert BitsOf(e, 8) + (BitsOf(f, 8) + (BitsOf(g, 8) + BitsOf(h, 8)))
        == BitsOf(e, 8) + BitsOf(f, 8) + BitsOf(g, 8) + BitsOf(h, 8);
  }

  /** The reflected constants are the reflections of the profiles' polynomials. */
  lemma PolyMirrors()
    ensures Reverse(BitsOf(CRC32_POLY_REFLECTED, 32)) == BitsOf(0x04C11DB7, 32)
    ensures Reverse(BitsOf(CRC32P4_POLY_REFLECTED, 32)) == BitsOf(0xF4ACFB13, 32)
    ensures Reverse(BitsOf(CRC16ARC_POLY_REFLECTED, 16)) == BitsOf(0x8005, 16)
  {
    hide BitsOf, Mirrored, Reverse;
    PolyBytesMirror();
    FourMirror(0xED, 0xB8, 0x83, 0x20, 0x04, 0xC1, 0x1D, 0xB7);
    FourMirror(0xC8, 0xDF, 0x35, 0x2F, 0xF4, 0xAC, 0xFB, 0x13);
    TwoMirror(0xA0, 0x01, 0x80, 0x05);
  }

  lemma TwoMirror(a: byte, b: byte, c: byte, d: byte)
    requires Mirrored(a, d) && Mirrored(b, c)
    ensures Reverse(BitsOf(256 * a + b, 16)) == BitsOf(256 * c + d, 16)
  {
    hide BitsOf;
    BitsOfTwo(a, b);
    BitsOfTwo(c, d);
    ReverseAppend(BitsOf(a, 8), BitsOf(b, 8));
  }

  // ---------------------------------------------------------------------------------------------
  // The routines
  // ---------------------------------------------------------------------------------------------

  function Inverted(n: nat): (b: Bits)
    ensures |b| == n
  {
    seq(n, _ => true)
  }

  lemma AllOnes()
    ensures BitsOf(0xFFFFFFFF, 32) == Inverted(32)
  {
    hide BitsOf;
    BitsOfFour(0xFF, 0xFF, 0xFF, 0xFF);
    PowersOfTwo();
    assert Pow2(4) == 16;
    BitsSplit(0xF, 0xF, 4, 4);
    NibbleBits(0xF);
  }

  /** A reflected CRC-32: all-ones start and final exclusive-or, and a reflected polynomial given in mirror form. */
  ghost predicate Reflected32(p: Profile, poly: Bits) {
    && p.width == 32 && p.refin && p.refout && p.init == 0xFFFFFFFF && p.xorout == 0xFFFFFFFF
    && |poly| == 32 && Reverse(poly) == BitsOf(p.poly, 32)
  }

  lemma ProfilesAreReflected()
    ensures Reflected32(CRC32, BitsOf(CRC32_POLY_REFLECTED, 32))
    ensures Reflected32(CRC32P4, BitsOf(CRC32P4_POLY_REFLECTED, 32))
  {
    hide BitsOf, Reverse;
    PolyMirrors();
  }

  /** The mirrored register, inverted at both ends, gives the CRC. */
  lemma MirrorGivesCrc(p: Profile, poly: Bits, data: seq<byte>)
    requires Reflected32(p, poly)
    ensures Of(p, data) == Value(Xor(MirrorRegister(poly, Inverted(32), data), Inverted(32)))
  {
    hide BitsOf, MirrorRegister, Register, Value, Xor;
    var q := Inverted(32);
    AllOnes();
    RegisterMirrors(p, poly, q, data);
    assert Reverse(q) == q;
    ReverseInvolutive(MirrorRegister(poly, q, data));
  }

  /** One of the two CRC-32 routines with its profile and its table, which is built at the first call. */
  class Crc32Routine {
    ghost const profile: Profile
    const poly: Bits
    const table: array<Bits>
    var tableValid: bool

    ghost predicate Valid()
      reads this, table
    {
      && Reflected32(profile, poly) && table.Length == TABLE_SIZE
      && (tableValid ==> forall i :: 0 <= i < TABLE_SIZE ==> table[i] == Entry(poly, i))
    }

    /** Polynomial 0x04C11DB7. */
    constructor Crc32()
      ensures Valid() && profile == CRC32 && fresh(table)
    {
      hide Entry, BitsOf;
      profile := CRC32;
      poly := BitsOf(CRC32_POLY_REFLECTED, 32);
      table := new Bits[TABLE_SIZE](_ => []);
      tableValid := false;
      ProfilesAreReflected();
    }

    /** Polynomial 0xF4ACFB13. */
    constructor Crc32P4()
      ensures Valid() && profile == CRC32P4 && fresh(table)
    {
      hide Entry, BitsOf;
      profile := CRC32P4;
      poly := BitsOf(CRC32P4_POLY_REFLECTED, 32);
      table := new Bits[TABLE_SIZE](_ => []);
      tableValid := false;
      ProfilesAreReflected();
    }

    /**
     * Crc_CalculateCRC32 and Crc_CalculateCRC32P4: a first call gives the CRC of its data, a call that continues
     * from the CRC of earlier data gives the CRC of both.
     */
    method Calculate(data: seq<byte>, startValue: uint32, isFirstCall: bool, ghost earlier: seq<byte>)
      returns (crc: uint32)
      requires Valid() && (!isFirstCall ==> startValue == Of(profile, earlier))
      modifies this`tableValid, table
      ensures Valid() && crc == Of(profile, if isFirstCall then data else earlier + data)
    {
      hide Entry, BitsOf, MirrorRegister, Value, Reverse, Of, Xor;
      if !tableValid {
        BuildTable32(table, poly);
        tableValid := true;
      }
      var reg := if isFirstCall then Inverted(32) else Xor(BitsOf(startValue, 32), Inverted(32));
      ghost var before := if isFirstCall then [] else earlier;
      Resumes(profile, poly, startValue, before, isFirstCall);
      reg := Kernel32(data, reg, table, poly);
      Continues(profile, poly, before, data);
      assert [] + data == data;
      crc := Value(Xor(reg, Inverted(32)));
    }
  }

  /** Undoing the final exclusive-or of a CRC gives back the register that produced it. */
  lemma Resumes(p: Profile, poly: Bits, start: uint32, before: seq<byte>, first: bool)
    requires Reflected32(p, poly) && (if first then before == [] else start == Of(p, before))
    ensures (if first then Inverted(32) else Xor(BitsOf(start, 32), Inverted(32)))
         == MirrorRegister(poly, Inverted(32), before)
  {
    hide BitsOf, Value, Of;
    var r := MirrorRegister(poly, Inverted(32), before);
    MirrorGivesCrc(p, poly, before);
    BitsOfValue(Xor(r, Inverted(32)));
    XorTwice(r, Inverted(32));
  }

  lemma XorTwice(a: Bits, b: Bits)
    requires |a| == |b|
    ensures Xor(Xor(a, b), b) == a
  {}

  lemma Continues(p: Profile, poly: Bits, before: seq<byte>, data: seq<byte>)
    requires Reflected32(p, poly)
    ensures var r := MirrorRegister(poly, MirrorRegister(poly, Inverted(32), before), data);
            Value(Xor(r, Inverted(32))) == Of(p, before + data) && Of(p, before + data) < U32
  {
    hide BitsOf, Value, Of, Reverse, MirrorRegister;
    MirrorRegisterAppend(poly, Inverted(32), before, data);
    MirrorGivesCrc(p, poly, before + data);
    PowersOfTwo();
  }

  lemma {:induction false} MirrorRegisterAppend(poly: Bits, q: Bits, a: seq<byte>, b: seq<byte>)
    requires |q| == |poly| >= 8
    ensures MirrorRegister(poly, q, a + b) == MirrorRegister(poly, MirrorRegister(poly, q, a), b)
    decreases |a|
  {
    hide MirrorFeed;
    if a == [] {
      assert a + b == b;
    } else {
      assert (a + b)[1..] == a[1..] + b;
      MirrorRegisterAppend(poly, MirrorFeed(poly, q, a[0]), a[1..], b);
    }
  }

  /**
   * Crc_CalculateCRC16ARC, whose register is held reflected and clocked bit by bit: a first call gives the CRC of
   * its data, a call that continues from the CRC of earlier data gives the CRC of both.
   */
  method CalculateCRC16ARC(data: seq<byte>, startValue: uint16, isFirstCall: bool, ghost earlier: seq<byte>)
    returns (crc: nat)
    requires !isFirstCall ==> startValue == Of(CRC16ARC, earlier)
    ensures crc == Of(CRC16ARC, if isFirstCall then data else earlier + data)
  {
    hide BitsOf, Value, Of, Reverse, MirrorFeed, MirrorSteps, MirrorRegister, Xor;
    var poly := BitsOf(CRC16ARC_POLY_REFLECTED, 16);
    ghost var before := if isFirstCall then [] else earlier;
    var reg := if isFirstCall then Zeros(16) else BitsOf(startValue, 16);
    ghost var start := reg;
    ArcResumes(startValue, before, isFirstCall);
    MirrorRegisterEmpty(poly, start);
    for k := 0 to |data|
      invariant |reg| == 16 && reg == MirrorRegister(poly, start, data[..k])
    {
      MirrorRegisterSnoc(poly, start, data, k);
      reg := FeedBits(poly, reg, data[k]);
    }
    assert data[..|data|] == data;
    MirrorRegisterAppend(poly, Zeros(16), before, data);
    ArcGivesCrc(before + data);
    assert [] + data == data;
    crc := Value(reg);
  }

  lemma MirrorRegisterEmpty(poly: Bits, q: Bits)
    requires |q| == |poly| >= 8
    ensures MirrorRegister(poly, q, []) == q
  {}

  /** Without a final exclusive-or a CRC is the register that produced it. */
  lemma ArcResumes(start: uint16, before: seq<byte>, first: bool)
    requires if first then before == [] else start == Of(CRC16ARC, before)
    ensures (if first then Zeros(16) else BitsOf(start, 16))
         == MirrorRegister(BitsOf(CRC16ARC_POLY_REFLECTED, 16), Zeros(16), before)
  {
    hide BitsOf, Value, Of;
    if !first {
      ArcGivesCrc(before);
      BitsOfValue(MirrorRegister(BitsOf(CRC16ARC_POLY_REFLECTED, 16), Zeros(16), before));
    }
  }

  method FeedBits(poly: Bits, q: Bits, b: byte) returns (reg: Bits)
    requires |q| == |poly| >= 8
    ensures reg == MirrorFeed(poly, q, b)
  {
    var start := Xor(q, Zeros(|q| - 8) + BitsOf(b, 8));
    reg := start;
    for bit := 0 to 8
      invariant |reg| == |poly| && reg == MirrorSteps(poly, start, bit)
    {
      MirrorStepsSnoc(poly, start, bit);
      reg := if reg[|reg| - 1] then Xor(Shr(reg), poly) else Shr(reg);
    }
  }

  lemma ArcGivesCrc(data: seq<byte>)
    ensures Of(CRC16ARC, data) == Value(MirrorRegister(BitsOf(CRC16ARC_POLY_REFLECTED, 16), Zeros(16), data))
  {
    hide BitsOf, Value, MirrorRegister, Register;
    var poly := BitsOf(CRC16ARC_POLY_REFLECTED, 16);
    PolyMirrors();
    RegisterMirrors(CRC16ARC, poly, Zeros(16), data);
    assert Reverse(Zeros(16)) == Zeros(16);
    ZeroBits(16);
    var r := MirrorRegister(poly, Zeros(16), data);
    ReverseInvolutive(r);
    assert Xor(r, Zeros(16)) == r;
  }

  /**
   * Crc_CalculateCRC16, whose register is clocked towards the high end bit by bit and has no final exclusive-or: a
   * first call gives the CRC of its data, a call that continues from the CRC of earlier data gives the CRC of both.
   */
  method CalculateCRC16(data: seq<byte>, startValue: uint16, isFirstCall: bool, ghost earlier: seq<byte>)
    returns (crc: uint16)
    requires !isFirstCall ==> startValue == Of(CRC16, earlier)
    ensures crc == Of(CRC16, if isFirstCall then data else earlier + data)
  {
    hide BitsOf, Value, Of, Combine, Steps, Xor, Register;
    var poly := BitsOf(0x1021, 16);
    ghost var before := if isFirstCall then [] else earlier;
    var reg := if isFirstCall then BitsOf(0xFFFF, 16) else BitsOf(startValue, 16);
    ghost var start := reg;
    Crc16Resumes(startValue, before, isFirstCall);
    assert Register(CRC16, start, data[..0]) == start by { Crc16Empty(start); }
    for k := 0 to |data|
      invariant |reg| == 16 && reg == Register(CRC16, start, data[..k])
    {
      RegisterSnoc(CRC16, start, data, k);
      reg := ClockBits(poly, Combine(reg, BitsOf(data[k], 8)));
    }
    assert data[..|data|] == data;
    RegisterAppend(CRC16, BitsOf(0xFFFF, 16), before, data);
    assert [] + data == data;
    Crc16IsRegister(before + data);
    crc := Value(reg);
  }

  method ClockBits(poly: Bits, start: Bits) returns (reg: Bits)
    requires |start| == |poly| > 0
    ensures reg == Steps(poly, start, 8)
  {
    reg := start;
    for bit := 0 to 8
      invariant |reg| == |poly| && reg == Steps(poly, start, bit)
    {
      StepsSnoc(poly, start, bit);
      reg := if reg[0] then Xor(Shl(reg), poly) else Shl(reg);
    }
  }

  lemma Crc16Empty(r: Bits)
    requires |r| == 16
    ensures Register(CRC16, r, []) == r
  {}

  lemma Crc16IsRegister(data: seq<byte>)
    ensures Of(CRC16, data) == Value(Register(CRC16, BitsOf(0xFFFF, 16), data)) < U16
  {
    hide BitsOf, Value, Register;
    var r := Register(CRC16, BitsOf(0xFFFF, 16), data);
    ZeroBits(16);
    assert Xor(r, Zeros(16)) == r;
    BitsOfValue(r);
    PowersOfTwo();
  }

  lemma Crc16Resumes(start: uint16, before: seq<byte>, first: bool)
    requires if first then before == [] else start == Of(CRC16, before)
    ensures (if first then BitsOf(0xFFFF, 16) else BitsOf(start, 16)) == Register(CRC16, BitsOf(0xFFFF, 16), before)
  {
    hide BitsOf, Value, Of;
    if !first {
      Crc16IsRegister(before);
      BitsOfValue(Register(CRC16, BitsOf(0xFFFF, 16), before));
    }
  }
}
