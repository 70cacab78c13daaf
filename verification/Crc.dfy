/**
 * The bit-at-a-time CRC definition of tools/crc_reference.py.
 *
 * A register is the sequence of its bits, most significant first, so `<< 1` under the width mask is `Shl`,
 * the test of the top bit reads index 0, and `out << 1 | bit` appends. `Value` and `BitsOf` convert to and
 * from the number a register stands for.
 */
module Crc {
  import opened Base

  type Bits = seq<bool>

  /** A CRC in the Rocksoft/Williams parameterisation. */
  datatype Profile = Profile(width: nat, poly: nat, init: nat, refin: bool, refout: bool, xorout: nat) {

    /** Whole-byte register width, parameters that fit it, and a polynomial with its constant term. */
    ghost predicate Valid() {
      width >= 8 && width % 8 == 0 &&
      poly < Pow2(width) && init < Pow2(width) && xorout < Pow2(width) && poly % 2 == 1
    }
  }

  const CRC8: Profile := Profile(8, 0x1D, 0xFF, false, false, 0xFF)
  const CRC8H2F: Profile := Profile(8, 0x2F, 0xFF, false, false, 0xFF)
  const CRC16: Profile := Profile(16, 0x1021, 0xFFFF, false, false, 0x0000)
  const CRC16ARC: Profile := Profile(16, 0x8005, 0x0000, true, true, 0x0000)
  const CRC32: Profile := Profile(32, 0x04C11DB7, 0xFFFFFFFF, true, true, 0xFFFFFFFF)
  const CRC32P4: Profile := Profile(32, 0xF4ACFB13, 0xFFFFFFFF, true, true, 0xFFFFFFFF)

  const PROFILES: seq<Profile> := [CRC8, CRC8H2F, CRC16, CRC16ARC, CRC32, CRC32P4]

  lemma PowersOfTwo()
    ensures Pow2(7) == 0x80 && Pow2(8) == 0x100 && Pow2(15) == 0x8000 && Pow2(16) == 0x1_0000
    ensures Pow2(24) == 0x100_0000 && Pow2(31) == 0x8000_0000 && Pow2(32) == 0x1_0000_0000
  {
    assert Pow2(4) == 16;
    assert Pow2(12) == 0x1000;
    assert Pow2(20) == 0x10_0000;
    assert Pow2(28) == 0x1000_0000;
  }

  /** Every profile of the table meets the premises of the detection theorem. */
  lemma TableIsValid(i: nat)
    requires i < |PROFILES|
    ensures PROFILES[i].Valid()
  {
    PowersOfTwo();
  }

  // ---------------------------------------------------------------------------------------------
  // Bits and numbers
  // ---------------------------------------------------------------------------------------------

  function Zeros(n: nat): Bits {
    seq(n, _ => false)
  }

  /** The low n bits of v, most significant first. */
  function BitsOf(v: nat, n: nat): (b: Bits)
    ensures |b| == n
  {
    if n == 0 then [] else BitsOf(v / 2, n - 1) + [v % 2 == 1]
  }

  function Value(b: Bits): nat {
    if b == [] then 0 else 2 * Value(b[..|b| - 1]) + (if b[|b| - 1] then 1 else 0)
  }

  lemma {:induction false} ValueOfBitsOf(v: nat, n: nat)
    requires v < Pow2(n)
    ensures Value(BitsOf(v, n)) == v
  {
    if n > 0 {
      ValueOfBitsOf(v / 2, n - 1);
      assert BitsOf(v, n)[..n - 1] == BitsOf(v / 2, n - 1);
    }
  }

  lemma {:induction false} BitsOfValue(b: Bits)
    ensures Value(b) < Pow2(|b|) && BitsOf(Value(b), |b|) == b
  {
    if b != [] {
      BitsOfValue(b[..|b| - 1]);
    }
  }

  lemma {:induction false} ValueAppend(a: Bits, b: Bits)
    ensures Value(a + b) == Value(a) * Pow2(|b|) + Value(b)
    decreases |b|
  {
    if b == [] {
      assert a + b == a;
    } else {
      var n := |b| - 1;
      ValueAppend(a, b[..n]);
      ValueSnoc(a, b);
      Doubled(Value(a), Pow2(n));
    }
  }

  lemma ValueSnoc(a: Bits, b: Bits)
    requires b != []
    ensures Value(a + b) == 2 * Value(a + b[..|b| - 1]) + (if b[|b| - 1] then 1 else 0)
  {
    assert (a + b)[..|a + b| - 1] == a + b[..|b| - 1];
  }

  lemma Doubled(a: nat, p: nat)
    ensures a * (2 * p) == 2 * (a * p)
  {}

  /** Eight bits hold a byte, and the bits of two bytes are worth 256 times the first plus the second. */
  lemma ValueOfTwoBytes(hi: byte, lo: byte)
    ensures Value(BitsOf(hi, 8) + BitsOf(lo, 8)) == 256 * hi as int + lo as int
  {
    var h, l := BitsOf(hi, 8), BitsOf(lo, 8);
    ValueOfByte(hi);
    ValueOfByte(lo);
    ValueAppendByte(h, l);
  }

  lemma ValueAppendByte(a: Bits, b: Bits)
    requires |b| == 8
    ensures Value(a + b) == 256 * Value(a) + Value(b)
  {
    ValueAppend(a, b);
    assert Pow2(|b|) == 256 by { PowersOfTwo(); }
  }

  lemma ValueOfByte(b: byte)
    ensures Value(BitsOf(b, 8)) == b
  {
    PowersOfTwo();
    ValueOfBitsOf(b, 8);
  }

  // ---------------------------------------------------------------------------------------------
  // Reflection
  // ---------------------------------------------------------------------------------------------

  function Reverse(b: Bits): (r: Bits)
    ensures |r| == |b|
    ensures forall i :: 0 <= i < |b| ==> r[i] == b[|b| - 1 - i]
  {
    seq(|b|, i requires 0 <= i < |b| => b[|b| - 1 - i])
  }

  /** `_reflect`: move the bits of `value` out through its low end and in through the low end of `out`. */
  method Reflect(value: Bits) returns (out: Bits)
    ensures out == Reverse(value)
  {
    out := [];
    var rest := value;
    for k := 0 to |value|
      invariant rest == value[..|value| - k]
      invariant |out| == k && forall i :: 0 <= i < k ==> out[i] == value[|value| - 1 - i]
    {
      out := out + [rest[|rest| - 1]];
      rest := rest[..|rest| - 1];
    }
  }

  lemma ReverseInvolutive(b: Bits)
    ensures Reverse(Reverse(b)) == b
  {}

  // ---------------------------------------------------------------------------------------------
  // The register
  // ---------------------------------------------------------------------------------------------

  function Xor(a: Bits, b: Bits): (c: Bits)
    requires |a| == |b|
    ensures |c| == |a|
    ensures forall i :: 0 <= i < |a| ==> c[i] == (a[i] != b[i])
  {
    seq(|a|, i requires 0 <= i < |a| => a[i] != b[i])
  }

  function Shl(r: Bits): (s: Bits)
    requires |r| > 0
    ensures |s| == |r|
  {
    r[1..] + [false]
  }

  /** One clock of the register: shift left, and subtract the polynomial when a one falls out. */
  function Step(poly: Bits, r: Bits): (s: Bits)
    requires |r| == |poly| > 0
    ensures |s| == |r|
  {
    if r[0] then Xor(Shl(r), poly) else Shl(r)
  }

  function Steps(poly: Bits, r: Bits, n: nat): (s: Bits)
    requires |r| == |poly| > 0
    ensures |s| == |r|
    decreases n
  {
    if n == 0 then r else Steps(poly, Step(poly, r), n - 1)
  }

  function Octet(p: Profile, b: byte): (o: Bits)
    ensures |o| == 8
  {
    if p.refin then Reverse(BitsOf(b, 8)) else BitsOf(b, 8)
  }

  /** The register after combining the word s into its top end. */
  function Combine(r: Bits, s: Bits): (c: Bits)
    requires |s| <= |r|
    ensures |c| == |r|
  {
    Xor(r, s + Zeros(|r| - |s|))
  }

  /** The register after one message byte has been combined into its top end and clocked through. */
  function Feed(p: Profile, r: Bits, b: byte): (s: Bits)
    requires p.width >= 8 && |r| == p.width
    ensures |s| == p.width
  {
    Steps(BitsOf(p.poly, p.width), Combine(r, Octet(p, b)), 8)
  }

  function Register(p: Profile, r: Bits, data: seq<byte>): (s: Bits)
    requires p.width >= 8 && |r| == p.width
    ensures |s| == p.width
    decreases |data|
  {
    if data == [] then r else Register(p, Feed(p, r, data[0]), data[1..])
  }

  function Finish(p: Profile, r: Bits): (s: Bits)
    requires |r| == p.width
    ensures |s| == p.width
  {
    Xor(if p.refout then Reverse(r) else r, BitsOf(p.xorout, p.width))
  }

  /** The CRC of `data` as a number. */
  function Of(p: Profile, data: seq<byte>): (crc: nat)
    requires p.width >= 8
    ensures crc < Pow2(p.width)
  {
    BitsOfValue(Finish(p, Register(p, BitsOf(p.init, p.width), data)));
    Value(Finish(p, Register(p, BitsOf(p.init, p.width), data)))
  }

  lemma {:induction false} StepsSnoc(poly: Bits, r: Bits, n: nat)
    requires |r| == |poly| > 0
    ensures Steps(poly, r, n + 1) == Step(poly, Steps(poly, r, n))
    decreases n
  {
    if n > 0 { StepsSnoc(poly, Step(poly, r), n - 1); }
  }

  lemma {:induction false} RegisterAppend(p: Profile, r: Bits, a: seq<byte>, b: seq<byte>)
    requires p.width >= 8 && |r| == p.width
    ensures Register(p, r, a + b) == Register(p, Register(p, r, a), b)
    decreases |a|
  {
    if a == [] {
      assert a + b == b;
    } else {
      assert (a + b)[1..] == a[1..] + b;
      RegisterAppend(p, Feed(p, r, a[0]), a[1..], b);
    }
  }

  lemma RegisterSnoc(p: Profile, r: Bits, data: seq<byte>, k: nat)
    requires p.width >= 8 && |r| == p.width && k < |data|
    ensures Register(p, r, data[..k + 1]) == Feed(p, Register(p, r, data[..k]), data[k])
  {
    assert data[..k + 1] == data[..k] + [data[k]];
    RegisterAppend(p, r, data[..k], [data[k]]);
  }

  /** `crc`: the two nested loops over bytes and bits. */
  method Compute(p: Profile, data: seq<byte>) returns (crc: nat)
    requires p.width >= 8
    ensures crc == Of(p, data)
  {
    var poly := BitsOf(p.poly, p.width);
    var reg := BitsOf(p.init, p.width);
    for k := 0 to |data|
      invariant |reg| == p.width
      invariant reg == Register(p, BitsOf(p.init, p.width), data[..k])
    {
      var octet := BitsOf(data[k], 8);
      if p.refin {
        octet := Reflect(octet);
      }
      reg := Combine(reg, octet);
      ghost var start := reg;
      for j := 0 to 8
        invariant |reg| == p.width
        invariant reg == Steps(poly, start, j)
      {
        StepsSnoc(poly, start, j);
        if reg[0] {
          reg := Xor(Shl(reg), poly);
        } else {
          reg := Shl(reg);
        }
      }
      RegisterSnoc(p, BitsOf(p.init, p.width), data, k);
    }
    assert data[..|data|] == data;
    if p.refout {
      reg := Reflect(reg);
    }
    crc := Value(Xor(reg, BitsOf(p.xorout, p.width)));
  }

  // ---------------------------------------------------------------------------------------------
  // Error detection
  // ---------------------------------------------------------------------------------------------

  /** With a constant term in the polynomial a clock loses nothing: the bit that fell out is its low bit. */
  lemma StepInjective(poly: Bits, a: Bits, b: Bits)
    requires |a| == |b| == |poly| > 0 && poly[|poly| - 1]
    requires Step(poly, a) == Step(poly, b)
    ensures a == b
  {
    var n, s := |poly|, Step(poly, a);
    assert s[n - 1] == a[0] && s[n - 1] == b[0];
    forall i | 1 <= i < n
      ensures a[i] == b[i]
    {
      assert s[i - 1] == (if a[0] then a[i] != poly[i - 1] else a[i]);
      assert s[i - 1] == (if b[0] then b[i] != poly[i - 1] else b[i]);
    }
  }

  lemma {:induction false} StepsInjective(poly: Bits, a: Bits, b: Bits, n: nat)
    requires |a| == |b| == |poly| > 0 && poly[|poly| - 1]
    requires Steps(poly, a, n) == Steps(poly, b, n)
    ensures a == b
    decreases n
  {
    if n > 0 {
      StepsInjective(poly, Step(poly, a), Step(poly, b), n - 1);
      StepInjective(poly, a, b);
    }
  }

  /** Bits that have not reached the top end only shift: combining them early or late is the same. */
  lemma {:induction false} StepsDelay(poly: Bits, r: Bits, n: nat, y: Bits)
    requires |r| == |poly| == n + |y| > 0
    ensures Steps(poly, Xor(r, Zeros(n) + y), n) == Xor(Steps(poly, r, n), y + Zeros(n))
    decreases n
  {
    if n == 0 {
      assert Zeros(0) + y == y == y + Zeros(0);
    } else {
      var x := Zeros(n) + y;
      assert Step(poly, Xor(r, x)) == Xor(Step(poly, r), Shl(x));
      assert Shl(x) == Zeros(n - 1) + (y + [false]);
      StepsDelay(poly, Step(poly, r), n - 1, y + [false]);
      assert (y + [false]) + Zeros(n - 1) == y + Zeros(n);
    }
  }

  /** The message as the stream of bits the register consumes. */
  function Stream(p: Profile, data: seq<byte>): (s: Bits)
    ensures |s| == 8 * |data|
  {
    if data == [] then [] else Octet(p, data[0]) + Stream(p, data[1..])
  }

  /** Consuming a stream one bit at a time, each bit entering at the top end. */
  function Serial(poly: Bits, r: Bits, s: Bits): (r': Bits)
    requires |r| == |poly| > 0
    ensures |r'| == |r|
    decreases |s|
  {
    if s == [] then r else Serial(poly, Step(poly, Combine(r, s[..1])), s[1..])
  }

  lemma {:induction false} SerialAppend(poly: Bits, r: Bits, a: Bits, b: Bits)
    requires |r| == |poly| > 0
    ensures Serial(poly, r, a + b) == Serial(poly, Serial(poly, r, a), b)
    decreases |a|
  {
    if a == [] {
      assert a + b == b;
    } else {
      assert (a + b)[1..] == a[1..] + b;
      assert (a + b)[..1] == a[..1];
      SerialAppend(poly, Step(poly, Combine(r, a[..1])), a[1..], b);
    }
  }

  /** Combining a word and clocking once is combining its first bit, clocking, and combining the rest. */
  lemma CombineFirst(poly: Bits, r: Bits, s: Bits)
    requires 0 < |s| <= |r| == |poly|
    ensures Step(poly, Combine(r, s)) == Combine(Step(poly, Combine(r, s[..1])), s[1..])
  {
    var y := s[1..] + Zeros(|r| - |s|);
    assert Combine(r, s) == Xor(Combine(r, s[..1]), Zeros(1) + y);
    StepDelay(poly, Combine(r, s[..1]), y);
    assert y + Zeros(1) == s[1..] + Zeros(|r| - |s[1..]|);
  }

  lemma CombineNothing(r: Bits, s: Bits)
    requires s == []
    ensures Combine(r, s) == r
  {}

  /** A word no longer than the register may be combined all at once and then clocked through. */
  lemma {:induction false} SerialIsParallel(poly: Bits, r: Bits, s: Bits)
    requires |r| == |poly| > 0 && |s| <= |r|
    ensures Serial(poly, r, s) == Steps(poly, Combine(r, s), |s|)
    decreases |s|
  {
    if s == [] {
      CombineNothing(r, s);
    } else {
      var next, rest := Step(poly, Combine(r, s[..1])), s[1..];
      SerialIsParallel(poly, next, rest);
      CombineFirst(poly, r, s);
      StepsCons(poly, Combine(r, s), |s|);
    }
  }

  lemma StepsCons(poly: Bits, r: Bits, n: nat)
    requires |r| == |poly| > 0 && n > 0
    ensures Steps(poly, r, n) == Steps(poly, Step(poly, r), n - 1)
  {}

  lemma StepDelay(poly: Bits, r: Bits, y: Bits)
    requires |r| == |poly| == 1 + |y|
    ensures Step(poly, Xor(r, Zeros(1) + y)) == Xor(Step(poly, r), y + Zeros(1))
  {
    StepsDelay(poly, r, 1, y);
    StepsSnoc(poly, r, 0);
    StepsSnoc(poly, Xor(r, Zeros(1) + y), 0);
  }

  lemma FeedIsSerial(p: Profile, r: Bits, b: byte)
    requires p.width >= 8 && |r| == p.width
    ensures Feed(p, r, b) == Serial(BitsOf(p.poly, p.width), r, Octet(p, b))
  {
    SerialIsParallel(BitsOf(p.poly, p.width), r, Octet(p, b));
  }

  /** Byte-wise and bit-serial processing agree. */
  lemma {:induction false} RegisterIsSerial(p: Profile, r: Bits, data: seq<byte>)
    requires p.width >= 8 && |r| == p.width
    ensures Register(p, r, data) == Serial(BitsOf(p.poly, p.width), r, Stream(p, data))
    decreases |data|
  {
    if data != [] {
      FeedIsSerial(p, r, data[0]);
      SerialAppend(BitsOf(p.poly, p.width), r, Octet(p, data[0]), Stream(p, data[1..]));
      RegisterIsSerial(p, Feed(p, r, data[0]), data[1..]);
    }
  }

  lemma {:induction false} SerialInjective(poly: Bits, a: Bits, b: Bits, s: Bits)
    requires |a| == |b| == |poly| > 0 && poly[|poly| - 1]
    requires Serial(poly, a, s) == Serial(poly, b, s)
    ensures a == b
    decreases |s|
  {
    if s != [] {
      var a', b' := Combine(a, s[..1]), Combine(b, s[..1]);
      SerialInjective(poly, Step(poly, a'), Step(poly, b'), s[1..]);
      StepInjective(poly, a', b');
      XorInjective(a, b, s[..1] + Zeros(|a| - 1));
    }
  }

  lemma XorInjective(a: Bits, b: Bits, x: Bits)
    requires |a| == |b| == |x| && Xor(a, x) == Xor(b, x)
    ensures a == b
  {
    forall i | 0 <= i < |a|
      ensures a[i] == b[i]
    {
      assert Xor(a, x)[i] == Xor(b, x)[i];
    }
  }

  /** Consuming words no longer than the register is injective in the word. */
  lemma SerialInjectiveInWord(poly: Bits, r: Bits, s: Bits, t: Bits)
    requires |r| == |poly| > 0 && poly[|poly| - 1]
    requires |s| == |t| <= |poly| && Serial(poly, r, s) == Serial(poly, r, t)
    ensures s == t
  {
    hide Serial, Steps;
    var z := Zeros(|poly| - |s|);
    SerialIsParallel(poly, r, s);
    SerialIsParallel(poly, r, t);
    StepsInjective(poly, Combine(r, s), Combine(r, t), |s|);
    assert Xor(s + z, r) == Xor(r, s + z) == Xor(r, t + z) == Xor(t + z, r);
    XorInjective(s + z, t + z, r);
    assert s == (s + z)[..|s|] == (t + z)[..|s|] == t;
  }

  lemma SerialInThree(poly: Bits, r: Bits, a: Bits, b: Bits, c: Bits)
    requires |r| == |poly| > 0
    ensures Serial(poly, r, a + b + c) == Serial(poly, Serial(poly, Serial(poly, r, a), b), c)
  {
    SerialAppend(poly, r, a, b);
    SerialAppend(poly, r, a + b, c);
  }

  lemma SerialInjectiveBeforeTail(poly: Bits, r: Bits, s: Bits, t: Bits, post: Bits)
    requires |r| == |poly| > 0 && poly[|poly| - 1] && |s| == |t| <= |poly|
    requires Serial(poly, Serial(poly, r, s), post) == Serial(poly, Serial(poly, r, t), post)
    ensures s == t
  {
    SerialInjective(poly, Serial(poly, r, s), Serial(poly, r, t), post);
    SerialInjectiveInWord(poly, r, s, t);
  }

  /** Streams that leave the same register and agree outside a window no longer than it agree in the window. */
  lemma SerialDetectsBurst(poly: Bits, r: Bits, pre: Bits, s: Bits, t: Bits, post: Bits)
    requires |r| == |poly| > 0 && poly[|poly| - 1] && |s| == |t| <= |poly|
    requires Serial(poly, r, pre + s + post) == Serial(poly, r, pre + t + post)
    ensures s == t
  {
    SerialInThree(poly, r, pre, s, post);
    SerialInThree(poly, r, pre, t, post);
    SerialInjectiveBeforeTail(poly, Serial(poly, r, pre), s, t, post);
  }

  lemma PolyIsOdd(p: Profile)
    requires p.Valid()
    ensures BitsOf(p.poly, p.width)[p.width - 1]
  {}

  lemma FinishInjective(p: Profile, a: Bits, b: Bits)
    requires |a| == |b| == p.width && Value(Finish(p, a)) == Value(Finish(p, b))
    ensures a == b
  {
    BitsOfValue(Finish(p, a));
    BitsOfValue(Finish(p, b));
    var x := BitsOf(p.xorout, p.width);
    if p.refout {
      XorInjective(Reverse(a), Reverse(b), x);
      ReverseInvolutive(a);
      ReverseInvolutive(b);
    } else {
      XorInjective(a, b, x);
    }
  }

  /** The two streams agree but for the window between `pre` and `post`, which is no wider than the register. */
  ghost predicate Burst(p: Profile, a: seq<byte>, b: seq<byte>, pre: Bits, s: Bits, t: Bits, post: Bits) {
    a != b && |s| == |t| <= p.width &&
    Stream(p, a) == pre + s + post && Stream(p, b) == pre + t + post
  }

  /** Any burst of at most `width` bits in the consumed stream changes the register, from any start. */
  lemma RegisterDetectsBurst(p: Profile, r: Bits, a: seq<byte>, b: seq<byte>,
                             pre: Bits, s: Bits, t: Bits, post: Bits)
    requires p.Valid() && |r| == p.width && Burst(p, a, b, pre, s, t, post)
    ensures Register(p, r, a) != Register(p, r, b)
  {
    if Register(p, r, a) == Register(p, r, b) {
      PolyIsOdd(p);
      RegisterIsSerial(p, r, a);
      RegisterIsSerial(p, r, b);
      SerialDetectsBurst(BitsOf(p.poly, p.width), r, pre, s, t, post);
      StreamInjective(p, a, b);
    }
  }

  /** Any burst of at most `width` bits in the consumed stream changes the CRC, whatever the message length. */
  lemma BurstDetected(p: Profile, a: seq<byte>, b: seq<byte>, pre: Bits, s: Bits, t: Bits, post: Bits)
    requires p.Valid() && Burst(p, a, b, pre, s, t, post)
    ensures Of(p, a) != Of(p, b)
  {
    var init := BitsOf(p.init, p.width);
    RegisterDetectsBurst(p, init, a, b, pre, s, t, post);
    if Of(p, a) == Of(p, b) {
      FinishInjective(p, Register(p, init, a), Register(p, init, b));
    }
  }

  lemma OctetInjective(p: Profile, a: byte, b: byte)
    requires Octet(p, a) == Octet(p, b)
    ensures a == b
  {
    PowersOfTwo();
    ValueOfBitsOf(a, 8);
    ValueOfBitsOf(b, 8);
    ReverseInvolutive(BitsOf(a, 8));
    ReverseInvolutive(BitsOf(b, 8));
  }

  lemma {:induction false} StreamInjective(p: Profile, a: seq<byte>, b: seq<byte>)
    requires Stream(p, a) == Stream(p, b)
    ensures a == b
  {
    if a != [] && b != [] {
      assert Octet(p, a[0]) == Stream(p, a)[..8] == Stream(p, b)[..8] == Octet(p, b[0]);
      OctetInjective(p, a[0], b[0]);
      assert Stream(p, a[1..]) == Stream(p, a)[8..] == Stream(p, b)[8..] == Stream(p, b[1..]);
      StreamInjective(p, a[1..], b[1..]);
    }
  }

  lemma {:induction false} StreamAppend(p: Profile, a: seq<byte>, b: seq<byte>)
    ensures Stream(p, a + b) == Stream(p, a) + Stream(p, b)
  {
    hide Octet;
    if a == [] {
      assert a + b == b;
    } else {
      assert (a + b)[1..] == a[1..] + b;
      StreamAppend(p, a[1..], b);
      assert Stream(p, a + b) == Octet(p, a[0]) + (Stream(p, a[1..]) + Stream(p, b));
    }
  }

  lemma {:induction false} ZeroStaysZero(poly: Bits, n: nat)
    requires |poly| > 0
    ensures Steps(poly, Zeros(|poly|), n) == Zeros(|poly|)
    decreases n
  {
    if n > 0 {
      assert Step(poly, Zeros(|poly|)) == Zeros(|poly|);
      ZeroStaysZero(poly, n - 1);
    }
  }

  lemma {:induction false} ZeroBits(n: nat)
    ensures BitsOf(0, n) == Zeros(n)
  {
    if n > 0 { ZeroBits(n - 1); }
  }

  lemma CombineIsZero(r: Bits, d: Bits)
    requires |r| == |d|
    ensures Combine(r, d) == Zeros(|r|) <==> r == d
  {
    assert d + Zeros(0) == d;
    if Xor(r, d) == Zeros(|r|) {
      forall i | 0 <= i < |r|
        ensures r[i] == d[i]
      {
        assert Xor(r, d)[i] == Zeros(|r|)[i];
      }
    }
  }

  /** Consuming a register's worth of bytes leaves zero exactly when their bits are the register's own. */
  lemma RegisterWidthCancels(p: Profile, r: Bits, data: seq<byte>)
    requires p.Valid() && |r| == p.width == 8 * |data|
    ensures Register(p, r, data) == Zeros(p.width) <==> r == Stream(p, data)
  {
    var poly, d := BitsOf(p.poly, p.width), Stream(p, data);
    RegisterIsSerial(p, r, data);
    SerialIsParallel(poly, r, d);
    CombineIsZero(r, d);
    ZeroStaysZero(poly, p.width);
    PolyIsOdd(p);
    if Register(p, r, data) == Zeros(p.width) {
      StepsInjective(poly, Combine(r, d), Zeros(p.width), p.width);
    }
  }

  /**
   * Under an unreflected profile without final inversion, the register over a message followed by the
   * CRC-sized tail ends at zero exactly when the tail is the message's CRC.
   */
  lemma ResidueIsZero(p: Profile, body: seq<byte>, tail: seq<byte>)
    requires p.Valid() && !p.refout && p.xorout == 0 && 8 * |tail| == p.width
    ensures Register(p, BitsOf(p.init, p.width), body + tail) == Zeros(p.width)
       <==> Of(p, body) == Value(Stream(p, tail))
  {
    var r, d := Register(p, BitsOf(p.init, p.width), body), Stream(p, tail);
    RegisterAppend(p, BitsOf(p.init, p.width), body, tail);
    RegisterWidthCancels(p, r, tail);
    FinishIsIdentity(p, r);
    BitsOfValue(r);
    BitsOfValue(d);
  }

  lemma StreamOfTwoBytes(p: Profile, hi: byte, lo: byte)
    requires !p.refin
    ensures Stream(p, [hi, lo]) == BitsOf(hi, 8) + BitsOf(lo, 8)
  {
    assert [hi, lo][1..] == [lo] && [lo][1..] == [];
    assert Stream(p, [lo]) == BitsOf(lo, 8);
  }

  /** The frame form of ResidueIsZero, for 16-bit registers: body, CRC high byte, CRC low byte. */
  lemma FrameResidue(p: Profile, body: seq<byte>, hi: byte, lo: byte)
    requires p.Valid() && !p.refin && !p.refout && p.xorout == 0 && p.width == 16
    ensures Register(p, BitsOf(p.init, p.width), body + [hi, lo]) == Zeros(p.width)
       <==> Of(p, body) == 256 * hi as int + lo as int
  {
    hide Register, Of, Stream, BitsOf, Value;
    ResidueIsZero(p, body, [hi, lo]);
    StreamOfTwoBytes(p, hi, lo);
    ValueOfTwoBytes(hi, lo);
  }

  lemma FinishIsIdentity(p: Profile, r: Bits)
    requires |r| == p.width && !p.refout && p.xorout == 0
    ensures Finish(p, r) == r
  {
    ZeroBits(p.width);
  }

  /** Two messages of equal length differ only within the `n` bytes from index `from` on. */
  ghost predicate DifferWithin(a: seq<byte>, b: seq<byte>, from: nat, n: nat) {
    |a| == |b| && a != b && from + n <= |a| &&
    (forall i :: 0 <= i < |a| && !(from <= i < from + n) ==> a[i] == b[i])
  }

  lemma StreamInThree(p: Profile, x: seq<byte>, u: seq<byte>, y: seq<byte>)
    ensures Stream(p, x + u + y) == Stream(p, x) + Stream(p, u) + Stream(p, y)
  {
    StreamAppend(p, x, u);
    StreamAppend(p, x + u, y);
  }

  lemma OutsideWindow(a: seq<byte>, b: seq<byte>, from: nat, n: nat)
    requires DifferWithin(a, b, from, n)
    ensures a == a[..from] + a[from..from + n] + a[from + n..]
    ensures b == a[..from] + b[from..from + n] + a[from + n..]
  {}

  lemma WindowIsBurst(p: Profile, a: seq<byte>, b: seq<byte>, from: nat, n: nat)
    requires p.width % 8 == 0 && n <= p.width / 8 && DifferWithin(a, b, from, n)
    ensures Burst(p, a, b, Stream(p, a[..from]), Stream(p, a[from..from + n]), Stream(p, b[from..from + n]),
                  Stream(p, a[from + n..]))
  {
    var x, u, v, y := a[..from], a[from..from + n], b[from..from + n], a[from + n..];
    OutsideWindow(a, b, from, n);
    StreamInThree(p, x, u, y);
    StreamInThree(p, x, v, y);
  }

  /**
   * Messages of any length that differ only within `width / 8` adjacent bytes have different CRCs, under
   * every valid profile, and leave different registers whatever the starting register.
   */
  lemma AdjacentBytesDetected(p: Profile, a: seq<byte>, b: seq<byte>, from: nat, n: nat, r: Bits)
    requires p.Valid() && n <= p.width / 8 && DifferWithin(a, b, from, n) && |r| == p.width
    ensures Of(p, a) != Of(p, b)
    ensures Register(p, r, a) != Register(p, r, b)
  {
    var x, u, v, y := a[..from], a[from..from + n], b[from..from + n], a[from + n..];
    WindowIsBurst(p, a, b, from, n);
    BurstDetected(p, a, b, Stream(p, x), Stream(p, u), Stream(p, v), Stream(p, y));
    RegisterDetectsBurst(p, r, a, b, Stream(p, x), Stream(p, u), Stream(p, v), Stream(p, y));
  }
}
