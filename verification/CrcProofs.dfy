/** That Crc32 is the CRC-32 of section 8 of RFC 1952, the one zlib's crc32 computes: the complement of the
    remainder that the message leaves when divided by the generator polynomial. */
module CrcProofs {
  import opened Bytes
  import opened Crc32

  // ---------- The definition by division ----------

  /** The exponents of the generator polynomial below its leading x^32. */
  const EXPONENTS: set<int> := {26, 23, 22, 16, 12, 11, 10, 8, 7, 5, 4, 2, 1, 0}

  /** The coefficients below x^32 of the generator, highest first. */
  function Generator(): (g: seq<bool>)
    ensures |g| == 32
  {
    seq(32, i requires 0 <= i < 32 => 31 - i in EXPONENTS)
  }

  predicate Low(c: bv32) { c & 1 == 1 }

  function Half(c: bv32): bv32 { c >> 1 }

  function Sum(c: bv32, d: bv32): bv32 { c ^ d }

  /** Bit n of a register, counted from the least significant. */
  predicate Bit(c: bv32, n: nat)
    decreases n
  {
    if n == 0 then Low(c) else Bit(Half(c), n - 1)
  }

  /** The first n bits, the least significant first. */
  function Bits(c: bv32, n: nat): (s: seq<bool>)
    ensures |s| == n
    ensures forall i :: 0 <= i < n ==> s[i] == Bit(c, i)
  {
    seq(n, i requires 0 <= i < n => Bit(c, i))
  }

  /** A message as a polynomial: byte by byte, each from its least significant bit. */
  function MessageBits(data: seq<byte>): (s: seq<bool>)
    decreases data
  {
    if data == [] then [] else Bits(data[0] as bv32, 8) + MessageBits(data[1..])
  }

  /** The sum of polynomials, aligned at their highest coefficient. */
  function AddFront(s: seq<bool>, t: seq<bool>): (r: seq<bool>)
    requires |t| <= |s|
    ensures |r| == |s|
    ensures forall i :: 0 <= i < |s| ==> r[i] == if i < |t| then s[i] != t[i] else s[i]
  {
    seq(|s|, i requires 0 <= i < |s| => if i < |t| then s[i] != t[i] else s[i])
  }

  /** Long division: the remainder of a polynomial, by its 32 lowest coefficients. */
  function Remainder(m: seq<bool>): (r: seq<bool>)
    requires |m| >= 32
    ensures |r| == 32
    decreases |m|
  {
    if |m| == 32 then m
    else if m[0] then Remainder(AddFront(m[1..], Generator()))
    else Remainder(m[1..])
  }

  function Repeated(b: bool, n: nat): (s: seq<bool>)
    ensures |s| == n && forall i :: 0 <= i < n ==> s[i] == b
  {
    seq(n, _ => b)
  }

  // ---------- The register, bit by bit ----------

  lemma {:induction false} BitOfSum(c: bv32, d: bv32, n: nat)
    ensures Bit(Sum(c, d), n) == (Bit(c, n) != Bit(d, n))
    decreases n
  {
    hide Low, Half, Sum;
    if n == 0 {
      LowOfSum(c, d);
    } else {
      BitOfSum(Half(c), Half(d), n - 1);
      HalfOfSum(c, d);
    }
  }

  lemma LowOfSum(c: bv32, d: bv32)
    ensures Low(Sum(c, d)) == (Low(c) != Low(d))
  {
  }

  lemma HalfOfSum(c: bv32, d: bv32)
    ensures Half(Sum(c, d)) == Sum(Half(c), Half(d))
  {
  }

  lemma SwapSum(c: bv32, d: bv32, e: bv32)
    ensures Sum(Sum(c, d), e) == Sum(Sum(c, e), d)
  {
    Associates(c, d, e);
    Associates(c, e, d);
    Commutes(d, e);
    hide Sum;
  }

  lemma Associates(c: bv32, d: bv32, e: bv32)
    ensures Sum(Sum(c, d), e) == Sum(c, Sum(d, e))
  {
  }

  lemma Commutes(d: bv32, e: bv32)
    ensures Sum(d, e) == Sum(e, d)
  {
  }

  lemma AddZero(c: bv32)
    ensures Sum(c, 0) == c
  {
  }

  lemma StepIs(c: bv32)
    ensures Step(c) == if Low(c) then Sum(Half(c), POLYNOMIAL) else Half(c)
  {
  }

  function Fourth(c: bv32): bv32 { c >> 4 }

  function Eighth(c: bv32): bv32 { c >> 8 }

  lemma FourDown(c: bv32)
    ensures Half(Half(Half(Half(c)))) == Fourth(c) && Fourth(Fourth(c)) == Eighth(c)
  {
  }

  lemma FourBits(c: bv32, n: nat)
    ensures Bit(c, n + 4) == Bit(Fourth(c), n)
  {
    FourDown(c);
    hide Half, Low, Fourth;
    assert Bit(c, n + 4) == Bit(Half(c), n + 3) == Bit(Half(Half(c)), n + 2) == Bit(Half(Half(Half(c))), n + 1);
  }

  lemma EightBits(c: bv32, n: nat)
    ensures Bit(c, n + 8) == Bit(Eighth(c), n)
  {
    FourDown(c);
    hide Bit, Fourth, Eighth;
    FourBits(c, n + 4);
    FourBits(Fourth(c), n);
  }

  lemma NoHigherBit(c: bv32)
    ensures !Bit(c, 32)
  {
    NothingLeft(c);
    hide Bit, Eighth;
    EightBits(c, 24);
    EightBits(Eighth(c), 16);
    EightBits(Eighth(Eighth(c)), 8);
    EightBits(Eighth(Eighth(Eighth(c))), 0);
    ZeroLow();
  }

  lemma NothingLeft(c: bv32)
    ensures Eighth(Eighth(Eighth(Eighth(c)))) == 0
  {
  }

  lemma ZeroLow()
    ensures !Bit(0, 0)
  {
  }

  /** The register's constant is the generator, reflected: bit i is set exactly if 31 - i is an exponent. */
  lemma GeneratorBits(i: nat)
    requires i < 32
    ensures Bit(POLYNOMIAL, i) <==> 31 - i in EXPONENTS
  {
    hide Bit;
    if i < 8 {
      GeneratorByte0(i);
    } else if i < 16 {
      GeneratorByte1(i);
    } else if i < 24 {
      GeneratorByte2(i);
    } else {
      GeneratorByte3(i);
    }
  }

  lemma GeneratorByte0(i: nat)
    requires 0 <= i < 8
    ensures Bit(POLYNOMIAL, i) <==> 31 - i in EXPONENTS
  {
    assert !Bit(0xEDB88320, 0) && !Bit(0xEDB88320, 1) && !Bit(0xEDB88320, 2) && !Bit(0xEDB88320, 3);
    assert !Bit(0xEDB88320, 4) && Bit(0xEDB88320, 5) && !Bit(0xEDB88320, 6) && !Bit(0xEDB88320, 7);
  }

  lemma GeneratorByte1(i: nat)
    requires 8 <= i < 16
    ensures Bit(POLYNOMIAL, i) <==> 31 - i in EXPONENTS
  {
    EightBits(0xEDB88320, i - 8);
    assert Bit(0xEDB883, 0) && Bit(0xEDB883, 1) && !Bit(0xEDB883, 2) && !Bit(0xEDB883, 3);
    assert !Bit(0xEDB883, 4) && !Bit(0xEDB883, 5) && !Bit(0xEDB883, 6) && Bit(0xEDB883, 7);
  }

  lemma GeneratorByte2(i: nat)
    requires 16 <= i < 24
    ensures Bit(POLYNOMIAL, i) <==> 31 - i in EXPONENTS
  {
    EightBits(0xEDB88320, i - 8);
    EightBits(0xEDB883, i - 16);
    assert !Bit(0xEDB8, 0) && !Bit(0xEDB8, 1) && !Bit(0xEDB8, 2) && Bit(0xEDB8, 3);
    assert Bit(0xEDB8, 4) && Bit(0xEDB8, 5) && !Bit(0xEDB8, 6) && Bit(0xEDB8, 7);
  }

  lemma GeneratorByte3(i: nat)
    requires 24 <= i < 32
    ensures Bit(POLYNOMIAL, i) <==> 31 - i in EXPONENTS
  {
    EightBits(0xEDB88320, i - 8);
    EightBits(0xEDB883, i - 16);
    EightBits(0xEDB8, i - 24);
    assert Bit(0xED, 0) && !Bit(0xED, 1) && Bit(0xED, 2) && Bit(0xED, 3);
    assert !Bit(0xED, 4) && Bit(0xED, 5) && Bit(0xED, 6) && Bit(0xED, 7);
  }

  // ---------- One bit ----------

  /** The register as a polynomial: bit i is the coefficient of x^(31 - i). */
  function Poly(c: bv32): (s: seq<bool>)
    ensures |s| == 32
  {
    Bits(c, 32)
  }

  function One(bit: bool): bv32 {
    if bit then 1 else 0
  }

  /** One bit of the message: it is added to the lowest bit before the step. */
  function Feed(c: bv32, bit: bool): bv32 {
    Step(Sum(c, One(bit)))
  }

  lemma OneIs(bit: bool)
    ensures Low(One(bit)) == bit && Half(One(bit)) == 0
  {
  }

  lemma FeedIs(c: bv32, bit: bool)
    ensures Feed(c, bit) == if Low(c) != bit then Sum(Half(c), POLYNOMIAL) else Half(c)
  {
    hide Low, Half, Sum, Step, One;
    StepIs(Sum(c, One(bit)));
    LowOfSum(c, One(bit));
    HalfOfSum(c, One(bit));
    OneIs(bit);
    AddZero(Half(c));
  }

  lemma BitOfFeed(c: bv32, bit: bool, n: nat)
    ensures Bit(Feed(c, bit), n) == (Bit(c, n + 1) != ((Bit(c, 0) != bit) && Bit(POLYNOMIAL, n)))
  {
    hide Low, Half, Sum, Feed;
    FeedIs(c, bit);
    BitOfSum(Half(c), POLYNOMIAL, n);
  }

  lemma DivideOnce(m: seq<bool>)
    requires |m| >= 33
    ensures Remainder(m) == Remainder(if m[0] then AddFront(m[1..], Generator()) else m[1..])
  {
  }

  /** Coefficient by coefficient, the register is shifted, and the generator added if one falls out. */
  lemma FedCoefficient(c: bv32, bit: bool, i: nat)
    requires i < 32
    ensures Poly(Feed(c, bit))[i] ==
            ((i < 31 && Poly(c)[i + 1]) != ((Poly(c)[0] != bit) && Generator()[i]))
  {
    hide Feed, Bit, Poly, Generator;
    BitOfFeed(c, bit, i);
    GeneratorAt(i);
    NoHigherBit(c);
    PolyAt(c, 0);
    PolyAt(c, if i < 31 then i + 1 else 0);
    PolyAt(Feed(c, bit), i);
  }

  lemma PolyAt(c: bv32, i: nat)
    requires i < 32
    ensures Poly(c)[i] == Bit(c, i)
  {
    hide Bit;
  }

  lemma GeneratorAt(i: nat)
    requires i < 32
    ensures Generator()[i] == Bit(POLYNOMIAL, i)
  {
    hide Bit;
    GeneratorBits(i);
  }

  /** A message bit is one turn of the division. */
  lemma FeedDivides(c: bv32, rest: seq<bool>)
    requires |rest| >= 33
    ensures Remainder(AddFront(rest, Poly(c))) == Remainder(AddFront(rest[1..], Poly(Feed(c, rest[0]))))
  {
    hide Remainder, Feed, Bit, Poly, Generator, AddFront;
    var m, fed := AddFront(rest, Poly(c)), Poly(Feed(c, rest[0]));
    var next := if m[0] then AddFront(m[1..], Generator()) else m[1..];
    DivideOnce(m);
    forall i | 0 <= i < |rest| - 1
      ensures next[i] == AddFront(rest[1..], fed)[i]
    {
      if i < 32 {
        FedCoefficient(c, rest[0], i);
      }
    }
    assert next == AddFront(rest[1..], fed);
  }

  // ---------- A byte, a message ----------

  function Register(c: bv32, bits: seq<bool>): bv32
    decreases |bits|
  {
    if |bits| == 0 then c else Register(Feed(c, bits[0]), bits[1..])
  }

  lemma {:induction false} RegisterConcat(c: bv32, s: seq<bool>, t: seq<bool>)
    ensures Register(c, s + t) == Register(Register(c, s), t)
    decreases |s|
  {
    if |s| == 0 {
      assert s + t == t;
    } else {
      assert (s + t)[1..] == s[1..] + t;
      RegisterConcat(Feed(c, s[0]), s[1..], t);
    }
  }

  lemma {:induction false} RegisterDivides(c: bv32, bits: seq<bool>)
    ensures Poly(Register(c, bits)) == Remainder(AddFront(bits + Repeated(false, 32), Poly(c)))
    decreases |bits|
  {
    var zeros := Repeated(false, 32);
    if |bits| == 0 {
      assert AddFront(bits + zeros, Poly(c)) == Poly(c);
    } else {
      FeedDivides(c, bits + zeros);
      assert (bits + zeros)[1..] == bits[1..] + zeros;
      RegisterDivides(Feed(c, bits[0]), bits[1..]);
    }
  }

  /** Bits above the lowest pass through a step unchanged. */
  lemma StepOfSum(c: bv32, b: bv32)
    ensures Step(Sum(c, b)) == Sum(Feed(c, Low(b)), Half(b))
  {
    hide Low, Half, Sum, Step, Feed;
    StepIs(Sum(c, b));
    LowOfSum(c, b);
    HalfOfSum(c, b);
    FeedIs(c, Low(b));
    SwapSum(Half(c), Half(b), POLYNOMIAL);
  }

  function Shifted(b: bv32, n: nat): bv32
    decreases n
  {
    if n == 0 then b else Shifted(Half(b), n - 1)
  }

  /** Adding a byte at once and stepping n times is feeding its lowest n bits one by one. */
  lemma {:induction false} StepsFeed(c: bv32, b: bv32, n: nat)
    ensures Steps(Sum(c, b), n) == Sum(Register(c, Bits(b, n)), Shifted(b, n))
    decreases n
  {
    hide Low, Half, Sum, Step, Feed;
    if n > 0 {
      StepOfSum(c, b);
      StepsFeed(Feed(c, Low(b)), Half(b), n - 1);
      assert Bits(b, n)[1..] == Bits(Half(b), n - 1);
    }
  }

  lemma ByteShiftedOut(b: byte)
    ensures Shifted(b as bv32, 8) == 0
  {
    var c := b as bv32;
    ByteGone(b);
    hide Half;
    assert Shifted(c, 8) == Shifted(Half(Half(Half(Half(c)))), 4);
  }

  lemma ByteGone(b: byte)
    ensures var c := b as bv32; Half(Half(Half(Half(Half(Half(Half(Half(c)))))))) == 0
  {
  }

  lemma UpdateFeeds(c: bv32, b: byte)
    ensures Update(c, b) == Register(c, Bits(b as bv32, 8))
  {
    UpdateIs(c, b);
    hide Update, Sum, Steps, Register, Bits, Shifted;
    StepsFeed(c, b as bv32, 8);
    ByteShiftedOut(b);
    AddZero(Register(c, Bits(b as bv32, 8)));
  }

  lemma UpdateIs(c: bv32, b: byte)
    ensures Update(c, b) == Steps(Sum(c, b as bv32), 8)
  {
  }

  lemma {:induction false} FoldFeeds(c: bv32, data: seq<byte>)
    ensures Fold(c, data) == Register(c, MessageBits(data))
    decreases data
  {
    hide Update, Feed;
    if data != [] {
      UpdateFeeds(c, data[0]);
      RegisterConcat(c, Bits(data[0] as bv32, 8), MessageBits(data[1..]));
      FoldFeeds(Update(c, data[0]), data[1..]);
    }
  }

  lemma AllOnesBits(i: nat)
    requires i < 32
    ensures Bit(ALL_ONES, i)
  {
    if i < 8 {
      assert Bit(0xFFFFFFFF, 0) && Bit(0xFFFFFFFF, 1) && Bit(0xFFFFFFFF, 2) && Bit(0xFFFFFFFF, 3);
      assert Bit(0xFFFFFFFF, 4) && Bit(0xFFFFFFFF, 5) && Bit(0xFFFFFFFF, 6) && Bit(0xFFFFFFFF, 7);
    } else if i < 16 {
      EightBits(0xFFFFFFFF, i - 8);
      assert Bit(0xFFFFFF, 0) && Bit(0xFFFFFF, 1) && Bit(0xFFFFFF, 2) && Bit(0xFFFFFF, 3);
      assert Bit(0xFFFFFF, 4) && Bit(0xFFFFFF, 5) && Bit(0xFFFFFF, 6) && Bit(0xFFFFFF, 7);
    } else if i < 24 {
      EightBits(0xFFFFFFFF, i - 8);
      EightBits(0xFFFFFF, i - 16);
      assert Bit(0xFFFF, 0) && Bit(0xFFFF, 1) && Bit(0xFFFF, 2) && Bit(0xFFFF, 3);
      assert Bit(0xFFFF, 4) && Bit(0xFFFF, 5) && Bit(0xFFFF, 6) && Bit(0xFFFF, 7);
    } else {
      EightBits(0xFFFFFFFF, i - 8);
      EightBits(0xFFFFFF, i - 16);
      EightBits(0xFFFF, i - 24);
      assert Bit(0xFF, 0) && Bit(0xFF, 1) && Bit(0xFF, 2) && Bit(0xFF, 3);
      assert Bit(0xFF, 4) && Bit(0xFF, 5) && Bit(0xFF, 6) && Bit(0xFF, 7);
    }
  }

  lemma CrcIs(data: seq<byte>)
    ensures Crc(data) == Sum(Fold(ALL_ONES, data), ALL_ONES)
  {
  }

  /** Crc is the complement of the remainder of the message, its first 32 bits inverted and followed by
      32 zeros, divided by the generator. */
  lemma CrcIsRemainder(data: seq<byte>)
    ensures var m := MessageBits(data) + Repeated(false, 32);
            Poly(Crc(data)) == AddFront(Remainder(AddFront(m, Repeated(true, 32))), Repeated(true, 32))
  {
    var m, r := MessageBits(data) + Repeated(false, 32), Fold(ALL_ONES, data);
    CrcIs(data);
    hide Crc, Fold, Sum, Bit, Register, Remainder, MessageBits;
    FoldFeeds(ALL_ONES, data);
    RegisterDivides(ALL_ONES, MessageBits(data));
    forall i | 0 <= i < 32
      ensures Poly(ALL_ONES)[i]
      ensures Poly(Crc(data))[i] == !Poly(r)[i]
    {
      AllOnesBits(i);
      BitOfSum(r, ALL_ONES, i);
    }
    assert Poly(ALL_ONES) == Repeated(true, 32);
  }

  // ---------- The check value ----------

  lemma EightSteps(c: bv32)
    ensures Steps(c, 8) == Step(Step(Step(Step(Step(Step(Step(Step(c))))))))
  {
    hide Step;
    assert Steps(c, 8) == Steps(Step(c), 7) == Steps(Step(Step(c)), 6) == Steps(Step(Step(Step(c))), 5);
    var d := Step(Step(Step(c)));
    assert Steps(d, 5) == Steps(Step(d), 4) == Steps(Step(Step(d)), 3) == Steps(Step(Step(Step(d))), 2);
    var e := Step(Step(Step(d)));
    assert Steps(e, 2) == Steps(Step(e), 1) == Steps(Step(Step(e)), 0);
  }

  lemma Digit1()
    ensures Update(0xFFFFFFFF, 0x31) == 0x7C231048
  {
    EightSteps(0xFFFFFFCE);
    assert 0xFFFFFFFF ^ (0x31 as bv8 as bv32) == 0xFFFFFFCE;
    hide Steps;
    assert Step(0xFFFFFFCE) == 0x7FFFFFE7 && Step(0x7FFFFFE7) == 0xD2477CD3
           && Step(0xD2477CD3) == 0x849B3D49 && Step(0x849B3D49) == 0xAFF51D84
           && Step(0xAFF51D84) == 0x57FA8EC2 && Step(0x57FA8EC2) == 0x2BFD4761
           && Step(0x2BFD4761) == 0xF8462090 && Step(0xF8462090) == 0x7C231048;
  }

  lemma Digit2()
    ensures Update(0x7C231048, 0x32) == 0xB0ACBB32
  {
    EightSteps(0x7C23107A);
    assert 0x7C231048 ^ (0x32 as bv8 as bv32) == 0x7C23107A;
    hide Steps;
    assert Step(0x7C23107A) == 0x3E11883D && Step(0x3E11883D) == 0xF2B0473E
           && Step(0xF2B0473E) == 0x7958239F && Step(0x7958239F) == 0xD11492EF
           && Step(0xD11492EF) == 0x8532CA57 && Step(0x8532CA57) == 0xAF21E60B
           && Step(0xAF21E60B) == 0xBA287025 && Step(0xBA287025) == 0xB0ACBB32;
  }

  lemma Digit3()
    ensures Update(0xB0ACBB32, 0x33) == 0x77B79C2D
  {
    EightSteps(0xB0ACBB01);
    assert 0xB0ACBB32 ^ (0x33 as bv8 as bv32) == 0xB0ACBB01;
    hide Steps;
    assert Step(0xB0ACBB01) == 0xB5EEDEA0 && Step(0xB5EEDEA0) == 0x5AF76F50
           && Step(0x5AF76F50) == 0x2D7BB7A8 && Step(0x2D7BB7A8) == 0x16BDDBD4
           && Step(0x16BDDBD4) == 0x0B5EEDEA && Step(0x0B5EEDEA) == 0x05AF76F5
           && Step(0x05AF76F5) == 0xEF6F385A && Step(0xEF6F385A) == 0x77B79C2D;
  }

  lemma Digit4()
    ensures Update(0x77B79C2D, 0x34) == 0x641C1F5C
  {
    EightSteps(0x77B79C19);
    assert 0x77B79C2D ^ (0x34 as bv8 as bv32) == 0x77B79C19;
    hide Steps;
    assert Step(0x77B79C19) == 0xD6634D2C && Step(0xD6634D2C) == 0x6B31A696
           && Step(0x6B31A696) == 0x3598D34B && Step(0x3598D34B) == 0xF774EA85
           && Step(0xF774EA85) == 0x9602F662 && Step(0x9602F662) == 0x4B017B31
           && Step(0x4B017B31) == 0xC8383EB8 && Step(0xC8383EB8) == 0x641C1F5C;
  }

  lemma Digit5()
    ensures Update(0x641C1F5C, 0x35) == 0x340AC5E3
  {
    EightSteps(0x641C1F69);
    assert 0x641C1F5C ^ (0x35 as bv8 as bv32) == 0x641C1F69;
    hide Steps;
    assert Step(0x641C1F69) == 0xDFB68C94 && Step(0xDFB68C94) == 0x6FDB464A
           && Step(0x6FDB464A) == 0x37EDA325 && Step(0x37EDA325) == 0xF64E52B2
           && Step(0xF64E52B2) == 0x7B272959 && Step(0x7B272959) == 0xD02B178C
           && Step(0xD02B178C) == 0x68158BC6 && Step(0x68158BC6) == 0x340AC5E3;
  }

  lemma Digit6()
    ensures Update(0x340AC5E3, 0x36) == 0xF68D2C9E
  {
    EightSteps(0x340AC5D5);
    assert 0x340AC5E3 ^ (0x36 as bv8 as bv32) == 0x340AC5D5;
    hide Steps;
    assert Step(0x340AC5D5) == 0xF7BDE1CA && Step(0xF7BDE1CA) == 0x7BDEF0E5
           && Step(0x7BDEF0E5) == 0xD057FB52 && Step(0xD057FB52) == 0x682BFDA9
           && Step(0x682BFDA9) == 0xD9AD7DF4 && Step(0xD9AD7DF4) == 0x6CD6BEFA
           && Step(0x6CD6BEFA) == 0x366B5F7D && Step(0x366B5F7D) == 0xF68D2C9E;
  }

  lemma Digit7()
    ensures Update(0xF68D2C9E, 0x37) == 0xAFFC9660
  {
    EightSteps(0xF68D2CA9);
    assert 0xF68D2C9E ^ (0x37 as bv8 as bv32) == 0xF68D2CA9;
    hide Steps;
    assert Step(0xF68D2CA9) == 0x96FE1574 && Step(0x96FE1574) == 0x4B7F0ABA
           && Step(0x4B7F0ABA) == 0x25BF855D && Step(0x25BF855D) == 0xFF67418E
           && Step(0xFF67418E) == 0x7FB3A0C7 && Step(0x7FB3A0C7) == 0xD2615343
           && Step(0xD2615343) == 0x84882A81 && Step(0x84882A81) == 0xAFFC9660;
  }

  lemma Digit8()
    ensures Update(0xAFFC9660, 0x38) == 0x651F2550
  {
    EightSteps(0xAFFC9658);
    assert 0xAFFC9660 ^ (0x38 as bv8 as bv32) == 0xAFFC9658;
    hide Steps;
    assert Step(0xAFFC9658) == 0x57FE4B2C && Step(0x57FE4B2C) == 0x2BFF2596
           && Step(0x2BFF2596) == 0x15FF92CB && Step(0x15FF92CB) == 0xE7474A45
           && Step(0xE7474A45) == 0x9E1B2602 && Step(0x9E1B2602) == 0x4F0D9301
           && Step(0x4F0D9301) == 0xCA3E4AA0 && Step(0xCA3E4AA0) == 0x651F2550;
  }

  lemma Digit9()
    ensures Update(0x651F2550, 0x39) == 0x340BC6D9
  {
    EightSteps(0x651F2569);
    assert 0x651F2550 ^ (0x39 as bv8 as bv32) == 0x651F2569;
    hide Steps;
    assert Step(0x651F2569) == 0xDF371194 && Step(0xDF371194) == 0x6F9B88CA
           && Step(0x6F9B88CA) == 0x37CDC465 && Step(0x37CDC465) == 0xF65E6112
           && Step(0xF65E6112) == 0x7B2F3089 && Step(0x7B2F3089) == 0xD02F1B64
           && Step(0xD02F1B64) == 0x68178DB2 && Step(0x68178DB2) == 0x340BC6D9;
  }

  lemma FoldThree(c: bv32, data: seq<byte>)
    requires |data| >= 3
    ensures Fold(c, data) == Fold(Update(Update(Update(c, data[0]), data[1]), data[2]), data[3..])
  {
    hide Update;
    assert data[1..][1..][1..] == data[3..];
    assert Fold(c, data) == Fold(Update(c, data[0]), data[1..]);
    assert Fold(Update(c, data[0]), data[1..]) == Fold(Update(Update(c, data[0]), data[1]), data[1..][1..]);
  }

  /** The check value of CRC-32: its value on the digits 1 to 9. */
  lemma CheckValue()
    ensures Crc([0x31, 0x32, 0x33, 0x34, 0x35, 0x36, 0x37, 0x38, 0x39]) == 0xCBF4_3926
  {
    hide Update, Fold;
    var data: seq<byte> := [0x31, 0x32, 0x33, 0x34, 0x35, 0x36, 0x37, 0x38, 0x39];
    FoldThree(0xFFFFFFFF, data);
    FoldThree(0x77B79C2D, data[3..]);
    FoldThree(0xF68D2C9E, data[6..]);
    Digit1();
    Digit2();
    Digit3();
    Digit4();
    Digit5();
    Digit6();
    Digit7();
    Digit8();
    Digit9();
    FoldNothing(0x340BC6D9);
    assert data[3..][3..] == data[6..] && data[6..][3..] == [];
    assert (0x340BC6D9 as bv32) ^ ALL_ONES == 0xCBF43926;
  }

  lemma FoldNothing(c: bv32)
    ensures Fold(c, []) == c
  {
  }

  lemma AckByte0()
    ensures Update(0xFFFFFFFF, 0x87) == 0x5E2106F1
  {
    EightSteps(0xFFFFFF78);
    assert 0xFFFFFFFF ^ (0x87 as bv8 as bv32) == 0xFFFFFF78;
    hide Steps;
    assert Step(0xFFFFFF78) == 0x7FFFFFBC && Step(0x7FFFFFBC) == 0x3FFFFFDE
           && Step(0x3FFFFFDE) == 0x1FFFFFEF && Step(0x1FFFFFEF) == 0xE2477CD7
           && Step(0xE2477CD7) == 0x9C9B3D4B && Step(0x9C9B3D4B) == 0xA3F51D85
           && Step(0xA3F51D85) == 0xBC420DE2 && Step(0xBC420DE2) == 0x5E2106F1;
  }

  lemma AckByte1()
    ensures Update(0x5E2106F1, 0x01) == 0xBDE3D31A
  {
    EightSteps(0x5E2106F0);
    assert 0x5E2106F1 ^ (0x01 as bv8 as bv32) == 0x5E2106F0;
    hide Steps;
    assert Step(0x5E2106F0) == 0x2F108378 && Step(0x2F108378) == 0x178841BC
           && Step(0x178841BC) == 0x0BC420DE && Step(0x0BC420DE) == 0x05E2106F
           && Step(0x05E2106F) == 0xEF498B17 && Step(0xEF498B17) == 0x9A1C46AB
           && Step(0x9A1C46AB) == 0xA0B6A075 && Step(0xA0B6A075) == 0xBDE3D31A;
  }

  lemma AckByte2()
    ensures Update(0xBDE3D31A, 0x64) == 0xB700BFE8
  {
    EightSteps(0xBDE3D37E);
    assert 0xBDE3D31A ^ (0x64 as bv8 as bv32) == 0xBDE3D37E;
    hide Steps;
    assert Step(0xBDE3D37E) == 0x5EF1E9BF && Step(0x5EF1E9BF) == 0xC2C077FF
           && Step(0xC2C077FF) == 0x8CD8B8DF && Step(0x8CD8B8DF) == 0xABD4DF4F
           && Step(0xABD4DF4F) == 0xB852EC87 && Step(0xB852EC87) == 0xB191F563
           && Step(0xB191F563) == 0xB5707991 && Step(0xB5707991) == 0xB700BFE8;
  }

  lemma AckByte3()
    ensures Update(0xB700BFE8, 0x00) == 0xAE666AF5
  {
    EightSteps(0xB700BFE8);
    assert 0xB700BFE8 ^ (0x00 as bv8 as bv32) == 0xB700BFE8;
    hide Steps;
    assert Step(0xB700BFE8) == 0x5B805FF4 && Step(0x5B805FF4) == 0x2DC02FFA
           && Step(0x2DC02FFA) == 0x16E017FD && Step(0x16E017FD) == 0xE6C888DE
           && Step(0xE6C888DE) == 0x7364446F && Step(0x7364446F) == 0xD40AA117
           && Step(0xD40AA117) == 0x87BDD3AB && Step(0x87BDD3AB) == 0xAE666AF5;
  }

  lemma AckByte4()
    ensures Update(0xAE666AF5, 0x00) == 0xCD7960F9
  {
    EightSteps(0xAE666AF5);
    assert 0xAE666AF5 ^ (0x00 as bv8 as bv32) == 0xAE666AF5;
    hide Steps;
    assert Step(0xAE666AF5) == 0xBA8BB65A && Step(0xBA8BB65A) == 0x5D45DB2D
           && Step(0x5D45DB2D) == 0xC31A6EB6 && Step(0xC31A6EB6) == 0x618D375B
           && Step(0x618D375B) == 0xDD7E188D && Step(0xDD7E188D) == 0x83078F66
           && Step(0x83078F66) == 0x4183C7B3 && Step(0x4183C7B3) == 0xCD7960F9;
  }

  lemma AckByte5()
    ensures Update(0xCD7960F9, 0x00) == 0xC4AC33D8
  {
    EightSteps(0xCD7960F9);
    assert 0xCD7960F9 ^ (0x00 as bv8 as bv32) == 0xCD7960F9;
    hide Steps;
    assert Step(0xCD7960F9) == 0x8B04335C && Step(0x8B04335C) == 0x458219AE
           && Step(0x458219AE) == 0x22C10CD7 && Step(0x22C10CD7) == 0xFCD8054B
           && Step(0xFCD8054B) == 0x93D48185 && Step(0x93D48185) == 0xA452C3E2
           && Step(0xA452C3E2) == 0x522961F1 && Step(0x522961F1) == 0xC4AC33D8;
  }

  /** The CRC of the header that acknowledges packet 0. */
  lemma FirstAckCrc()
    ensures Crc([0x87, 0x01, 0x64, 0x00, 0x00, 0x00]) == 0x3B53CC27
  {
    hide Update, Fold;
    var data: seq<byte> := [0x87, 0x01, 0x64, 0x00, 0x00, 0x00];
    FoldThree(0xFFFFFFFF, data);
    FoldThree(0xB700BFE8, data[3..]);
    AckByte0();
    AckByte1();
    AckByte2();
    AckByte3();
    AckByte4();
    AckByte5();
    FoldNothing(0xC4AC33D8);
    assert data[3..][3..] == [];
    assert (0xC4AC33D8 as bv32) ^ ALL_ONES == 0x3B53CC27;
  }
}
