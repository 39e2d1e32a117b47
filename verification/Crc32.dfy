/** CRC-32 as zlib's crc32 computes it (section 8 of RFC 1952), the check that
    src/packet.c puts behind every header and every payload. */
module Crc32 {
  import opened Bytes

  /** The reflected generator polynomial; its top bit is what makes a step injective. */
  const POLYNOMIAL: bv32 := 0xEDB88320

  const ALL_ONES: bv32 := 0xFFFF_FFFF

  /** One bit step of the shift register. */
  function Step(c: bv32): bv32 {
    if c & 1 == 1 then (c >> 1) ^ POLYNOMIAL else c >> 1
  }

  function Steps(c: bv32, n: nat): bv32
    decreases n, c
  {
    if n == 0 then c else Steps(Step(c), n - 1)
  }

  /** One byte: eight bit steps. */
  function Update(c: bv32, b: byte): bv32 {
    Steps(c ^ (b as bv32), 8)
  }

  function Fold(c: bv32, data: seq<byte>): bv32
    decreases data
  {
    if |data| == 0 then c else Fold(Update(c, data[0]), data[1..])
  }

  function Crc(data: seq<byte>): bv32 {
    Fold(ALL_ONES, data) ^ ALL_ONES
  }

  // ---------- Every step is injective ----------

  lemma StepInjective(x: bv32, y: bv32)
    requires Step(x) == Step(y)
    ensures x == y
  {
  }

  lemma {:induction false} StepsInjective(x: bv32, y: bv32, n: nat)
    requires Steps(x, n) == Steps(y, n)
    ensures x == y
    decreases n
  {
    if n != 0 {
      StepsInjective(Step(x), Step(y), n - 1);
      StepInjective(x, y);
    }
  }

  lemma MixInjective(c: bv32, d: bv32, a: byte, b: byte)
    requires c ^ (a as bv32) == d ^ (b as bv32)
    ensures a == b ==> c == d
    ensures c == d ==> a == b
  {
  }

  /** The register and the incoming byte each determine the other, given the result. */
  lemma UpdateInjective(c: bv32, d: bv32, a: byte, b: byte)
    requires Update(c, a) == Update(d, b)
    ensures a == b ==> c == d
    ensures c == d ==> a == b
  {
    var x, y := c ^ (a as bv32), d ^ (b as bv32);
    StepsInjective(x, y, 8);
    MixInjective(c, d, a, b);
  }

  lemma {:induction false} FoldInjective(c: bv32, d: bv32, data: seq<byte>)
    requires Fold(c, data) == Fold(d, data)
    ensures c == d
    decreases data
  {
    if |data| != 0 {
      FoldInjective(Update(c, data[0]), Update(d, data[0]), data[1..]);
      UpdateInjective(c, d, data[0], data[0]);
    }
  }

  lemma {:induction false} FoldOneByte(c: bv32, data: seq<byte>, i: nat, b: byte)
    requires i < |data| && b != data[i]
    ensures Fold(c, data[i := b]) != Fold(c, data)
    decreases data
  {
    var other := data[i := b];
    if i == 0 {
      assert other[1..] == data[1..];
      if Fold(c, other) == Fold(c, data) {
        FoldInjective(Update(c, b), Update(c, data[0]), data[1..]);
        UpdateInjective(c, c, b, data[0]);
      }
    } else {
      assert other[1..] == data[1..][i - 1 := b];
      FoldOneByte(Update(c, data[0]), data[1..], i - 1, b);
    }
  }

  /** Changing any one byte of any message always changes its CRC. */
  lemma OneByteChangesCrc(data: seq<byte>, i: nat, b: byte)
    requires i < |data| && b != data[i]
    ensures Crc(data[i := b]) != Crc(data)
  {
    FoldOneByte(ALL_ONES, data, i, b);
  }
}
