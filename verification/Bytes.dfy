/** Bytes as 8-bit vectors, and their values as integers. */
module Bytes {

  type byte = bv8

  function ToInt(b: byte): int {
    b as int
  }

  lemma ToIntRange(b: byte)
    ensures 0 <= ToInt(b) < 256
  {
  }

  function ToByte(n: int): byte
    requires 0 <= n < 256
  {
    n as byte
  }

  lemma ConversionInverse(n: int)
    requires 0 <= n < 256
    ensures (n as bv8) as int == n
  {
    assert 0 <= (n as bv8) as int < 256;
  }

  lemma IntInverse(n: int)
    requires 0 <= n < 256
    ensures ToInt(ToByte(n)) == n
  {
    ConversionInverse(n);
    hide *;
  }

  lemma ByteInverse(b: byte)
    ensures ToByte(ToInt(b)) == b
  {
  }

  /** Adding one to a byte wraps around at 256. */
  lemma Successor(b: byte)
    ensures ToInt(b + 1) == (ToInt(b) + 1) % 256
  {
  }

  lemma ResidueOfSuccessor(n: nat)
    ensures (n % 256 + 1) % 256 == (n + 1) % 256
  {
  }

  lemma SuccessorIs(b: byte, c: byte, m: int)
    requires c == b + 1 && m == (ToInt(b) + 1) % 256
    ensures c == ToByte(m)
  {
    Successor(b);
    ByteInverse(c);
    hide ToInt, ToByte;
  }

  lemma SuccessorOfResidue(n: nat)
    ensures ToByte(n % 256) + 1 == ToByte((n + 1) % 256)
  {
    IntInverse(n % 256);
    ResidueOfSuccessor(n);
    SuccessorIs(ToByte(n % 256), ToByte(n % 256) + 1, (n + 1) % 256);
    hide ToInt, ToByte;
  }
}
