/** Fixed-width little-endian integers. */
module LittleEndian {
  import opened Bytes

  function Pow256(width: nat): (p: nat)
    ensures p > 0
  {
    if width == 0 then 1 else 256 * Pow256(width - 1)
  }

  function LowByte(n: nat): byte { (n % 256) as byte }

  function Ordinal(b: byte): nat { b as nat }

  function ToBytes(n: nat, width: nat): (b: bytes)
    ensures |b| == width
  {
    if width == 0 then [] else [LowByte(n)] + ToBytes(n / 256, width - 1)
  }

  function FromBytes(b: bytes): nat {
    if b == [] then 0 else Ordinal(b[0]) + 256 * FromBytes(b[1..])
  }

  lemma OrdinalBound(b: byte)
    ensures Ordinal(b) < 256
  {
  }

  lemma OrdinalOfLow(n: nat)
    ensures Ordinal(LowByte(n)) == n % 256
  {
    ByteReturns(n % 256);
  }

  lemma OrdinalStep(b: byte)
    requires b < 255
    ensures Ordinal(b + 1) == Ordinal(b) + 1
  {
  }

  lemma {:induction false} ByteOf(m: nat) returns (b: byte)
    requires m < 256
    ensures Ordinal(b) == m
  {
    if m == 0 {
      b := 0;
    } else {
      var c := ByteOf(m - 1);
      assert c < 255;
      b := c + 1;
      OrdinalStep(c);
    }
  }

  lemma ByteReturns(m: nat)
    requires m < 256
    ensures Ordinal(m as byte) == m
  {
    var b := ByteOf(m);
    assert Ordinal(b) as byte == b;
  }

  lemma LowOfOrdinal(b: byte, m: nat)
    ensures LowByte(Ordinal(b) + 256 * m) == b
  {
    var n := b as nat;
    assert (n + 256 * m) % 256 == n;
  }

  lemma {:induction false} Bounded(b: bytes)
    ensures FromBytes(b) < Pow256(|b|)
  {
    hide Ordinal;
    if b != [] {
      OrdinalBound(b[0]);
      Bounded(b[1..]);
    }
  }

  lemma {:induction false} FromTo(n: nat, width: nat)
    requires n < Pow256(width)
    ensures FromBytes(ToBytes(n, width)) == n
  {
    hide Ordinal, LowByte;
    if width > 0 {
      FromTo(n / 256, width - 1);
      OrdinalOfLow(n);
      assert ToBytes(n, width)[1..] == ToBytes(n / 256, width - 1);
    }
  }

  lemma {:induction false} ToFrom(b: bytes)
    ensures ToBytes(FromBytes(b), |b|) == b
  {
    hide Ordinal, LowByte;
    if b != [] {
      var m := FromBytes(b[1..]);
      ToFrom(b[1..]);
      OrdinalBound(b[0]);
      LowOfOrdinal(b[0], m);
      assert (Ordinal(b[0]) + 256 * m) / 256 == m;
      assert b == [b[0]] + b[1..];
    }
  }

  lemma Widths()
    ensures Pow256(1) == 0x100 && Pow256(4) == 0x1_0000_0000 && Pow256(8) == 0x1_0000_0000_0000_0000
  {
    assert Pow256(1) == 256 * Pow256(0);
    assert Pow256(2) == 256 * Pow256(1);
    assert Pow256(3) == 256 * Pow256(2);
    assert Pow256(4) == 256 * Pow256(3);
    assert Pow256(5) == 256 * Pow256(4);
    assert Pow256(6) == 256 * Pow256(5);
    assert Pow256(7) == 256 * Pow256(6);
    assert Pow256(8) == 256 * Pow256(7);
  }
}
