/** CRC-32C (section 12.1 of RFC 3720): the table-driven loop against bit-at-a-time division. */
module Crc32c {
  import opened Bytes

  /** The Castagnoli polynomial, bit-reflected. */
  const POLYNOMIAL: bv32 := 0x82F63B78

  function Xor(a: bv32, b: bv32): bv32 { a ^ b }

  function Half(c: bv32): bv32 { c >> 1 }

  function Low(c: bv32): bv32 { c & 1 }

  function Not(c: bv32): bv32 { !c }

  function Up(c: bv32): bv32 { c << 8 }

  function Widen(b: byte): bv32 { b as bv32 }

  // ----- Reference: division of the message polynomial, one bit at a time -----

  /** Multiplies the remainder by x and reduces it. */
  function Shift(c: bv32): bv32 {
    if c & 1 != 0 then (c >> 1) ^ POLYNOMIAL else c >> 1
  }

  function ShiftBy(c: bv32, n: nat): bv32
    decreases n
  {
    if n == 0 then c else ShiftBy(Shift(c), n - 1)
  }

  /** Divides in `n` message bits, least significant first: the order in which the reflected form takes them. */
  function DivideBits(c: bv32, bits: bv32, n: nat): bv32
    decreases n
  {
    if n == 0 then c else DivideBits(Shift(Xor(c, Low(bits))), Half(bits), n - 1)
  }

  function Feed(c: bv32, b: byte): bv32 {
    DivideBits(c, Widen(b), 8)
  }

  function Divide(c: bv32, data: bytes): bv32
    decreases |data|
  {
    if data == [] then c else Divide(Feed(c, data[0]), data[1..])
  }

  function Checksum(data: bytes, seed: bv32): bv32 {
    Not(Divide(Not(seed), data))
  }

  // ----- Algebra of the remainder -----

  lemma XorParts(x: bv32, y: bv32, p: bv32)
    ensures (x ^ y) >> 1 == (x >> 1) ^ (y >> 1)
    ensures (x ^ y) & 1 == (x & 1) ^ (y & 1)
    ensures ((x >> 1) ^ p) ^ (y >> 1) == ((x >> 1) ^ (y >> 1)) ^ p
    ensures x & 1 == 0 || x & 1 == 1
  {
  }

  lemma ShiftPassesEven0(x: bv32, z: bv32)
    requires x & 1 == 0 && z & 1 == 0
    ensures Shift(x ^ z) == Shift(x) ^ (z >> 1)
  {
    XorParts(x, z, POLYNOMIAL);
  }

  lemma ShiftPassesEven1(x: bv32, z: bv32)
    requires x & 1 == 1 && z & 1 == 0
    ensures Shift(x ^ z) == Shift(x) ^ (z >> 1)
  {
    XorParts(x, z, POLYNOMIAL);
  }

  /** Bits above the lowest one take no part in a reduction: they only move down. */
  lemma ShiftPasses(x: bv32, z: bv32)
    requires Low(z) == 0
    ensures Shift(Xor(x, z)) == Xor(Shift(x), Half(z))
  {
    XorParts(x, z, POLYNOMIAL);
    if x & 1 == 0 {
      ShiftPassesEven0(x, z);
    } else {
      ShiftPassesEven1(x, z);
    }
  }

  lemma ClearLow(c: bv32, bits: bv32)
    ensures Low(bits & 0xFFFF_FFFE) == 0 && Half(bits & 0xFFFF_FFFE) == Half(bits)
    ensures Xor(Xor(c, Low(bits)), bits & 0xFFFF_FFFE) == Xor(c, bits)
  {
    SplitLow(bits);
    XorAssociates(c, Low(bits), bits & 0xFFFF_FFFE);
    hide Xor, Low, Half;
  }

  lemma SplitLow(bits: bv32)
    ensures Xor(Low(bits), bits & 0xFFFF_FFFE) == bits
    ensures Low(bits & 0xFFFF_FFFE) == 0 && Half(bits & 0xFFFF_FFFE) == Half(bits)
  {
  }

  lemma XorAssociates(a: bv32, b: bv32, c: bv32)
    ensures Xor(Xor(a, b), c) == Xor(a, Xor(b, c))
  {
  }

  /** Feeding bits one by one leaves the same remainder as adding them all first. */
  lemma {:induction false} DivideBitsIsShift(c: bv32, bits: bv32, n: nat)
    ensures ShiftBy(Xor(c, bits), n) == Xor(DivideBits(c, bits, n), Down(bits, n))
    decreases n
  {
    hide Shift, Xor, Half, Low;
    if n > 0 {
      ClearLow(c, bits);
      ShiftPasses(Xor(c, Low(bits)), bits & 0xFFFF_FFFE);
      DivideBitsIsShift(Shift(Xor(c, Low(bits))), Half(bits), n - 1);
    }
  }

  function Down(z: bv32, n: nat): bv32
    decreases n
  {
    if n == 0 then z else Down(Half(z), n - 1)
  }

  lemma HalvesOfByte(z: bv32)
    ensures Half(z) == z >> 1 && Half(z >> 1) == z >> 2 && Half(z >> 2) == z >> 3 && Half(z >> 3) == z >> 4
    ensures Half(z >> 4) == z >> 5 && Half(z >> 5) == z >> 6 && Half(z >> 6) == z >> 7 && Half(z >> 7) == z >> 8
  {
  }

  lemma DownByte(z: bv32)
    ensures Down(z, 8) == z >> 8
  {
    HalvesOfByte(z);
    hide Half;
    assert Down(z >> 6, 2) == z >> 8;
    assert Down(z >> 4, 4) == z >> 8;
    assert Down(z >> 2, 6) == z >> 8;
  }

  lemma FeedIsShift(c: bv32, b: byte)
    ensures Feed(c, b) == ShiftBy(Xor(c, Widen(b)), 8)
  {
    DivideBitsIsShift(c, Widen(b), 8);
    DownByte(Widen(b));
    WidenedHigh(b, DivideBits(c, Widen(b), 8));
    hide Shift, ShiftBy, DivideBits, Down, Xor, Widen;
  }

  lemma WidenedHigh(b: byte, c: bv32)
    ensures Widen(b) >> 8 == 0 && Xor(c, 0) == c
  {
  }

  /** The bits of a word above its lowest byte pass through eight shifts unchanged. */
  lemma ShiftByteLow(x: bv32, z: bv32)
    requires z & 0xFF == 0
    ensures ShiftBy(Xor(x, z), 8) == Xor(ShiftBy(x, 8), z >> 8)
  {
    LowBitsClear(z);
    HalvesOfByte(z);
    ShiftByPasses(x, z, 8);
    DownByte(z);
  }

  predicate LowClear(z: bv32, n: nat)
    decreases n
  {
    n == 0 || (Low(z) == 0 && LowClear(Half(z), n - 1))
  }

  lemma {:induction false} ShiftByPasses(x: bv32, z: bv32, n: nat)
    requires LowClear(z, n)
    ensures ShiftBy(Xor(x, z), n) == Xor(ShiftBy(x, n), Down(z, n))
    decreases n
  {
    hide Shift, Xor, Half, Low;
    if n > 0 {
      ShiftPasses(x, z);
      ShiftByPasses(Shift(x), Half(z), n - 1);
    }
  }

  lemma LowBitsClear(z: bv32)
    requires z & 0xFF == 0
    ensures LowClear(z, 8)
  {
    assert Low(z) == 0 && Low(z >> 1) == 0 && Low(z >> 2) == 0 && Low(z >> 3) == 0;
    assert Low(z >> 4) == 0 && Low(z >> 5) == 0 && Low(z >> 6) == 0 && Low(z >> 7) == 0;
    HalvesOfByte(z);
    hide Half, Low;
    assert LowClear(z >> 6, 2);
    assert LowClear(z >> 4, 4);
    assert LowClear(z >> 2, 6);
  }

  // ----- Injectivity -----

  /** The polynomial has its top bit set, so the top bit of a shifted remainder tells whether it was reduced. */
  lemma ShiftIsInjective(x: bv32, y: bv32)
    requires Shift(x) == Shift(y)
    ensures x == y
  {
  }

  lemma {:induction false} ShiftByIsInjective(x: bv32, y: bv32, n: nat)
    requires ShiftBy(x, n) == ShiftBy(y, n)
    ensures x == y
    decreases n
  {
    if n > 0 {
      ShiftByIsInjective(Shift(x), Shift(y), n - 1);
      ShiftIsInjective(x, y);
    }
  }

  lemma XorCancels(a: bv32, b: bv32, c: bv32)
    ensures Xor(a, c) == Xor(b, c) ==> a == b
    ensures Xor(c, a) == Xor(c, b) ==> a == b
  {
    assert (a ^ c) ^ c == a && (b ^ c) ^ c == b;
    assert (c ^ a) ^ c == a && (c ^ b) ^ c == b;
  }

  lemma {:induction false} DivideIsInjective(c: bv32, d: bv32, data: bytes)
    requires Divide(c, data) == Divide(d, data)
    ensures c == d
    decreases |data|
  {
    hide Feed, Xor, Widen;
    if data != [] {
      DivideIsInjective(Feed(c, data[0]), Feed(d, data[0]), data[1..]);
      FeedIsShift(c, data[0]);
      FeedIsShift(d, data[0]);
      ShiftByIsInjective(Xor(c, Widen(data[0])), Xor(d, Widen(data[0])), 8);
      XorCancels(c, d, Widen(data[0]));
    }
  }

  lemma {:induction false} DivideConcat(c: bv32, x: bytes, y: bytes)
    ensures Divide(c, x + y) == Divide(Divide(c, x), y)
    decreases |x|
  {
    hide Feed;
    if x == [] {
      assert x + y == y;
    } else {
      assert (x + y)[1..] == x[1..] + y;
      DivideConcat(Feed(c, x[0]), x[1..], y);
    }
  }

  /** Checksums chain over concatenation through the seed. */
  lemma Chains(x: bytes, y: bytes, seed: bv32)
    ensures Checksum(x + y, seed) == Checksum(y, Checksum(x, seed))
  {
    NotIsInvolution(Divide(Not(seed), x));
    hide Not, Feed;
    DivideConcat(Not(seed), x, y);
  }

  lemma NotIsInvolution(c: bv32)
    ensures Not(Not(c)) == c
  {
  }

  // ----- Bursts of at most four bytes -----

  /** The little-endian word of up to four bytes. */
  function Word(data: bytes): bv32
    requires |data| <= 4
    decreases |data|
  {
    if data == [] then 0 else Xor(Widen(data[0]), Up(Word(data[1..])))
  }

  /** The three lowest bytes may be set. */
  predicate Below24(w: bv32) { w & 0xFF00_0000 == 0 }

  predicate Below16(w: bv32) { w & 0xFFFF_0000 == 0 }

  predicate Below8(w: bv32) { w & 0xFFFF_FF00 == 0 }

  lemma Widened(b: byte, w: bv32)
    ensures w == 0 ==> Below8(Xor(Widen(b), Up(w)))
    ensures Below8(w) ==> Below16(Xor(Widen(b), Up(w)))
    ensures Below16(w) ==> Below24(Xor(Widen(b), Up(w)))
    ensures Below8(w) ==> Below16(w)
    ensures Below16(w) ==> Below24(w)
  {
  }

  lemma {:induction false} WordBound(data: bytes)
    requires |data| <= 3
    ensures Below24(Word(data))
    ensures |data| <= 2 ==> Below16(Word(data))
    ensures |data| <= 1 ==> Below8(Word(data))
    ensures |data| == 0 ==> Word(data) == 0
    decreases |data|
  {
    if data == [] {
      assert Below8(0) && Below16(0) && Below24(0);
    } else {
      hide Xor, Up, Below8, Below16, Below24, Widen;
      WordBound(data[1..]);
      Widened(data[0], Word(data[1..]));
      Widened(0, Word(data));
    }
  }

  lemma ShiftedWord(w: bv32)
    requires Below24(w)
    ensures Up(w) & 0xFF == 0 && Up(w) >> 8 == w
  {
  }

  /** Shifting out one byte of a remainder takes the lowest byte added to it and moves the others down. */
  lemma ShiftOutByte(c: bv32, b: byte, w: bv32)
    requires Below24(w)
    ensures ShiftBy(Xor(c, Xor(Widen(b), Up(w))), 8) == Xor(Feed(c, b), w)
  {
    ShiftedWord(w);
    XorAssociates(c, Widen(b), Up(w));
    FeedIsShift(c, b);
    hide Xor, Feed, Below24, Shift, Widen;
    ShiftByteLow(Xor(c, Widen(b)), Up(w));
    hide Up;
  }

  /** Up to four message bytes may be added to the remainder in one word. */
  lemma {:induction false} DivideIsShift(c: bv32, data: bytes)
    requires |data| <= 4
    ensures Divide(c, data) == ShiftBy(Xor(c, Word(data)), 8 * |data|)
    decreases |data|
  {
    if data == [] {
      assert Xor(c, 0) == c;
    } else {
      hide Xor, Feed, Up, Below24, Shift, Widen;
      var b, rest := data[0], data[1..];
      WordBound(rest);
      ShiftOutByte(c, b, Word(rest));
      DivideIsShift(Feed(c, b), rest);
      ShiftByAdds(Xor(c, Word(data)), 8, 8 * |rest|);
    }
  }

  lemma {:induction false} ShiftByAdds(c: bv32, m: nat, n: nat)
    ensures ShiftBy(c, m + n) == ShiftBy(ShiftBy(c, m), n)
    decreases m
  {
    hide Shift;
    if m > 0 {
      ShiftByAdds(Shift(c), m - 1, n);
    }
  }

  function LowByte(w: bv32): bv32 { w & 0xFF }

  function Rest(w: bv32): bv32 { w >> 8 }

  lemma PartsOfWord(b: byte, w: bv32)
    requires Below24(w)
    ensures LowByte(Xor(Widen(b), Up(w))) == Widen(b)
    ensures Rest(Xor(Widen(b), Up(w))) == w
  {
  }

  lemma WidenIsInjective(a: byte, b: byte)
    ensures Widen(a) == Widen(b) ==> a == b
  {
  }

  lemma {:induction false} WordIsInjective(x: bytes, y: bytes)
    requires |x| == |y| <= 4 && Word(x) == Word(y)
    ensures x == y
    decreases |x|
  {
    if x != [] {
      hide Xor, Up, Below24, Widen, LowByte, Rest;
      WordBound(x[1..]);
      WordBound(y[1..]);
      PartsOfWord(x[0], Word(x[1..]));
      PartsOfWord(y[0], Word(y[1..]));
      WidenIsInjective(x[0], y[0]);
      WordIsInjective(x[1..], y[1..]);
      assert x == [x[0]] + x[1..] && y == [y[0]] + y[1..];
    }
  }

  /** Two messages of one length that differ only inside four consecutive bytes leave different remainders. */
  lemma BurstChangesRemainder(c: bv32, x: bytes, y: bytes, p: nat)
    requires |x| == |y| && x != y
    requires forall i {:trigger x[i]} | 0 <= i < |x| && !(p <= i < p + 4) :: x[i] == y[i]
    ensures Divide(c, x) != Divide(c, y)
  {
    hide Feed, Xor, Up, Widen;
    var p1 := if p < |x| then p else |x|;
    var p2 := if p + 4 < |x| then p + 4 else |x|;
    var pre, wx, wy, post := x[..p1], x[p1..p2], y[p1..p2], x[p2..];
    assert y[..p1] == pre && y[p2..] == post;
    assert x == pre + (wx + post) && y == pre + (wy + post);
    DivideConcat(c, pre, wx + post);
    DivideConcat(c, pre, wy + post);
    var d := Divide(c, pre);
    DivideConcat(d, wx, post);
    DivideConcat(d, wy, post);
    if Divide(c, x) == Divide(c, y) {
      DivideIsInjective(Divide(d, wx), Divide(d, wy), post);
      WordsAgree(d, wx, wy);
    }
  }

  lemma WordsAgree(c: bv32, x: bytes, y: bytes)
    requires |x| == |y| <= 4 && Divide(c, x) == Divide(c, y)
    ensures x == y
  {
    hide Feed, Xor, Up, Widen;
    DivideIsShift(c, x);
    DivideIsShift(c, y);
    ShiftByIsInjective(Xor(c, Word(x)), Xor(c, Word(y)), 8 * |x|);
    XorCancels(Word(x), Word(y), c);
    WordIsInjective(x, y);
  }

  /** Every burst error of at most four bytes changes the checksum, whatever the seed. */
  lemma BurstIsDetected(x: bytes, y: bytes, seed: bv32, p: nat)
    requires |x| == |y| && x != y
    requires forall i {:trigger x[i]} | 0 <= i < |x| && !(p <= i < p + 4) :: x[i] == y[i]
    ensures Checksum(x, seed) != Checksum(y, seed)
  {
    BurstChangesRemainder(Not(seed), x, y, p);
    NotIsInvolution(Divide(Not(seed), x));
    NotIsInvolution(Divide(Not(seed), y));
    hide Not, Feed;
  }

  // ----- A message followed by its own checksum -----

  function Narrow(w: bv32): byte { (w & 0xFF) as byte }

  /** The four bytes in which a checksum is stored. */
  function Stored(crc: bv32): (b: bytes)
    ensures |b| == 4
  {
    [Narrow(crc), Narrow(Rest(crc)), Narrow(Rest(Rest(crc))), Narrow(Rest(Rest(Rest(crc))))]
  }

  lemma Reassembled(w: bv32)
    ensures Xor(Widen(Narrow(w)), Up(Rest(w))) == w
  {
    assert w & 0xFF < 256;
    assert ((w & 0xFF) as byte) as bv32 == w & 0xFF;
    assert (w & 0xFF) ^ ((w >> 8) << 8) == w;
  }

  lemma FourRests(w: bv32)
    ensures Rest(Rest(Rest(Rest(w)))) == 0
  {
  }

  lemma WordOfStored(crc: bv32)
    ensures Word(Stored(crc)) == crc
  {
    var c1 := Rest(crc);
    var c2 := Rest(c1);
    var c3 := Rest(c2);
    FourRests(crc);
    Reassembled(crc);
    Reassembled(c1);
    Reassembled(c2);
    Reassembled(c3);
    hide Xor, Up, Rest, Narrow, Widen;
    var b := Stored(crc);
    assert b[1..][1..][1..][1..] == [];
    assert b[1..][1..][1..] == [Narrow(c3)];
    assert b[1..][1..] == [Narrow(c2), Narrow(c3)];
    assert b[1..] == [Narrow(c1), Narrow(c2), Narrow(c3)];
    assert Word(b[1..][1..][1..]) == c3;
    assert Word(b[1..][1..]) == c2;
    assert Word(b[1..]) == c1;
  }

  const RESIDUE: bv32 := ShiftBy(0xFFFF_FFFF, 32)

  lemma XorNot(c: bv32)
    ensures Xor(c, Not(c)) == 0xFFFF_FFFF
  {
  }

  /** A message with four bytes appended divides to the fixed residue exactly when they are its checksum. */
  lemma ResidueIffChecksum(data: bytes, tail: bytes, seed: bv32)
    requires |tail| == 4
    ensures Divide(Not(seed), data + tail) == RESIDUE <==> tail == Stored(Checksum(data, seed))
  {
    hide Feed, Stored, Xor, Up, Not, Shift;
    var c := Divide(Not(seed), data);
    var stored := Stored(Not(c));
    DivideConcat(Not(seed), data, tail);
    DivideIsShift(c, stored);
    WordOfStored(Not(c));
    XorNot(c);
    if Divide(c, tail) == RESIDUE {
      WordsAgree(c, tail, stored);
    }
  }

  // ----- The table loop -----

  const TABLE: seq<bv32> := seq(256, i requires 0 <= i < 256 => ShiftBy(i as bv32, 8))

  /** Builds the remainder of every single byte. */
  method MakeTable() returns (table: seq<bv32>)
    ensures table == TABLE
  {
    table := [];
    for i := 0 to 256
      invariant table == TABLE[..i]
    {
      var crc := i as bv32;
      for bit := 0 to 8
        invariant ShiftBy(crc, 8 - bit) == ShiftBy(i as bv32, 8)
      {
        crc := if crc & 1 != 0 then (crc >> 1) ^ POLYNOMIAL else crc >> 1;
      }
      table := table + [crc];
    }
  }

  function Index(c: bv32, b: byte): (i: nat)
    ensures i < 256
  {
    IndexBound((c ^ (b as bv32)) & 0xFF);
    ((c ^ (b as bv32)) & 0xFF) as nat
  }

  lemma IndexBound(w: bv32)
    requires w < 256
    ensures (w as nat) < 256 && (w as nat) as bv32 == w
  {
  }

  lemma TableStepParts(c: bv32, b: byte)
    ensures Xor((c ^ (b as bv32)) & 0xFF, c & 0xFFFF_FF00) == Xor(c, Widen(b))
    ensures (c & 0xFFFF_FF00) & 0xFF == 0
    ensures (c & 0xFFFF_FF00) >> 8 == c >> 8
  {
  }

  lemma TableEntry(c: bv32, b: byte)
    ensures TABLE[Index(c, b)] == ShiftBy((c ^ (b as bv32)) & 0xFF, 8)
  {
    IndexBound((c ^ (b as bv32)) & 0xFF);
    hide Shift, ShiftBy;
  }

  /** One table lookup divides in one whole byte. */
  lemma TableStep(c: bv32, b: byte)
    ensures Xor(TABLE[Index(c, b)], Rest(c)) == Feed(c, b)
  {
    TableEntry(c, b);
    TableStepParts(c, b);
    FeedIsShift(c, b);
    var i, z := (c ^ (b as bv32)) & 0xFF, c & 0xFFFF_FF00;
    assert z >> 8 == Rest(c);
    hide Feed, ShiftBy, Index, Xor, Rest, Widen;
    ShiftByteLow(i, z);
  }

  /** The checksum as the program computes it: one table lookup a byte. */
  method Compute(data: bytes, seed: bv32) returns (crc: bv32)
    ensures crc == Checksum(data, seed)
  {
    hide Feed, Index, Xor, Rest, Not;
    crc := Not(seed);
    for i := 0 to |data|
      invariant Divide(crc, data[i..]) == Divide(Not(seed), data)
    {
      TableStep(crc, data[i]);
      assert data[i..][1..] == data[i + 1..];
      crc := Xor(TABLE[Index(crc, data[i])], Rest(crc));
    }
    crc := Not(crc);
  }
}
