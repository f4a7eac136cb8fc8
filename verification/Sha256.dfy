/** Streaming SHA-256 against the one-shot definition (sections 4.1.2, 5.1.1 and 6.2.2 of FIPS 180-4). */
module Sha256 {
  import opened Bytes

  const K: seq<bv32> :=
    [0x428A2F98, 0x71374491, 0xB5C0FBCF, 0xE9B5DBA5, 0x3956C25B, 0x59F111F1, 0x923F82A4, 0xAB1C5ED5]
    + [0xD807AA98, 0x12835B01, 0x243185BE, 0x550C7DC3, 0x72BE5D74, 0x80DEB1FE, 0x9BDC06A7, 0xC19BF174]
    + [0xE49B69C1, 0xEFBE4786, 0x0FC19DC6, 0x240CA1CC, 0x2DE92C6F, 0x4A7484AA, 0x5CB0A9DC, 0x76F988DA]
    + [0x983E5152, 0xA831C66D, 0xB00327C8, 0xBF597FC7, 0xC6E00BF3, 0xD5A79147, 0x06CA6351, 0x14292967]
    + [0x27B70A85, 0x2E1B2138, 0x4D2C6DFC, 0x53380D13, 0x650A7354, 0x766A0ABB, 0x81C2C92E, 0x92722C85]
    + [0xA2BFE8A1, 0xA81A664B, 0xC24B8B70, 0xC76C51A3, 0xD192E819, 0xD6990624, 0xF40E3585, 0x106AA070]
    + [0x19A4C116, 0x1E376C08, 0x2748774C, 0x34B0BCB5, 0x391C0CB3, 0x4ED8AA4A, 0x5B9CCA4F, 0x682E6FF3]
    + [0x748F82EE, 0x78A5636F, 0x84C87814, 0x8CC70208, 0x90BEFFFA, 0xA4506CEB, 0xBEF9A3F7, 0xC67178F2]

  // ----- The one-shot definition -----

  function Rotr(x: bv32, n: nat): bv32
    requires 0 < n < 32
  {
    (x >> n) | (x << (32 - n))
  }

  function BigSigma0(x: bv32): bv32 { Rotr(x, 2) ^ Rotr(x, 13) ^ Rotr(x, 22) }

  function BigSigma1(x: bv32): bv32 { Rotr(x, 6) ^ Rotr(x, 11) ^ Rotr(x, 25) }

  function SmallSigma0(x: bv32): bv32 { Rotr(x, 7) ^ Rotr(x, 18) ^ (x >> 3) }

  function SmallSigma1(x: bv32): bv32 { Rotr(x, 17) ^ Rotr(x, 19) ^ (x >> 10) }

  function Ch(x: bv32, y: bv32, z: bv32): bv32 { (x & y) ^ (!x & z) }

  function Maj(x: bv32, y: bv32, z: bv32): bv32 { (x & y) ^ (x & z) ^ (y & z) }

  function Add(x: bv32, y: bv32): bv32 { x + y }

  function BigEndianWord(b0: byte, b1: byte, b2: byte, b3: byte): bv32 {
    ((b0 as bv32) << 24) | ((b1 as bv32) << 16) | ((b2 as bv32) << 8) | (b3 as bv32)
  }

  /** Entry `t` of the message schedule of a block. */
  function Schedule(block: bytes, t: nat): bv32
    requires |block| == 64 && t < 64
  {
    if t < 16 then
      BigEndianWord(block[4 * t], block[4 * t + 1], block[4 * t + 2], block[4 * t + 3])
    else
      Add(Add(Add(SmallSigma1(Schedule(block, t - 2)), Schedule(block, t - 7)), SmallSigma0(Schedule(block, t - 15))),
          Schedule(block, t - 16))
  }

  datatype Words = Words(a: bv32, b: bv32, c: bv32, d: bv32, e: bv32, f: bv32, g: bv32, h: bv32)

  const INITIAL := Words(0x6A09E667, 0xBB67AE85, 0x3C6EF372, 0xA54FF53A, 0x510E527F, 0x9B05688C, 0x1F83D9AB, 0x5BE0CD19)

  function Round(v: Words, k: bv32, w: bv32): Words {
    var t1 := Add(Add(Add(Add(v.h, BigSigma1(v.e)), Ch(v.e, v.f, v.g)), k), w);
    var t2 := Add(BigSigma0(v.a), Maj(v.a, v.b, v.c));
    Words(Add(t1, t2), v.a, v.b, v.c, Add(v.d, t1), v.e, v.f, v.g)
  }

  /** The working variables after the first `t` rounds. */
  function Rounds(v: Words, block: bytes, t: nat): Words
    requires |block| == 64 && t <= 64
  {
    if t == 0 then v else Round(Rounds(v, block, t - 1), K[t - 1], Schedule(block, t - 1))
  }

  function Sum(x: Words, y: Words): Words {
    Words(Add(x.a, y.a), Add(x.b, y.b), Add(x.c, y.c), Add(x.d, y.d),
          Add(x.e, y.e), Add(x.f, y.f), Add(x.g, y.g), Add(x.h, y.h))
  }

  function Compress(h: Words, block: bytes): Words
    requires |block| == 64
  {
    Sum(h, Rounds(h, block, 64))
  }

  function FirstBlock(data: bytes): (block: bytes)
    requires |data| % 64 == 0 && data != []
    ensures |block| == 64 && |data[64..]| % 64 == 0 && |data[64..]| < |data| && block == data[..64]
  {
    data[..64]
  }

  /** Folds the compression function over the 64-byte blocks of `data`. */
  function Fold(h: Words, data: bytes): Words
    requires |data| % 64 == 0
    decreases |data|
  {
    if data == [] then h else Fold(Compress(h, FirstBlock(data)), data[64..])
  }

  const TWO_TO_64: nat := 0x1_0000_0000_0000_0000

  function BigEndian(n: nat, width: nat): (b: bytes)
    ensures |b| == width
    decreases width
  {
    if width == 0 then [] else BigEndian(n / 256, width - 1) + [(n % 256) as byte]
  }

  /** The message, a one bit, the fewest zero bits that leave room for the length, and the length in bits. */
  function Pad(m: bytes): (p: bytes)
    ensures |p| % 64 == 0 && m <= p
  {
    PaddingEnds(|m|, PadZeros(|m|));
    m + [0x80] + Zeros(PadZeros(|m|)) + BigEndian(BitCount(|m|), 8)
  }

  function Zeros(n: nat): (z: bytes)
    ensures |z| == n
  {
    seq(n, _ => 0)
  }

  function WordBytes(w: bv32): bytes {
    [(w >> 24) as byte, ((w >> 16) & 0xFF) as byte, ((w >> 8) & 0xFF) as byte, (w & 0xFF) as byte]
  }

  function AllWordBytes(h: Words): bytes {
    WordBytes(h.a) + WordBytes(h.b) + WordBytes(h.c) + WordBytes(h.d) +
    WordBytes(h.e) + WordBytes(h.f) + WordBytes(h.g) + WordBytes(h.h)
  }

  /** The 32 bytes of the SHA-256 digest of a message. */
  function Digest(m: bytes): bytes {
    AllWordBytes(Fold(INITIAL, Pad(m)))
  }

  lemma DigestLength(m: bytes)
    ensures |Digest(m)| == 32
  {
    hide Fold, Pad;
  }

  lemma {:induction false} FoldAppend(h: Words, data: bytes, block: bytes)
    requires |data| % 64 == 0 && |block| == 64
    ensures Fold(h, data + block) == Compress(Fold(h, data), block)
    decreases |data|
  {
    hide Compress;
    if data == [] {
      assert data + block == block && block[..64] == block && block[64..] == [];
      assert Fold(h, block) == Fold(Compress(h, block), []);
    } else {
      assert (data + block)[..64] == data[..64] && (data + block)[64..] == data[64..] + block;
      FoldAppend(Compress(h, data[..64]), data[64..], block);
    }
  }

  /** Drops the `k` lowest bytes of `n`. */
  function DropBytes(n: nat, k: nat): nat
    decreases k
  {
    if k == 0 then n else DropBytes(n / 256, k - 1)
  }

  lemma {:induction false} BigEndianAt(n: nat, width: nat, i: nat)
    requires i < width
    ensures BigEndian(n, width)[i] == (DropBytes(n, width - 1 - i) % 256) as byte
    decreases width
  {
    if i < width - 1 {
      BigEndianAt(n / 256, width - 1, i);
    }
  }

  /** The length in bits of `n` bytes, in the 64-bit counter that holds it. */
  function BitCount(n: nat): nat { (8 * n) % TWO_TO_64 }

  function AddBits(bits: nat, n: nat): nat { (bits + n * 8) % TWO_TO_64 }

  lemma BitCountAdds(m: nat, n: nat)
    ensures AddBits(BitCount(m), n) == BitCount(m + n)
  {
  }

  lemma ZerosExtend(prefix: bytes, n: nat)
    ensures prefix + Zeros(n) + [0x00] == prefix + Zeros(n + 1)
    ensures prefix + Zeros(0) == prefix
  {
  }

  lemma SliceExtends(prefix: bytes, data: bytes, i: nat, j: nat)
    requires i <= j <= |data|
    ensures prefix + data[..i] + data[i..j] == prefix + data[..j]
  {
  }

  /** The bytes after the last whole block of `n` bytes. */
  function Waiting(n: nat): (w: nat)
    ensures w < 64 && w <= n && (n - w) % 64 == 0
  {
    n % 64
  }

  lemma WaitingAdds(n: nat, k: nat)
    requires Waiting(n) + k <= 64
    ensures Waiting(n + k) == if Waiting(n) + k == 64 then 0 else Waiting(n) + k
  {
  }

  /** The zero bytes between the one bit and the length field. */
  function PadZeros(n: nat): (z: nat)
    ensures z < 64
  {
    (119 - n % 64) % 64
  }

  lemma PaddingEnds(n: nat, z: nat)
    requires z <= PadZeros(n)
    ensures Waiting(n + 1 + z) == 56 <==> z == PadZeros(n)
    ensures z == PadZeros(n) ==> Waiting(n + 1 + z + 8) == 0
  {
    var q, r := n / 64, n % 64;
    assert n == 64 * q + r;
    WaitingShifts(q, r + 1 + z);
    WaitingShifts(q, r + 1 + z + 8);
  }

  lemma WaitingShifts(q: nat, x: nat)
    requires x < 192
    ensures Waiting(64 * q + x) == if x < 64 then x else if x < 128 then x - 64 else x - 128
  {
  }

  // ----- The streaming hasher -----

  class Hasher {
    const state: array<bv32>
    const buffer: array<byte>
    var bufferLength: nat
    var bitCount: nat
    /** Every byte passed to Update so far. */
    ghost var absorbed: bytes

    ghost predicate Valid()
      reads this, state, buffer
    {
      && Buffered()
      && bitCount == BitCount(|absorbed|)
    }

    /** The whole blocks are folded into the state; the bytes after them wait in the buffer. */
    ghost predicate Buffered()
      reads `bufferLength, `absorbed, state, buffer
    {
      && state.Length == 8 && buffer.Length == 64
      && bufferLength == Waiting(|absorbed|)
      && StateWords() == Fold(INITIAL, absorbed[..|absorbed| - bufferLength])
      && buffer[..bufferLength] == absorbed[|absorbed| - bufferLength..]
    }

    ghost function StateWords(): Words
      reads state
      requires state.Length == 8
    {
      Words(state[0], state[1], state[2], state[3], state[4], state[5], state[6], state[7])
    }

    constructor ()
      ensures Valid() && fresh(state) && fresh(buffer) && absorbed == []
    {
      state := new bv32[8];
      buffer := new byte[64];
      bufferLength := 0;
      bitCount := 0;
      absorbed := [];
      new;
      state[0] := 0x6A09E667;
      state[1] := 0xBB67AE85;
      state[2] := 0x3C6EF372;
      state[3] := 0xA54FF53A;
      state[4] := 0x510E527F;
      state[5] := 0x9B05688C;
      state[6] := 0x1F83D9AB;
      state[7] := 0x5BE0CD19;
    }

    /** The message schedule of the buffered block. */
    method ExpandSchedule() returns (w: array<bv32>)
      requires buffer.Length == 64
      ensures fresh(w) && w.Length == 64
      ensures forall t :: 0 <= t < 64 ==> w[t] == Schedule(buffer[..], t)
    {
      hide BigEndianWord, SmallSigma0, SmallSigma1, Add, Compress, Rounds, Fold;
      ghost var block := buffer[..];
      w := new bv32[64];
      for i := 0 to 16
        modifies w
        invariant forall j :: 0 <= j < i ==> w[j] == Schedule(block, j)
      {
        w[i] := BigEndianWord(buffer[4 * i], buffer[4 * i + 1], buffer[4 * i + 2], buffer[4 * i + 3]);
      }
      for i := 16 to 64
        modifies w
        invariant forall j :: 0 <= j < i ==> w[j] == Schedule(block, j)
      {
        w[i] := Add(Add(Add(SmallSigma1(w[i - 2]), w[i - 7]), SmallSigma0(w[i - 15])), w[i - 16]);
      }
    }

    /** Runs the compression function on the full buffer. */
    method Transform()
      requires state.Length == 8 && buffer.Length == 64
      modifies state
      ensures StateWords() == Compress(old(StateWords()), buffer[..])
    {
      hide Add, BigSigma0, BigSigma1, Ch, Maj, Schedule, Fold;
      ghost var block, initial := buffer[..], StateWords();
      var w := ExpandSchedule();
      var a, b, c, d := state[0], state[1], state[2], state[3];
      var e, f, g, h := state[4], state[5], state[6], state[7];
      for i := 0 to 64
        modifies {}
        invariant Words(a, b, c, d, e, f, g, h) == Rounds(initial, block, i)
      {
        var t1 := Add(Add(Add(Add(h, BigSigma1(e)), Ch(e, f, g)), K[i]), w[i]);
        var t2 := Add(BigSigma0(a), Maj(a, b, c));
        h := g;
        g := f;
        f := e;
        e := Add(d, t1);
        d := c;
        c := b;
        b := a;
        a := Add(t1, t2);
      }
      hide Rounds;
      state[0] := Add(state[0], a);
      state[1] := Add(state[1], b);
      state[2] := Add(state[2], c);
      state[3] := Add(state[3], d);
      state[4] := Add(state[4], e);
      state[5] := Add(state[5], f);
      state[6] := Add(state[6], g);
      state[7] := Add(state[7], h);
    }

    method Update(data: bytes)
      requires Valid()
      modifies this, state, buffer
      ensures Valid() && absorbed == old(absorbed) + data
    {
      hide Fold, BitCount, AddBits, Waiting, Hasher.StateWords;
      ghost var before := absorbed;
      BitCountAdds(|before|, |data|);
      bitCount := AddBits(bitCount, |data|);
      var done := 0;
      while done < |data|
        invariant done <= |data|
        invariant Buffered() && absorbed == before + data[..done]
        invariant bitCount == BitCount(|before| + |data|)
      {
        var take := if |data| - done < 64 - bufferLength then |data| - done else 64 - bufferLength;
        Absorb(data[done..done + take]);
        SliceExtends(before, data, done, done + take);
        done := done + take;
      }
      assert data[..done] == data;
    }

    /** Copies a chunk behind the waiting bytes. */
    method Fill(chunk: bytes)
      requires buffer.Length == 64 && bufferLength + |chunk| <= 64
      modifies `bufferLength, buffer
      ensures bufferLength == old(bufferLength) + |chunk|
      ensures buffer[..bufferLength] == old(buffer[..bufferLength]) + chunk
    {
      var length := bufferLength;
      forall k | 0 <= k < |chunk| {
        buffer[length + k] := chunk[k];
      }
      bufferLength := length + |chunk|;
    }

    /** Absorbs a chunk that fits into the buffer, and compresses the buffer when that fills it. */
    method Absorb(chunk: bytes)
      requires Buffered() && 0 < |chunk| <= 64 - bufferLength
      modifies this`bufferLength, this`absorbed, state, buffer
      ensures Buffered() && absorbed == old(absorbed) + chunk
    {
      hide Fold, Compress, Waiting;
      WaitingAdds(|absorbed|, |chunk|);
      ghost var blocks := absorbed[..|absorbed| - bufferLength];
      ghost var waiting := absorbed[|absorbed| - bufferLength..];
      Fill(chunk);
      absorbed := absorbed + chunk;
      assert absorbed == blocks + (waiting + chunk);
      if bufferLength == 64 {
        FoldAppend(INITIAL, blocks, waiting + chunk);
        assert buffer[..] == buffer[..64];
        Transform();
        bufferLength := 0;
        assert absorbed[..|absorbed|] == absorbed;
      } else {
        assert absorbed[..|absorbed| - bufferLength] == blocks;
        assert absorbed[|absorbed| - bufferLength..] == waiting + chunk;
      }
    }

    lemma WaitsFor()
      requires Valid()
      ensures bufferLength == Waiting(|absorbed|)
    {
    }

    /** Absorbs a one bit and zero bits until exactly the length field is missing from the last block. */
    method AbsorbPadding()
      requires Valid()
      modifies this, state, buffer
      ensures Valid() && absorbed == old(absorbed) + [0x80] + Zeros(PadZeros(|old(absorbed)|))
    {
      hide Fold, BitCount, Waiting, PadZeros, Zeros, Hasher.Valid, Hasher.Buffered;
      ghost var before, length := absorbed, |absorbed|;
      Update([0x80]);
      WaitsFor();
      ghost var zeros := 0;
      PaddingEnds(length, 0);
      ZerosExtend(before + [0x80], 0);
      while bufferLength != 56
        invariant Valid() && absorbed == before + [0x80] + Zeros(zeros)
        invariant zeros <= PadZeros(length)
        invariant bufferLength == 56 <==> zeros == PadZeros(length)
        decreases PadZeros(length) - zeros
      {
        Update([0x00]);
        ZerosExtend(before + [0x80], zeros);
        zeros := zeros + 1;
        WaitsFor();
        PaddingEnds(length, zeros);
      }
    }

    /** Pads, absorbs the length and returns the digest; the padding leaves the buffer empty. */
    method Finish() returns (digest: string)
      requires Valid()
      modifies this, state, buffer
      ensures digest == ToHex(Digest(old(absorbed)))
      ensures Valid() && absorbed == Pad(old(absorbed)) && bufferLength == 0
    {
      hide Fold, BigEndian, BitCount, Waiting, PadZeros;
      PaddingEnds(|absorbed|, PadZeros(|absorbed|));
      var bits := bitCount;
      AbsorbPadding();
      var length := LengthField(bits);
      Update(length);
      assert absorbed == Pad(old(absorbed));
      assert absorbed[..|absorbed|] == absorbed;
      digest := ToHex(AllWordBytes(
        Words(state[0], state[1], state[2], state[3], state[4], state[5], state[6], state[7])));
    }
  }

  method LengthField(bits: nat) returns (length: bytes)
    ensures length == BigEndian(bits, 8)
  {
    hide BigEndian, DropBytes;
    length := [];
    ghost var field := BigEndian(bits, 8);
    for i := 0 to 8
      invariant length == field[..i]
    {
      BigEndianAt(bits, 8, i);
      length := length + [(DropBytes(bits, 7 - i) % 256) as byte];
    }
  }

  const HEX_DIGITS: string := "0123456789abcdef"

  function ToHex(data: bytes): (hex: string)
    ensures |hex| == 2 * |data|
  {
    if data == [] then []
    else [HEX_DIGITS[(data[0] >> 4) as nat], HEX_DIGITS[(data[0] & 0x0F) as nat]] + ToHex(data[1..])
  }

  function Concatenated(pieces: seq<bytes>): bytes {
    if pieces == [] then [] else Concatenated(pieces[..|pieces| - 1]) + pieces[|pieces| - 1]
  }

  /** However a message is cut into Update calls, the digest is that of the whole message. */
  method HashPieces(pieces: seq<bytes>) returns (digest: string)
    ensures digest == ToHex(Digest(Concatenated(pieces)))
  {
    hide Digest, Pad, Hasher.Valid;
    var hasher := new Hasher();
    for i := 0 to |pieces|
      invariant hasher.Valid() && fresh(hasher) && fresh(hasher.state) && fresh(hasher.buffer)
      invariant hasher.absorbed == Concatenated(pieces[..i])
    {
      hasher.Update(pieces[i]);
      assert pieces[..i + 1][..i] == pieces[..i];
    }
    assert pieces[..|pieces|] == pieces;
    digest := hasher.Finish();
  }
}
