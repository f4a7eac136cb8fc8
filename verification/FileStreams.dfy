/** Framing a payload into a byte buffer, and the chain of checks that takes it out again. */
module FileStreams {
  import opened Bytes
  import opened LittleEndian
  import opened Files
  import Crc32c
  import Sha256

  // ----- Hexadecimal digests -----

  function Nibble(c: char): bv8 {
    if c <= '9' then ((c as int - '0' as int) % 256) as bv8 else ((c as int - 'a' as int + 10) % 256) as bv8
  }

  function Join(high: char, low: char): byte { (Nibble(high) << 4) | Nibble(low) }

  function FromHex(hex: string): (b: bytes)
    ensures |b| == |hex| / 2
  {
    if |hex| < 2 then [] else [Join(hex[0], hex[1])] + FromHex(hex[2..])
  }

  lemma DigitReturns(n: bv8)
    requires n < 16
    ensures Nibble(Sha256.HEX_DIGITS[n as nat]) == n
  {
    assert Sha256.HEX_DIGITS[0] == '0' && Sha256.HEX_DIGITS[10] == 'a';
  }

  lemma HalvesJoin(b: byte)
    ensures b >> 4 < 16 && b & 0x0F < 16 && ((b >> 4) << 4) | (b & 0x0F) == b
  {
  }

  lemma {:induction false} HexReturns(data: bytes)
    ensures FromHex(Sha256.ToHex(data)) == data
  {
    if data != [] {
      hide Nibble;
      var hex := Sha256.ToHex(data);
      HalvesJoin(data[0]);
      DigitReturns(data[0] >> 4);
      DigitReturns(data[0] & 0x0F);
      assert hex[2..] == Sha256.ToHex(data[1..]);
      HexReturns(data[1..]);
      assert data == [data[0]] + data[1..];
    }
  }

  lemma {:induction false} FromHexAt(hex: string, i: nat)
    requires 2 * i + 1 < |hex|
    ensures FromHex(hex)[i] == Join(hex[2 * i], hex[2 * i + 1])
  {
    if i > 0 {
      FromHexAt(hex[2..], i - 1);
    }
  }

  // ----- Saving -----

  function Overwritten(s: bytes, at: nat, data: bytes): (r: bytes)
    requires at + |data| <= |s|
    ensures |r| == |s|
  {
    s[..at] + data + s[at + |data|..]
  }

  method Store(a: array<byte>, at: nat, data: bytes)
    requires at + |data| <= a.Length
    modifies a
    ensures a[..] == Overwritten(old(a[..]), at, data)
  {
    for i := 0 to |data|
      invariant forall j :: 0 <= j < a.Length ==>
                  a[j] == if at <= j < at + i then data[j - at] else old(a[j])
    {
      a[at + i] := data[i];
    }
  }

  /** Stores a digest given as hexadecimal text. */
  method StoreDigest(a: array<byte>, at: nat, hex: string)
    requires |hex| == 64 && at + 32 <= a.Length
    modifies a
    ensures a[..] == Overwritten(old(a[..]), at, FromHex(hex))
  {
    hide Join;
    for i := 0 to 32
      invariant forall j :: 0 <= j < a.Length ==>
                  a[j] == if at <= j < at + i then FromHex(hex)[j - at] else old(a[j])
    {
      FromHexAt(hex, i);
      a[at + i] := Join(hex[2 * i], hex[2 * i + 1]);
    }
  }

  /** Fills a buffer with the header, the payload and the trailer. */
  method FrameFile(payload: bytes) returns (file: array<byte>)
    ensures fresh(file) && file[..] == Framed(payload)
  {
    hide Overwritten, Framed, Sha256.Digest, Crc32c.Checksum, Body, Crc32c.Stored, ToBytes;
    file := new byte[HEADER_BYTES + |payload| + TRAILER_BYTES](_ => 0);
    ghost var blank := file[..];
    var crc := Crc32c.Compute(payload, 0);
    var digest := Sha256.HashPieces([payload]);
    OnePiece(payload);
    HexReturns(Sha256.Digest(payload));
    Sha256.DigestLength(payload);
    Store(file, 0, MAGIC);
    Store(file, 8, ToBytes(VERSION, 4));
    Store(file, 12, ToBytes(0, 4));
    Store(file, 16, ToBytes(|payload|, 8));
    Store(file, 24, Crc32c.Stored(crc) + [0, 0, 0, 0]);
    Store(file, 32, ToBytes(0, 8));
    StoreDigest(file, 40, digest);
    Store(file, HEADER_BYTES, payload);
    assert file[..] == HeaderStored(blank, payload);
    HeaderIsStored(blank, payload);
    var end := HEADER_BYTES + |payload|;
    Store(file, end, TRAILER_MAGIC);
    assert file[..end] == file[..][..end];
    TrailerStart(HeaderStored(blank, payload), payload);
    var seal := Crc32c.Compute(file[..end], 0);
    Store(file, end + 4, Crc32c.Stored(seal));
    TrailerIsStored(HeaderStored(blank, payload), payload);
  }

  lemma OnePiece(payload: bytes)
    ensures Sha256.Concatenated([payload]) == payload
  {
    assert [payload][..0] == [];
    assert Sha256.Concatenated([]) == [];
  }

  /** The buffer once header and payload are stored. */
  ghost function HeaderStored(blank: bytes, payload: bytes): (r: bytes)
    requires |blank| == HEADER_BYTES + |payload| + TRAILER_BYTES
    ensures |r| == |blank|
  {
    Sha256.DigestLength(payload);
    var s1 := Overwritten(blank, 0, MAGIC);
    var s2 := Overwritten(s1, 8, ToBytes(VERSION, 4));
    var s3 := Overwritten(s2, 12, ToBytes(0, 4));
    var s4 := Overwritten(s3, 16, ToBytes(|payload|, 8));
    var s5 := Overwritten(s4, 24, WideCrc(payload));
    var s6 := Overwritten(s5, 32, ToBytes(0, 8));
    var s7 := Overwritten(s6, 40, Sha256.Digest(payload));
    Overwritten(s7, HEADER_BYTES, payload)
  }

  lemma Extends(s: bytes, at: nat, data: bytes)
    requires at + |data| <= |s|
    ensures Overwritten(s, at, data)[..at + |data|] == s[..at] + data
  {
  }

  lemma HeaderIsStored(blank: bytes, payload: bytes)
    requires |blank| == HEADER_BYTES + |payload| + TRAILER_BYTES
    ensures HeaderStored(blank, payload)[..HEADER_BYTES + |payload|] == Body(payload)
  {
    hide Overwritten, ToBytes, Sha256.Digest, WideCrc;
    Sha256.DigestLength(payload);
    var s1 := Overwritten(blank, 0, MAGIC);
    Extends(blank, 0, MAGIC);
    var s2 := Overwritten(s1, 8, ToBytes(VERSION, 4));
    Extends(s1, 8, ToBytes(VERSION, 4));
    var s3 := Overwritten(s2, 12, ToBytes(0, 4));
    Extends(s2, 12, ToBytes(0, 4));
    var s4 := Overwritten(s3, 16, ToBytes(|payload|, 8));
    Extends(s3, 16, ToBytes(|payload|, 8));
    var s5 := Overwritten(s4, 24, WideCrc(payload));
    Extends(s4, 24, WideCrc(payload));
    var s6 := Overwritten(s5, 32, ToBytes(0, 8));
    Extends(s5, 32, ToBytes(0, 8));
    var s7 := Overwritten(s6, 40, Sha256.Digest(payload));
    Extends(s6, 40, Sha256.Digest(payload));
    Extends(s7, HEADER_BYTES, payload);
  }

  lemma TrailerStart(s: bytes, payload: bytes)
    requires |s| == HEADER_BYTES + |payload| + TRAILER_BYTES && s[..HEADER_BYTES + |payload|] == Body(payload)
    ensures Overwritten(s, HEADER_BYTES + |payload|, TRAILER_MAGIC)[..HEADER_BYTES + |payload|] == Body(payload)
  {
    hide Body;
  }

  lemma TrailerIsStored(s: bytes, payload: bytes)
    requires |s| == HEADER_BYTES + |payload| + TRAILER_BYTES && s[..HEADER_BYTES + |payload|] == Body(payload)
    ensures var end := HEADER_BYTES + |payload|;
            Overwritten(Overwritten(s, end, TRAILER_MAGIC), end + 4, Crc32c.Stored(Crc32c.Checksum(Body(payload), 0)))
            == Framed(payload)
  {
    hide Body, Crc32c.Stored, Crc32c.Checksum;
  }

  // ----- Loading -----

  /** The checks of a file, in their order. */
  method ParseFile(max: nat, file: bytes) returns (parsed: Parsed)
    ensures parsed == Parse(max, file)
  {
    hide Sha256.Digest, Crc32c.Checksum, Crc32c.Stored, FromBytes;
    if |file| > max {
      return LimitExceeded;
    }
    if |file| < HEADER_BYTES + TRAILER_BYTES {
      return Truncated;
    }
    if file[..8] != MAGIC {
      return Corrupt;
    }
    if FromBytes(file[8..12]) != VERSION {
      return UnsupportedVersion;
    }
    if FromBytes(file[12..16]) != 0 || FromBytes(file[32..40]) != 0 {
      return Corrupt;
    }
    var length := FromBytes(file[16..24]);
    if length > max {
      return LimitExceeded;
    }
    if |file| > HEADER_BYTES + length + TRAILER_BYTES {
      return TrailingGarbage;
    }
    if |file| < HEADER_BYTES + length + TRAILER_BYTES {
      return Truncated;
    }
    var end := HEADER_BYTES + length;
    if file[end..end + 4] != TRAILER_MAGIC {
      return Corrupt;
    }
    var seal := Crc32c.Compute(file[..end], 0);
    if file[end + 4..] != Crc32c.Stored(seal) {
      return IntegrityFailure;
    }
    var payload := file[HEADER_BYTES..end];
    var crc := Crc32c.Compute(payload, 0);
    if file[24..32] != Crc32c.Stored(crc) + [0, 0, 0, 0] {
      return IntegrityFailure;
    }
    var digest := Sha256.HashPieces([payload]);
    OnePiece(payload);
    HexReturns(Sha256.Digest(payload));
    HexReturns(file[40..72]);
    if digest != Sha256.ToHex(file[40..72]) {
      return IntegrityFailure;
    }
    parsed := Payload(payload);
  }
}
