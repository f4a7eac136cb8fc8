/** The persisted file: a checked header, the payload, and a trailer that seals both. */
module Files {
  import opened Bytes
  import opened LittleEndian
  import Crc32c
  import Sha256

  const MAGIC: bytes := [0x52, 0x4B, 0x46, 0x53, 0x54, 0x41, 0x54, 0x31]
  const TRAILER_MAGIC: bytes := [0x52, 0x4B, 0x46, 0x45]
  const VERSION: nat := 1
  const HEADER_BYTES: nat := 72
  const TRAILER_BYTES: nat := 8
  const U64_BOUND: nat := 0x1_0000_0000_0000_0000

  // ----- The layout -----

  function WideCrc(data: bytes): (b: bytes)
    ensures |b| == 8
  {
    Crc32c.Stored(Crc32c.Checksum(data, 0)) + [0, 0, 0, 0]
  }

  function Preamble(length: nat): (b: bytes)
    ensures |b| == 24
  {
    MAGIC + ToBytes(VERSION, 4) + ToBytes(0, 4) + ToBytes(length, 8)
  }

  function Body(payload: bytes): (b: bytes)
    ensures |b| == HEADER_BYTES + |payload|
  {
    Sha256.DigestLength(payload);
    Preamble(|payload|) + WideCrc(payload) + ToBytes(0, 8) + Sha256.Digest(payload) + payload
  }

  /** The file a payload is saved as. */
  function Framed(payload: bytes): (b: bytes)
    ensures |b| == HEADER_BYTES + |payload| + TRAILER_BYTES
  {
    Body(payload) + TRAILER_MAGIC + Crc32c.Stored(Crc32c.Checksum(Body(payload), 0))
  }

  // ----- Parsing -----

  datatype Parsed =
    | Payload(payload: bytes) | LimitExceeded | Truncated | Corrupt | UnsupportedVersion | TrailingGarbage
    | IntegrityFailure

  function Parse(max: nat, file: bytes): Parsed {
    if |file| > max then LimitExceeded
    else if |file| < HEADER_BYTES + TRAILER_BYTES then Truncated
    else if file[..8] != MAGIC then Corrupt
    else if FromBytes(file[8..12]) != VERSION then UnsupportedVersion
    else if FromBytes(file[12..16]) != 0 then Corrupt
    else if FromBytes(file[32..40]) != 0 then Corrupt
    else if FromBytes(file[16..24]) > max then LimitExceeded
    else if |file| > HEADER_BYTES + FromBytes(file[16..24]) + TRAILER_BYTES then TrailingGarbage
    else if |file| < HEADER_BYTES + FromBytes(file[16..24]) + TRAILER_BYTES then Truncated
    else ParseSealed(file)
  }

  /** Checks the seals of a file whose length fits its declaration. */
  function ParseSealed(file: bytes): Parsed
    requires |file| >= HEADER_BYTES + TRAILER_BYTES
  {
    var end := |file| - TRAILER_BYTES;
    var payload := file[HEADER_BYTES..end];
    if file[end..end + 4] != TRAILER_MAGIC then Corrupt
    else if file[end + 4..] != Crc32c.Stored(Crc32c.Checksum(file[..end], 0)) then IntegrityFailure
    else if file[24..32] != WideCrc(payload) then IntegrityFailure
    else if file[40..72] != Sha256.Digest(payload) then IntegrityFailure
    else Payload(payload)
  }

  lemma LengthFits(length: nat)
    requires length < U64_BOUND
    ensures FromBytes(ToBytes(length, 8)) == length
  {
    Widths();
    FromTo(length, 8);
  }

  lemma SmallFits(n: nat, width: nat)
    requires n <= 1 && 1 <= width
    ensures FromBytes(ToBytes(n, width)) == n
  {
    assert Pow256(width) == 256 * Pow256(width - 1);
    FromTo(n, width);
  }

  lemma PreambleParts(length: nat)
    ensures var p := Preamble(length);
            p[..8] == MAGIC && p[8..12] == ToBytes(VERSION, 4) && p[12..16] == ToBytes(0, 4)
            && p[16..24] == ToBytes(length, 8)
  {
  }

  lemma FramedParts(payload: bytes)
    ensures var f := Framed(payload); var end := HEADER_BYTES + |payload|;
            && f[..24] == Preamble(|payload|) && f[24..32] == WideCrc(payload) && f[32..40] == ToBytes(0, 8)
            && f[40..72] == Sha256.Digest(payload) && f[72..end] == payload && f[..end] == Body(payload)
            && f[end..end + 4] == TRAILER_MAGIC && f[end + 4..] == Crc32c.Stored(Crc32c.Checksum(Body(payload), 0))
  {
    hide Preamble, WideCrc, Crc32c.Stored, Crc32c.Checksum, Sha256.Digest;
    Sha256.DigestLength(payload);
    var b := Body(payload);
    var end := HEADER_BYTES + |payload|;
    var f := Framed(payload);
    assert f[..end] == b;
    assert f[..24] == b[..24] && f[24..32] == b[24..32] && f[32..40] == b[32..40] && f[40..72] == b[40..72];
    assert f[72..end] == b[72..];
  }

  lemma Slices(f: bytes, p: bytes)
    requires |p| == 24 <= |f| && f[..24] == p
    ensures f[..8] == p[..8] && f[8..12] == p[8..12] && f[12..16] == p[12..16] && f[16..24] == p[16..24]
  {
    forall i | 0 <= i < 24
      ensures f[i] == p[i]
    {
      assert f[i] == f[..24][i];
    }
  }

  lemma PreambleOfFile(payload: bytes)
    ensures var f := Framed(payload);
            f[..8] == MAGIC && f[8..12] == ToBytes(VERSION, 4) && f[12..16] == ToBytes(0, 4)
            && f[16..24] == ToBytes(|payload|, 8)
  {
    hide Preamble, Framed, ToBytes, Body, WideCrc, Crc32c.Stored, Crc32c.Checksum, Sha256.Digest;
    FramedParts(payload);
    PreambleParts(|payload|);
    Slices(Framed(payload), Preamble(|payload|));
  }

  /** What was saved within the file limit parses back to its payload. */
  lemma FramedParses(max: nat, payload: bytes)
    requires max < U64_BOUND && HEADER_BYTES + |payload| + TRAILER_BYTES <= max
    ensures Parse(max, Framed(payload)) == Payload(payload)
  {
    hide Framed, Preamble, WideCrc, Crc32c.Stored, Crc32c.Checksum, Sha256.Digest, Body;
    FramedParts(payload);
    PreambleOfFile(payload);
    LengthFits(|payload|);
    SmallFits(1, 4);
    SmallFits(0, 4);
    SmallFits(0, 8);
    var f := Framed(payload);
    assert FromBytes(f[16..24]) == |payload|;
    hide FromBytes, ToBytes;
  }

  lemma FieldIs(b: bytes, n: nat, width: nat)
    requires |b| == width && FromBytes(b) == n
    ensures b == ToBytes(n, width)
  {
    ToFrom(b);
  }

  /** Nothing but the file a payload is saved as parses to that payload. */
  lemma ParsedIsFramed(max: nat, file: bytes, payload: bytes)
    requires max < U64_BOUND && Parse(max, file) == Payload(payload)
    ensures file == Framed(payload) && |file| <= max
  {
    hide Crc32c.Stored, Crc32c.Checksum, Sha256.Digest, WideCrc, FromBytes, ToBytes;
    Sha256.DigestLength(payload);
    var end := |file| - TRAILER_BYTES;
    FieldIs(file[8..12], VERSION, 4);
    FieldIs(file[12..16], 0, 4);
    FieldIs(file[32..40], 0, 8);
    FieldIs(file[16..24], |payload|, 8);
    assert file[..24] == file[..8] + file[8..12] + file[12..16] + file[16..24];
    assert file[..24] == Preamble(|payload|);
    assert file[..end] == file[..24] + file[24..32] + file[32..40] + file[40..72] + file[72..end];
    assert file[..end] == Body(payload);
    assert file == file[..end] + file[end..end + 4] + file[end + 4..];
  }

  /** Accepted files are exactly the saved ones: every bit of a file is accounted for. */
  lemma ParseIff(max: nat, file: bytes, payload: bytes)
    requires max < U64_BOUND
    ensures Parse(max, file) == Payload(payload) <==> file == Framed(payload) && |file| <= max
  {
    hide Parse, Framed;
    if file == Framed(payload) && |file| <= max {
      FramedParses(max, payload);
    }
    if Parse(max, file) == Payload(payload) {
      ParsedIsFramed(max, file, payload);
    }
  }

  /** Saving bounds the payload, loading bounds the whole file: payloads within 80 bytes of the bound are lost. */
  lemma SavedWithinTheLastBytesIsRefused(max: nat, payload: bytes)
    requires max < U64_BOUND
    ensures Parse(max, Framed(payload)).Payload? <==> |payload| + HEADER_BYTES + TRAILER_BYTES <= max
    ensures |payload| <= max < |payload| + HEADER_BYTES + TRAILER_BYTES ==>
              Parse(max, Framed(payload)) == LimitExceeded
  {
    hide ParseSealed, Framed;
    if |payload| + HEADER_BYTES + TRAILER_BYTES <= max {
      FramedParses(max, payload);
    }
  }

  /** Every strict prefix of a valid file is found to be cut off. */
  lemma NoPrefixIsValid(max: nat, file: bytes, n: nat)
    requires max < U64_BOUND && Parse(max, file).Payload? && n < |file|
    ensures Parse(max, file[..n]) == Truncated
  {
    hide ParseSealed, FromBytes;
    if n >= 80 {
      var cut := file[..n];
      assert cut[..8] == file[..8] && cut[8..12] == file[8..12] && cut[12..16] == file[12..16];
      assert cut[16..24] == file[16..24] && cut[32..40] == file[32..40];
    }
  }

  /** Every strict extension of a valid file is found to be too long. */
  lemma NoExtensionIsValid(max: nat, file: bytes, tail: bytes)
    requires max < U64_BOUND && Parse(max, file).Payload? && tail != []
    ensures Parse(max, file + tail) == if |file| + |tail| > max then LimitExceeded else TrailingGarbage
  {
    hide ParseSealed, FromBytes;
    var longer := file + tail;
    assert longer[..8] == file[..8] && longer[8..12] == file[8..12] && longer[12..16] == file[12..16];
    assert longer[16..24] == file[16..24] && longer[32..40] == file[32..40];
  }

  /** What each refusal of a file says about it. */
  predicate IsToBlame(max: nat, file: bytes, status: Parsed) {
    var n := |file|;
    match status
    case Payload(_) => false
    case Truncated => n < 80 || n < 80 + FromBytes(file[16..24])
    case TrailingGarbage => n >= 80 && n > 80 + FromBytes(file[16..24])
    case LimitExceeded => n > max || (n >= 80 && FromBytes(file[16..24]) > max)
    case UnsupportedVersion => n >= 80 && FromBytes(file[8..12]) != 1
    case Corrupt =>
      n >= 80
      && (|| file[..8] != MAGIC || FromBytes(file[12..16]) != 0 || FromBytes(file[32..40]) != 0
          || file[n - 8..n - 4] != TRAILER_MAGIC)
    case IntegrityFailure =>
      n >= 80
      && (|| file[n - 4..] != Crc32c.Stored(Crc32c.Checksum(file[..n - 8], 0))
          || file[24..32] != WideCrc(file[72..n - 8])
          || file[40..72] != Sha256.Digest(file[72..n - 8]))
  }

  /** A file is refused for what is wrong with it, and one with nothing wrong is not refused. */
  lemma RefusalHasCause(max: nat, file: bytes)
    ensures var parsed := Parse(max, file);
            && (!parsed.Payload? ==> IsToBlame(max, file, parsed))
            && (parsed.Payload? ==> forall status :: !IsToBlame(max, file, status))
  {
    hide FromBytes, Crc32c.Stored, Crc32c.Checksum, WideCrc, Sha256.Digest;
  }

  /** The two files agree outside four consecutive bytes. */
  predicate DifferWithin(f: bytes, g: bytes, p: nat) {
    |f| == |g| && forall i {:trigger f[i]} | 0 <= i < |f| && !(p <= i < p + 4) :: f[i] == g[i]
  }

  /** What the trailer of a valid file says. */
  lemma ValidTrailer(max: nat, file: bytes)
    requires Parse(max, file).Payload?
    ensures |file| >= HEADER_BYTES + TRAILER_BYTES
    ensures var end := |file| - TRAILER_BYTES;
            file[end..end + 4] == TRAILER_MAGIC && file[end + 4..] == Crc32c.Stored(Crc32c.Checksum(file[..end], 0))
  {
    hide Crc32c.Stored, Crc32c.Checksum, Sha256.Digest, WideCrc, FromBytes;
  }

  /** Damage that leaves the trailer magic alone and is not made up for by the checksum lies in the sealed part. */
  lemma DamageIsSealed(f: bytes, g: bytes, p: nat, end: nat)
    requires f != g && DifferWithin(f, g, p) && end + 8 == |f|
    requires f[end..end + 4] == g[end..end + 4] && (f[..end] == g[..end] ==> f[end + 4..] == g[end + 4..])
    ensures f[..end] != g[..end] && DifferWithin(f[..end], g[..end], p) && f[end + 4..] == g[end + 4..]
  {
    assert f == f[..end] + f[end..end + 4] + f[end + 4..] && g == g[..end] + g[end..end + 4] + g[end + 4..];
    var i :| 0 <= i < end && f[..end][i] != g[..end][i];
    assert f[i] != g[i] && p <= i;
    forall j | end + 4 <= j < |f|
      ensures f[j] == g[j]
    {
    }
    forall j | 0 <= j < end && !(p <= j < p + 4)
      ensures f[..end][j] == g[..end][j]
    {
      assert f[j] == g[j];
    }
  }

  /**
   * Damage confined to four consecutive bytes is always noticed, wherever it lies: in the header, the payload, the
   * trailer, or across their borders.
   */
  lemma BurstIsRejected(max: nat, file: bytes, damaged: bytes, p: nat)
    requires max < U64_BOUND && Parse(max, file).Payload?
    requires damaged != file && DifferWithin(file, damaged, p)
    ensures !Parse(max, damaged).Payload?
  {
    hide Parse, Crc32c.Stored, Crc32c.Checksum;
    if Parse(max, damaged).Payload? {
      ValidTrailer(max, file);
      ValidTrailer(max, damaged);
      var end := |file| - TRAILER_BYTES;
      DamageIsSealed(file, damaged, p, end);
      Crc32c.BurstIsDetected(file[..end], damaged[..end], 0, p);
      StoredIsInjective(Crc32c.Checksum(file[..end], 0), Crc32c.Checksum(damaged[..end], 0));
    }
  }

  lemma StoredIsInjective(a: bv32, b: bv32)
    requires Crc32c.Stored(a) == Crc32c.Stored(b)
    ensures a == b
  {
    Crc32c.WordOfStored(a);
    Crc32c.WordOfStored(b);
  }
}
