/** Wire frames: a header, a payload and a checksum over both. */
module Frames {
  import opened Bytes
  import opened LittleEndian
  import opened FileStreams
  import Crc32c

  const MAGIC: bytes := [0x52, 0x4B, 0x46, 0x31]
  const VERSION: nat := 1
  const HEADER: nat := 24
  const OVERHEAD: nat := 28
  const MAX_TYPE: nat := 22

  datatype Frame = Frame(version: nat, kind: nat, flags: nat, correlation: nat, payload: bytes)

  /** What a receiver accepts: the current version, a known type, and no flag but the response flag. */
  predicate WellFormed(f: Frame) {
    f.version == VERSION && 1 <= f.kind <= MAX_TYPE && f.flags <= 1 && f.correlation < 0x1_0000_0000_0000_0000
  }

  predicate WithinBounds(f: Frame, maxPayload: nat, maxFrame: nat) {
    |f.payload| <= maxPayload && OVERHEAD + |f.payload| <= maxFrame
  }

  function HeaderBytes(f: Frame): (h: bytes)
    ensures |h| == HEADER
  {
    MAGIC + ToBytes(f.version, 2) + ToBytes(f.kind, 2) + ToBytes(f.flags, 2) + ToBytes(0, 2) + ToBytes(f.correlation, 8)
    + ToBytes(|f.payload|, 4)
  }

  function Sealed(f: Frame): (b: bytes)
    ensures |b| == OVERHEAD + |f.payload|
  {
    var body := HeaderBytes(f) + f.payload;
    body + Crc32c.Stored(Crc32c.Checksum(body, 0))
  }

  datatype Status =
    | BadMagic | UnsupportedVersion | UnknownMessageType | OversizedFrame | TruncatedFrame | ChecksumMismatch
    | ReservedBitsSet

  datatype Decoded = Ok(frame: Frame, consumed: nat) | Failed(status: Status)

  function Decode(data: bytes, maxPayload: nat, maxFrame: nat): Decoded {
    if |data| < OVERHEAD then Failed(TruncatedFrame)
    else if data[..4] != MAGIC then Failed(BadMagic)
    else if FromBytes(data[4..6]) != VERSION then Failed(UnsupportedVersion)
    else if !(1 <= FromBytes(data[6..8]) <= MAX_TYPE) then Failed(UnknownMessageType)
    else if FromBytes(data[8..10]) > 1 then Failed(ReservedBitsSet)
    else if FromBytes(data[10..12]) != 0 then Failed(ReservedBitsSet)
    else
      var length := FromBytes(data[20..24]);
      if length > maxPayload then Failed(OversizedFrame)
      else if OVERHEAD + length > maxFrame then Failed(OversizedFrame)
      else if |data| < OVERHEAD + length then Failed(TruncatedFrame)
      else if data[HEADER + length..OVERHEAD + length] != Crc32c.Stored(Crc32c.Checksum(data[..HEADER + length], 0)) then
        Failed(ChecksumMismatch)
      else
        Ok(Frame(FromBytes(data[4..6]), FromBytes(data[6..8]), FromBytes(data[8..10]), FromBytes(data[12..20]),
                 data[HEADER..HEADER + length]),
           OVERHEAD + length)
  }

  // ----- Into and out of a buffer -----

  /** Stores the fields into a buffer of the exact size, or refuses a frame over a bound. */
  method EncodeFrame(f: Frame, maxPayload: nat, maxFrame: nat) returns (out: array?<byte>)
    ensures out == null <==> !WithinBounds(f, maxPayload, maxFrame)
    ensures out != null ==> fresh(out) && out[..] == Sealed(f)
  {
    hide Overwritten, Sealed, Crc32c.Checksum, Crc32c.Stored, ToBytes, HeaderBytes;
    if !WithinBounds(f, maxPayload, maxFrame) {
      return null;
    }
    var n := |f.payload|;
    out := new byte[OVERHEAD + n](_ => 0);
    ghost var blank := out[..];
    Store(out, 0, MAGIC);
    Store(out, 4, ToBytes(f.version, 2));
    Store(out, 6, ToBytes(f.kind, 2));
    Store(out, 8, ToBytes(f.flags, 2));
    Store(out, 10, ToBytes(0, 2));
    Store(out, 12, ToBytes(f.correlation, 8));
    Store(out, 20, ToBytes(n, 4));
    Store(out, HEADER, f.payload);
    assert out[..] == BodyStored(blank, f);
    BodyIsStored(blank, f);
    assert out[..HEADER + n] == out[..][..HEADER + n];
    var crc := Crc32c.Compute(out[..HEADER + n], 0);
    Store(out, HEADER + n, Crc32c.Stored(crc));
    SealIsStored(BodyStored(blank, f), f);
  }

  ghost function BodyStored(blank: bytes, f: Frame): (r: bytes)
    requires |blank| == OVERHEAD + |f.payload|
    ensures |r| == |blank|
  {
    var s1 := Overwritten(blank, 0, MAGIC);
    var s2 := Overwritten(s1, 4, ToBytes(f.version, 2));
    var s3 := Overwritten(s2, 6, ToBytes(f.kind, 2));
    var s4 := Overwritten(s3, 8, ToBytes(f.flags, 2));
    var s5 := Overwritten(s4, 10, ToBytes(0, 2));
    var s6 := Overwritten(s5, 12, ToBytes(f.correlation, 8));
    var s7 := Overwritten(s6, 20, ToBytes(|f.payload|, 4));
    Overwritten(s7, HEADER, f.payload)
  }

  lemma BodyIsStored(blank: bytes, f: Frame)
    requires |blank| == OVERHEAD + |f.payload|
    ensures BodyStored(blank, f)[..HEADER + |f.payload|] == HeaderBytes(f) + f.payload
  {
    hide Overwritten, ToBytes;
    var s1 := Overwritten(blank, 0, MAGIC);
    Extends(blank, 0, MAGIC);
    var s2 := Overwritten(s1, 4, ToBytes(f.version, 2));
    Extends(s1, 4, ToBytes(f.version, 2));
    var s3 := Overwritten(s2, 6, ToBytes(f.kind, 2));
    Extends(s2, 6, ToBytes(f.kind, 2));
    var s4 := Overwritten(s3, 8, ToBytes(f.flags, 2));
    Extends(s3, 8, ToBytes(f.flags, 2));
    var s5 := Overwritten(s4, 10, ToBytes(0, 2));
    Extends(s4, 10, ToBytes(0, 2));
    var s6 := Overwritten(s5, 12, ToBytes(f.correlation, 8));
    Extends(s5, 12, ToBytes(f.correlation, 8));
    var s7 := Overwritten(s6, 20, ToBytes(|f.payload|, 4));
    Extends(s6, 20, ToBytes(|f.payload|, 4));
    Extends(s7, HEADER, f.payload);
  }

  lemma SealIsStored(s: bytes, f: Frame)
    requires |s| == OVERHEAD + |f.payload| && s[..HEADER + |f.payload|] == HeaderBytes(f) + f.payload
    ensures Overwritten(s, HEADER + |f.payload|, Crc32c.Stored(Crc32c.Checksum(HeaderBytes(f) + f.payload, 0)))
         == Sealed(f)
  {
    hide HeaderBytes, Crc32c.Stored, Crc32c.Checksum;
  }

  /** Checks a buffer field by field and takes the first frame out of it. */
  method DecodeFrame(data: bytes, maxPayload: nat, maxFrame: nat) returns (d: Decoded)
    ensures d == Decode(data, maxPayload, maxFrame)
  {
    hide FromBytes, Crc32c.Stored, Crc32c.Checksum;
    if |data| < OVERHEAD {
      return Failed(TruncatedFrame);
    }
    if data[..4] != MAGIC {
      return Failed(BadMagic);
    }
    var version := FromBytes(data[4..6]);
    if version != VERSION {
      return Failed(UnsupportedVersion);
    }
    var kind := FromBytes(data[6..8]);
    if kind < 1 || kind > MAX_TYPE {
      return Failed(UnknownMessageType);
    }
    var flags := FromBytes(data[8..10]);
    if flags > 1 || FromBytes(data[10..12]) != 0 {
      return Failed(ReservedBitsSet);
    }
    var length := FromBytes(data[20..24]);
    if length > maxPayload || OVERHEAD + length > maxFrame {
      return Failed(OversizedFrame);
    }
    if |data| < OVERHEAD + length {
      return Failed(TruncatedFrame);
    }
    var crc := Crc32c.Compute(data[..HEADER + length], 0);
    if data[HEADER + length..OVERHEAD + length] != Crc32c.Stored(crc) {
      return Failed(ChecksumMismatch);
    }
    d := Ok(Frame(version, kind, flags, FromBytes(data[12..20]), data[HEADER..HEADER + length]), OVERHEAD + length);
  }

  // ----- One frame -----

  lemma HeaderFields(f: Frame)
    ensures var h := HeaderBytes(f);
            && h[..4] == MAGIC && h[4..6] == ToBytes(f.version, 2) && h[6..8] == ToBytes(f.kind, 2)
            && h[8..10] == ToBytes(f.flags, 2) && h[10..12] == ToBytes(0, 2) && h[12..20] == ToBytes(f.correlation, 8)
            && h[20..24] == ToBytes(|f.payload|, 4)
  {
    hide ToBytes;
    var p1 := MAGIC + ToBytes(f.version, 2);
    var p2 := p1 + ToBytes(f.kind, 2);
    var p3 := p2 + ToBytes(f.flags, 2);
    var p4 := p3 + ToBytes(0, 2);
    var p5 := p4 + ToBytes(f.correlation, 8);
    var h := HeaderBytes(f);
    assert h == p5 + ToBytes(|f.payload|, 4);
    hide HeaderBytes;
    LastField(h, p5, ToBytes(|f.payload|, 4));
    LastField(p5, p4, ToBytes(f.correlation, 8));
    LastField(p4, p3, ToBytes(0, 2));
    LastField(p3, p2, ToBytes(f.flags, 2));
    LastField(p2, p1, ToBytes(f.kind, 2));
    LastField(p1, MAGIC, ToBytes(f.version, 2));
  }

  /** The last field of a row, and the fields before it, which are where they were. */
  lemma LastField(h: bytes, before: bytes, field: bytes)
    requires h == before + field
    ensures h[|before|..] == field && h[..|before|] == before
    ensures forall i, j {:trigger h[i..j]} :: 0 <= i <= j <= |before| ==> h[i..j] == before[i..j]
  {
  }

  lemma Slices(d: bytes, h: bytes)
    requires |h| == 24 <= |d| && d[..24] == h
    ensures d[..4] == h[..4] && d[4..6] == h[4..6] && d[6..8] == h[6..8] && d[8..10] == h[8..10]
    ensures d[10..12] == h[10..12] && d[12..20] == h[12..20] && d[20..24] == h[20..24]
  {
    forall i | 0 <= i < 24
      ensures d[i] == h[i]
    {
      assert d[i] == d[..24][i];
    }
  }

  lemma TwoBytes()
    ensures Pow256(2) == 0x1_0000
  {
    assert Pow256(1) == 256 * Pow256(0);
    assert Pow256(2) == 256 * Pow256(1);
  }

  lemma FieldsReturn(f: Frame)
    requires WellFormed(f) && |f.payload| < 0x1_0000_0000
    ensures FromBytes(ToBytes(f.version, 2)) == f.version && FromBytes(ToBytes(f.kind, 2)) == f.kind
    ensures FromBytes(ToBytes(f.flags, 2)) == f.flags && FromBytes(ToBytes(0, 2)) == 0
    ensures FromBytes(ToBytes(f.correlation, 8)) == f.correlation
    ensures FromBytes(ToBytes(|f.payload|, 4)) == |f.payload|
  {
    TwoBytes();
    Widths();
    hide ToBytes, FromBytes, Pow256;
    FromTo(f.version, 2);
    FromTo(f.kind, 2);
    FromTo(f.flags, 2);
    FromTo(0, 2);
    FromTo(f.correlation, 8);
    FromTo(|f.payload|, 4);
  }

  lemma SealedParts(f: Frame, rest: bytes)
    ensures var d := Sealed(f) + rest; var body := HeaderBytes(f) + f.payload; var n := |f.payload|;
            && d[..24] == HeaderBytes(f) && d[HEADER..HEADER + n] == f.payload && d[..HEADER + n] == body
            && d[HEADER + n..OVERHEAD + n] == Crc32c.Stored(Crc32c.Checksum(body, 0)) && d[OVERHEAD + n..] == rest
  {
    hide HeaderBytes, Crc32c.Stored, Crc32c.Checksum;
  }

  /** A receiver recovers the frame from the front of the stream and consumes exactly its bytes. */
  lemma FrameRoundTrip(f: Frame, rest: bytes, maxPayload: nat, maxFrame: nat)
    requires WellFormed(f) && WithinBounds(f, maxPayload, maxFrame) && maxPayload < 0x1_0000_0000
    ensures Decode(Sealed(f) + rest, maxPayload, maxFrame) == Ok(f, |Sealed(f)|)
    ensures (Sealed(f) + rest)[|Sealed(f)|..] == rest
  {
    hide HeaderBytes, Crc32c.Stored, Crc32c.Checksum, Sealed, ToBytes, FromBytes;
    SealedParts(f, rest);
    HeaderFields(f);
    Slices(Sealed(f) + rest, HeaderBytes(f));
    FieldsReturn(f);
  }

  /** Only well-formed frames are decoded, and only from the bytes they are sent as. */
  lemma DecodedIsSealed(data: bytes, maxPayload: nat, maxFrame: nat)
    requires Decode(data, maxPayload, maxFrame).Ok?
    ensures var d := Decode(data, maxPayload, maxFrame);
            && WellFormed(d.frame) && WithinBounds(d.frame, maxPayload, maxFrame)
            && d.consumed <= |data| && data[..d.consumed] == Sealed(d.frame)
  {
    var d := Decode(data, maxPayload, maxFrame);
    hide Crc32c.Stored, Crc32c.Checksum;
    var n := |d.frame.payload|;
    TwoBytes();
    Widths();
    Bounded(data[12..20]);
    hide Pow256;
    ToFrom(data[4..6]);
    ToFrom(data[6..8]);
    ToFrom(data[8..10]);
    ToFrom(data[10..12]);
    ToFrom(data[12..20]);
    ToFrom(data[20..24]);
    hide ToBytes, FromBytes;
    HeaderIsRebuilt(data, d.frame);
    hide HeaderBytes;
    assert data[..HEADER + n] == data[..24] + data[HEADER..HEADER + n];
    assert data[..OVERHEAD + n] == data[..HEADER + n] + data[HEADER + n..OVERHEAD + n];
  }

  lemma HeaderIsRebuilt(data: bytes, f: Frame)
    requires |data| >= 24 && data[..4] == MAGIC && data[4..6] == ToBytes(f.version, 2) && data[6..8] == ToBytes(f.kind, 2)
    requires data[8..10] == ToBytes(f.flags, 2) && data[10..12] == ToBytes(0, 2)
    requires data[12..20] == ToBytes(f.correlation, 8) && data[20..24] == ToBytes(|f.payload|, 4)
    ensures data[..24] == HeaderBytes(f)
  {
    hide ToBytes;
    assert data[..24] == data[..4] + data[4..6] + data[6..8] + data[8..10] + data[10..12] + data[12..20] + data[20..24];
  }

  /** A receiver that has only the beginning of a frame waits for the rest: it never takes it for anything else. */
  lemma PrefixIsTruncated(f: Frame, n: nat, maxPayload: nat, maxFrame: nat)
    requires WellFormed(f) && WithinBounds(f, maxPayload, maxFrame) && maxPayload < 0x1_0000_0000 && n < |Sealed(f)|
    ensures Decode(Sealed(f)[..n], maxPayload, maxFrame) == Failed(TruncatedFrame)
  {
    hide HeaderBytes, Crc32c.Stored, Crc32c.Checksum, Sealed, ToBytes, FromBytes;
    if n >= OVERHEAD {
      var cut := Sealed(f)[..n];
      SealedParts(f, []);
      assert Sealed(f) + [] == Sealed(f);
      assert cut[..24] == Sealed(f)[..24];
      HeaderFields(f);
      Slices(cut, HeaderBytes(f));
      FieldsReturn(f);
      SealedSize(f);
    }
  }

  lemma SealedSize(f: Frame)
    ensures |Sealed(f)| == OVERHEAD + |f.payload|
  {
  }

  /** What each refusal of a frame says about it. */
  predicate IsToBlame(data: bytes, maxPayload: nat, maxFrame: nat, status: Status) {
    var n := |data|;
    match status
    case TruncatedFrame => n < 28 || n < 28 + FromBytes(data[20..24])
    case BadMagic => n >= 28 && data[..4] != MAGIC
    case UnsupportedVersion => n >= 28 && FromBytes(data[4..6]) != 1
    case UnknownMessageType => n >= 28 && (FromBytes(data[6..8]) == 0 || FromBytes(data[6..8]) > 22)
    case ReservedBitsSet => n >= 28 && (FromBytes(data[8..10]) > 1 || FromBytes(data[10..12]) != 0)
    case OversizedFrame =>
      n >= 28 && (FromBytes(data[20..24]) > maxPayload || 28 + FromBytes(data[20..24]) > maxFrame)
    case ChecksumMismatch =>
      n >= 28
      && var end := 24 + FromBytes(data[20..24]);
         n >= end + 4 && data[end..end + 4] != Crc32c.Stored(Crc32c.Checksum(data[..end], 0))
  }

  /** A frame is refused for what is wrong with it, and one with nothing wrong is not refused. */
  lemma RefusalHasCause(data: bytes, maxPayload: nat, maxFrame: nat)
    ensures var d := Decode(data, maxPayload, maxFrame);
            && (d.Failed? ==> IsToBlame(data, maxPayload, maxFrame, d.status))
            && (d.Ok? ==> forall status :: !IsToBlame(data, maxPayload, maxFrame, status))
  {
    hide FromBytes, Crc32c.Stored, Crc32c.Checksum;
  }

  // ----- Streams -----

  function Stream(frames: seq<Frame>): bytes {
    if frames == [] then [] else Sealed(frames[0]) + Stream(frames[1..])
  }

  predicate Sendable(frames: seq<Frame>, maxPayload: nat, maxFrame: nat) {
    forall i :: 0 <= i < |frames| ==> WellFormed(frames[i]) && WithinBounds(frames[i], maxPayload, maxFrame)
  }

  /** Decodes frame after frame until nothing is left, or a frame fails. */
  method Receive(data: bytes, maxPayload: nat, maxFrame: nat) returns (frames: seq<Frame>, rest: bytes)
    ensures data == Stream(frames) + rest && Sendable(frames, maxPayload, maxFrame)
    ensures rest != [] ==> Decode(rest, maxPayload, maxFrame).Failed?
    ensures forall sent :: Sendable(sent, maxPayload, maxFrame) && maxPayload < 0x1_0000_0000 && data == Stream(sent) ==>
              frames == sent && rest == []
  {
    hide Decode, Sealed, WellFormed, WithinBounds;
    frames, rest := [], data;
    assert Stream([]) + data == data;
    while rest != []
      invariant data == Stream(frames) + rest && Sendable(frames, maxPayload, maxFrame)
      decreases |rest|
    {
      var d := DecodeFrame(rest, maxPayload, maxFrame);
      if d.Failed? {
        break;
      }
      DecodedIsSealed(rest, maxPayload, maxFrame);
      SealedLength(d.frame);
      StreamAppend(frames, d.frame);
      assert rest == Sealed(d.frame) + rest[d.consumed..];
      frames, rest := frames + [d.frame], rest[d.consumed..];
    }
    forall sent | Sendable(sent, maxPayload, maxFrame) && maxPayload < 0x1_0000_0000 && data == Stream(sent)
      ensures frames == sent && rest == []
    {
      StreamDecodes(frames, rest, sent, maxPayload, maxFrame);
    }
  }

  lemma SealedLength(f: Frame)
    ensures |Sealed(f)| >= OVERHEAD
  {
  }

  lemma {:induction false} StreamAppend(frames: seq<Frame>, f: Frame)
    ensures Stream(frames + [f]) == Stream(frames) + Sealed(f)
  {
    hide Sealed;
    if frames == [] {
      assert [f][1..] == [];
      assert Stream([f]) == Sealed(f) + Stream([]);
    } else {
      assert (frames + [f])[1..] == frames[1..] + [f];
      StreamAppend(frames[1..], f);
    }
  }

  /** A stream has one reading: what was received of it is what was sent. */
  lemma {:induction false} StreamDecodes(
    got: seq<Frame>, rest: bytes, sent: seq<Frame>, maxPayload: nat, maxFrame: nat)
    requires Sendable(got, maxPayload, maxFrame) && Sendable(sent, maxPayload, maxFrame) && maxPayload < 0x1_0000_0000
    requires Stream(got) + rest == Stream(sent)
    requires rest != [] ==> Decode(rest, maxPayload, maxFrame).Failed?
    ensures got == sent && rest == []
    decreases |got|
  {
    hide Decode, Sealed, WellFormed, WithinBounds;
    if got == [] {
      assert rest == Stream(sent);
      if sent != [] {
        SealedLength(sent[0]);
        FrameRoundTrip(sent[0], Stream(sent[1..]), maxPayload, maxFrame);
      }
    } else {
      SealedLength(got[0]);
      var more := Stream(got[1..]) + rest;
      assert Stream(sent) == Sealed(got[0]) + more;
      FrameRoundTrip(got[0], more, maxPayload, maxFrame);
      assert sent != [];
      FrameRoundTrip(sent[0], Stream(sent[1..]), maxPayload, maxFrame);
      StreamDecodes(got[1..], rest, sent[1..], maxPayload, maxFrame);
      assert got == [got[0]] + got[1..] && sent == [sent[0]] + sent[1..];
    }
  }

  // ----- Damage -----

  predicate DifferWithin(a: bytes, b: bytes, p: nat) {
    |a| == |b| && forall i {:trigger a[i]} | 0 <= i < |a| && !(p <= i < p + 4) :: a[i] == b[i]
  }

  /** Damage confined to four consecutive bytes that leaves the length field intact is never decoded. */
  lemma BurstIsRejected(f: Frame, damaged: bytes, p: nat, maxPayload: nat, maxFrame: nat)
    requires WellFormed(f) && WithinBounds(f, maxPayload, maxFrame) && maxPayload < 0x1_0000_0000
    requires damaged != Sealed(f) && DifferWithin(Sealed(f), damaged, p)
    requires damaged[20..24] == Sealed(f)[20..24]
    ensures !Decode(damaged, maxPayload, maxFrame).Ok?
  {
    hide WellFormed, WithinBounds, Sealed, HeaderBytes;
    var intact := Sealed(f);
    FrameRoundTrip(f, [], maxPayload, maxFrame);
    assert intact + [] == intact;
    if Decode(damaged, maxPayload, maxFrame).Ok? {
      SealHolds(intact, maxPayload, maxFrame);
      SealHolds(damaged, maxPayload, maxFrame);
      Crc32c.BurstChangesRemainder(Crc32c.Not(0), intact, damaged, p);
    }
  }

  /** A frame that fills its buffer divides to the fixed residue. */
  lemma SealHolds(data: bytes, maxPayload: nat, maxFrame: nat)
    requires Decode(data, maxPayload, maxFrame).Ok? && |data| == OVERHEAD + FromBytes(data[20..24])
    ensures Crc32c.Divide(Crc32c.Not(0), data) == Crc32c.RESIDUE
  {
    hide Crc32c.Stored, Crc32c.Checksum, FromBytes, Crc32c.Divide, Crc32c.RESIDUE, Crc32c.Not;
    var end := |data| - 4;
    assert data == data[..end] + data[end..];
    Crc32c.ResidueIffChecksum(data[..end], data[end..], 0);
  }
}
