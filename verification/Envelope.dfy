/** The 64-byte little-endian timing envelope (telemetry/src/envelope.rs). */
module Envelope {
  import opened Base

  const ENVELOPE_WIRE_LEN := 64
  const ENVELOPE_VERSION: byte := 1
  const RESERVED: seq<byte> := [0, 0, 0, 0, 0, 0]

  type Bytes16 = b: seq<byte> | |b| == 16 witness [0, 0, 0, 0, 0, 0, 0, 0, 0, 0, 0, 0, 0, 0, 0, 0]

  datatype Modality = PointCloud | Video | Audio | Generic

  datatype TimingEnvelope = TimingEnvelope(
    captureNs: i64, sendNs: i64, recvNs: i64, processDoneNs: i64,
    seqNo: u64, modality: Modality, traceId: Bytes16)

  datatype EnvelopeError =
    | WrongLength(expected: nat, got: nat)
    | UnsupportedVersion(version: byte)
    | UnknownModality(value: byte)

  function ModalityByte(m: Modality): byte {
    match m
    case PointCloud => 0
    case Video => 1
    case Audio => 2
    case Generic => 3
  }

  function ModalityOf(v: byte): Result<Modality, EnvelopeError> {
    if v == 0 then Ok(PointCloud)
    else if v == 1 then Ok(Video)
    else if v == 2 then Ok(Audio)
    else if v == 3 then Ok(Generic)
    else Err(UnknownModality(v))
  }

  // ----- Little-endian integers -----

  function Pow256(width: nat): nat {
    if width == 0 then 1 else 256 * Pow256(width - 1)
  }

  function LittleEndian(n: nat, width: nat): (b: seq<byte>)
    ensures |b| == width
  {
    if width == 0 then [] else [n % 256] + LittleEndian(n / 256, width - 1)
  }

  function ValueOf(b: seq<byte>): nat {
    if b == [] then 0 else b[0] + 256 * ValueOf(b[1..])
  }

  lemma {:induction false} ValueOfLittleEndian(n: nat, width: nat)
    requires n < Pow256(width)
    ensures ValueOf(LittleEndian(n, width)) == n
  {
    if width != 0 {
      ValueOfLittleEndian(n / 256, width - 1);
      assert LittleEndian(n, width)[1..] == LittleEndian(n / 256, width - 1);
    }
  }

  lemma {:induction false} LittleEndianOfValue(b: seq<byte>)
    ensures ValueOf(b) < Pow256(|b|)
    ensures LittleEndian(ValueOf(b), |b|) == b
  {
    if b != [] {
      LittleEndianOfValue(b[1..]);
      assert ValueOf(b) % 256 == b[0] && ValueOf(b) / 256 == ValueOf(b[1..]);
    }
  }

  lemma Pow256Of8()
    ensures Pow256(8) == TWO_64
  {
    assert Pow256(4) == 0x1_0000_0000;
    assert Pow256(8) == 256 * 256 * 256 * 256 * Pow256(4);
  }

  function U64Bytes(x: u64): seq<byte> { LittleEndian(x, 8) }

  /** Two's complement. */
  function Unsigned(x: i64): u64 { if x < 0 then x + TWO_64 else x }

  function I64Bytes(x: i64): seq<byte> { LittleEndian(Unsigned(x), 8) }

  function U64At(b: seq<byte>, off: nat): (x: u64)
    requires off + 8 <= |b|
  {
    LittleEndianOfValue(b[off..off + 8]);
    Pow256Of8();
    ValueOf(b[off..off + 8])
  }

  function I64At(b: seq<byte>, off: nat): (x: i64)
    requires off + 8 <= |b|
  {
    WrapI64(ValueOf(b[off..off + 8]))
  }

  // ----- The codec -----

  function ToBytes(e: TimingEnvelope): (b: seq<byte>)
    ensures |b| == ENVELOPE_WIRE_LEN
  {
    [ENVELOPE_VERSION, ModalityByte(e.modality)] + RESERVED
    + I64Bytes(e.captureNs) + I64Bytes(e.sendNs) + I64Bytes(e.recvNs) + I64Bytes(e.processDoneNs)
    + U64Bytes(e.seqNo) + e.traceId
  }

  function FromBytes(b: seq<byte>): Result<TimingEnvelope, EnvelopeError> {
    if |b| != ENVELOPE_WIRE_LEN then Err(WrongLength(ENVELOPE_WIRE_LEN, |b|))
    else if b[0] != ENVELOPE_VERSION then Err(UnsupportedVersion(b[0]))
    else match ModalityOf(b[1])
      case Err(e) => Err(e)
      case Ok(m) =>
        Ok(TimingEnvelope(I64At(b, 8), I64At(b, 16), I64At(b, 24), I64At(b, 32), U64At(b, 40), m, b[48..64]))
  }

  lemma I64RoundTrip(x: i64)
    ensures |I64Bytes(x)| == 8 && I64At(I64Bytes(x), 0) == x
  {
    Pow256Of8();
    ValueOfLittleEndian(Unsigned(x), 8);
    assert I64Bytes(x)[0..8] == I64Bytes(x);
  }

  lemma FieldAt(b: seq<byte>, off: nat, x: i64)
    requires off + 8 <= |b| && b[off..off + 8] == I64Bytes(x)
    ensures I64At(b, off) == x
  {
    I64RoundTrip(x);
    assert I64Bytes(x)[0..8] == I64Bytes(x);
  }

  lemma TwosComplement(u: u64)
    ensures Unsigned(WrapI64(u)) == u
  {
  }

  lemma FieldBytes(b: seq<byte>, off: nat)
    requires off + 8 <= |b|
    ensures I64Bytes(I64At(b, off)) == b[off..off + 8]
  {
    var field := b[off..off + 8];
    LittleEndianOfValue(field);
    Pow256Of8();
    TwosComplement(ValueOf(field));
  }

  lemma Fields(h: seq<byte>, c: seq<byte>, s: seq<byte>, r: seq<byte>, p: seq<byte>, q: seq<byte>, t: seq<byte>)
    requires |h| == |c| == |s| == |r| == |p| == |q| == 8 && |t| == 16
    ensures var b := h + c + s + r + p + q + t;
      && b[8..16] == c && b[16..24] == s && b[24..32] == r && b[32..40] == p && b[40..48] == q && b[48..64] == t
  {
  }

  /** Every envelope survives the wire, negative stamps included. */
  lemma RoundTrip(e: TimingEnvelope)
    ensures FromBytes(ToBytes(e)) == Ok(e)
  {
    var b := ToBytes(e);
    Fields([ENVELOPE_VERSION, ModalityByte(e.modality)] + RESERVED, I64Bytes(e.captureNs), I64Bytes(e.sendNs),
      I64Bytes(e.recvNs), I64Bytes(e.processDoneNs), U64Bytes(e.seqNo), e.traceId);
    FieldAt(b, 8, e.captureNs);
    FieldAt(b, 16, e.sendNs);
    FieldAt(b, 24, e.recvNs);
    FieldAt(b, 32, e.processDoneNs);
    Pow256Of8();
    ValueOfLittleEndian(e.seqNo, 8);
  }

  function ByteAt(b: seq<byte>, k: nat): int
    requires k < |b|
  {
    b[k]
  }

  /** `b` holds `x` at `off` in eight bytes, the lowest first. */
  ghost predicate Holds(b: seq<byte>, off: nat, x: nat)
    requires off + 8 <= |b|
  {
    x == ByteAt(b, off) + 0x100 * ByteAt(b, off + 1) + 0x1_0000 * ByteAt(b, off + 2) + 0x100_0000 * ByteAt(b, off + 3)
      + 0x1_0000_0000 * ByteAt(b, off + 4) + 0x100_0000_0000 * ByteAt(b, off + 5)
      + 0x1_0000_0000_0000 * ByteAt(b, off + 6) + 0x100_0000_0000_0000 * ByteAt(b, off + 7)
  }

  lemma ValueOfFour(b: seq<byte>)
    requires |b| >= 4
    ensures ValueOf(b)
         == ByteAt(b, 0) + 0x100 * ByteAt(b, 1) + 0x1_0000 * ByteAt(b, 2) + 0x100_0000 * ByteAt(b, 3)
          + 0x1_0000_0000 * ValueOf(b[4..])
  {
    assert b[1..][1..] == b[2..] && b[2..][1..] == b[3..] && b[3..][1..] == b[4..];
    assert ValueOf(b[1..]) == b[1] + 256 * ValueOf(b[2..]);
    assert ValueOf(b[2..]) == b[2] + 256 * ValueOf(b[3..]);
    assert ValueOf(b[3..]) == b[3] + 256 * ValueOf(b[4..]);
  }

  lemma HoldsBytes(b: seq<byte>, off: nat, x: nat)
    requires off + 8 <= |b| && x < TWO_64 && b[off..off + 8] == LittleEndian(x, 8)
    ensures Holds(b, off, x)
  {
    var f := b[off..off + 8];
    Pow256Of8();
    ValueOfLittleEndian(x, 8);
    ValueOfFour(f);
    ValueOfFour(f[4..]);
    assert f[4..][4..] == [];
  }

  lemma StampHeld(b: seq<byte>, off: nat, x: i64)
    requires off + 8 <= |b| && b[off..off + 8] == I64Bytes(x)
    ensures Holds(b, off, Complement(x))
  {
    assert Unsigned(x) == Complement(x);
    HoldsBytes(b, off, Complement(x));
  }

  lemma WireFields(e: TimingEnvelope, b: seq<byte>)
    requires b == ToBytes(e)
    ensures b[8..16] == I64Bytes(e.captureNs) && b[16..24] == I64Bytes(e.sendNs)
    ensures b[24..32] == I64Bytes(e.recvNs) && b[32..40] == I64Bytes(e.processDoneNs)
    ensures b[40..48] == U64Bytes(e.seqNo) && b[48..64] == e.traceId
  {
    Fields([ENVELOPE_VERSION, ModalityByte(e.modality)] + RESERVED, I64Bytes(e.captureNs), I64Bytes(e.sendNs),
      I64Bytes(e.recvNs), I64Bytes(e.processDoneNs), U64Bytes(e.seqNo), e.traceId);
  }

  /** The wire format: version, modality and six zero bytes; the four stamps,
      two's complement if before 1970; the sequence number; the trace id. */
  lemma WireLayout(e: TimingEnvelope)
    ensures var b := ToBytes(e);
      && b[0] == 1
      && b[1] == (match e.modality case PointCloud => 0 case Video => 1 case Audio => 2 case Generic => 3)
      && (forall k :: 2 <= k < 8 ==> b[k] == 0)
    ensures var b := ToBytes(e);
      && Holds(b, 8, Complement(e.captureNs)) && Holds(b, 16, Complement(e.sendNs))
      && Holds(b, 24, Complement(e.recvNs)) && Holds(b, 32, Complement(e.processDoneNs))
      && Holds(b, 40, e.seqNo) && b[48..64] == e.traceId
  {
    var b := ToBytes(e);
    WireFields(e, b);
    StampHeld(b, 8, e.captureNs);
    StampHeld(b, 16, e.sendNs);
    StampHeld(b, 24, e.recvNs);
    StampHeld(b, 32, e.processDoneNs);
    HoldsBytes(b, 40, e.seqNo);
  }

  function Complement(x: i64): nat { x % 0x1_0000_0000_0000_0000 }

  /** Decoding accepts exactly the 64-byte, version-1 buffers with a known
      modality, and names the first thing wrong with any other. */
  lemma DecodeVerdict(b: seq<byte>)
    ensures FromBytes(b).Ok? <==> |b| == 64 && b[0] == 1 && b[1] <= 3
    ensures FromBytes(b) == Err(WrongLength(64, |b|)) <==> |b| != 64
    ensures |b| == 64 && b[0] != 1 ==> FromBytes(b) == Err(UnsupportedVersion(b[0]))
    ensures |b| == 64 && b[0] == 1 && 3 < b[1] ==> FromBytes(b) == Err(UnknownModality(b[1]))
  {
  }

  /** Re-encoding what was decoded gives the same bytes, the reserved ones
      zeroed. */
  lemma ReEncode(b: seq<byte>)
    requires FromBytes(b).Ok?
    ensures ToBytes(FromBytes(b).value) == b[..2] + RESERVED + b[8..]
  {
    FieldBytes(b, 8);
    FieldBytes(b, 16);
    FieldBytes(b, 24);
    FieldBytes(b, 32);
    LittleEndianOfValue(b[40..48]);
    Assemble(FromBytes(b).value, b);
  }

  lemma Assemble(e: TimingEnvelope, b: seq<byte>)
    requires |b| == 64 && b[0] == ENVELOPE_VERSION && b[1] == ModalityByte(e.modality)
    requires I64Bytes(e.captureNs) == b[8..16] && I64Bytes(e.sendNs) == b[16..24]
    requires I64Bytes(e.recvNs) == b[24..32] && I64Bytes(e.processDoneNs) == b[32..40]
    requires U64Bytes(e.seqNo) == b[40..48] && e.traceId == b[48..64]
    ensures ToBytes(e) == b[..2] + RESERVED + b[8..]
  {
    Tiles(b);
    assert [ENVELOPE_VERSION, ModalityByte(e.modality)] == b[..2];
    assert ToBytes(e) == b[..2] + RESERVED
      + (b[8..16] + b[16..24] + b[24..32] + b[32..40] + b[40..48] + b[48..64]);
  }

  lemma Tiles(b: seq<byte>)
    requires |b| == 64
    ensures b[8..] == b[8..16] + b[16..24] + b[24..32] + b[32..40] + b[40..48] + b[48..64]
  {
  }
}
