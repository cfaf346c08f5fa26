/**
 The chunk wire format: 8-byte header, payload, little-endian CRC-16. The
 encoder is the SDK's, the decoder the server's.
 */
module Wire {
  import opened Bytes
  import opened Crc16

  const MAGIC: byte := 0xEC
  const VERSION: byte := 1
  const HEADER_SIZE := 8
  const CRC_SIZE := 2
  const MIN_CHUNK_SIZE := 10

  datatype ChunkType = Heartbeat | Metrics | FaultRecord | TraceFragment | RebootReason | DeviceInfo | OtaRequest
  {
    function ToByte(): (b: byte)
      ensures 1 <= b <= 7 && FromByte(b) == Some(this)
    {
      match this
      case Heartbeat => 1
      case Metrics => 2
      case FaultRecord => 3
      case TraceFragment => 4
      case RebootReason => 5
      case DeviceInfo => 6
      case OtaRequest => 7
    }

    static function FromByte(b: byte): (t: Option<ChunkType>)
      ensures t.Some? <==> 1 <= b <= 7
    {
      match b
      case 1 => Some(Heartbeat)
      case 2 => Some(Metrics)
      case 3 => Some(FaultRecord)
      case 4 => Some(TraceFragment)
      case 5 => Some(RebootReason)
      case 6 => Some(DeviceInfo)
      case 7 => Some(OtaRequest)
      case _ => None
    }
  }

  datatype Chunk = Chunk(chunkType: ChunkType, sequenceId: u16, flags: byte, payload: seq<byte>)

  datatype DecodeError =
    | TooShort
    | BadMagic(b: byte)
    | BadVersion(b: byte)
    | UnknownType(b: byte)
    | PayloadTruncated
    | CrcMismatch(expected: u16, got: u16)

  datatype Decoded = Ok(chunk: Chunk, consumed: nat) | Err(error: DecodeError)

  // ---- Header fields of raw bytes --------------------------------------------

  function PayloadLen(b: seq<byte>): u16
    requires |b| >= HEADER_SIZE
  {
    U16(b[4], b[5])
  }

  /** Header, payload and CRC together. */
  function TotalLen(b: seq<byte>): nat
    requires |b| >= HEADER_SIZE
  {
    HEADER_SIZE + PayloadLen(b) + CRC_SIZE
  }

  predicate CrcMatches(b: seq<byte>)
    requires |b| >= HEADER_SIZE && |b| >= TotalLen(b)
  {
    var end := HEADER_SIZE + PayloadLen(b);
    U16(b[end], b[end + 1]) == Checksum(b[..end])
  }

  // ---- Encoding and decoding -------------------------------------------------

  function Header(typeByte: byte, flags: byte, payloadLen: u16, sequenceId: u16): (h: seq<byte>)
    ensures |h| == HEADER_SIZE
  {
    [MAGIC, VERSION, typeByte, flags] + U16Bytes(payloadLen) + U16Bytes(sequenceId)
  }

  /** A header and payload followed by their checksum. */
  function WithCrc(body: seq<byte>): seq<byte> {
    body + U16Bytes(Checksum(body))
  }

  function EncodeChunk(c: Chunk): (raw: seq<byte>)
    requires |c.payload| < 0x1_0000
    ensures |raw| == HEADER_SIZE + |c.payload| + CRC_SIZE
  {
    WithCrc(Header(c.chunkType.ToByte(), c.flags, |c.payload|, c.sequenceId) + c.payload)
  }

  function DecodeChunk(bytes: seq<byte>): (r: Decoded)
    ensures r.Ok? ==> MIN_CHUNK_SIZE <= r.consumed <= |bytes|
  {
    if |bytes| < MIN_CHUNK_SIZE then Err(TooShort)
    else if bytes[0] != MAGIC then Err(BadMagic(bytes[0]))
    else if bytes[1] != VERSION then Err(BadVersion(bytes[1]))
    else
      match ChunkType.FromByte(bytes[2])
      case None => Err(UnknownType(bytes[2]))
      case Some(t) =>
        if |bytes| < TotalLen(bytes) then Err(PayloadTruncated)
        else
          var end := HEADER_SIZE + PayloadLen(bytes);
          if CrcMatches(bytes) then
            Ok(Chunk(t, U16(bytes[6], bytes[7]), bytes[3], bytes[HEADER_SIZE..end]), end + CRC_SIZE)
          else
            Err(CrcMismatch(U16(bytes[end], bytes[end + 1]), Checksum(bytes[..end])))
  }

  /** Decoding succeeds exactly on what the encoder writes, whatever follows it. */
  lemma DecodeIffEncoded(bytes: seq<byte>, c: Chunk, n: nat)
    ensures DecodeChunk(bytes) == Ok(c, n) <==>
            |c.payload| < 0x1_0000 && EncodeChunk(c) <= bytes && n == |EncodeChunk(c)|
  {
    if DecodeChunk(bytes) == Ok(c, n) {
      DecodedIsEncoded(bytes, c, n);
    }
    if |c.payload| < 0x1_0000 && EncodeChunk(c) <= bytes && n == |EncodeChunk(c)| {
      EncodedDecodes(bytes, c);
    }
  }

  lemma EncodedDecodes(bytes: seq<byte>, c: Chunk)
    requires |c.payload| < 0x1_0000 && EncodeChunk(c) <= bytes
    ensures DecodeChunk(bytes) == Ok(c, |EncodeChunk(c)|)
  {
    hide Update, FromBits;
    var raw := EncodeChunk(c);
    var end := HEADER_SIZE + |c.payload|;
    var body := Header(c.chunkType.ToByte(), c.flags, |c.payload|, c.sequenceId) + c.payload;
    assert raw == bytes[..|raw|];
    assert raw[..end] == body == bytes[..end];
    assert forall i :: 0 <= i < HEADER_SIZE ==> bytes[i] == raw[i] == body[i];
    assert bytes[end] == raw[end] && bytes[end + 1] == raw[end + 1];
    assert body[HEADER_SIZE..] == bytes[HEADER_SIZE..end];
  }

  lemma HeaderRebuilt(bytes: seq<byte>)
    requires |bytes| >= HEADER_SIZE && bytes[0] == MAGIC && bytes[1] == VERSION
    ensures Header(bytes[2], bytes[3], PayloadLen(bytes), U16(bytes[6], bytes[7])) == bytes[..HEADER_SIZE]
  {
    U16Unique(PayloadLen(bytes), bytes[4], bytes[5]);
    U16Unique(U16(bytes[6], bytes[7]), bytes[6], bytes[7]);
  }

  lemma DecodedIsEncoded(bytes: seq<byte>, c: Chunk, n: nat)
    requires DecodeChunk(bytes) == Ok(c, n)
    ensures |c.payload| < 0x1_0000 && n == |EncodeChunk(c)| && bytes[..n] == EncodeChunk(c)
  {
    hide Checksum;
    var end := n - CRC_SIZE;
    assert |c.payload| == PayloadLen(bytes) && end == HEADER_SIZE + |c.payload|;
    HeaderRebuilt(bytes);
    var body := Header(c.chunkType.ToByte(), c.flags, |c.payload|, c.sequenceId) + c.payload;
    assert body == bytes[..HEADER_SIZE] + bytes[HEADER_SIZE..end] == bytes[..end];
    hide Header;
    U16Unique(Checksum(body), bytes[end], bytes[end + 1]);
    assert bytes[..n] == body + [bytes[end], bytes[end + 1]];
  }

  lemma U16Unique(v: u16, lo: byte, hi: byte)
    requires v == U16(lo, hi)
    ensures U16Bytes(v) == [lo, hi]
  {
    LowDigit(lo, hi);
  }

  /**
   Damage to flags, sequence or payload of a good chunk, confined to a burst of
   16 bits, never decodes: the checksum gives it away.
   */
  lemma DamageRejected(good: seq<byte>, bad: seq<byte>, c: Chunk, n: nat, start: nat, width: nat)
    requires DecodeChunk(good) == Ok(c, n)
    requires |bad| == |good| && bad[n - CRC_SIZE..] == good[n - CRC_SIZE..]
    requires bad[..3] == good[..3] && bad[4..6] == good[4..6]
    requires DifferInBurst(good[..n - CRC_SIZE], bad[..n - CRC_SIZE], start, width) && width <= 16
    ensures DecodeChunk(bad) == Err(CrcMismatch(Checksum(good[..n - CRC_SIZE]), Checksum(bad[..n - CRC_SIZE])))
  {
    hide Update, FromBits;
    var end := n - CRC_SIZE;
    BurstDetected(good[..end], bad[..end], start, width);
    assert forall i :: 0 <= i < 3 ==> bad[i] == bad[..3][i] == good[..3][i] == good[i];
    assert bad[4] == bad[4..6][0] == good[4] && bad[5] == bad[4..6][1] == good[5];
    assert bad[end] == bad[end..][0] == good[end] && bad[end + 1] == bad[end..][1] == good[end + 1];
  }

  // ---- Batches ---------------------------------------------------------------

  /** The chunks of a batch up to the first byte that does not decode. */
  function DecodeAll(bytes: seq<byte>): seq<Chunk>
    decreases |bytes|
  {
    match DecodeChunk(bytes)
    case Ok(c, n) => [c] + DecodeAll(bytes[n..])
    case Err(_) => []
  }

  method DecodeAllChunks(bytes: seq<byte>) returns (chunks: seq<Chunk>)
    ensures chunks == DecodeAll(bytes)
  {
    hide DecodeChunk, DecodeAll;
    chunks := [];
    var offset := 0;
    assert bytes[0..] == bytes;
    while offset < |bytes|
      invariant offset <= |bytes|
      invariant chunks + DecodeAll(bytes[offset..]) == DecodeAll(bytes)
    {
      DecodeAllStep(bytes[offset..]);
      match DecodeChunk(bytes[offset..])
      case Ok(chunk, consumed) =>
        assert bytes[offset..][consumed..] == bytes[offset + consumed..];
        ghost var rest := DecodeAll(bytes[offset + consumed..]);
        assert chunks + ([chunk] + rest) == chunks + [chunk] + rest;
        chunks := chunks + [chunk];
        offset := offset + consumed;
      case Err(_) =>
        assert chunks + [] == chunks;
        return;
    }
    DecodeAllStep(bytes[offset..]);
    assert chunks + [] == chunks;
  }

  lemma DecodeAllStep(bytes: seq<byte>)
    ensures DecodeChunk(bytes).Ok? ==>
              DecodeAll(bytes) == [DecodeChunk(bytes).chunk] + DecodeAll(bytes[DecodeChunk(bytes).consumed..])
    ensures DecodeChunk(bytes).Err? ==> DecodeAll(bytes) == []
    ensures bytes == [] ==> DecodeAll(bytes) == []
  {
    hide Checksum;
  }

  ghost predicate Encodable(cs: seq<Chunk>) {
    forall c :: c in cs ==> |c.payload| < 0x1_0000
  }

  function EncodeAll(cs: seq<Chunk>): seq<byte>
    requires Encodable(cs)
  {
    if cs == [] then [] else EncodeChunk(cs[0]) + EncodeAll(cs[1..])
  }

  /** A batch decodes to the chunks that were put in it, in order. */
  lemma {:induction false} BatchRoundTrip(cs: seq<Chunk>, tail: seq<byte>)
    requires Encodable(cs)
    ensures DecodeAll(EncodeAll(cs) + tail) == cs + DecodeAll(tail)
  {
    hide DecodeChunk, EncodeChunk, DecodeAll, EncodeAll;
    EncodeAllStep(cs, tail);
    if cs != [] {
      FirstDecodes(cs[0], EncodeAll(cs[1..]) + tail);
      BatchRoundTrip(cs[1..], tail);
      Assoc([cs[0]], cs[1..], DecodeAll(tail));
      assert cs == [cs[0]] + cs[1..];
    }
  }

  lemma EncodeAllStep(cs: seq<Chunk>, tail: seq<byte>)
    requires Encodable(cs)
    ensures EncodeAll(cs) + tail == if cs == [] then tail else EncodeChunk(cs[0]) + (EncodeAll(cs[1..]) + tail)
  {
    hide EncodeChunk;
    if cs != [] { Assoc(EncodeChunk(cs[0]), EncodeAll(cs[1..]), tail); }
  }

  lemma FirstDecodes(c: Chunk, rest: seq<byte>)
    requires |c.payload| < 0x1_0000
    ensures DecodeAll(EncodeChunk(c) + rest) == [c] + DecodeAll(rest)
  {
    hide DecodeChunk, EncodeChunk, DecodeAll;
    var raw := EncodeChunk(c);
    EncodedDecodes(raw + rest, c);
    DecodeAllStep(raw + rest);
    assert (raw + rest)[|raw|..] == rest;
  }
}
