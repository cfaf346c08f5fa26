/**
 From a device to the server: chunks sealed one after the other, sent over a
 noisy line, framed and forwarded by the gateway, decoded, opened and filed.
 */
module EndToEnd {
  import opened Bytes
  import opened Wire
  import opened Credentials
  import opened ReplayWindow
  import opened Sealing
  import F = Framer
  import G = Grouping

  const WRAP: nat := 0x1_0000_0000

  /** A chunk the device's encoder made, and the line noise that comes before it. */
  datatype Shipment = Shipment(noise: seq<byte>, chunk: Chunk)

  /** The noise holds no magic byte, and the chunk still fits when sealed. */
  predicate Good(s: Shipment) {
    MAGIC !in s.noise && MIN_CHUNK_SIZE + NONCE_SIZE + |s.chunk.payload| + TAG_SIZE <= MAX_SEALED
  }

  lemma GoodIsSealable(s: Shipment)
    requires Good(s)
    ensures Sealable(EncodeChunk(s.chunk)) && DecodeChunk(EncodeChunk(s.chunk)) == Ok(s.chunk, |EncodeChunk(s.chunk)|)
  {
    hide DecodeChunk;
    EncodedDecodes(EncodeChunk(s.chunk), s.chunk);
    HeaderSize(s.chunk);
    hide EncodeChunk;
  }

  lemma HeaderSize(c: Chunk)
    requires |c.payload| < 0x1_0000
    ensures PayloadLen(EncodeChunk(c)) == |c.payload|
  {
    hide WithCrc;
    assert EncodeChunk(c)[..HEADER_SIZE] == Header(c.chunkType.ToByte(), c.flags, |c.payload|, c.sequenceId) by {
      WithCrcKeeps(Header(c.chunkType.ToByte(), c.flags, |c.payload|, c.sequenceId) + c.payload);
    }
    assert EncodeChunk(c)[4] == EncodeChunk(c)[..HEADER_SIZE][4] && EncodeChunk(c)[5] == EncodeChunk(c)[..HEADER_SIZE][5];
  }

  lemma WithCrcKeeps(body: seq<byte>)
    ensures |WithCrc(body)| == |body| + CRC_SIZE && WithCrc(body)[..|body|] == body
  {
  }

  predicate AllGood(ships: seq<Shipment>) {
    forall i :: 0 <= i < |ships| ==> Good(ships[i])
  }

  function Number(c: Credential, epoch: u32, k: nat): Nonce
    requires k < WRAP
  {
    Nonce(k, epoch, c.keyId, VERSION_CREDENTIAL)
  }

  /** What goes over the line: counter k on, from one boot. */
  function Transmission(a: Aead, c: Credential, epoch: u32, k: nat, ships: seq<Shipment>): seq<byte>
    requires AllGood(ships) && k + |ships| <= WRAP
    decreases |ships|
  {
    if ships == [] then []
    else
      GoodIsSealable(ships[0]);
      ships[0].noise + Seal(a, c.secret, Number(c, epoch, k), EncodeChunk(ships[0].chunk))
      + Transmission(a, c, epoch, k + 1, ships[1..])
  }

  function SealedChunk(a: Aead, c: Credential, epoch: u32, k: nat, o: Chunk): Chunk
    requires k < WRAP
  {
    o.(flags := SetFlag(o.flags, Encrypted), payload := SealedPayload(a, c.secret, Number(c, epoch, k), o.payload))
  }

  function SealedChunks(a: Aead, c: Credential, epoch: u32, k: nat, ships: seq<Shipment>): (cs: seq<Chunk>)
    requires AllGood(ships) && k + |ships| <= WRAP
    ensures |cs| == |ships|
    decreases |ships|
  {
    if ships == [] then []
    else [SealedChunk(a, c, epoch, k, ships[0].chunk)] + SealedChunks(a, c, epoch, k + 1, ships[1..])
  }

  // ---- Over the line ---------------------------------------------------------------

  lemma SealIsEncoding(a: Aead, c: Credential, epoch: u32, k: nat, s: Shipment)
    requires Sound(a) && Good(s) && k < WRAP
    ensures var chunk := SealedChunk(a, c, epoch, k, s.chunk);
            && |chunk.payload| <= F.MAX_CHUNK_SIZE - MIN_CHUNK_SIZE
            && Sealable(EncodeChunk(s.chunk))
            && Seal(a, c.secret, Number(c, epoch, k), EncodeChunk(s.chunk)) == EncodeChunk(chunk)
  {
    hide Seal, SealedPayload, EncodeChunk, Sound, Sealable, ParseNonce, Decrypt, DecodeChunk;
    var n, raw := Number(c, epoch, k), EncodeChunk(s.chunk);
    GoodIsSealable(s);
    SealedChunkDecodes(a, c.secret, n, raw, s.chunk, |raw|);
    var sealed := Seal(a, c.secret, n, raw);
    DecodedIsEncoded(sealed, SealedChunk(a, c, epoch, k, s.chunk), |sealed|);
    assert sealed[..|sealed|] == sealed;
  }

  function OnTheLine(ships: seq<Shipment>, cs: seq<Chunk>): (sent: seq<F.Sent>)
    requires |ships| == |cs|
    ensures |sent| == |cs| && forall i :: 0 <= i < |cs| ==> sent[i] == F.Sent(ships[i].noise, cs[i])
  {
    if ships == [] then [] else [F.Sent(ships[0].noise, cs[0])] + OnTheLine(ships[1..], cs[1..])
  }

  lemma LineCons(x: F.Sent, rest: seq<F.Sent>)
    requires MAGIC !in x.noise && |x.chunk.payload| <= F.MAX_CHUNK_SIZE - MIN_CHUNK_SIZE && F.Receivable(rest)
    ensures F.Receivable([x] + rest)
    ensures F.Line([x] + rest) == x.noise + EncodeChunk(x.chunk) + F.Line(rest)
  {
    hide EncodeChunk;
    assert ([x] + rest)[1..] == rest;
  }

  lemma {:induction false} TransmissionIsLine(a: Aead, c: Credential, epoch: u32, k: nat, ships: seq<Shipment>)
    requires Sound(a) && AllGood(ships) && k + |ships| <= WRAP
    ensures var sent := OnTheLine(ships, SealedChunks(a, c, epoch, k, ships));
            F.Receivable(sent) && F.Line(sent) == Transmission(a, c, epoch, k, ships)
    decreases |ships|
  {
    hide Seal, EncodeChunk, Sound, SealedChunk, F.Line, F.Receivable, Sealable, DecodeChunk;
    if ships == [] {
      NothingSent();
    } else {
      assert Good(ships[0]);
      SealIsEncoding(a, c, epoch, k, ships[0]);
      TransmissionIsLine(a, c, epoch, k + 1, ships[1..]);
      var cs := SealedChunks(a, c, epoch, k, ships);
      assert cs[1..] == SealedChunks(a, c, epoch, k + 1, ships[1..]);
      LineCons(F.Sent(ships[0].noise, cs[0]), OnTheLine(ships[1..], cs[1..]));
    }
  }

  lemma NothingSent()
    ensures F.Receivable([]) && F.Line([]) == []
  {
  }

  lemma {:induction false} ConcatIsBatch(raws: seq<seq<byte>>, cs: seq<Chunk>)
    requires Encodable(cs) && |raws| == |cs| && forall i :: 0 <= i < |cs| ==> raws[i] == EncodeChunk(cs[i])
    ensures F.Concat(raws) == EncodeAll(cs)
    decreases |cs|
  {
    hide EncodeChunk;
    if cs != [] { ConcatIsBatch(raws[1..], cs[1..]); }
  }

  /** Whatever reads the line is cut into, the server decodes exactly the sealed chunks. */
  lemma Received(a: Aead, c: Credential, epoch: u32, ships: seq<Shipment>, parts: seq<seq<byte>>)
    requires Sound(a) && AllGood(ships) && |ships| <= WRAP
    ensures F.Concat(parts) == Transmission(a, c, epoch, 0, ships) ==>
              var (chunks, rest) := F.FeedAll([], parts);
              rest == [] && DecodeAll(F.Concat(F.Raws(chunks))) == SealedChunks(a, c, epoch, 0, ships)
  {
    hide EncodeChunk, DecodeChunk, DecodeAll, F.Scan, F.Decide, Transmission, SealedChunk, Sound, F.Line, F.Receivable;
    var cs := SealedChunks(a, c, epoch, 0, ships);
    var sent := OnTheLine(ships, cs);
    TransmissionIsLine(a, c, epoch, 0, ships);
    F.Resynchronises(sent);
    F.NothingToDecide();
    if F.Concat(parts) != F.Line(sent) { return; }
    F.SplittingInvariant([], parts);
    assert [] + F.Concat(parts) == F.Concat(parts);
    var chunks := F.Scan(F.Line(sent)).0;
    PayloadsFit(ships, cs);
    ConcatIsBatch(F.Raws(chunks), cs);
    BatchRoundTrip(cs, []);
    assert EncodeAll(cs) + [] == EncodeAll(cs);
    DecodeAllStep([]);
    assert cs + [] == cs;
  }

  lemma PayloadsFit(ships: seq<Shipment>, cs: seq<Chunk>)
    requires |ships| == |cs| && F.Receivable(OnTheLine(ships, cs))
    ensures Encodable(cs)
  {
    var sent := OnTheLine(ships, cs);
    forall i | 0 <= i < |cs| ensures |cs[i].payload| < 0x1_0000 { assert sent[i].chunk == cs[i]; }
  }

  // ---- At the server -------------------------------------------------------------------

  /** The table takes counter k of this epoch next: nothing seen yet, or only lower ones. */
  predicate Expects(t: Table, p: EpochKey, k: nat) {
    p !in t || t[p].max < k
  }

  lemma AcceptsNext(s: State, keyId: u32, epoch: u32, k: u32, now: nat)
    requires Expects(s.epochs, (keyId, epoch), k)
    ensures var (f, s') := Accepted(s, keyId, epoch, k, now);
            f.Fresh? && Expects(s'.epochs, (keyId, epoch), k + 1)
  {
    var p := (keyId, epoch);
    RefusedIff(s, keyId, epoch, k, now);
    if p !in s.epochs {
      var t := s.epochs[p := Row(k, Recent({k}), now, s.nextRowid)];
      EmptyOldKeeps(t, keyId);
      hide EmptyOld;
      assert EmptyOld(t, keyId)[p].(window := Emptied) == t[p].(window := Emptied);
    }
  }

  /** The chunk as the server files it: the device's own, not marked encrypted. */
  function Filing(o: Chunk): Chunk { o.(flags := ClearFlag(o.flags, Encrypted)) }

  lemma OpensNext(a: Aead, s: Server, cfg: G.Config, device: DeviceId, epoch: u32, k: nat, o: Chunk, now: nat)
    requires Sound(a) && k < WRAP && device in s.credentials
    requires Expects(s.epochs, (s.credentials[device].keyId, epoch), k)
    ensures var c := s.credentials[device]; var chunk := SealedChunk(a, c, epoch, k, o);
            && G.FateOf(a, s, cfg, chunk, now) == G.ToDevice(device, Filing(o))
            && var s' := G.NextServer(a, s, chunk, now);
               s'.credentials == s.credentials && Expects(s'.epochs, (c.keyId, epoch), k + 1)
  {
    hide SealedPayload, Decrypt, ParseNonce, CredentialNonce, Accepted, Expects;
    var c := s.credentials[device];
    var n := Number(c, epoch, k);
    ClearAfterSet(o.flags, Encrypted);
    EntryOpens(a, Entry(device, c, n, o.payload));
    assert LookUp(s.credentials, c.keyId) == Some((device, c.secret));
    AcceptsNext(Core(s), c.keyId, epoch, k, now);
  }

  lemma {:induction false} OpensAll(a: Aead, s: Server, cfg: G.Config, device: DeviceId, epoch: u32, k: nat,
                                    ships: seq<Shipment>, now: nat)
    requires Sound(a) && AllGood(ships) && k + |ships| <= WRAP && device in s.credentials
    requires Expects(s.epochs, (s.credentials[device].keyId, epoch), k)
    ensures var fates := G.Fates(a, s, cfg, SealedChunks(a, s.credentials[device], epoch, k, ships), now);
            |fates| == |ships| && forall i :: 0 <= i < |ships| ==> fates[i] == G.ToDevice(device, Filing(ships[i].chunk))
    decreases |ships|
  {
    hide G.FateOf, G.NextServer, Good, Expects, SealedChunk, Filing, Sound;
    if ships != [] {
      var chunk := SealedChunk(a, s.credentials[device], epoch, k, ships[0].chunk);
      OpensNext(a, s, cfg, device, epoch, k, ships[0].chunk, now);
      OpensAll(a, G.NextServer(a, s, chunk, now), cfg, device, epoch, k + 1, ships[1..], now);
    }
  }

  /**
   Whatever a device seals in a new boot, sent over a line with noise free of
   the magic byte and read in pieces of any size, is filed in order with its
   original payloads under that device, and nothing else is.
   */
  lemma SealedChunksArrive(a: Aead, s: Server, cfg: G.Config, device: DeviceId, epoch: u32, ships: seq<Shipment>,
                           parts: seq<seq<byte>>, now: nat)
    requires Sound(a) && AllGood(ships) && |ships| <= WRAP && device in s.credentials
    requires (s.credentials[device].keyId, epoch) !in s.epochs
    requires F.Concat(parts) == Transmission(a, s.credentials[device], epoch, 0, ships)
    ensures var (chunks, rest) := F.FeedAll([], parts);
            var fates := G.Fates(a, s, cfg, DecodeAll(F.Concat(F.Raws(chunks))), now);
            && rest == [] && |fates| == |ships|
            && forall i :: 0 <= i < |ships| ==> fates[i] == G.ToDevice(device, Filing(ships[i].chunk))
  {
    Received(a, s.credentials[device], epoch, ships, parts);
    OpensAll(a, s, cfg, device, epoch, 0, ships, now);
    hide Transmission, SealedChunks, F.FeedAll, G.Fates, DecodeAll, Sound, Good, F.Concat;
  }
}
