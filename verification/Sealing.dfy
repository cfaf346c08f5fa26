/**
 Sealed chunks, from the device that numbers and encrypts them to the server
 that opens them. AES-CCM is a pair of functions the results quantify over.
 */
module Sealing {
  import opened Bytes
  import opened Wire
  import opened Crc16
  import opened ReplayWindow
  import opened Credentials

  const NONCE_SIZE := 13
  const TAG_SIZE := 8
  const MAX_SEALED := 256
  const VERSION_CREDENTIAL: byte := 1
  const VERSION_SHARED: byte := 0

  // ---- Nonces ----------------------------------------------------------------

  datatype Nonce = Nonce(counter: u32, bootEpoch: u32, keyId: u32, version: byte)

  function NonceBytes(n: Nonce): (b: seq<byte>)
    ensures |b| == NONCE_SIZE
  {
    LeBytes(n.counter, 4) + LeBytes(n.bootEpoch, 4) + LeBytes(n.keyId, 4) + [n.version]
  }

  function Word(b: seq<byte>): u32
    requires |b| == 4
  {
    Pow256Values();
    LeValue(b)
  }

  function ParseNonce(b: seq<byte>): Option<Nonce> {
    if |b| != NONCE_SIZE then None
    else Some(Nonce(Word(b[0..4]), Word(b[4..8]), Word(b[8..12]), b[12]))
  }

  /** A nonce and its 13 bytes determine each other. */
  lemma NonceRoundTrip(b: seq<byte>, n: Nonce)
    ensures ParseNonce(b) == Some(n) <==> b == NonceBytes(n)
  {
    hide LeValue, LeBytes, Pow256;
    Pow256Values();
    var nb := NonceBytes(n);
    assert nb[0..4] == LeBytes(n.counter, 4) && nb[4..8] == LeBytes(n.bootEpoch, 4) && nb[8..12] == LeBytes(n.keyId, 4);
    LeBytesValue(n.counter, 4);
    LeBytesValue(n.bootEpoch, 4);
    LeBytesValue(n.keyId, 4);
    if |b| == NONCE_SIZE {
      LeValueBytes(b[0..4]);
      LeValueBytes(b[4..8]);
      LeValueBytes(b[8..12]);
      assert b == b[0..4] + b[4..8] + b[8..12] + [b[12]];
    }
  }

  // ---- Authenticated encryption ----------------------------------------------

  type Key = seq<byte>

  /** Encryption gives ciphertext and tag; decryption gives the plaintext if the tag verifies. */
  datatype Aead = Aead(
    encrypt: (Key, seq<byte>, seq<byte>) -> (seq<byte>, seq<byte>),
    decrypt: (Key, seq<byte>, seq<byte>, seq<byte>) -> Option<seq<byte>>)

  ghost predicate Sound(a: Aead) {
    forall k, n, p ::
      && |a.encrypt(k, n, p).0| == |p|
      && |a.encrypt(k, n, p).1| == TAG_SIZE
      && a.decrypt(k, n, a.encrypt(k, n, p).0, a.encrypt(k, n, p).1) == Some(p)
  }

  /** Nonce, ciphertext and tag. */
  function SealedPayload(a: Aead, key: Key, n: Nonce, plain: seq<byte>): seq<byte> {
    var (ct, tag) := a.encrypt(key, NonceBytes(n), plain);
    NonceBytes(n) + ct + tag
  }

  /** `decrypt_chunk_payload` */
  function Decrypt(a: Aead, key: Key, sealed: seq<byte>): Option<seq<byte>> {
    if |sealed| < NONCE_SIZE + TAG_SIZE then None
    else
      var end := |sealed| - TAG_SIZE;
      a.decrypt(key, sealed[..NONCE_SIZE], sealed[NONCE_SIZE..end], sealed[end..])
  }

  lemma SealedOpens(a: Aead, key: Key, n: Nonce, plain: seq<byte>)
    requires Sound(a)
    ensures var sealed := SealedPayload(a, key, n, plain);
            && |sealed| == NONCE_SIZE + |plain| + TAG_SIZE
            && ParseNonce(sealed[..NONCE_SIZE]) == Some(n)
            && Decrypt(a, key, sealed) == Some(plain)
  {
    hide ParseNonce, NonceBytes;
    var nonce := NonceBytes(n);
    var (ct, tag) := a.encrypt(key, nonce, plain);
    var sealed := SealedPayload(a, key, n, plain);
    NonceRoundTrip(nonce, n);
    assert sealed[..NONCE_SIZE] == nonce;
    assert sealed[NONCE_SIZE..|sealed| - TAG_SIZE] == ct && sealed[|sealed| - TAG_SIZE..] == tag;
  }

  // ---- The sealer ------------------------------------------------------------

  /** Whether `seal` takes `raw`: a whole chunk whose payload still fits when sealed. */
  predicate Sealable(raw: seq<byte>) {
    |raw| >= MIN_CHUNK_SIZE && |raw| >= TotalLen(raw)
    && MIN_CHUNK_SIZE + NONCE_SIZE + PayloadLen(raw) + TAG_SIZE <= MAX_SEALED
  }

  function Plain(raw: seq<byte>): seq<byte>
    requires Sealable(raw)
  {
    raw[HEADER_SIZE..HEADER_SIZE + PayloadLen(raw)]
  }

  /** The header of `raw`, marked encrypted, with a new payload length. */
  function SealedHeader(raw: seq<byte>, sealedLen: u16): (h: seq<byte>)
    requires |raw| >= HEADER_SIZE
    ensures |h| == HEADER_SIZE
  {
    raw[..3] + [SetFlag(raw[3], Encrypted)] + U16Bytes(sealedLen) + raw[6..8]
  }

  function Seal(a: Aead, key: Key, n: Nonce, raw: seq<byte>): seq<byte>
    requires Sealable(raw)
  {
    WithCrc(SealedHeader(raw, NONCE_SIZE + PayloadLen(raw) + TAG_SIZE) + SealedPayload(a, key, n, Plain(raw)))
  }

  class ChunkSealer {
    const aead: Aead
    const key: Key
    const bootEpoch: u32
    const keyId: u32
    const version: byte
    var counter: u32

    constructor ForDevice(aead: Aead, credential: Credential, bootEpoch: u32)
      ensures this.aead == aead && this.bootEpoch == bootEpoch && counter == 0 && version == VERSION_CREDENTIAL
      ensures key == credential.secret && keyId == credential.keyId
    {
      this.aead, this.key, this.bootEpoch := aead, credential.secret, bootEpoch;
      keyId, version, counter := credential.keyId, VERSION_CREDENTIAL, 0;
    }

    constructor Shared(aead: Aead, key: Key, bootEpoch: u32)
      ensures this.aead == aead && this.bootEpoch == bootEpoch && counter == 0 && version == VERSION_SHARED
      ensures this.key == key && keyId == 0
    {
      this.aead, this.key, this.bootEpoch := aead, key, bootEpoch;
      keyId, version, counter := 0, VERSION_SHARED, 0;
    }

    /** Seals a chunk under the next counter, or refuses it and keeps the counter. */
    method SealChunk(raw: seq<byte>) returns (sealed: Option<seq<byte>>)
      modifies this`counter
      ensures sealed == if Sealable(raw) then Some(Seal(aead, key, Nonce(old(counter), bootEpoch, keyId, version), raw)) else None
      ensures counter == if Sealable(raw) then (old(counter) + 1) % 0x1_0000_0000 else old(counter)
    {
      hide Checksum, NonceBytes, SealedHeader;
      if |raw| < MIN_CHUNK_SIZE {
        return None;
      }
      var payloadLen := U16(raw[4], raw[5]);
      if |raw| < MIN_CHUNK_SIZE + payloadLen {
        return None;
      }
      var sealedLen := NONCE_SIZE + payloadLen + TAG_SIZE;
      if MIN_CHUNK_SIZE + sealedLen > MAX_SEALED {
        return None;
      }
      var nonce := NonceBytes(Nonce(counter, bootEpoch, keyId, version));
      counter := (counter + 1) % 0x1_0000_0000;
      var out := SealedHeader(raw, sealedLen);
      var (ct, tag) := aead.encrypt(key, nonce, raw[HEADER_SIZE..HEADER_SIZE + payloadLen]);
      out := out + (nonce + ct + tag);
      var crc := Crc16Ccitt(out);
      sealed := Some(out + U16Bytes(crc));
    }

    /** What the transport sends: a device credential never falls back to cleartext. */
    method Prepare(chunk: seq<byte>) returns (sent: Option<seq<byte>>)
      modifies this`counter
      ensures Sealable(chunk) ==> sent == Some(Seal(aead, key, Nonce(old(counter), bootEpoch, keyId, version), chunk))
      ensures !Sealable(chunk) ==> sent == if version == VERSION_CREDENTIAL then None else Some(chunk)
      ensures version == VERSION_CREDENTIAL && sent.Some? ==> |sent.value| > 3 && HasFlag(sent.value[3], Encrypted)
    {
      hide SealedPayload, Checksum;
      var sealed := SealChunk(chunk);
      if sealed.Some? {
        ClearAfterSet(chunk[3], Encrypted);
        return sealed;
      }
      return if version == VERSION_CREDENTIAL then None else Some(chunk);
    }
  }

  /** What arrives is a good chunk of the same type and sequence that opens to the original payload. */
  lemma SealedChunkDecodes(a: Aead, key: Key, n: Nonce, raw: seq<byte>, c: Chunk, size: nat)
    requires Sound(a) && Sealable(raw) && DecodeChunk(raw) == Ok(c, size)
    ensures var sealed := Seal(a, key, n, raw);
            var payload := SealedPayload(a, key, n, c.payload);
            && |sealed| == size + NONCE_SIZE + TAG_SIZE <= MAX_SEALED
            && DecodeChunk(sealed) == Ok(c.(flags := SetFlag(c.flags, Encrypted), payload := payload), |sealed|)
            && ParseNonce(payload[..NONCE_SIZE]) == Some(n)
            && Decrypt(a, key, payload) == Some(c.payload)
  {
    hide Checksum, SealedPayload, Decrypt, ParseNonce, Sound, SetFlag;
    SealedOpens(a, key, n, c.payload);
    DecodedIsEncoded(raw, c, size);
    var payload := SealedPayload(a, key, n, c.payload);
    var c' := c.(flags := SetFlag(c.flags, Encrypted), payload := payload);
    U16Unique(c.sequenceId, raw[6], raw[7]);
    assert Header(c.chunkType.ToByte(), c'.flags, |payload|, c.sequenceId)
        == SealedHeader(raw, |payload|);
    assert Seal(a, key, n, raw) == EncodeChunk(c');
    EncodedDecodes(EncodeChunk(c'), c');
  }

  // ---- Opening on the server -------------------------------------------------

  datatype Reason = NotCredentialSealed | UnknownKey | BadTag | ReplayedChunk | TooOld

  datatype Outcome = Filed(device: DeviceId, plain: seq<byte>) | Refused(reason: Reason)

  datatype ServerState = ServerState(credentials: map<DeviceId, Credential>, epochs: Table, nextRowid: nat)

  ghost predicate UniqueKeys(credentials: map<DeviceId, Credential>) {
    forall d, e :: d in credentials && e in credentials && credentials[d].keyId == credentials[e].keyId ==> d == e
  }

  type Server = s: ServerState | UniqueKeys(s.credentials) witness NO_CREDENTIALS

  const NO_CREDENTIALS := ServerState(map[], map[], 0)

  function Core(s: ServerState): State {
    State(KeyIds(s.credentials), s.epochs, s.nextRowid)
  }

  /** The nonce of a payload sealed with a device credential. */
  function CredentialNonce(payload: seq<byte>): Option<Nonce> {
    if |payload| < NONCE_SIZE then None
    else
      match ParseNonce(payload[..NONCE_SIZE])
      case Some(n) => if n.version == VERSION_CREDENTIAL then Some(n) else None
      case None => None
  }

  /** Where an opened chunk goes, and the replay table afterwards. */
  function Open(a: Aead, s: Server, payload: seq<byte>, now: nat): (Outcome, State) {
    match CredentialNonce(payload)
    case None => (Refused(NotCredentialSealed), Core(s))
    case Some(n) =>
      match LookUp(s.credentials, n.keyId)
      case None => (Refused(UnknownKey), Core(s))
      case Some((device, key)) =>
        match Decrypt(a, key, payload)
        case None => (Refused(BadTag), Core(s))
        case Some(plain) =>
          var (freshness, s') := Accepted(Core(s), n.keyId, n.bootEpoch, n.counter, now);
          match freshness
          case Fresh => (Filed(device, plain), s')
          case Replayed => (Refused(ReplayedChunk), s')
          case Stale => (Refused(TooOld), s')
  }

  ghost function ServerOf(store: CredentialStore): Server
    requires store.Valid()
    reads store
  {
    ServerState(store.credentials, AbsTable(store.epochs), store.nextRowid)
  }

  /** `open_with_credential` */
  method OpenWithCredential(a: Aead, store: CredentialStore, payload: seq<byte>, now: nat) returns (r: Outcome)
    requires store.Valid()
    modifies store`epochs, store`nextRowid
    ensures store.Valid()
    ensures (r, store.Abs()) == Open(a, old(ServerOf(store)), payload, now)
  {
    hide ParseNonce, Decrypt, Accepted;
    var nonce := CredentialNonce(payload);
    if nonce.None? {
      return Refused(NotCredentialSealed);
    }
    var found := store.KeyFor(nonce.value.keyId);
    if found.None? {
      return Refused(UnknownKey);
    }
    var (device, key) := found.value;
    var plain := Decrypt(a, key, payload);
    if plain.None? {
      return Refused(BadTag);
    }
    var f := store.AcceptCounter(nonce.value.keyId, nonce.value.bootEpoch, nonce.value.counter, now);
    match f
    case Fresh => return Filed(device, plain.value);
    case Replayed => return Refused(ReplayedChunk);
    case Stale => return Refused(TooOld);
  }

  // ---- What devices send -----------------------------------------------------

  /** A chunk a device sealed: under which credential and numbers, and its payload. */
  datatype Entry = Entry(device: DeviceId, credential: Credential, nonce: Nonce, plain: seq<byte>)

  function Payload(a: Aead, e: Entry): seq<byte> {
    SealedPayload(a, e.credential.secret, e.nonce, e.plain)
  }

  datatype DeviceEvent = Boot(bootEpoch: u32) | SealPlain(plain: seq<byte>)

  /** `count` chunks sealed since boot; the 32-bit counter is `count` reduced. */
  datatype Device = Device(bootEpoch: u32, count: nat, booted: set<u32>, log: seq<Entry>)

  function DeviceStep(id: DeviceId, c: Credential, d: Device, e: DeviceEvent): Device {
    match e
    case Boot(epoch) => d.(bootEpoch := epoch, count := 0, booted := d.booted + {epoch})
    case SealPlain(plain) =>
      var nonce := Nonce(d.count % 0x1_0000_0000, d.bootEpoch, c.keyId, VERSION_CREDENTIAL);
      d.(count := d.count + 1, log := d.log + [Entry(id, c, nonce, plain)])
  }

  function DeviceAfter(id: DeviceId, c: Credential, first: u32, run: seq<DeviceEvent>): Device {
    if run == [] then Device(first, 0, {first}, [])
    else DeviceStep(id, c, DeviceAfter(id, c, first, run[..|run| - 1]), run[|run| - 1])
  }

  /** Every boot takes a new epoch, and no boot seals more than 2^32 chunks. */
  predicate Disciplined(id: DeviceId, c: Credential, first: u32, run: seq<DeviceEvent>) {
    run != [] ==>
      && Disciplined(id, c, first, run[..|run| - 1])
      && var d := DeviceAfter(id, c, first, run[..|run| - 1]);
      && match run[|run| - 1]
         case Boot(epoch) => epoch !in d.booted
         case SealPlain(_) => d.count < 0x1_0000_0000
  }

  predicate SameNumbers(m: Nonce, n: Nonce) {
    (m.keyId, m.bootEpoch, m.counter) == (n.keyId, n.bootEpoch, n.counter)
  }

  /** No two chunks carry the same key id, epoch and counter. */
  ghost predicate NumbersDistinct(log: seq<Entry>) {
    forall x, y :: 0 <= x < y < |log| ==> !SameNumbers(log[x].nonce, log[y].nonce)
  }

  ghost predicate DeviceInvariant(id: DeviceId, c: Credential, d: Device) {
    && d.count <= 0x1_0000_0000
    && d.bootEpoch in d.booted
    && NumbersDistinct(d.log)
    && forall x :: 0 <= x < |d.log| ==>
         && var e := d.log[x];
         && (e.device, e.credential, e.nonce.keyId, e.nonce.version) == (id, c, c.keyId, VERSION_CREDENTIAL)
         && e.nonce.bootEpoch in d.booted
         && (e.nonce.bootEpoch == d.bootEpoch ==> e.nonce.counter < d.count)
  }

  lemma {:induction false} DeviceNumbersDistinct(id: DeviceId, c: Credential, first: u32, run: seq<DeviceEvent>)
    requires Disciplined(id, c, first, run)
    ensures DeviceInvariant(id, c, DeviceAfter(id, c, first, run))
    decreases |run|
  {
    if run != [] {
      DeviceNumbersDistinct(id, c, first, run[..|run| - 1]);
    }
  }

  /** Logs of devices with different keys stay distinct when put together. */
  lemma MergedLogsDistinct(a: seq<Entry>, b: seq<Entry>)
    requires NumbersDistinct(a) && NumbersDistinct(b)
    requires forall x, y :: 0 <= x < |a| && 0 <= y < |b| ==> a[x].nonce.keyId != b[y].nonce.keyId
    ensures NumbersDistinct(a + b)
  {}

  // ---- Runs of the server ----------------------------------------------------

  datatype ServerEvent =
    | Arrive(payload: seq<byte>, now: nat)
    | SetKey(device: DeviceId, credential: Credential)
    | DropDevice(device: DeviceId)

  function ServerStep(a: Aead, s: Server, e: ServerEvent): Server {
    match e
    case Arrive(payload, now) =>
      var core := Open(a, s, payload, now).1;
      s.(epochs := core.epochs, nextRowid := core.nextRowid)
    case SetKey(device, c) =>
      if !Unused(s.credentials, c.keyId) then s
      else
        var core := Issued(Core(s), device, c.keyId);
        ServerState(s.credentials[device := c], core.epochs, core.nextRowid)
    case DropDevice(device) =>
      var core := Revoked(Core(s), device);
      ServerState(s.credentials - {device}, core.epochs, core.nextRowid)
  }

  function ServerAfter(a: Aead, run: seq<ServerEvent>, n: nat): Server
    requires n <= |run|
  {
    if n == 0 then NO_CREDENTIALS else ServerStep(a, ServerAfter(a, run, n - 1), run[n - 1])
  }

  predicate Accepts(a: Aead, s: Server, e: ServerEvent, payload: seq<byte>) {
    e.Arrive? && e.payload == payload && Open(a, s, payload, e.now).0.Filed?
  }

  /** What an event means to the replay table, if anything. */
  function TableEvent(a: Aead, s: Server, e: ServerEvent): Option<Event> {
    match e
    case Arrive(payload, now) =>
      (match CredentialNonce(payload)
       case None => None
       case Some(n) =>
         var key := LookUp(s.credentials, n.keyId);
         if key.Some? && Decrypt(a, key.value.1, payload).Some? then Some(Accept(n.keyId, n.bootEpoch, n.counter, now))
         else None)
    case SetKey(device, c) => if Unused(s.credentials, c.keyId) then Some(IssueKey(device, c.keyId)) else None
    case DropDevice(device) => Some(RevokeKey(device))
  }

  lemma TableStep(a: Aead, s: Server, e: ServerEvent)
    ensures Core(ServerStep(a, s, e))
         == match TableEvent(a, s, e)
            case Some(t) => Step(Core(s), t)
            case None => Core(s)
  {
    hide Decrypt, ParseNonce, EmptyOld, Judge, LookUp;
    match e
    case Arrive(_, _) =>
    case SetKey(device, c) => assert KeyIds(s.credentials[device := c]) == KeyIds(s.credentials)[device := c.keyId];
    case DropDevice(device) =>
      assert KeyIds(s.credentials - {device}) == KeyIds(s.credentials) - {device};
      if device !in s.credentials { assert s.credentials - {device} == s.credentials; }
  }

  /** Event m makes the table forget these numbers: see `Forgets`. */
  predicate Disturbs(a: Aead, run: seq<ServerEvent>, m: nat, n: Nonce)
    requires m < |run|
  {
    var s := ServerAfter(a, run, m);
    match TableEvent(a, s, run[m])
    case Some(t) => Forgets(Core(s), t, n.keyId, n.bootEpoch, n.counter)
    case None => false
  }

  lemma ArrivalRemembered(a: Aead, s: Server, e: ServerEvent, payload: seq<byte>, n: Nonce)
    requires Accepts(a, s, e, payload) && CredentialNonce(payload) == Some(n)
    ensures Remembered(Core(ServerStep(a, s, e)), n.keyId, n.bootEpoch, n.counter)
  {
    hide Decrypt, ParseNonce;
    FreshIsRemembered(Core(s), Accept(n.keyId, n.bootEpoch, n.counter, e.now), n.keyId, n.bootEpoch, n.counter);
  }

  lemma RememberedRefused(a: Aead, s: Server, e: ServerEvent, payload: seq<byte>, n: Nonce)
    requires Remembered(Core(s), n.keyId, n.bootEpoch, n.counter) && CredentialNonce(payload) == Some(n)
    ensures !Accepts(a, s, e, payload)
  {
    hide Decrypt, ParseNonce;
  }

  lemma RememberedAcross(a: Aead, run: seq<ServerEvent>, m: nat, n: Nonce)
    requires m < |run|
    requires Remembered(Core(ServerAfter(a, run, m)), n.keyId, n.bootEpoch, n.counter)
    ensures Remembered(Core(ServerAfter(a, run, m + 1)), n.keyId, n.bootEpoch, n.counter) <==> !Disturbs(a, run, m, n)
  {
    hide TableEvent, Forgets, Remembered, ServerStep, Core, Step;
    var s := ServerAfter(a, run, m);
    ServerAfterNext(a, run, m);
    TableStep(a, s, run[m]);
    if TableEvent(a, s, run[m]).Some? {
      RememberedIff(Core(s), TableEvent(a, s, run[m]).value, n.keyId, n.bootEpoch, n.counter);
    }
  }

  lemma {:induction false} RememberedThrough(a: Aead, run: seq<ServerEvent>, i: nat, j: nat, n: Nonce)
    requires i <= j <= |run| && forall m :: i <= m < j ==> !Disturbs(a, run, m, n)
    requires Remembered(Core(ServerAfter(a, run, i)), n.keyId, n.bootEpoch, n.counter)
    ensures Remembered(Core(ServerAfter(a, run, j)), n.keyId, n.bootEpoch, n.counter)
  {
    hide ServerAfter, Remembered, Disturbs, Core;
    if i < j {
      RememberedThrough(a, run, i, j - 1, n);
      RememberedAcross(a, run, j - 1, n);
    }
  }

  lemma ServerAfterNext(a: Aead, run: seq<ServerEvent>, n: nat)
    requires n < |run|
    ensures ServerAfter(a, run, n + 1) == ServerStep(a, ServerAfter(a, run, n), run[n])
  {}

  /**
   Whatever the network does, a sealed payload is accepted at most once, unless
   in between its key ended or an emptied row of its epoch was advanced to less
   than 4096 ahead of its counter.
   */
  lemma DeliveredAtMostOnce(a: Aead, run: seq<ServerEvent>, payload: seq<byte>, i: nat, j: nat)
    requires i < j < |run|
    requires Accepts(a, ServerAfter(a, run, i), run[i], payload)
    requires Accepts(a, ServerAfter(a, run, j), run[j], payload)
    ensures CredentialNonce(payload).Some?
    ensures exists m :: i < m < j && Disturbs(a, run, m, CredentialNonce(payload).value)
  {
    hide ServerAfter, ServerStep, Remembered, Disturbs, Core, ParseNonce, Decrypt, Accepted, LookUp;
    var n := CredentialNonce(payload).value;
    ServerAfterNext(a, run, i);
    ArrivalRemembered(a, ServerAfter(a, run, i), run[i], payload, n);
    if forall m :: i < m < j ==> !Disturbs(a, run, m, n) {
      RememberedThrough(a, run, i + 1, j, n);
      RememberedRefused(a, ServerAfter(a, run, j), run[j], payload, n);
    }
  }

  // ---- First arrivals --------------------------------------------------------

  /** Every payload whose tag verifies at the server is one some device sealed. */
  ghost predicate Genuine(a: Aead, s: Server, payload: seq<byte>, log: seq<Entry>) {
    var n := CredentialNonce(payload);
    n.Some? && LookUp(s.credentials, n.value.keyId).Some? && Decrypt(a, LookUp(s.credentials, n.value.keyId).value.1, payload).Some?
    ==> exists x :: 0 <= x < |log| && payload == Payload(a, log[x])
  }

  /** Some arrival before n carried these numbers and was accepted. */
  ghost predicate AcceptedBefore(a: Aead, run: seq<ServerEvent>, n: nat, keyId: u32, epoch: u32, counter: u32)
    requires n <= |run|
  {
    exists m :: 0 <= m < n && AcceptedAt(a, run, m, keyId, epoch, counter)
  }

  predicate AcceptedAt(a: Aead, run: seq<ServerEvent>, m: nat, keyId: u32, epoch: u32, counter: u32)
    requires m < |run|
  {
    run[m].Arrive? && Open(a, ServerAfter(a, run, m), run[m].payload, run[m].now).0.Filed?
    && CredentialNonce(run[m].payload).Some?
    && var n := CredentialNonce(run[m].payload).value;
       (n.keyId, n.bootEpoch, n.counter) == (keyId, epoch, counter)
  }

  predicate InWindow(t: Table, keyId: u32, epoch: u32, counter: u32) {
    (keyId, epoch) in t && t[(keyId, epoch)].window.Recent? && counter in t[(keyId, epoch)].window.accepted
  }

  /** A window only ever holds counters that were accepted. */
  lemma {:induction false} WindowsTellTruth(a: Aead, run: seq<ServerEvent>, n: nat, keyId: u32, epoch: u32,
                                            counter: u32)
    requires n <= |run| && InWindow(ServerAfter(a, run, n).epochs, keyId, epoch, counter)
    ensures AcceptedBefore(a, run, n, keyId, epoch, counter)
    decreases n
  {
    hide ParseNonce, Decrypt;
    if n > 0 {
      var s := ServerAfter(a, run, n - 1);
      if InWindow(s.epochs, keyId, epoch, counter) {
        WindowsTellTruth(a, run, n - 1, keyId, epoch, counter);
      } else {
        NewlyInWindow(a, run, n - 1, keyId, epoch, counter);
      }
    }
  }

  lemma NewlyInWindow(a: Aead, run: seq<ServerEvent>, m: nat, keyId: u32, epoch: u32, counter: u32)
    requires m < |run|
    requires !InWindow(ServerAfter(a, run, m).epochs, keyId, epoch, counter)
    requires InWindow(ServerAfter(a, run, m + 1).epochs, keyId, epoch, counter)
    ensures AcceptedAt(a, run, m, keyId, epoch, counter)
  {
    hide Decrypt, ParseNonce, Accepted, InWindow, LookUp;
    var s := ServerAfter(a, run, m);
    ServerAfterNext(a, run, m);
    TableStep(a, s, run[m]);
    assert Core(s).epochs == s.epochs && Core(ServerStep(a, s, run[m])).epochs == ServerStep(a, s, run[m]).epochs;
    assert TableEvent(a, s, run[m]).Some?;
    EntersWindow(Core(s), TableEvent(a, s, run[m]).value, keyId, epoch, counter);
  }

  /** A counter enters a window only by being accepted. */
  lemma EntersWindow(s: State, e: Event, keyId: u32, epoch: u32, counter: u32)
    requires !InWindow(s.epochs, keyId, epoch, counter) && InWindow(Step(s, e).epochs, keyId, epoch, counter)
    ensures AnsweredFresh(s, e, keyId, epoch, counter)
  {
    hide IsRecent;
  }

  /** The row's state does not itself rule the counter out: new epoch, ahead, or within the window. */
  predicate InReach(t: Table, n: Nonce) {
    var p := (n.keyId, n.bootEpoch);
    p !in t || n.counter > t[p].max || (t[p].window.Recent? && t[p].max - n.counter < REPLAY_WINDOW)
  }

  /**
   A sealed chunk that arrives for the first time is accepted, and filed with its
   plaintext under the device whose credential sealed it, exactly if it is in reach.
   */
  lemma FirstArrivalAccepted(a: Aead, run: seq<ServerEvent>, log: seq<Entry>, x: nat, j: nat)
    requires Sound(a) && NumbersDistinct(log) && x < |log| && j < |run|
    requires forall m :: 0 <= m < j && run[m].Arrive? ==> Genuine(a, ServerAfter(a, run, m), run[m].payload, log)
    requires run[j].Arrive? && run[j].payload == Payload(a, log[x])
    requires log[x].nonce.version == VERSION_CREDENTIAL && log[x].nonce.keyId == log[x].credential.keyId
    requires log[x].device in ServerAfter(a, run, j).credentials
    requires ServerAfter(a, run, j).credentials[log[x].device] == log[x].credential
    requires forall m :: 0 <= m < j ==> !Accepts(a, ServerAfter(a, run, m), run[m], Payload(a, log[x]))
    ensures Open(a, ServerAfter(a, run, j), run[j].payload, run[j].now).0 == Filed(log[x].device, log[x].plain)
            <==> InReach(ServerAfter(a, run, j).epochs, log[x].nonce)
  {
    hide ServerAfter, ParseNonce, Decrypt, SealedPayload;
    var e, s := log[x], ServerAfter(a, run, j);
    var n := e.nonce;
    EntryOpens(a, e);
    if InWindow(s.epochs, n.keyId, n.bootEpoch, n.counter) {
      WindowsTellTruth(a, run, j, n.keyId, n.bootEpoch, n.counter);
      var m :| 0 <= m < j && AcceptedAt(a, run, m, n.keyId, n.bootEpoch, n.counter);
      SameNumbersSamePayload(a, run, log, x, m);
    }
  }

  lemma EntryOpens(a: Aead, e: Entry)
    requires Sound(a) && e.nonce.version == VERSION_CREDENTIAL
    ensures CredentialNonce(Payload(a, e)) == Some(e.nonce)
    ensures Decrypt(a, e.credential.secret, Payload(a, e)) == Some(e.plain)
  {
    hide ParseNonce, Decrypt, SealedPayload;
    SealedOpens(a, e.credential.secret, e.nonce, e.plain);
  }

  lemma SameNumbersSamePayload(a: Aead, run: seq<ServerEvent>, log: seq<Entry>, x: nat, m: nat)
    requires Sound(a) && NumbersDistinct(log) && x < |log| && m < |run|
    requires run[m].Arrive? && Genuine(a, ServerAfter(a, run, m), run[m].payload, log)
    requires AcceptedAt(a, run, m, log[x].nonce.keyId, log[x].nonce.bootEpoch, log[x].nonce.counter)
    ensures Accepts(a, ServerAfter(a, run, m), run[m], Payload(a, log[x]))
  {
    hide ServerAfter, ParseNonce, Decrypt, SealedPayload, Accepted;
    var y :| 0 <= y < |log| && run[m].payload == Payload(a, log[y]);
    SealedOpens(a, log[y].credential.secret, log[y].nonce, log[y].plain);
    assert SameNumbers(log[y].nonce, log[x].nonce);
  }
}
