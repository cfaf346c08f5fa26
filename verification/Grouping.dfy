/**
 Sorting one ingest request's chunks under the devices that sent them. Sealed
 chunks go to their credential's device; the rest follow the request's
 DeviceInfo or header, unless that device must seal.
 */
module Grouping {
  import opened Bytes
  import opened Wire
  import opened Credentials
  import opened Sealing

  /** "unknown": the device id of a request without a header. */
  const UNKNOWN: DeviceId := [0x75, 0x6E, 0x6B, 0x6E, 0x6F, 0x77, 0x6E]

  datatype Config = Config(sharedKey: Option<Key>, authRequired: bool)

  /** The device a DeviceInfo payload names, if it parses. */
  type InfoParser = seq<byte> -> Option<DeviceId>

  datatype Group = Group(device: DeviceId, authenticated: bool, chunks: seq<Chunk>)

  // ---- Opening ---------------------------------------------------------------

  datatype Fate = ToDevice(device: DeviceId, chunk: Chunk) | Turned | Loose(chunk: Chunk)

  function Opened(c: Chunk, plain: seq<byte>): Chunk {
    c.(payload := plain, flags := ClearFlag(c.flags, Encrypted))
  }

  /** A chunk not sealed with a credential; the shared key, if any, is tried on encrypted ones. */
  function Unshared(a: Aead, cfg: Config, c: Chunk): Chunk {
    if HasFlag(c.flags, Encrypted) && cfg.sharedKey.Some? then
      match Decrypt(a, cfg.sharedKey.value, c.payload)
      case Some(plain) => Opened(c, plain)
      case None => c
    else c
  }

  predicate CredentialSealed(c: Chunk) {
    HasFlag(c.flags, Encrypted) && CredentialNonce(c.payload).Some?
  }

  function FateOf(a: Aead, s: Server, cfg: Config, c: Chunk, now: nat): Fate {
    if CredentialSealed(c) then
      match Open(a, s, c.payload, now).0
      case Filed(device, plain) => ToDevice(device, Opened(c, plain))
      case Refused(_) => Turned
    else Loose(Unshared(a, cfg, c))
  }

  function NextServer(a: Aead, s: Server, c: Chunk, now: nat): Server {
    if CredentialSealed(c) then ServerStep(a, s, Arrive(c.payload, now)) else s
  }

  /** What happens to each chunk, in order; every opened one uses up its counter. */
  function Fates(a: Aead, s: Server, cfg: Config, chunks: seq<Chunk>, now: nat): (fs: seq<Fate>)
    ensures |fs| == |chunks|
    decreases |chunks|
  {
    if chunks == [] then []
    else [FateOf(a, s, cfg, chunks[0], now)] + Fates(a, NextServer(a, s, chunks[0], now), cfg, chunks[1..], now)
  }

  // ---- Grouping --------------------------------------------------------------

  /** Appends to the device's group, or opens one. */
  function Add(groups: seq<Group>, device: DeviceId, c: Chunk): seq<Group> {
    if groups == [] then [Group(device, true, [c])]
    else if groups[0].authenticated && groups[0].device == device then
      [groups[0].(chunks := groups[0].chunks + [c])] + groups[1..]
    else [groups[0]] + Add(groups[1..], device, c)
  }

  function SealedGroups(fates: seq<Fate>): seq<Group> {
    if fates == [] then []
    else
      var n := |fates| - 1;
      match fates[n]
      case ToDevice(device, c) => Add(SealedGroups(fates[..n]), device, c)
      case _ => SealedGroups(fates[..n])
  }

  function LooseChunks(fates: seq<Fate>): seq<Chunk> {
    if fates == [] then []
    else
      var n := |fates| - 1;
      LooseChunks(fates[..n]) + (if fates[n].Loose? then [fates[n].chunk] else [])
  }

  function TurnedAway(fates: seq<Fate>): nat {
    if fates == [] then 0
    else TurnedAway(fates[..|fates| - 1]) + (if fates[|fates| - 1].Turned? then 1 else 0)
  }

  function Named(parse: InfoParser, c: Chunk): Option<DeviceId> {
    if c.chunkType == DeviceInfo then parse(c.payload) else None
  }

  /** The device must seal what it sends. */
  predicate MustSeal(held: set<DeviceId>, cfg: Config, device: DeviceId) {
    cfg.authRequired || device in held
  }

  /** An unsealed DeviceInfo for a device that must seal. */
  predicate Impostor(held: set<DeviceId>, cfg: Config, parse: InfoParser, c: Chunk) {
    Named(parse, c).Some? && MustSeal(held, cfg, Named(parse, c).value)
  }

  function Retained(held: set<DeviceId>, cfg: Config, parse: InfoParser, cs: seq<Chunk>): (r: seq<Chunk>)
    ensures |r| <= |cs|
    ensures forall c :: c in r ==> !Impostor(held, cfg, parse, c)
  {
    if cs == [] then []
    else
      var n := |cs| - 1;
      Retained(held, cfg, parse, cs[..n]) + (if Impostor(held, cfg, parse, cs[n]) then [] else [cs[n]])
  }

  /** The last device named, else the fallback. */
  function ContextOf(parse: InfoParser, cs: seq<Chunk>, fallback: DeviceId): DeviceId {
    if cs == [] then fallback
    else
      match Named(parse, cs[|cs| - 1])
      case Some(d) => d
      case None => ContextOf(parse, cs[..|cs| - 1], fallback)
  }

  function Grouped(fates: seq<Fate>, held: set<DeviceId>, cfg: Config, parse: InfoParser,
                   fallback: DeviceId): (seq<Group>, nat) {
    var loose, sealed := LooseChunks(fates), SealedGroups(fates);
    var kept := Retained(held, cfg, parse, loose);
    var rejected := TurnedAway(fates) + (|loose| - |kept|);
    var context := ContextOf(parse, kept, fallback);
    if kept == [] then (sealed, rejected)
    else if cfg.authRequired || (context != UNKNOWN && context in held) then (sealed, rejected + |kept|)
    else (sealed + [Group(fallback, false, kept)], rejected)
  }

  /** The first loop: opens what is sealed and sets the rest aside. */
  method OpenEach(a: Aead, store: CredentialStore, cfg: Config, chunks: seq<Chunk>, now: nat)
    returns (groups: seq<Group>, loose: seq<Chunk>, rejected: nat)
    requires store.Valid()
    modifies store`epochs, store`nextRowid
    ensures store.Valid()
    ensures var fates := Fates(a, old(ServerOf(store)), cfg, chunks, now);
            groups == SealedGroups(fates) && loose == LooseChunks(fates) && rejected == TurnedAway(fates)
  {
    hide FateOf, NextServer, SealedGroups, LooseChunks, TurnedAway, Fates, Unshared, Add;
    groups, loose, rejected := [], [], 0;
    ghost var fates := Fates(a, ServerOf(store), cfg, chunks, now);
    NoFates();
    for i := 0 to |chunks|
      invariant store.Valid()
      invariant fates[i..] == Fates(a, ServerOf(store), cfg, chunks[i..], now)
      invariant groups == SealedGroups(fates[..i]) && loose == LooseChunks(fates[..i]) && rejected == TurnedAway(fates[..i])
    {
      var c := chunks[i];
      ghost var s := ServerOf(store);
      FatesStep(a, s, cfg, chunks[i..], now);
      assert chunks[i..][1..] == chunks[i + 1..] && fates[i..][1..] == fates[i + 1..] && fates[i..][0] == fates[i];
      FateApplied(fates, i);
      if HasFlag(c.flags, Encrypted) && CredentialNonce(c.payload).Some? {
        var r := OpenWithCredential(a, store, c.payload, now);
        ArrivalState(a, s, c.payload, now, store);
        SealedFate(a, s, cfg, c, now);
        match r
        case Filed(device, plain) => groups := Add(groups, device, Opened(c, plain));
        case Refused(_) => rejected := rejected + 1;
      } else {
        LooseFate(a, s, cfg, c, now);
        loose := loose + [Unshared(a, cfg, c)];
      }
    }
    assert fates[..|chunks|] == fates;
  }

  lemma NoFates()
    ensures SealedGroups([]) == [] && LooseChunks([]) == [] && TurnedAway([]) == 0
  {}

  lemma FatesStep(a: Aead, s: Server, cfg: Config, chunks: seq<Chunk>, now: nat)
    requires chunks != []
    ensures Fates(a, s, cfg, chunks, now)
            == [FateOf(a, s, cfg, chunks[0], now)] + Fates(a, NextServer(a, s, chunks[0], now), cfg, chunks[1..], now)
  {}

  lemma SealedFate(a: Aead, s: Server, cfg: Config, c: Chunk, now: nat)
    requires CredentialSealed(c)
    ensures NextServer(a, s, c, now) == ServerStep(a, s, Arrive(c.payload, now))
    ensures FateOf(a, s, cfg, c, now) == match Open(a, s, c.payload, now).0
                                         case Filed(device, plain) => ToDevice(device, Opened(c, plain))
                                         case Refused(_) => Turned
  {}

  lemma LooseFate(a: Aead, s: Server, cfg: Config, c: Chunk, now: nat)
    requires !CredentialSealed(c)
    ensures NextServer(a, s, c, now) == s && FateOf(a, s, cfg, c, now) == Loose(Unshared(a, cfg, c))
  {}

  lemma FateApplied(fates: seq<Fate>, i: nat)
    requires i < |fates|
    ensures var before, after := fates[..i], fates[..i + 1];
            && SealedGroups(after) == (if fates[i].ToDevice? then Add(SealedGroups(before), fates[i].device, fates[i].chunk)
                                       else SealedGroups(before))
            && LooseChunks(after) == LooseChunks(before) + (if fates[i].Loose? then [fates[i].chunk] else [])
            && TurnedAway(after) == TurnedAway(before) + (if fates[i].Turned? then 1 else 0)
  {
    assert fates[..i + 1][..i] == fates[..i];
  }

  /** `open_and_group`; `parse` is the DeviceInfo parser. */
  method OpenAndGroup(a: Aead, store: CredentialStore, cfg: Config, parse: InfoParser, chunks: seq<Chunk>,
                      fallback: DeviceId, now: nat)
    returns (groups: seq<Group>, rejected: nat)
    requires store.Valid()
    modifies store`epochs, store`nextRowid
    ensures store.Valid()
    ensures (groups, rejected) ==
            Grouped(Fates(a, old(ServerOf(store)), cfg, chunks, now), store.credentials.Keys, cfg, parse, fallback)
  {
    hide Fates, SealedGroups, LooseChunks, TurnedAway, Impostor, ContextOf;
    var loose;
    groups, loose, rejected := OpenEach(a, store, cfg, chunks, now);
    var held := store.credentials.Keys;
    var kept: seq<Chunk> := [];
    ghost var turned := rejected;
    for i := 0 to |loose|
      invariant kept == Retained(held, cfg, parse, loose[..i]) && |kept| <= i
      invariant rejected == turned + (i - |kept|)
    {
      assert loose[..i + 1][..i] == loose[..i];
      if Impostor(held, cfg, parse, loose[i]) {
        rejected := rejected + 1;
      } else {
        kept := kept + [loose[i]];
      }
    }
    assert loose[..|loose|] == loose;
    var context := ContextOf(parse, kept, fallback);
    if kept == [] {
    } else if cfg.authRequired || (context != UNKNOWN && context in held) {
      rejected := rejected + |kept|;
    } else {
      groups := groups + [Group(fallback, false, kept)];
    }
  }

  lemma ArrivalState(a: Aead, s: Server, payload: seq<byte>, now: nat, store: CredentialStore)
    requires store.Valid() && store.Abs() == Open(a, s, payload, now).1
    requires ServerOf(store).credentials == s.credentials
    ensures ServerOf(store) == ServerStep(a, s, Arrive(payload, now))
  {
    hide Open;
  }

  // ---- Conservation ----------------------------------------------------------

  function Sizes(groups: seq<Group>): nat {
    if groups == [] then 0 else |groups[0].chunks| + Sizes(groups[1..])
  }

  lemma {:induction false} AddSizes(groups: seq<Group>, device: DeviceId, c: Chunk)
    ensures Sizes(Add(groups, device, c)) == Sizes(groups) + 1
    decreases |groups|
  {
    if groups != [] && !(groups[0].authenticated && groups[0].device == device) {
      AddSizes(groups[1..], device, c);
    }
  }

  lemma {:induction false} SizesAppend(groups: seq<Group>, g: Group)
    ensures Sizes(groups + [g]) == Sizes(groups) + |g.chunks|
    decreases |groups|
  {
    if groups == [] {
      assert groups + [g] == [g];
    } else {
      assert (groups + [g])[1..] == groups[1..] + [g];
      SizesAppend(groups[1..], g);
    }
  }

  lemma {:induction false} FatesConserved(fates: seq<Fate>)
    ensures Sizes(SealedGroups(fates)) + |LooseChunks(fates)| + TurnedAway(fates) == |fates|
    decreases |fates|
  {
    hide Add, Sizes;
    if fates == [] {
      NoGroups();
    } else {
      var n := |fates| - 1;
      FatesConserved(fates[..n]);
      if fates[n].ToDevice? {
        AddSizes(SealedGroups(fates[..n]), fates[n].device, fates[n].chunk);
      }
    }
  }

  lemma NoGroups()
    ensures Sizes([]) == 0
  {}

  /** Every chunk ends in exactly one group or is counted as rejected. */
  lemma Conserved(fates: seq<Fate>, held: set<DeviceId>, cfg: Config, parse: InfoParser, fallback: DeviceId)
    ensures var (groups, rejected) := Grouped(fates, held, cfg, parse, fallback);
            Sizes(groups) + rejected == |fates|
  {
    hide SealedGroups, LooseChunks, TurnedAway, Retained, ContextOf, Sizes;
    FatesConserved(fates);
    SizesAppend(SealedGroups(fates), Group(fallback, false, Retained(held, cfg, parse, LooseChunks(fates))));
  }

  // ---- Order within a group --------------------------------------------------

  /** The chunks opened under a device's credential, in the order they came. */
  function FiledUnder(fates: seq<Fate>, device: DeviceId): seq<Chunk> {
    if fates == [] then []
    else
      var n := |fates| - 1;
      FiledUnder(fates[..n], device)
      + (if fates[n].ToDevice? && fates[n].device == device then [fates[n].chunk] else [])
  }

  ghost predicate DistinctDevices(groups: seq<Group>) {
    forall i, j :: 0 <= i < j < |groups| ==> groups[i].device != groups[j].device
  }

  ghost predicate AllAuthenticated(groups: seq<Group>) {
    forall i :: 0 <= i < |groups| ==> groups[i].authenticated
  }

  /** The chunks a list of groups holds for a device. */
  function HeldFor(groups: seq<Group>, device: DeviceId): seq<Chunk> {
    if groups == [] then []
    else if groups[0].device == device then groups[0].chunks
    else HeldFor(groups[1..], device)
  }

  lemma {:induction false} AddHolds(groups: seq<Group>, device: DeviceId, c: Chunk, other: DeviceId)
    requires AllAuthenticated(groups)
    ensures HeldFor(Add(groups, device, c), other) == HeldFor(groups, other) + (if other == device then [c] else [])
    decreases |groups|
  {
    if groups != [] && groups[0].device != device {
      assert forall i :: 0 <= i < |groups| - 1 ==> groups[1..][i] == groups[i + 1];
      AddHolds(groups[1..], device, c, other);
    }
  }

  lemma {:induction false} AddKeepsDistinct(groups: seq<Group>, device: DeviceId, c: Chunk)
    requires DistinctDevices(groups) && AllAuthenticated(groups)
    ensures DistinctDevices(Add(groups, device, c)) && AllAuthenticated(Add(groups, device, c))
    ensures forall g :: g in Add(groups, device, c) ==> g.device == device || exists h :: h in groups && h.device == g.device
    decreases |groups|
  {
    if groups != [] && groups[0].device != device {
      assert forall i :: 0 <= i < |groups| - 1 ==> groups[1..][i] == groups[i + 1];
      AddKeepsDistinct(groups[1..], device, c);
      var more := Add(groups[1..], device, c);
      forall i | 0 <= i < |more|
        ensures more[i].device != groups[0].device
      {
        assert more[i] in more;
      }
    }
  }

  lemma AddKeeps(groups: seq<Group>, device: DeviceId, c: Chunk, other: DeviceId)
    requires DistinctDevices(groups) && AllAuthenticated(groups)
    ensures DistinctDevices(Add(groups, device, c)) && AllAuthenticated(Add(groups, device, c))
    ensures forall g :: g in Add(groups, device, c) ==> g.device == device || exists h :: h in groups && h.device == g.device
    ensures HeldFor(Add(groups, device, c), other) == HeldFor(groups, other) + (if other == device then [c] else [])
  {
    AddKeepsDistinct(groups, device, c);
    AddHolds(groups, device, c, other);
  }

  /**
   Authenticated groups have distinct devices, and a device's group holds
   exactly the chunks opened under its credential, in order of arrival.
   */
  lemma {:induction false} GroupsKeepOrder(fates: seq<Fate>, device: DeviceId)
    ensures DistinctDevices(SealedGroups(fates)) && AllAuthenticated(SealedGroups(fates))
    ensures HeldFor(SealedGroups(fates), device) == FiledUnder(fates, device)
    decreases |fates|
  {
    hide Add, HeldFor, DistinctDevices, AllAuthenticated;
    if fates == [] {
      NoneHeld(device);
    } else {
      var n := |fates| - 1;
      GroupsKeepOrder(fates[..n], device);
      if fates[n].ToDevice? {
        AddKeeps(SealedGroups(fates[..n]), fates[n].device, fates[n].chunk, device);
      }
    }
  }

  lemma NoneHeld(device: DeviceId)
    ensures HeldFor([], device) == [] && DistinctDevices([]) && AllAuthenticated([])
  {}

  // ---- Where rows are filed --------------------------------------------------

  /** The last device named by a DeviceInfo the group may speak for. */
  function SpokenFor(parse: InfoParser, g: Group, cs: seq<Chunk>): Option<DeviceId> {
    if cs == [] then None
    else
      var named := Named(parse, cs[|cs| - 1]);
      if named.Some? && (!g.authenticated || named.value == g.device) then named
      else SpokenFor(parse, g, cs[..|cs| - 1])
  }

  /**
   The device `process_device_chunks` files a group's fault, metric and reboot
   rows under; a group of an unknown device without DeviceInfo is not stored.
   */
  function StoredUnder(parse: InfoParser, g: Group): Option<DeviceId> {
    match SpokenFor(parse, g, g.chunks)
    case Some(d) => Some(d)
    case None => if g.device == UNKNOWN then None else Some(g.device)
  }

  lemma {:induction false} ContextIsSpokenFor(parse: InfoParser, g: Group, cs: seq<Chunk>)
    requires !g.authenticated
    ensures ContextOf(parse, cs, g.device) == match SpokenFor(parse, g, cs)
                                              case Some(d) => d
                                              case None => g.device
    ensures SpokenFor(parse, g, cs).Some? ==> exists c :: c in cs && Named(parse, c) == SpokenFor(parse, g, cs)
    decreases |cs|
  {
    if cs != [] {
      ContextIsSpokenFor(parse, g, cs[..|cs| - 1]);
      assert cs[|cs| - 1] in cs && forall c :: c in cs[..|cs| - 1] ==> c in cs;
    }
  }

  /** Rows of an unauthenticated group are only ever filed under a device without a credential. */
  lemma UnauthenticatedFiledSafely(fates: seq<Fate>, held: set<DeviceId>, cfg: Config, parse: InfoParser,
                                   fallback: DeviceId, g: Group)
    requires g in Grouped(fates, held, cfg, parse, fallback).0 && !g.authenticated
    ensures !cfg.authRequired
    ensures StoredUnder(parse, g).Some? ==> StoredUnder(parse, g).value !in held
  {
    hide SealedGroups, LooseChunks, Retained, SpokenFor, ContextOf;
    GroupsKeepOrder(fates, fallback);
    var kept := Retained(held, cfg, parse, LooseChunks(fates));
    assert g == Group(fallback, false, kept);
    ContextIsSpokenFor(parse, g, kept);
  }

  lemma {:induction false} AuthenticatedSpeaksForItself(parse: InfoParser, g: Group, cs: seq<Chunk>)
    requires g.authenticated
    ensures SpokenFor(parse, g, cs).None? || SpokenFor(parse, g, cs) == Some(g.device)
    decreases |cs|
  {
    if cs != [] {
      AuthenticatedSpeaksForItself(parse, g, cs[..|cs| - 1]);
    }
  }

  /** Rows of an authenticated group are filed under the credential's own device, whatever it claims. */
  lemma AuthenticatedFiledUnderOwner(parse: InfoParser, g: Group)
    requires g.authenticated && g.device != UNKNOWN
    ensures StoredUnder(parse, g) == Some(g.device)
  {
    AuthenticatedSpeaksForItself(parse, g, g.chunks);
  }
}
