/**
 Device credentials and the replay table: one row per key and boot epoch. The
 32 newest epochs of a key keep a window; older rows keep only their highest
 counter.
 */
module Credentials {
  import opened Bytes
  import opened ReplayWindow

  type DeviceId = seq<byte>

  const RECENT_EPOCHS := 32

  // ---- Specification ---------------------------------------------------------

  type EpochKey = (u32, u32)

  /** A row of `credential_epochs`; `updated` is its clock reading, `rowid` its insertion order. */
  datatype Row = Row(max: u32, window: Window, updated: nat, rowid: nat)

  type Table = map<EpochKey, Row>

  predicate Newer(a: Row, b: Row) {
    a.updated > b.updated || (a.updated == b.updated && a.rowid > b.rowid)
  }

  /** The rows of the same key that come before `p` in `ORDER BY updated_at DESC, rowid DESC`. */
  function Ahead(t: Table, p: EpochKey): set<EpochKey>
    requires p in t
  {
    set q | q in t && q.0 == p.0 && Newer(t[q], t[p])
  }

  /** Whether `p` is within the first `RECENT_EPOCHS` rows of its key. */
  predicate IsRecent(t: Table, p: EpochKey)
    requires p in t
  {
    |Ahead(t, p)| < RECENT_EPOCHS
  }

  function EmptyOld(t: Table, keyId: u32): Table {
    map p | p in t :: if p.0 == keyId && !IsRecent(t, p) then t[p].(window := Emptied) else t[p]
  }

  datatype State = State(credentials: map<DeviceId, u32>, epochs: Table, nextRowid: nat)

  function Accepted(s: State, keyId: u32, epoch: u32, counter: u32, now: nat): (Freshness, State) {
    var p := (keyId, epoch);
    if p !in s.epochs then
      var t := s.epochs[p := Row(counter, Recent({counter}), now, s.nextRowid)];
      (Fresh, s.(epochs := EmptyOld(t, keyId), nextRowid := s.nextRowid + 1))
    else
      var row := s.epochs[p];
      var a := Judge(row.max, row.window, counter);
      if a.freshness.Fresh? then
        (Fresh, s.(epochs := s.epochs[p := row.(max := a.max, window := a.window, updated := now)]))
      else (a.freshness, s)
  }

  function DropKey(t: Table, keyId: u32): Table {
    map p | p in t && p.0 != keyId :: t[p]
  }

  /** `issue` with a key id that no device holds, replacing the device's old key. */
  function Issued(s: State, device: DeviceId, keyId: u32): State {
    var epochs := if device in s.credentials then DropKey(s.epochs, s.credentials[device]) else s.epochs;
    s.(credentials := s.credentials[device := keyId], epochs := epochs)
  }

  function Revoked(s: State, device: DeviceId): State {
    if device in s.credentials then
      s.(credentials := s.credentials - {device}, epochs := DropKey(s.epochs, s.credentials[device]))
    else s
  }

  // ---- Runs ------------------------------------------------------------------

  datatype Event =
    | Accept(keyId: u32, epoch: u32, counter: u32, now: nat)
    | IssueKey(device: DeviceId, newKey: u32)
    | RevokeKey(device: DeviceId)

  function Step(s: State, e: Event): State {
    match e
    case Accept(k, ep, c, now) => Accepted(s, k, ep, c, now).1
    case IssueKey(d, k) => Issued(s, d, k)
    case RevokeKey(d) => Revoked(s, d)
  }

  /** The state after the first n events. */
  function After(s: State, run: seq<Event>, n: nat): State
    requires n <= |run|
  {
    if n == 0 then s else Step(After(s, run, n - 1), run[n - 1])
  }

  predicate AnsweredFresh(s: State, e: Event, keyId: u32, epoch: u32, counter: u32) {
    e.Accept? && (e.keyId, e.epoch, e.counter) == (keyId, epoch, counter)
    && Accepted(s, e.keyId, e.epoch, e.counter, e.now).0.Fresh?
  }

  /** `e` deletes the rows of `keyId`: the key's lifetime ends. */
  predicate EndsKey(s: State, e: Event, keyId: u32) {
    !e.Accept? && e.device in s.credentials && s.credentials[e.device] == keyId
  }

  /** `e` advances an emptied row, which gives it a fresh window. */
  predicate RevivesRow(s: State, e: Event, keyId: u32, epoch: u32) {
    e.Accept? && (e.keyId, e.epoch) == (keyId, epoch)
    && (keyId, epoch) in s.epochs && s.epochs[(keyId, epoch)].window.Emptied?
    && e.counter > s.epochs[(keyId, epoch)].max
  }

  // ---- At most once ----------------------------------------------------------

  /** `counter` was accepted and its row would know. */
  predicate Remembered(s: State, keyId: u32, epoch: u32, counter: u32) {
    var p := (keyId, epoch);
    p in s.epochs && counter <= s.epochs[p].max &&
    match s.epochs[p].window
    case Emptied => true
    case Recent(accepted) => counter in accepted || s.epochs[p].max - counter >= REPLAY_WINDOW
  }

  /** A counter is refused exactly while it is remembered. */
  lemma RefusedIff(s: State, keyId: u32, epoch: u32, counter: u32, now: nat)
    ensures !Accepted(s, keyId, epoch, counter, now).0.Fresh? <==> Remembered(s, keyId, epoch, counter)
  {
    hide EmptyOld;
  }

  lemma FreshIsRemembered(s: State, e: Event, keyId: u32, epoch: u32, counter: u32)
    requires AnsweredFresh(s, e, keyId, epoch, counter)
    ensures Remembered(Step(s, e), keyId, epoch, counter)
  {}

  /**
   `e` makes the table forget the counter: it ends the key's lifetime, or it
   advances an emptied row to less than a window ahead of the counter.
   */
  predicate Forgets(s: State, e: Event, keyId: u32, epoch: u32, counter: u32) {
    EndsKey(s, e, keyId)
    || (RevivesRow(s, e, keyId, epoch) && counter <= s.epochs[(keyId, epoch)].max && e.counter - counter < REPLAY_WINDOW)
  }

  /** A remembered counter stays remembered across a step exactly if the step does not forget it. */
  lemma RememberedIff(s: State, e: Event, keyId: u32, epoch: u32, counter: u32)
    requires Remembered(s, keyId, epoch, counter)
    ensures Remembered(Step(s, e), keyId, epoch, counter) <==> !Forgets(s, e, keyId, epoch, counter)
  {}

  predicate ForgetsAt(s: State, run: seq<Event>, m: nat, keyId: u32, epoch: u32, counter: u32)
    requires m < |run|
  {
    Forgets(After(s, run, m), run[m], keyId, epoch, counter)
  }

  lemma {:induction false} RememberedUntil(s: State, run: seq<Event>, keyId: u32, epoch: u32, counter: u32, i: nat,
                                           j: nat)
    requires i < j <= |run| && AnsweredFresh(After(s, run, i), run[i], keyId, epoch, counter)
    requires forall m :: i < m < j ==> !ForgetsAt(s, run, m, keyId, epoch, counter)
    ensures Remembered(After(s, run, j), keyId, epoch, counter)
    decreases j
  {
    hide Step, Remembered, EndsKey, RevivesRow, Forgets, AnsweredFresh;
    AfterNext(s, run, j - 1);
    if j == i + 1 {
      FreshIsRemembered(After(s, run, i), run[i], keyId, epoch, counter);
    } else {
      RememberedUntil(s, run, keyId, epoch, counter, i, j - 1);
      assert !ForgetsAt(s, run, j - 1, keyId, epoch, counter);
      RememberedIff(After(s, run, j - 1), run[j - 1], keyId, epoch, counter);
    }
  }

  /**
   In any run, between two Fresh answers to the same counter of the same key and
   boot epoch, either the key was replaced or revoked, or a row already emptied
   was advanced to less than 4096 ahead of the counter.
   */
  lemma AcceptedAtMostOnce(s: State, run: seq<Event>, keyId: u32, epoch: u32, counter: u32, i: nat, j: nat)
    requires i < j < |run|
    requires AnsweredFresh(After(s, run, i), run[i], keyId, epoch, counter)
    requires AnsweredFresh(After(s, run, j), run[j], keyId, epoch, counter)
    ensures exists m :: i < m < j && ForgetsAt(s, run, m, keyId, epoch, counter)
  {
    if forall m :: i < m < j ==> !ForgetsAt(s, run, m, keyId, epoch, counter) {
      RememberedUntil(s, run, keyId, epoch, counter, i, j);
      RefusedIff(After(s, run, j), keyId, epoch, counter, run[j].now);
      assert false;
    }
  }

  /**
   And such a step is exactly what it takes: up to the first one the counter is
   refused, and right after a step it is accepted again if and only if that step
   was one.
   */
  lemma AcceptedAgainIff(s: State, run: seq<Event>, keyId: u32, epoch: u32, counter: u32, i: nat, j: nat, now: nat)
    requires i < j < |run|
    requires AnsweredFresh(After(s, run, i), run[i], keyId, epoch, counter)
    requires forall m :: i < m < j ==> !ForgetsAt(s, run, m, keyId, epoch, counter)
    ensures !Accepted(After(s, run, j), keyId, epoch, counter, now).0.Fresh?
    ensures Accepted(After(s, run, j + 1), keyId, epoch, counter, now).0.Fresh?
       <==> ForgetsAt(s, run, j, keyId, epoch, counter)
  {
    RememberedUntil(s, run, keyId, epoch, counter, i, j);
    RefusedIff(After(s, run, j), keyId, epoch, counter, now);
    RefusedIff(After(s, run, j + 1), keyId, epoch, counter, now);
    AfterNext(s, run, j);
    RememberedIff(After(s, run, j), run[j], keyId, epoch, counter);
    hide After, Step, Remembered, Accepted, Forgets;
  }

  lemma AfterNext(s: State, run: seq<Event>, n: nat)
    requires n < |run|
    ensures After(s, run, n + 1) == Step(After(s, run, n), run[n])
  {}

  /** An emptied epoch takes nothing at or below its highest counter. */
  lemma EmptiedIsStale(s: State, keyId: u32, epoch: u32, counter: u32, now: nat)
    requires (keyId, epoch) in s.epochs && s.epochs[(keyId, epoch)].window.Emptied?
    ensures Accepted(s, keyId, epoch, counter, now) == (Stale, s) <==> counter <= s.epochs[(keyId, epoch)].max
  {}

  // ---- The condition is needed -----------------------------------------------

  /** Advancing an emptied row lets an old counter in again. */
  lemma RevivedRowForgets(s: State, keyId: u32, epoch: u32, old_: u32, ahead: u32, now: nat, later: nat)
    requires (keyId, epoch) in s.epochs && s.epochs[(keyId, epoch)].window.Emptied?
    requires old_ <= s.epochs[(keyId, epoch)].max < ahead
    ensures var s' := Accepted(s, keyId, epoch, ahead, now).1;
            Accepted(s', keyId, epoch, old_, later).0 == (if ahead - old_ < REPLAY_WINDOW then Fresh else Stale)
  {}

  const EMPTY := State(map[], map[], 0)

  /** Boots 0 to n-1 of one key each report counter 3 within one clock tick. */
  function Boots(keyId: u32, n: nat): State
    requires n < 0x1_0000
  {
    if n == 0 then EMPTY else Accepted(Boots(keyId, n - 1), keyId, n - 1, 3, 0).1
  }

  /** Emptying changes windows only. */
  lemma EmptyOldKeeps(t: Table, keyId: u32)
    ensures EmptyOld(t, keyId).Keys == t.Keys
    ensures forall p :: p in t ==> EmptyOld(t, keyId)[p].(window := Emptied) == t[p].(window := Emptied)
  {
    hide IsRecent;
  }

  /** Rows 0 to n-1 of the key, as its first n boots leave them but for the windows. */
  ghost predicate BootRows(t: Table, keyId: u32, n: nat) {
    && (forall p :: p in t <==> p.0 == keyId && 0 <= p.1 < n)
    && (forall p :: p in t ==> t[p].(window := Emptied) == Row(3, Emptied, 0, p.1))
  }

  lemma BootRowsStep(t: Table, keyId: u32, n: nat)
    requires 0 < n < 0x1_0000 && BootRows(t, keyId, n - 1)
    ensures BootRows(EmptyOld(t[(keyId, n - 1) := Row(3, Recent({3}), 0, n - 1)], keyId), keyId, n)
  {
    var added := t[(keyId, n - 1) := Row(3, Recent({3}), 0, n - 1)];
    assert BootRows(added, keyId, n);
    EmptyOldKeeps(added, keyId);
    hide EmptyOld;
    var t' := EmptyOld(added, keyId);
    forall p ensures p in t' <==> p.0 == keyId && 0 <= p.1 < n {
      assert p in t' <==> p in added;
    }
  }

  lemma {:induction false} BootsTable(keyId: u32, n: nat)
    requires n < 0x1_0000
    ensures Boots(keyId, n).nextRowid == n && BootRows(Boots(keyId, n).epochs, keyId, n)
  {
    if n > 0 {
      BootsTable(keyId, n - 1);
      BootRowsStep(Boots(keyId, n - 1).epochs, keyId, n);
      assert (keyId, n - 1) !in Boots(keyId, n - 1).epochs;
      BootAgain(keyId, n);
      hide EmptyOld, Boots, Accepted, BootRows;
    }
  }

  lemma BootAgain(keyId: u32, n: nat)
    requires 0 < n < 0x1_0000 && (keyId, n - 1) !in Boots(keyId, n - 1).epochs
    ensures var s := Boots(keyId, n - 1);
            && Boots(keyId, n).epochs == EmptyOld(s.epochs[(keyId, n - 1) := Row(3, Recent({3}), 0, s.nextRowid)], keyId)
            && Boots(keyId, n).nextRowid == s.nextRowid + 1
  {
    hide EmptyOld;
  }

  lemma {:induction false} EpochsBetween(keyId: u32, lo: nat, hi: nat) returns (ps: set<EpochKey>)
    requires lo <= hi < 0x1_0000
    ensures forall p :: p in ps <==> p.0 == keyId && lo <= p.1 < hi
    ensures |ps| == hi - lo
    decreases hi
  {
    if lo == hi {
      ps := {};
    } else {
      var fewer := EpochsBetween(keyId, lo, hi - 1);
      ps := fewer + {(keyId, hi - 1)};
    }
  }

  /**
   Without the condition the property fails: after 33 boots the first is
   emptied, a higher counter revives it, and counter 3 is accepted again.
   */
  lemma AcceptedTwice(keyId: u32)
    ensures var s := Boots(keyId, 33);
            var s' := Accepted(s, keyId, 0, 10, 0).1;
            && AnsweredFresh(Boots(keyId, 0), Accept(keyId, 0, 3, 0), keyId, 0, 3)
            && Forgets(s, Accept(keyId, 0, 10, 0), keyId, 0, 3)
            && AnsweredFresh(s', Accept(keyId, 0, 3, 0), keyId, 0, 3)
  {
    hide Accepted, Boots;
    FirstBootEmptied(keyId);
    FirstBootFresh(keyId);
    RevivedRowForgets(Boots(keyId, 33), keyId, 0, 3, 10, 0, 0);
  }

  lemma FirstBootFresh(keyId: u32)
    ensures Accepted(Boots(keyId, 0), keyId, 0, 3, 0).0 == Fresh
  {}

  lemma FirstBootEmptied(keyId: u32)
    ensures var t := Boots(keyId, 33).epochs;
            (keyId, 0) in t && t[(keyId, 0)].max == 3 && t[(keyId, 0)].window.Emptied?
  {
    hide Boots, EmptyOld;
    BootsTable(keyId, 32);
    var s, p := Boots(keyId, 32), (keyId, 0);
    var t := s.epochs[(keyId, 32) := Row(3, Recent({3}), 0, 32)];
    LastBoot(keyId);
    var newer := EpochsBetween(keyId, 1, 33);
    assert Ahead(t, p) == newer;
    EmptyOldAt(t, keyId, p);
  }

  lemma LastBoot(keyId: u32)
    ensures Boots(keyId, 33).epochs == EmptyOld(Boots(keyId, 32).epochs[(keyId, 32) := Row(3, Recent({3}), 0, 32)], keyId)
  {
    hide EmptyOld;
    BootsTable(keyId, 32);
  }

  lemma EmptyOldAt(t: Table, keyId: u32, p: EpochKey)
    requires p in t
    ensures p in EmptyOld(t, keyId)
    ensures EmptyOld(t, keyId)[p] == if p.0 == keyId && !IsRecent(t, p) then t[p].(window := Emptied) else t[p]
  {}

  // ---- How many windows a key keeps ------------------------------------------

  /** Insertion order is strict and the clock has not run past `now`. */
  ghost predicate Ordered(s: State, now: nat) {
    && (forall p :: p in s.epochs ==> s.epochs[p].rowid < s.nextRowid && s.epochs[p].updated <= now)
    && (forall p, q :: p in s.epochs && q in s.epochs && p != q ==> s.epochs[p].rowid != s.epochs[q].rowid)
  }

  lemma {:induction false} OrderedAlways(run: seq<Event>, n: nat, now: nat)
    requires n <= |run|
    requires forall m :: 0 <= m < n && run[m].Accept? ==> run[m].now <= now
    ensures Ordered(After(EMPTY, run, n), now)
  {
    if n > 0 {
      OrderedAlways(run, n - 1, now);
      OrderedStep(After(EMPTY, run, n - 1), run[n - 1], now);
    }
  }

  lemma OrderedStep(s: State, e: Event, now: nat)
    requires Ordered(s, now) && (e.Accept? ==> e.now <= now)
    ensures Ordered(Step(s, e), now)
  {}

  ghost function Windows(t: Table, keyId: u32): set<EpochKey> {
    set p | p in t && p.0 == keyId && t[p].window.Recent?
  }

  ghost function RecentRows(t: Table, keyId: u32): set<EpochKey> {
    set p | p in t && p.0 == keyId && IsRecent(t, p)
  }

  /** The lowest of a non-empty set of distinct rows. */
  lemma {:induction false} Oldest(t: Table, ps: set<EpochKey>) returns (p: EpochKey)
    requires ps != {} && ps <= t.Keys
    requires forall a, b :: a in ps && b in ps && a != b ==> t[a].rowid != t[b].rowid
    ensures p in ps && forall q :: q in ps && q != p ==> Newer(t[q], t[p])
    decreases |ps|
  {
    p :| p in ps;
    if ps != {p} {
      assert ps - {p} != {};
      var q := Oldest(t, ps - {p});
      if !Newer(t[q], t[p]) {
        p := q;
      }
    }
  }

  lemma AtMostRecentEpochs(t: Table, keyId: u32)
    requires forall a, b :: a in t && b in t && a != b ==> t[a].rowid != t[b].rowid
    ensures |RecentRows(t, keyId)| <= RECENT_EPOCHS
  {
    var ps := RecentRows(t, keyId);
    if ps != {} {
      var p := Oldest(t, ps);
      assert ps - {p} <= Ahead(t, p);
      Smaller(ps - {p}, Ahead(t, p));
    }
  }

  lemma {:induction false} Smaller<T>(a: set<T>, b: set<T>)
    requires a <= b
    ensures |a| <= |b|
    decreases |a|
  {
    if a != {} {
      var x :| x in a;
      Smaller(a - {x}, b - {x});
    }
  }

  /**
   When a new boot epoch appears, and the clock has not gone back, at most 32
   epochs of its key keep a window, and the new one is among them.
   */
  lemma NewEpochKeepsWindow(s: State, keyId: u32, epoch: u32, counter: u32, now: nat)
    requires Ordered(s, now) && (keyId, epoch) !in s.epochs
    ensures var t := Accepted(s, keyId, epoch, counter, now).1.epochs;
            |Windows(t, keyId)| <= RECENT_EPOCHS && (keyId, epoch) in Windows(t, keyId)
  {
    var t := s.epochs[(keyId, epoch) := Row(counter, Recent({counter}), now, s.nextRowid)];
    AtMostRecentEpochs(t, keyId);
    assert Ahead(t, (keyId, epoch)) == {};
    assert Windows(EmptyOld(t, keyId), keyId) <= RecentRows(t, keyId);
    Smaller(Windows(EmptyOld(t, keyId), keyId), RecentRows(t, keyId));
  }

  // ---- The store -------------------------------------------------------------

  datatype Credential = Credential(keyId: u32, secret: seq<byte>)

  datatype StoredRow = StoredRow(max: u32, seen: Bits, updated: nat, rowid: nat)

  class CredentialStore {
    var credentials: map<DeviceId, Credential>
    var epochs: map<EpochKey, StoredRow>
    var nextRowid: nat

    /** Key ids are unique (the UNIQUE column) and never 0. */
    ghost predicate Valid()
      reads this
    {
      && (forall d :: d in credentials ==> credentials[d].keyId != 0)
      && (forall d, e :: d in credentials && e in credentials && credentials[d].keyId == credentials[e].keyId ==> d == e)
    }

    ghost function Abs(): State
      reads this
    {
      State(KeyIds(credentials), AbsTable(epochs), nextRowid)
    }

    constructor ()
      ensures Valid() && Abs() == EMPTY
    {
      credentials, epochs, nextRowid := map[], map[], 0;
    }

    method AcceptCounter(keyId: u32, epoch: u32, counter: u32, now: nat) returns (f: Freshness)
      requires Valid()
      modifies this`epochs, this`nextRowid
      ensures Valid()
      ensures (f, Abs()) == Accepted(old(Abs()), keyId, epoch, counter, now)
    {
      hide Judge, EmptyOld, Abstract;
      var p := (keyId, epoch);
      ghost var before := AbsTable(epochs);
      if p !in epochs {
        InsertEpoch(p, counter, now);
        return Fresh;
      }
      var row := epochs[p];
      var update;
      f, update := WindowAccept(row.max, row.seen, counter);
      if update.Some? {
        var newRow := row.(max := update.value.0, seen := update.value.1, updated := now);
        AbsTableUpdate(epochs, p, newRow);
        epochs := epochs[p := newRow];
      }
    }

    /** A new boot epoch: insert its row, then empty the key's older rows. */
    method InsertEpoch(p: EpochKey, counter: u32, now: nat)
      requires Valid() && p !in epochs
      modifies this`epochs, this`nextRowid
      ensures AbsTable(epochs) == EmptyOld(old(AbsTable(epochs))[p := Row(counter, Recent({counter}), now, old(nextRowid))], p.0)
      ensures nextRowid == old(nextRowid) + 1
    {
      hide Abstract;
      var row := StoredRow(counter, SetBit(Blank(), 0), now, nextRowid);
      FirstCounter(counter);
      AbsTableUpdate(epochs, p, row);
      epochs := epochs[p := row];
      nextRowid := nextRowid + 1;
      SameOrder(epochs, p.0);
      AbsTableEmptied(epochs, p.0);
      epochs := map q | q in epochs ::
        if q.0 == p.0 && !StoredRecent(epochs, q) then epochs[q].(seen := []) else epochs[q];
    }

    /** `draws` are the random key ids in the order they come; one of them must do. */
    method Issue(device: DeviceId, secret: seq<byte>, draws: seq<u32>) returns (keyId: u32, replaced: Option<u32>)
      requires Valid()
      requires exists i :: 0 <= i < |draws| && Unused(credentials, draws[i])
      modifies this`epochs, this`credentials
      ensures Valid()
      ensures Unused(old(credentials), keyId)
      ensures credentials == old(credentials)[device := Credential(keyId, secret)]
      ensures replaced == if device in old(credentials) then Some(old(credentials)[device].keyId) else None
      ensures Abs() == Issued(old(Abs()), device, keyId)
      ensures LookUp(credentials, keyId) == Some((device, secret))
      ensures replaced.Some? ==> LookUp(credentials, replaced.value).None?
    {
      replaced := if device in credentials then Some(credentials[device].keyId) else None;
      keyId := DrawKeyId(draws);
      assert KeyIds(credentials[device := Credential(keyId, secret)]) == KeyIds(credentials)[device := keyId];
      credentials := credentials[device := Credential(keyId, secret)];
      if replaced.Some? {
        AbsTableDropped(epochs, replaced.value);
        epochs := map p | p in epochs && p.0 != replaced.value :: epochs[p];
      }
    }

    method DrawKeyId(draws: seq<u32>) returns (keyId: u32)
      requires exists i :: 0 <= i < |draws| && Unused(credentials, draws[i])
      ensures Unused(credentials, keyId)
    {
      var i := 0;
      while !Unused(credentials, draws[i])
        invariant i < |draws|
        invariant exists k :: i <= k < |draws| && Unused(credentials, draws[k])
        decreases |draws| - i
      {
        i := i + 1;
      }
      return draws[i];
    }

    method Revoke(device: DeviceId) returns (keyId: Option<u32>)
      requires Valid()
      modifies this`epochs, this`credentials
      ensures Valid()
      ensures keyId == if device in old(credentials) then Some(old(credentials)[device].keyId) else None
      ensures credentials == old(credentials) - {device}
      ensures Abs() == Revoked(old(Abs()), device)
      ensures keyId.Some? ==> LookUp(credentials, keyId.value).None?
    {
      if device !in credentials {
        assert credentials == credentials - {device};
        return None;
      }
      keyId := Some(credentials[device].keyId);
      assert KeyIds(credentials - {device}) == KeyIds(credentials) - {device};
      credentials := credentials - {device};
      AbsTableDropped(epochs, keyId.value);
      epochs := map p | p in epochs && p.0 != keyId.value :: epochs[p];
    }

    /** The device and key behind a key id: found if and only if some device holds it, and then that device's own. */
    method KeyFor(keyId: u32) returns (found: Option<(DeviceId, seq<byte>)>)
      requires Valid()
      ensures found.Some? <==> exists d :: d in credentials && credentials[d].keyId == keyId
      ensures forall d, secret ::
                found == Some((d, secret)) <==> d in credentials && credentials[d] == Credential(keyId, secret)
      ensures found == LookUp(credentials, keyId)
    {
      var rest := credentials.Keys;
      while rest != {}
        invariant rest <= credentials.Keys
        invariant forall d :: d in credentials && d !in rest ==> credentials[d].keyId != keyId
      {
        var d :| d in rest;
        if credentials[d].keyId == keyId {
          return Some((d, credentials[d].secret));
        }
        rest := rest - {d};
      }
      return None;
    }
  }

  function KeyIds(credentials: map<DeviceId, Credential>): map<DeviceId, u32> {
    map d | d in credentials :: credentials[d].keyId
  }

  function LookUp(credentials: map<DeviceId, Credential>, keyId: u32): (r: Option<(DeviceId, seq<byte>)>)
    requires forall d, e :: d in credentials && e in credentials && credentials[d].keyId == credentials[e].keyId ==> d == e
    ensures r.Some? ==> r.value.0 in credentials && credentials[r.value.0] == Credential(keyId, r.value.1)
    ensures r.None? ==> forall d :: d in credentials ==> credentials[d].keyId != keyId
  {
    if exists d :: d in credentials && credentials[d].keyId == keyId then
      var d :| d in credentials && credentials[d].keyId == keyId;
      Some((d, credentials[d].secret))
    else None
  }

  ghost function AbsRow(r: StoredRow): Row {
    Row(r.max, Abstract(r.max, r.seen), r.updated, r.rowid)
  }

  ghost function AbsTable(t: map<EpochKey, StoredRow>): Table {
    map p | p in t :: AbsRow(t[p])
  }

  lemma AbsTableUpdate(t: map<EpochKey, StoredRow>, p: EpochKey, r: StoredRow)
    ensures AbsTable(t[p := r]) == AbsTable(t)[p := AbsRow(r)]
  {}

  /** Neither 0 nor the key id of any device. */
  predicate Unused(credentials: map<DeviceId, Credential>, keyId: u32) {
    keyId != 0 && forall d :: d in credentials ==> credentials[d].keyId != keyId
  }

  lemma AbsTableDropped(t: map<EpochKey, StoredRow>, keyId: u32)
    ensures AbsTable(map p | p in t && p.0 != keyId :: t[p]) == DropKey(AbsTable(t), keyId)
  {}

  lemma AbsTableEmptied(t: map<EpochKey, StoredRow>, keyId: u32)
    requires forall p :: p in t ==> (StoredRecent(t, p) <==> IsRecent(AbsTable(t), p))
    ensures AbsTable(map q | q in t :: if q.0 == keyId && !StoredRecent(t, q) then t[q].(seen := []) else t[q])
            == EmptyOld(AbsTable(t), keyId)
  {
    hide IsRecent, StoredRecent;
  }

  predicate StoredNewer(a: StoredRow, b: StoredRow) {
    a.updated > b.updated || (a.updated == b.updated && a.rowid > b.rowid)
  }

  /** Within `ORDER BY updated_at DESC, rowid DESC LIMIT 32`. */
  predicate StoredRecent(t: map<EpochKey, StoredRow>, p: EpochKey)
    requires p in t
  {
    |set q | q in t && q.0 == p.0 && StoredNewer(t[q], t[p])| < RECENT_EPOCHS
  }

  lemma SameOrder(t: map<EpochKey, StoredRow>, keyId: u32)
    ensures forall p :: p in t ==> (StoredRecent(t, p) <==> IsRecent(AbsTable(t), p))
  {
    forall p | p in t
      ensures StoredRecent(t, p) <==> IsRecent(AbsTable(t), p)
    {
      assert (set q | q in t && q.0 == p.0 && StoredNewer(t[q], t[p])) == Ahead(AbsTable(t), p);
    }
  }

  lemma FirstCounter(counter: u32)
    ensures Abstract(counter, SetBit(Blank(), 0)) == Recent({counter})
  {
    hide GetBit, SetBit;
    var seen := SetBit(Blank(), 0);
    BitsAfterSet(Blank(), 0);
    forall c: u32
      ensures c in Marked(counter, seen) <==> c == counter
    {
      if c <= counter && counter - c < REPLAY_WINDOW {
        BlankHasNoBits(counter - c);
        assert GetBit(seen, counter - c) <==> c == counter;
      }
    }
  }
}
