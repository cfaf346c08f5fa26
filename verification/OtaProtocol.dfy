/**
 The update protocol between one device and the server, with resets at any
 point and reports that are lost, delayed, repeated or reordered.
 */
module OtaProtocol {
  import opened Bytes
  import opened Decimals
  import C = Campaigns

  // ---- The build number on the wire ----------------------------------------------

  const TWO_63: int := 0x8000_0000_0000_0000

  /**
   The server keeps a build number as a signed 64-bit value and prints it in
   JSON; the device reads the first run of digits, so it never sees the sign.
   */
  function WireBuild(b: u64): u64 {
    if b < TWO_63 then b else 2 * TWO_63 - b
  }

  /** `build as i64` */
  function Signed(b: u64): int { if b < TWO_63 then b else b - 2 * TWO_63 }

  /** What the device parses from the JSON number, and that it is the build itself exactly up to 2^63. */
  lemma WireBuildIsParsed(b: u64, rest: seq<byte>)
    requires rest == [] || !IsDigit(rest[0])
    ensures ParseU64(Decimal(Signed(b)) + rest) == Some(WireBuild(b))
    ensures ParseU64(Decimal(Signed(b)) + rest) == Some(b) <==> b <= TWO_63
  {
    SignIsLost(Signed(b), rest);
    hide ParseU64, Decimal;
  }

  // ---- The device -------------------------------------------------------------------

  /** What the bootloader keeps in flash. `get_state` reads both swap states as "swap". */
  datatype Boot = Booted | SwapPending | Swapped | Reverted

  /** `active` runs; `other` is the image in the second slot. */
  datatype Device = Device(
    boot: Boot, active: u64, other: u64,
    pendingConfirm: bool, rollbackUnreported: bool,
    fetched: Option<u64>, awaiting: Option<nat>)

  /** The bootloader: swap a marked update in, swap an unconfirmed one back. */
  function Bootloader(d: Device): Device {
    match d.boot
    case Booted => d
    case SwapPending => d.(boot := Swapped, active := d.other, other := d.active)
    case Swapped => d.(boot := Reverted, active := d.other, other := d.active)
    case Reverted => d
  }

  /** `from_updater`: a state that cannot be read sets neither flag. */
  function Start(d: Device, readOk: bool): Device {
    d.(pendingConfirm := readOk && (d.boot.SwapPending? || d.boot.Swapped?),
       rollbackUnreported := readOk && d.boot.Reverted?,
       fetched := None, awaiting := None)
  }

  function Restart(d: Device, readOk: bool): Device { Start(Bootloader(d), readOk) }

  /** An upload was acknowledged: confirm a new image, or close a reported rollback. */
  function Acknowledged(d: Device, reported: bool, markOk: bool): Device {
    var d1 := if d.pendingConfirm && markOk then d.(boot := Booted, pendingConfirm := false) else d;
    var d2 := if reported && d1.rollbackUnreported && markOk then d1.(boot := Booted, rollbackUnreported := false) else d1;
    d2.(awaiting := None)
  }

  predicate MayPoll(d: Device) { !d.pendingConfirm && !d.rollbackUnreported }

  /** `check`: a target of another build than the running one is an update. */
  function Checked(d: Device, target: Option<u64>): Device {
    match target
    case None => d
    case Some(b) => if WireBuild(b) == d.active then d else d.(fetched := Some(WireBuild(b)))
  }

  /** A verified image of the fetched build is in the second slot; `mark_updated` may fail. */
  function Marked(d: Device, markOk: bool): Device
    requires d.fetched.Some?
  {
    if markOk then d.(boot := SwapPending, other := d.fetched.value, fetched := None)
    else d.(other := d.fetched.value, fetched := None)
  }

  /** The handler over the bootloader's state, updated in place. */
  class Ota {
    var boot: Boot
    var active: u64
    var other: u64
    var pendingConfirm: bool
    var rollbackUnreported: bool
    var fetched: Option<u64>
    var awaiting: Option<nat>

    function View(): Device
      reads this
    {
      Device(boot, active, other, pendingConfirm, rollbackUnreported, fetched, awaiting)
    }

    constructor FromUpdater(d: Device, readOk: bool)
      ensures View() == Start(d, readOk)
    {
      boot, active, other := d.boot, d.active, d.other;
      pendingConfirm := readOk && (d.boot.SwapPending? || d.boot.Swapped?);
      rollbackUnreported := readOk && d.boot.Reverted?;
      fetched, awaiting := None, None;
    }

    method ReportFlags() returns (rolledBack: bool)
      ensures rolledBack == rollbackUnreported
    {
      return rollbackUnreported;
    }

    method RollbackReported(markOk: bool)
      modifies this`boot, this`rollbackUnreported
      ensures View() == old(if rollbackUnreported && markOk then View().(boot := Booted, rollbackUnreported := false) else View())
    {
      if !rollbackUnreported { return; }
      if markOk {
        boot := Booted;
        rollbackUnreported := false;
      }
    }

    method Confirm(markOk: bool)
      modifies this`boot, this`pendingConfirm
      ensures View() == old(if pendingConfirm && markOk then View().(boot := Booted, pendingConfirm := false) else View())
    {
      if !pendingConfirm { return; }
      if markOk {
        boot := Booted;
        pendingConfirm := false;
      }
    }

    /** An upload begins: its report carries the running build and the rollback flag. */
    method StartUpload(n: nat) returns (report: Report)
      modifies this`awaiting
      ensures report == Report(active, rollbackUnreported)
      ensures View() == old(View()).(awaiting := Some(n))
    {
      var flags := ReportFlags();
      awaiting := Some(n);
      return Report(active, flags);
    }

    /** The upload loop once every chunk was acknowledged. */
    method UploadSucceeded(reported: bool, markOk: bool)
      modifies this`boot, this`pendingConfirm, this`rollbackUnreported, this`awaiting
      ensures View() == Acknowledged(old(View()), reported, markOk)
    {
      if pendingConfirm {
        Confirm(markOk);
      }
      if reported {
        RollbackReported(markOk);
      }
      awaiting := None;
    }

    /** The first half of `poll_and_update`. */
    method Poll(target: Option<u64>)
      modifies this`fetched
      ensures View() == if MayPoll(old(View())) then Checked(old(View()), target) else old(View())
    {
      if pendingConfirm || rollbackUnreported { return; }
      if target.Some? && WireBuild(target.value) != active {
        fetched := Some(WireBuild(target.value));
      }
    }

    /** The second half, once `download` and `finish` succeeded. */
    method MarkUpdated(markOk: bool)
      requires fetched.Some?
      modifies this`boot, this`other, this`fetched
      ensures View() == Marked(old(View()), markOk)
    {
      other := fetched.value;
      fetched := None;
      if markOk {
        boot := SwapPending;
      }
    }
  }

  // ---- Device and server together --------------------------------------------------------

  /** An OTA-request report as it was sent. */
  datatype Report = Report(build: u64, rolledBack: bool)

  /** `processed` holds the numbers of the reports the server has handled. */
  datatype World = World(id: C.DeviceId, dev: Device, db: C.Db, sent: seq<Report>, processed: set<nat>)

  datatype Event =
    | Server(step: C.Event)              // an operator, another device, or a report in this one's name
    | Upload                             // the device sends a report and waits
    | Deliver(n: nat)                    // the server handles report n, perhaps again
    | Ack(markOk: bool)                  // the upload the device waits for succeeds
    | GiveUp                             // or fails
    | Poll                               // the device asks for its target
    | Abandon                            // the download or its verification fails
    | Install(markOk: bool)              // the verified image is marked
    | Reset(readOk: bool)

  /** The target the server would answer a poll with. */
  function TargetOf(w: World): Option<u64> {
    if w.id in w.db.targets then Some(w.db.targets[w.id].build) else None
  }

  /** The device is between steps: not waiting, not downloading, not about to reset. */
  predicate Idle(d: Device) { d.awaiting.None? && d.fetched.None? && !d.boot.SwapPending? }

  predicate Enabled(w: World, e: Event) {
    match e
    case Server(_) => true
    case Upload => Idle(w.dev)
    case Deliver(n) => n < |w.sent|
    case Ack(_) => w.dev.awaiting.Some? && w.dev.awaiting.value < |w.sent|
    case GiveUp => w.dev.awaiting.Some?
    case Poll => Idle(w.dev) && MayPoll(w.dev)
    case Abandon => w.dev.fetched.Some?
    case Install(_) => w.dev.fetched.Some?
    case Reset(_) => true
  }

  function Step(w: World, e: Event): World
    requires Enabled(w, e)
  {
    match e
    case Server(step) => w.(db := C.Step(w.db, step))
    case Upload =>
      w.(sent := w.sent + [Report(w.dev.active, w.dev.rollbackUnreported)],
         dev := w.dev.(awaiting := Some(|w.sent|)))
    case Deliver(n) =>
      w.(db := C.OtaReport(w.db, w.id, w.sent[n].build, w.sent[n].rolledBack), processed := w.processed + {n})
    case Ack(markOk) =>
      w.(dev := Acknowledged(w.dev, w.sent[w.dev.awaiting.value].rolledBack, markOk))
    case GiveUp => w.(dev := w.dev.(awaiting := None))
    case Poll => w.(dev := Checked(w.dev, TargetOf(w)))
    case Abandon => w.(dev := w.dev.(fetched := None))
    case Install(markOk) => w.(dev := Marked(w.dev, markOk))
    case Reset(readOk) => w.(dev := Restart(w.dev, readOk))
  }

  /** A run: each world follows from the one before by an enabled step. */
  ghost predicate IsRun(ws: seq<World>, es: seq<Event>) {
    && |ws| == |es| + 1
    && forall k :: 0 <= k < |es| ==> Follows(ws, es, k)
  }

  ghost predicate Goes(w: World, e: Event, w': World) {
    Enabled(w, e) && w' == Step(w, e)
  }

  ghost predicate Follows(ws: seq<World>, es: seq<Event>, k: nat)
    requires k < |es| && |ws| == |es| + 1
  {
    Goes(ws[k], es[k], ws[k + 1])
  }

  /** A device that has never been updated, and a server. */
  ghost predicate Initial(w: World) {
    w.dev.boot.Booted? && w.dev == Start(w.dev, true) && w.sent == [] && w.processed == {}
  }

  // ---- Installs come from offers ------------------------------------------------------------

  /** The step calls `set_ota_target` for the device with a build it would read as b. */
  ghost predicate OfferStep(w: World, e: Event, b: u64) {
    e.Server? && exists t: C.Target :: C.Offers(w.db, e.step, w.id, t) && WireBuild(t.build) == b
  }

  /** Nothing the device has or could fetch is build b. */
  predicate Clean(w: World, b: u64) {
    (TargetOf(w).Some? ==> WireBuild(TargetOf(w).value) != b) && w.dev.fetched != Some(b)
  }

  /** Step k marks build b for installation. */
  ghost predicate InstallsAt(ws: seq<World>, es: seq<Event>, k: nat, b: u64)
    requires k < |es| && |ws| == |es| + 1
  {
    es[k] == Install(true) && ws[k].dev.fetched == Some(b)
  }

  lemma CleanStep(w: World, e: Event, b: u64)
    requires Enabled(w, e) && Clean(w, b) && !OfferStep(w, e, b)
    ensures Clean(Step(w, e), b)
  {
    hide C.Step, C.OtaReport, C.Offers;
    if e.Server? {
      var w' := Step(w, e);
      if TargetOf(w').Some? {
        C.TargetsComeFromOffers(w.db, e.step, w.id);
      }
    } else if e.Deliver? {
      DeliverSetsNoTarget(w, e.n);
    }
  }

  lemma DeliverSetsNoTarget(w: World, n: nat)
    requires n < |w.sent|
    ensures var w' := Step(w, Deliver(n)); TargetOf(w').None? || TargetOf(w') == TargetOf(w)
  {
    hide C.OtaReport;
    var report := C.Report(w.id, w.sent[n].build, w.sent[n].rolledBack);
    assert C.Step(w.db, report) == C.OtaReport(w.db, w.id, w.sent[n].build, w.sent[n].rolledBack);
    if TargetOf(Step(w, Deliver(n))).Some? {
      C.TargetsComeFromOffers(w.db, report, w.id);
    }
  }

  /** Every installation of a build goes back to an offer of it: since any moment when neither side held it. */
  lemma {:induction false} InstallsComeFromOffers(ws: seq<World>, es: seq<Event>, k: nat, j: nat, b: u64)
    requires IsRun(ws, es) && k <= j < |es|
    requires Clean(ws[k], b) && InstallsAt(ws, es, j, b)
    ensures exists s :: k <= s < j && OfferStep(ws[s], es[s], b)
    decreases j - k
  {
    assert |ws| == |es| + 1;
    assert ws[k].dev.fetched != Some(b);
    assert Follows(ws, es, k);
    hide Step, Enabled, OfferStep, IsRun, Clean;
    if k == j {
      assert false;
    } else if !OfferStep(ws[k], es[k], b) {
      CleanStep(ws[k], es[k], b);
      InstallsComeFromOffers(ws, es, k + 1, j, b);
    }
  }

  // ---- After a rollback -----------------------------------------------------------------------

  /** What every reachable world satisfies. */
  ghost predicate Sane(w: World) {
    && (w.dev.boot.SwapPending? || w.dev.boot.Swapped? ==> w.dev.active != w.dev.other)
    && (w.dev.fetched.Some? ==> w.dev.fetched.value != w.dev.active)
    && (w.dev.awaiting.Some? ==> w.dev.awaiting.value < |w.sent|)
    && (forall n :: n in w.processed ==> n < |w.sent|)
  }

  lemma SaneStep(w: World, e: Event)
    requires Enabled(w, e) && Sane(w)
    ensures Sane(Step(w, e))
  {
    hide C.Step, C.OtaReport;
  }

  lemma {:induction false} SaneAlways(ws: seq<World>, es: seq<Event>, k: nat)
    requires IsRun(ws, es) && Initial(ws[0]) && k <= |es|
    ensures Sane(ws[k])
    decreases k
  {
    if k > 0 {
      assert Follows(ws, es, k - 1);
      hide Step, Enabled, IsRun;
      SaneAlways(ws, es, k - 1);
      SaneStep(ws[k - 1], es[k - 1]);
    }
  }

  /** The bootloader swaps back an update that was never confirmed. */
  ghost predicate RollsBack(ws: seq<World>, es: seq<Event>, k: nat)
    requires k < |es| && |ws| == |es| + 1
  {
    es[k].Reset? && ws[k].dev.boot.Swapped?
  }

  /** Step k has the server process a rollback report, numbered u or later, from a device running build a. */
  ghost predicate ProcessesRollback(ws: seq<World>, es: seq<Event>, k: nat, a: u64, u: nat)
    requires k < |es| && |ws| == |es| + 1
  {
    es[k].Deliver? && u <= es[k].n < |ws[k].sent| && ws[k].sent[es[k].n] == Report(a, true)
  }

  /** Steps i to j: while a rollback is unreported, no upload is acknowledged before the server handled its report. */
  ghost predicate AcksMeanProcessed(ws: seq<World>, es: seq<Event>, i: nat, j: nat)
    requires j <= |es| && |ws| == |es| + 1
  {
    forall k :: i <= k < j && es[k].Ack? && ws[k].dev.rollbackUnreported ==>
                  ws[k].dev.awaiting.Some? && ws[k].dev.awaiting.value in ws[k].processed
  }

  /** Steps i to j: an image that starts after a rollback can read that from the bootloader state. */
  ghost predicate RevertReadable(ws: seq<World>, es: seq<Event>, i: nat, j: nat)
    requires j <= |es| && |ws| == |es| + 1
  {
    forall k :: i <= k < j && es[k].Reset? && Bootloader(ws[k].dev).boot.Reverted? ==> es[k].readOk
  }

  /** Rolled back to build a, and no report of it (they are numbered from u) processed yet. */
  ghost predicate Waiting(w: World, a: u64, u: nat) {
    && w.dev.boot.Reverted? && w.dev.active == a && w.dev.rollbackUnreported && !w.dev.pendingConfirm && w.dev.fetched.None?
    && (w.dev.awaiting.Some? ==> u <= w.dev.awaiting.value)
    && u <= |w.sent|
    && (forall n :: u <= n < |w.sent| ==> w.sent[n] == Report(a, true) && n !in w.processed)
  }

  lemma WaitingFlag(w: World, a: u64, u: nat)
    requires Waiting(w, a, u)
    ensures w.dev.rollbackUnreported
  {
  }

  lemma WaitingStep(w: World, e: Event, a: u64, u: nat)
    requires Enabled(w, e) && Sane(w) && Waiting(w, a, u)
    requires e.Ack? ==> w.dev.awaiting.Some? && w.dev.awaiting.value in w.processed
    requires e.Reset? && Bootloader(w.dev).boot.Reverted? ==> e.readOk
    ensures Waiting(Step(w, e), a, u) || (e.Deliver? && u <= e.n)
  {
    hide C.Step, C.OtaReport;
  }

  /** The server handles a report of the rollback: what it offers now is not the failed build. */
  lemma ReportCleans(w: World, n: nat, a: u64, b: u64, u: nat)
    requires Waiting(w, a, u) && u <= n < |w.sent| && WireBuild(a) != b
    ensures Clean(Step(w, Deliver(n)), b)
  {
    C.RollbackEffect(w.db, w.id, a);
    hide C.RecordRollback, C.Hits, C.AfterFailure, C.Devices, C.Trips;
  }

  /** Before step k a report of the rollback at step i was handled and cleared the offer. */
  ghost predicate Cleared(ws: seq<World>, es: seq<Event>, i: nat, k: nat, a: u64, b: u64)
    requires i <= k <= |es| && |ws| == |es| + 1
  {
    exists r :: i < r < k && ProcessesRollback(ws, es, r, a, |ws[i].sent|) && Clean(ws[r + 1], b)
  }

  lemma {:induction false} UntilReported(ws: seq<World>, es: seq<Event>, i: nat, k: nat)
    requires IsRun(ws, es) && Initial(ws[0]) && i < k <= |es| && RollsBack(ws, es, i)
    requires AcksMeanProcessed(ws, es, i, k) && RevertReadable(ws, es, i, k)
    requires WireBuild(ws[i].dev.other) != ws[i].dev.active
    ensures Waiting(ws[k], ws[i].dev.other, |ws[i].sent|) || Cleared(ws, es, i, k, ws[i].dev.other, ws[i].dev.active)
    decreases k
  {
    var a, b, u := ws[i].dev.other, ws[i].dev.active, |ws[i].sent|;
    SaneAlways(ws, es, i);
    hide Step, Enabled, Clean, Waiting;
    assert |ws| == |es| + 1 && Enabled(ws[k - 1], es[k - 1]) && ws[k] == Step(ws[k - 1], es[k - 1]) by {
      assert Follows(ws, es, k - 1);
    }
    hide IsRun;
    if k == i + 1 {
      JustRolledBack(ws[i], es[i]);
    } else {
      UntilReported(ws, es, i, k - 1);
      hide ProcessesRollback;
      if Waiting(ws[k - 1], a, u) {
        SaneAlways(ws, es, k - 1);
        WaitingFlag(ws[k - 1], a, u);
        WaitingStep(ws[k - 1], es[k - 1], a, u);
        if !Waiting(ws[k], a, u) {
          ReportHandled(ws, es, k - 1, a, b, u);
        }
      }
    }
  }

  lemma JustRolledBack(w: World, e: Event)
    requires Sane(w) && w.dev.boot.Swapped? && e == Reset(true)
    ensures Waiting(Step(w, e), w.dev.other, |w.sent|)
  {
  }

  lemma ReportHandled(ws: seq<World>, es: seq<Event>, r: nat, a: u64, b: u64, u: nat)
    requires IsRun(ws, es) && r < |es|
    requires Waiting(ws[r], a, u) && es[r].Deliver? && u <= es[r].n && WireBuild(a) != b
    ensures ProcessesRollback(ws, es, r, a, u) && Clean(ws[r + 1], b)
  {
    assert Follows(ws, es, r);
    ReportCleans(ws[r], es[r].n, a, b, u);
    hide Clean, Step;
  }

  /**
   In a run, build b was rolled back to build a at step i and is installed at
   step j, while in between the environment kept its two promises.
   */
  ghost predicate Reinstalls(ws: seq<World>, es: seq<Event>, i: nat, j: nat, a: u64, b: u64) {
    && IsRun(ws, es) && Initial(ws[0]) && i < j < |es|
    && RollsBack(ws, es, i) && ws[i].dev.other == a && ws[i].dev.active == b
    && InstallsAt(ws, es, j, b)
    && AcksMeanProcessed(ws, es, i, j) && RevertReadable(ws, es, i, j)
  }

  /** First a handled report of the rollback to a at step i, sent after it, then a new offer of b, both before step j. */
  ghost predicate Explained(ws: seq<World>, es: seq<Event>, i: nat, j: nat, a: u64, b: u64)
    requires i < j < |es| && |ws| == |es| + 1
  {
    exists r, s :: i < r < s < j && ProcessesRollback(ws, es, r, a, |ws[i].sent|) && OfferStep(ws[s], es[s], b)
  }

  /**
   If an unconfirmed build was rolled back, it is installed again only after
   the server handled a report of that rollback and then an operator or a
   campaign offered that build anew.
   */
  lemma NoReinstall(ws: seq<World>, es: seq<Event>, i: nat, j: nat, a: u64, b: u64)
    requires Reinstalls(ws, es, i, j, a, b) && WireBuild(a) != b
    ensures Explained(ws, es, i, j, a, b)
  {
    UntilReported(ws, es, i, j);
    hide IsRun, Clean, OfferStep;
    var r :| i < r < j && ProcessesRollback(ws, es, r, a, |ws[i].sent|) && Clean(ws[r + 1], b);
    InstallsComeFromOffers(ws, es, r + 1, j, b);
  }

  /**
   For a rollback from b to another build a that is exactly the case when the
   device does not read a's number as b.
   */
  lemma NoReinstallIff(a: u64, b: u64)
    requires a != b
    ensures (forall ws, es, i, j :: Reinstalls(ws, es, i, j, a, b) ==> Explained(ws, es, i, j, a, b))
       <==> WireBuild(a) != b
  {
    if WireBuild(a) != b {
      forall ws, es, i, j | Reinstalls(ws, es, i, j, a, b) ensures Explained(ws, es, i, j, a, b) {
        NoReinstall(ws, es, i, j, a, b);
      }
    } else {
      var ws, es, i, j := WrappedBuildReinstalls(a, b);
      assert Reinstalls(ws, es, i, j, a, b) && !Explained(ws, es, i, j, a, b);
    }
  }

  // ---- Runs in which the failed build comes back ------------------------------------------------------

  function TargetStep(build: u64): Event { Server(C.SetTarget(0, C.Target([], build))) }

  /** A device that runs `running`; the server offers it `target`. */
  function Offering(dev: Device, target: u64): World {
    World(0, dev, C.EMPTY_DB.(targets := map[0 := C.Target([], target)]), [], {})
  }

  function FirstWorld(running: u64): World {
    World(0, Device(Booted, running, running, false, false, None, None), C.EMPTY_DB, [], {})
  }

  /** Update from a to b and roll back again: the start of every run below. */
  function RolledBackRun(a: u64, b: u64, readOk: bool): (seq<World>, seq<Event>) {
    ([FirstWorld(a),
      Offering(FirstWorld(a).dev, b),
      Offering(Device(Booted, a, a, false, false, Some(b), None), b),
      Offering(Device(SwapPending, a, b, false, false, None, None), b),
      Offering(Device(Swapped, b, a, true, false, None, None), b),
      Offering(Device(Reverted, a, b, false, readOk, None, None), b)],
     [TargetStep(b), Poll, Install(true), Reset(true), Reset(readOk)])
  }

  lemma SetsTarget(db: C.Db, build: u64)
    requires db.targets.Keys <= {0}
    ensures C.Step(db, C.SetTarget(0, C.Target([], build))) == db.(targets := map[0 := C.Target([], build)])
  {
    hide C.OtaReport, C.CreateCampaign, C.ActivateCampaign, C.PauseCampaign, C.RollbackCampaign;
    assert db.targets[0 := C.Target([], build)] == map[0 := C.Target([], build)];
  }

  lemma RolledBackRunIsRun(a: u64, b: u64, readOk: bool)
    requires a != b && WireBuild(b) == b
    ensures var (ws, es) := RolledBackRun(a, b, readOk);
            IsRun(ws, es) && Initial(ws[0]) && RollsBack(ws, es, 4)
  {
    var (ws, es) := RolledBackRun(a, b, readOk);
    SetsTarget(ws[0].db, b);
    hide C.Step, C.OtaReport;
    assert Follows(ws, es, 0);
    assert Follows(ws, es, 1);
    assert Follows(ws, es, 2);
    assert Follows(ws, es, 3);
    assert Follows(ws, es, 4);
  }

  /** A run goes on from its last world by further steps. */
  ghost predicate Continues(w: World, next: seq<World>, more: seq<Event>) {
    && |next| == |more|
    && forall k :: 0 <= k < |more| ==> GoesAt(w, next, more, k)
  }

  ghost predicate GoesAt(w: World, next: seq<World>, more: seq<Event>, k: nat)
    requires k < |more| == |next|
  {
    Goes(if k == 0 then w else next[k - 1], more[k], next[k])
  }

  lemma AppendAll(ws: seq<World>, es: seq<Event>, next: seq<World>, more: seq<Event>)
    requires IsRun(ws, es) && Continues(ws[|es|], next, more)
    ensures IsRun(ws + next, es + more)
  {
    hide Step, Enabled;
    forall k | 0 <= k < |es + more| ensures Follows(ws + next, es + more, k) {
      if k < |es| {
        assert Follows(ws, es, k);
      } else {
        assert GoesAt(ws[|es|], next, more, k - |es|);
      }
    }
  }

  /**
   If the bootloader state cannot be read after the rollback, neither flag is
   set: the device polls at once and installs the failed build again.
   */
  lemma UnreadStateReinstalls(a: u64, b: u64) returns (ws: seq<World>, es: seq<Event>, i: nat, j: nat)
    requires a != b && WireBuild(b) == b
    ensures IsRun(ws, es) && Initial(ws[0]) && i < j < |es|
    ensures RollsBack(ws, es, i) && ws[i].dev.other == a && ws[i].dev.active == b && InstallsAt(ws, es, j, b)
    ensures AcksMeanProcessed(ws, es, i, j) && !Explained(ws, es, i, j, a, b)
  {
    var (ws0, es0) := RolledBackRun(a, b, false);
    RolledBackRunIsRun(a, b, false);
    var next := [Offering(Device(Reverted, a, b, false, false, Some(b), None), b),
                 Offering(Device(SwapPending, a, b, false, false, None, None), b)];
    var more := [Poll, Install(true)];
    assert GoesAt(ws0[5], next, more, 0);
    AppendAll(ws0, es0, next, more);
    ws, es, i, j := ws0 + next, es0 + more, 4, 6;
    hide IsRun, OfferStep;
  }

  function LostAfterAck(w: World, a: u64, b: u64): (seq<World>, seq<Event>) {
    var base := w.(sent := [Report(a, true)]);
    ([base.(dev := w.dev.(awaiting := Some(0))),
      base.(dev := Device(Booted, a, b, false, false, None, None)),
      base.(dev := Device(Booted, a, b, false, false, Some(b), None)),
      base.(dev := Device(SwapPending, a, b, false, false, None, None))],
     [Upload, Ack(true), Poll, Install(true)])
  }

  lemma LostAfterAckContinues(w: World, a: u64, b: u64)
    requires a != b && WireBuild(b) == b
    requires w == Offering(Device(Reverted, a, b, false, true, None, None), b)
    ensures var (next, more) := LostAfterAck(w, a, b); Continues(w, next, more)
  {
    hide C.Step, C.OtaReport;
    var (next, more) := LostAfterAck(w, a, b);
    assert next[0].sent == w.sent + [Report(a, true)];
    assert GoesAt(w, next, more, 0);
    assert GoesAt(w, next, more, 1);
    assert GoesAt(w, next, more, 2);
    assert GoesAt(w, next, more, 3);
    hide Step, Enabled;
  }

  /** A gateway that acknowledges the rollback report and then loses it has the same effect. */
  lemma LostAfterAckReinstalls(a: u64, b: u64) returns (ws: seq<World>, es: seq<Event>, i: nat, j: nat)
    requires a != b && WireBuild(b) == b
    ensures IsRun(ws, es) && Initial(ws[0]) && i < j < |es|
    ensures RollsBack(ws, es, i) && ws[i].dev.other == a && ws[i].dev.active == b && InstallsAt(ws, es, j, b)
    ensures RevertReadable(ws, es, i, j) && !Explained(ws, es, i, j, a, b)
  {
    var (ws0, es0) := RolledBackRun(a, b, true);
    RolledBackRunIsRun(a, b, true);
    var (next, more) := LostAfterAck(ws0[5], a, b);
    LostAfterAckContinues(ws0[5], a, b);
    hide Continues, IsRun, OfferStep, Step, Enabled;
    AppendAll(ws0, es0, next, more);
    ws, es, i, j := ws0 + next, es0 + more, 4, 8;
  }

  /** After the rollback the operator targets a itself, which the device reads as b. */
  function WrappedOffer(w: World, a: u64, b: u64): (seq<World>, seq<Event>) {
    var w6 := w.(db := w.db.(targets := map[0 := C.Target([], a)]));
    var w7 := w6.(sent := [Report(a, true)], dev := w6.dev.(awaiting := Some(0)));
    var w8 := w7.(processed := {0}, db := w6.db.(evidence := [C.UpdateRolledBack(0)]));
    var w9 := w8.(dev := Device(Booted, a, b, false, false, None, None));
    var w10 := w9.(dev := w9.dev.(fetched := Some(b)));
    var w11 := w10.(dev := Device(SwapPending, a, b, false, false, None, None));
    ([w6, w7, w8, w9, w10, w11], [TargetStep(a), Upload, Deliver(0), Ack(true), Poll, Install(true)])
  }

  /** A target of the restored build survives the report. */
  lemma OwnTargetStays(db: C.Db, a: u64)
    requires db == C.EMPTY_DB.(targets := map[0 := C.Target([], a)])
    ensures C.OtaReport(db, 0, a, true) == db.(evidence := [C.UpdateRolledBack(0)])
  {
  }

  lemma WrappedOfferContinues(w: World, a: u64, b: u64)
    requires a != b && WireBuild(a) == b
    requires w == Offering(Device(Reverted, a, b, false, true, None, None), b)
    ensures var (next, more) := WrappedOffer(w, a, b); Continues(w, next, more)
  {
    var (next, more) := WrappedOffer(w, a, b);
    SetsTarget(w.db, a);
    OwnTargetStays(next[0].db, a);
    hide C.Step, C.OtaReport;
    assert next[1].sent == w.sent + [Report(a, true)];
    assert GoesAt(w, next, more, 0);
    assert GoesAt(w, next, more, 1);
    assert GoesAt(w, next, more, 2);
    assert GoesAt(w, next, more, 3);
    assert GoesAt(w, next, more, 4);
    assert GoesAt(w, next, more, 5);
    hide Step, Enabled;
  }

  /**
   A restored build that the device reads as the failed one: a target that
   names it passes the server's rollback check and is installed as that build.
   */
  lemma WrappedBuildReinstalls(a: u64, b: u64) returns (ws: seq<World>, es: seq<Event>, i: nat, j: nat)
    requires a != b && WireBuild(a) == b
    ensures Reinstalls(ws, es, i, j, a, b) && !Explained(ws, es, i, j, a, b)
  {
    var (ws0, es0) := RolledBackRun(a, b, true);
    RolledBackRunIsRun(a, b, true);
    var (next, more) := WrappedOffer(ws0[5], a, b);
    WrappedOfferContinues(ws0[5], a, b);
    hide Continues, IsRun, OfferStep, Step, Enabled;
    AppendAll(ws0, es0, next, more);
    ws, es, i, j := ws0 + next, es0 + more, 4, 10;
  }
}
