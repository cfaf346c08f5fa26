/**
 Update campaigns and targets on the server. Every handler holds the store
 lock, so each is one step. Campaign ids are positions in the table, and
 devices are numbered in the order their ids sort.
 */
module Campaigns {
  import opened Bytes

  type DeviceId = nat
  type Version = seq<byte>

  datatype Strategy = Immediate | Canary | Scheduled

  datatype Status = Created | Active | Paused | Completed | RolledBack

  datatype DeviceStatus = Pending | Downloading | Failed | Installed
  {
    /** Progress through a campaign. */
    function Rank(): nat {
      match this
      case Pending => 0
      case Downloading => 1
      case Failed => 2
      case Installed => 3
    }

    predicate Done() { Failed? || Installed? }
  }

  datatype Row = Row(device: DeviceId, status: DeviceStatus)

  datatype Campaign = Campaign(
    firmware: nat, version: Version, strategy: Strategy, rolloutPercent: int, threshold: real,
    status: Status, activatedAt: Option<nat>, rows: seq<Row>)

  datatype Target = Target(version: Version, build: u64)

  datatype Firmware = Firmware(version: Version, build: u64)

  /** Entries of the evidence log about campaigns. */
  datatype Evidence =
    | UpdateInstalled(campaign: nat, device: DeviceId)
    | UpdateRolledBack(device: DeviceId)
    | CampaignCompleted(campaign: nat)
    | AutoPaused(campaign: nat, trigger: DeviceId)

  datatype Db = Db(
    campaigns: seq<Campaign>, targets: map<DeviceId, Target>, firmware: map<nat, Firmware>, evidence: seq<Evidence>)

  const EMPTY_DB := Db([], map[], map[], [])

  // ---- Rows of a campaign ----------------------------------------------------

  function Devices(rows: seq<Row>): set<DeviceId> {
    set i | 0 <= i < |rows| :: rows[i].device
  }

  /** INSERT OR IGNORE of a pending row, kept in `ORDER BY device_id`. */
  function Enrol(rows: seq<Row>, d: DeviceId): seq<Row> {
    if rows == [] || d < rows[0].device then [Row(d, Pending)] + rows
    else if d == rows[0].device then rows
    else [rows[0]] + Enrol(rows[1..], d)
  }

  function EnrolAll(ds: seq<DeviceId>): seq<Row> {
    if ds == [] then [] else Enrol(EnrolAll(ds[..|ds| - 1]), ds[|ds| - 1])
  }

  /** Sorted by device, so no device appears twice. */
  ghost predicate Sorted(rows: seq<Row>) {
    forall i, j :: 0 <= i < j < |rows| ==> rows[i].device < rows[j].device
  }

  /** `UPDATE ... SET status WHERE device_id = d` */
  function SetStatus(rows: seq<Row>, d: DeviceId, status: DeviceStatus): (r: seq<Row>)
    ensures |r| == |rows|
    ensures forall i :: 0 <= i < |rows| ==> r[i] == if rows[i].device == d then Row(d, status) else rows[i]
  {
    seq(|rows|, i requires 0 <= i < |rows| => if rows[i].device == d then Row(d, status) else rows[i])
  }

  predicate HasStatus(rows: seq<Row>, d: DeviceId, status: DeviceStatus) {
    Row(d, status) in rows
  }

  /** The device takes part and is neither installed nor failed. */
  predicate Undecided(rows: seq<Row>, d: DeviceId) {
    HasStatus(rows, d, Pending) || HasStatus(rows, d, Downloading)
  }

  function CountFailed(rows: seq<Row>): (n: nat)
    ensures n <= |rows|
  {
    if rows == [] then 0 else CountFailed(rows[..|rows| - 1]) + (if rows[|rows| - 1].status.Failed? then 1 else 0)
  }

  predicate AllDone(rows: seq<Row>) {
    forall i :: 0 <= i < |rows| ==> rows[i].status.Done()
  }

  /** More than `threshold` percent of the devices failed. */
  predicate OverThreshold(c: Campaign) {
    |c.rows| > 0 && CountFailed(c.rows) as real * 100.0 / |c.rows| as real > c.threshold
  }

  /** The pending devices in order. */
  function PendingDevices(rows: seq<Row>): seq<DeviceId> {
    if rows == [] then []
    else (if rows[0].status.Pending? then [rows[0].device] else []) + PendingDevices(rows[1..])
  }

  /** How many pending devices an activation targets. */
  function TargetCount(c: Campaign): nat {
    var pending := |PendingDevices(c.rows)|;
    if c.strategy.Canary? then
      var share := pending * c.rolloutPercent / 100;
      var count := if share >= 1 then share else 1;
      if count <= pending then count else pending
    else pending
  }

  function Chosen(c: Campaign): (ds: seq<DeviceId>)
    ensures |ds| == TargetCount(c)
  {
    PendingDevices(c.rows)[..TargetCount(c)]
  }

  // ---- Steps -----------------------------------------------------------------

  function SetCampaign(db: Db, id: nat, c: Campaign): Db
    requires id < |db.campaigns|
  {
    db.(campaigns := db.campaigns[id := c])
  }

  /** `update_campaign_status` */
  function WithStatus(c: Campaign, status: Status, now: nat): Campaign {
    c.(status := status,
       activatedAt := if status.Active? && c.activatedAt.None? then Some(now) else c.activatedAt)
  }

  function WithoutTargets(targets: map<DeviceId, Target>, ds: set<DeviceId>): map<DeviceId, Target> {
    targets - ds
  }

  function CreateCampaign(
    db: Db, firmware: nat, version: Version, strategy: Strategy, percent: int, threshold: real, ds: seq<DeviceId>): Db
  {
    if firmware !in db.firmware then db
    else
      db.(campaigns := db.campaigns
          + [Campaign(firmware, version, strategy, percent, threshold, Created, None, EnrolAll(ds))])
  }

  /** Sets the target of each device in turn and marks it downloading. */
  function Offer(db: Db, id: nat, t: Target, ds: seq<DeviceId>): Db
    requires id < |db.campaigns|
    decreases |ds|
  {
    if ds == [] then db
    else
      var c := db.campaigns[id];
      var db' := SetCampaign(db.(targets := db.targets[ds[0] := t]), id, c.(rows := SetStatus(c.rows, ds[0], Downloading)));
      Offer(db', id, t, ds[1..])
  }

  function ActivateCampaign(db: Db, id: nat, now: nat): Db {
    if id >= |db.campaigns| then db
    else
      var c := db.campaigns[id];
      if !(c.status.Created? || c.status.Paused?) || c.firmware !in db.firmware then db
      else
        var db' := Offer(db, id, Target(c.version, db.firmware[c.firmware].build), Chosen(c));
        if id < |db'.campaigns| then SetCampaign(db', id, WithStatus(db'.campaigns[id], Active, now)) else db'
  }

  function PauseCampaign(db: Db, id: nat): Db {
    if id >= |db.campaigns| || !db.campaigns[id].status.Active? then db
    else SetCampaign(db, id, WithStatus(db.campaigns[id], Paused, 0))
  }

  function RollbackCampaign(db: Db, id: nat): Db {
    if id >= |db.campaigns| || !(db.campaigns[id].status.Active? || db.campaigns[id].status.Paused?) then db
    else
      var c := db.campaigns[id];
      SetCampaign(db.(targets := WithoutTargets(db.targets, Devices(c.rows))), id, WithStatus(c, RolledBack, 0))
  }

  /** `find_active_campaigns_for_device`, among the first n campaigns. */
  function ActiveFor(cs: seq<Campaign>, d: DeviceId, n: nat): (ids: seq<nat>)
    requires n <= |cs|
    ensures forall k :: 0 <= k < |ids| ==> ids[k] < n && cs[ids[k]].status.Active? && d in Devices(cs[ids[k]].rows)
    ensures forall i :: 0 <= i < n && cs[i].status.Active? && d in Devices(cs[i].rows) ==> i in ids
    ensures forall j, k :: 0 <= j < k < |ids| ==> ids[j] < ids[k]
  {
    if n == 0 then []
    else ActiveFor(cs, d, n - 1) + (if cs[n - 1].status.Active? && d in Devices(cs[n - 1].rows) then [n - 1] else [])
  }

  /** Where a rollback report has got to. */
  datatype Progress = Progress(db: Db, failedIn: seq<nat>, paused: seq<nat>)

  /** The device has failed; too many failures pause the campaign. */
  function AfterFailure(c: Campaign, d: DeviceId): Campaign {
    var c' := c.(rows := SetStatus(c.rows, d, Failed));
    if OverThreshold(c') then WithStatus(c', Paused, 0) else c'
  }

  /** One campaign's share of a rollback report. */
  function FailIn(p: Progress, id: nat, d: DeviceId): Progress {
    if id >= |p.db.campaigns| || !Undecided(p.db.campaigns[id].rows, d) then p
    else
      var c := AfterFailure(p.db.campaigns[id], d);
      if OverThreshold(c) then
        Progress(SetCampaign(p.db.(targets := WithoutTargets(p.db.targets, Devices(c.rows))), id, c),
                 p.failedIn + [id], p.paused + [id])
      else
        Progress(SetCampaign(p.db, id, c), p.failedIn + [id], p.paused)
  }

  function FailInAll(p: Progress, ids: seq<nat>, d: DeviceId): Progress
    decreases |ids|
  {
    if ids == [] then p else FailInAll(FailIn(p, ids[0], d), ids[1..], d)
  }

  datatype RollbackOutcome = RollbackOutcome(targetRemoved: bool, failedIn: seq<nat>, paused: seq<nat>)

  /** `record_ota_rollback`: the bootloader restored `running` on `d`. */
  function RecordRollback(db: Db, d: DeviceId, running: u64): (Db, RollbackOutcome) {
    var removed := d in db.targets && db.targets[d].build != running;
    var db1 := if removed then db.(targets := db.targets - {d}) else db;
    var p := FailInAll(Progress(db1, [], []), ActiveFor(db1.campaigns, d, |db1.campaigns|), d);
    (p.db, RollbackOutcome(removed, p.failedIn, p.paused))
  }

  function PauseEvidence(paused: seq<nat>, d: DeviceId): seq<Evidence> {
    seq(|paused|, i requires 0 <= i < |paused| => AutoPaused(paused[i], d))
  }

  /** The device is installed; the last one completes the campaign. */
  function AfterInstall(c: Campaign, d: DeviceId): Campaign {
    var c' := c.(rows := SetStatus(c.rows, d, Installed));
    if AllDone(c'.rows) then WithStatus(c', Completed, 0) else c'
  }

  /** Devices report on every upload: an installation is logged when it is news. */
  function InstallEvidence(id: nat, c: Campaign, d: DeviceId): seq<Evidence> {
    (if HasStatus(c.rows, d, Installed) then [] else [UpdateInstalled(id, d)])
    + (if AllDone(AfterInstall(c, d).rows) then [CampaignCompleted(id)] else [])
  }

  /** A device that runs the target build of an active campaign. */
  function InstallIn(db: Db, id: nat, d: DeviceId, version: Version): Db {
    if id >= |db.campaigns| || db.campaigns[id].version != version then db
    else
      var c := db.campaigns[id];
      SetCampaign(db.(evidence := db.evidence + InstallEvidence(id, c, d)), id, AfterInstall(c, d))
  }

  function InstallInAll(db: Db, ids: seq<nat>, d: DeviceId, version: Version): Db
    decreases |ids|
  {
    if ids == [] then db else InstallInAll(InstallIn(db, ids[0], d, version), ids[1..], d, version)
  }

  /** The OTA-request branch of `process_device_chunks`. */
  function OtaReport(db: Db, d: DeviceId, build: u64, rolledBack: bool): Db {
    if rolledBack then
      var (db', outcome) := RecordRollback(db, d, build);
      db'.(evidence := db'.evidence + [UpdateRolledBack(d)] + PauseEvidence(outcome.paused, d))
    else if d in db.targets && db.targets[d].build == build then
      InstallInAll(db, ActiveFor(db.campaigns, d, |db.campaigns|), d, db.targets[d].version)
    else db
  }

  // ---- Runs ------------------------------------------------------------------

  datatype Event =
    | Create(firmware: nat, version: Version, strategy: Strategy, percent: int, threshold: real, devices: seq<DeviceId>)
    | Activate(id: nat, now: nat)
    | Pause(id: nat)
    | Rollback(id: nat)
    | Report(device: DeviceId, build: u64, rolledBack: bool)
    | SetTarget(device: DeviceId, target: Target)
    | DropTarget(device: DeviceId)
    | AddFirmware(firmware: nat, artifact: Firmware)
    | DropFirmware(firmware: nat)

  function Step(db: Db, e: Event): Db {
    match e
    case Create(f, v, s, p, t, ds) => CreateCampaign(db, f, v, s, p, t, ds)
    case Activate(id, now) => ActivateCampaign(db, id, now)
    case Pause(id) => PauseCampaign(db, id)
    case Rollback(id) => RollbackCampaign(db, id)
    case Report(d, build, rolledBack) => OtaReport(db, d, build, rolledBack)
    case SetTarget(d, t) => db.(targets := db.targets[d := t])
    case DropTarget(d) => db.(targets := db.targets - {d})
    case AddFirmware(f, a) => if f in db.firmware then db else db.(firmware := db.firmware[f := a])
    case DropFirmware(f) =>
      // A referenced artifact is held by its foreign key.
      if exists i :: 0 <= i < |db.campaigns| && db.campaigns[i].firmware == f then db
      else db.(firmware := db.firmware - {f})
  }

  function After(run: seq<Event>, n: nat): Db
    requires n <= |run|
  {
    if n == 0 then EMPTY_DB else Step(After(run, n - 1), run[n - 1])
  }

  // ---- What a campaign may become ---------------------------------------------

  predicate Terminal(s: Status) { s.Completed? || s.RolledBack? }

  /** Terminal states are never left and `Created` is never entered again. */
  predicate MayBecome(s: Status, s': Status) {
    s == s' || (!Terminal(s) && !s'.Created?)
  }

  /** The same devices, none of them further back than it was. */
  ghost predicate Advanced(rows: seq<Row>, rows': seq<Row>) {
    && |rows'| == |rows|
    && forall i :: 0 <= i < |rows| ==>
                     rows'[i].device == rows[i].device && rows[i].status.Rank() <= rows'[i].status.Rank()
  }

  ghost predicate Evolves(c: Campaign, c': Campaign) {
    && c'.firmware == c.firmware && c'.version == c.version && c'.strategy == c.strategy
    && c'.rolloutPercent == c.rolloutPercent && c'.threshold == c.threshold
    && Advanced(c.rows, c'.rows)
    && MayBecome(c.status, c'.status)
    && (c.activatedAt.Some? ==> c'.activatedAt == c.activatedAt)
    && (Terminal(c.status) ==> c' == c)
  }

  lemma EvolvesRefl(c: Campaign)
    ensures Evolves(c, c)
  {
  }

  lemma EvolvesTrans(a: Campaign, b: Campaign, c: Campaign)
    requires Evolves(a, b) && Evolves(b, c)
    ensures Evolves(a, c)
  {
  }

  ghost predicate WellFormed(c: Campaign) {
    && Sorted(c.rows)
    && (c.activatedAt.Some? <==> !c.status.Created?)
    && (c.status.Completed? ==> AllDone(c.rows))
    && (c.status.Created? ==> forall i :: 0 <= i < |c.rows| ==> c.rows[i].status.Pending?)
  }

  /** How often an entry stands in the log. */
  ghost function Times(log: seq<Evidence>, e: Evidence): nat { multiset(log)[e] }

  /** The log tells that `d` installed campaign `id`'s update once if it did, and never otherwise. */
  ghost predicate InstallLogged(db: Db, id: nat, d: DeviceId) {
    Times(db.evidence, UpdateInstalled(id, d))
    == if id < |db.campaigns| && HasStatus(db.campaigns[id].rows, d, Installed) then 1 else 0
  }

  ghost predicate CompletionLogged(db: Db, id: nat) {
    Times(db.evidence, CampaignCompleted(id))
    == if id < |db.campaigns| && db.campaigns[id].status.Completed? then 1 else 0
  }

  ghost predicate Recorded(db: Db) {
    && (forall id: nat, d: DeviceId :: InstallLogged(db, id, d))
    && (forall id: nat :: CompletionLogged(db, id))
  }

  ghost predicate Inv(db: Db) {
    && (forall i :: 0 <= i < |db.campaigns| ==> WellFormed(db.campaigns[i]))
    && Recorded(db)
  }

  ghost predicate Grows(db: Db, db': Db) {
    && |db.campaigns| <= |db'.campaigns|
    && forall i :: 0 <= i < |db.campaigns| ==> Evolves(db.campaigns[i], db'.campaigns[i])
  }

  lemma GrowsTrans(a: Db, b: Db, c: Db)
    requires Grows(a, b) && Grows(b, c)
    ensures Grows(a, c)
  {
    forall i | 0 <= i < |a.campaigns| ensures Evolves(a.campaigns[i], c.campaigns[i]) {
      EvolvesTrans(a.campaigns[i], b.campaigns[i], c.campaigns[i]);
    }
  }

  lemma TimesAppend(a: seq<Evidence>, b: seq<Evidence>, e: Evidence)
    ensures Times(a + b, e) == Times(a, e) + Times(b, e)
  {
    assert multiset(a + b) == multiset(a) + multiset(b);
  }

  // ---- Steps on one campaign ---------------------------------------------------

  /** Entries that are neither installations nor completions. */
  predicate Silent(log: seq<Evidence>) {
    forall i :: 0 <= i < |log| ==> !log[i].UpdateInstalled? && !log[i].CampaignCompleted?
  }

  lemma SilentKeeps(db: Db, log: seq<Evidence>, targets: map<DeviceId, Target>)
    requires Inv(db) && Silent(log)
    ensures Inv(db.(evidence := db.evidence + log, targets := targets))
  {
    var db' := db.(evidence := db.evidence + log, targets := targets);
    forall j: nat, x: DeviceId ensures InstallLogged(db', j, x) {
      assert InstallLogged(db, j, x);
      TimesAppend(db.evidence, log, UpdateInstalled(j, x));
    }
    forall j: nat ensures CompletionLogged(db', j) {
      assert CompletionLogged(db, j);
      TimesAppend(db.evidence, log, CampaignCompleted(j));
    }
  }

  /** No row enters or leaves `Installed`. */
  ghost predicate SameInstalled(rows: seq<Row>, rows': seq<Row>) {
    && |rows'| == |rows|
    && forall i :: 0 <= i < |rows| ==>
                     rows'[i].device == rows[i].device
                     && (rows[i].status.Installed? <==> rows'[i].status.Installed?)
  }

  lemma SameInstalledHas(rows: seq<Row>, rows': seq<Row>, d: DeviceId)
    requires SameInstalled(rows, rows')
    ensures HasStatus(rows, d, Installed) <==> HasStatus(rows', d, Installed)
  {
    if HasStatus(rows, d, Installed) {
      var i :| 0 <= i < |rows| && rows[i] == Row(d, Installed);
      assert rows'[i] == Row(d, Installed);
    }
    if HasStatus(rows', d, Installed) {
      var i :| 0 <= i < |rows'| && rows'[i] == Row(d, Installed);
      assert rows[i] == Row(d, Installed);
    }
  }

  /** A change of one campaign that neither installs nor completes. */
  lemma TouchKeeps(db: Db, id: nat, c: Campaign, targets: map<DeviceId, Target>)
    requires Inv(db) && id < |db.campaigns|
    requires Evolves(db.campaigns[id], c) && WellFormed(c) && SameInstalled(db.campaigns[id].rows, c.rows)
    requires c.status.Completed? == db.campaigns[id].status.Completed?
    ensures Inv(SetCampaign(db.(targets := targets), id, c))
    ensures Grows(db, SetCampaign(db.(targets := targets), id, c))
  {
    var db' := SetCampaign(db.(targets := targets), id, c);
    forall j: nat, x: DeviceId ensures InstallLogged(db', j, x) {
      assert InstallLogged(db, j, x);
      SameInstalledHas(db.campaigns[id].rows, c.rows, x);
    }
    forall j: nat ensures CompletionLogged(db', j) { assert CompletionLogged(db, j); }
  }

  lemma FailureEvolves(c: Campaign, d: DeviceId)
    requires WellFormed(c) && c.status.Active? && Undecided(c.rows, d)
    ensures var c' := AfterFailure(c, d);
            Evolves(c, c') && WellFormed(c') && SameInstalled(c.rows, c'.rows) && (c'.status.Active? || c'.status.Paused?)
  {
    hide OverThreshold, CountFailed;
    var i :| 0 <= i < |c.rows| && c.rows[i].device == d && c.rows[i].status.Rank() < 2;
  }

  /** Failing an undecided device in an active campaign. */
  lemma FailInKeeps(p: Progress, id: nat, d: DeviceId)
    requires Inv(p.db)
    requires id < |p.db.campaigns| && p.db.campaigns[id].status.Active?
    ensures Inv(FailIn(p, id, d).db) && Grows(p.db, FailIn(p, id, d).db)
    ensures |FailIn(p, id, d).db.campaigns| == |p.db.campaigns|
    ensures forall i :: 0 <= i < |p.db.campaigns| && i != id ==> FailIn(p, id, d).db.campaigns[i] == p.db.campaigns[i]
    ensures FailIn(p, id, d).db.evidence == p.db.evidence
  {
    var c := p.db.campaigns[id];
    if Undecided(c.rows, d) {
      FailureEvolves(c, d);
      hide AfterFailure, Evolves, WellFormed, SameInstalled, Recorded, Undecided;
      TouchKeeps(p.db, id, AfterFailure(c, d), FailIn(p, id, d).db.targets);
    }
  }

  /** Distinct active campaigns, in the order of their ids. */
  ghost predicate ActiveIds(cs: seq<Campaign>, ids: seq<nat>, d: DeviceId) {
    && (forall k :: 0 <= k < |ids| ==> ids[k] < |cs| && cs[ids[k]].status.Active? && d in Devices(cs[ids[k]].rows))
    && (forall j, k :: 0 <= j < k < |ids| ==> ids[j] < ids[k])
  }

  lemma {:induction false} FailInAllKeeps(p: Progress, ids: seq<nat>, d: DeviceId)
    requires Inv(p.db) && ActiveIds(p.db.campaigns, ids, d)
    ensures Inv(FailInAll(p, ids, d).db) && Grows(p.db, FailInAll(p, ids, d).db)
    ensures FailInAll(p, ids, d).db.evidence == p.db.evidence
    decreases |ids|
  {
    hide FailIn, Inv;
    if ids != [] {
      FailInKeeps(p, ids[0], d);
      var p' := FailIn(p, ids[0], d);
      assert ActiveIds(p'.db.campaigns, ids[1..], d);
      FailInAllKeeps(p', ids[1..], d);
      GrowsTrans(p.db, p'.db, FailInAll(p', ids[1..], d).db);
    }
  }

  lemma InstallHas(rows: seq<Row>, d: DeviceId, x: DeviceId)
    requires d in Devices(rows)
    ensures HasStatus(SetStatus(rows, d, Installed), x, Installed) <==> x == d || HasStatus(rows, x, Installed)
  {
    var rows' := SetStatus(rows, d, Installed);
    if x == d {
      var i :| 0 <= i < |rows| && rows[i].device == d;
      assert rows'[i] == Row(d, Installed);
    } else if HasStatus(rows, x, Installed) {
      var i :| 0 <= i < |rows| && rows[i] == Row(x, Installed);
      assert rows'[i] == Row(x, Installed);
    }
  }

  lemma InstallEvolves(c: Campaign, d: DeviceId)
    requires WellFormed(c) && c.status.Active?
    ensures Evolves(c, AfterInstall(c, d)) && WellFormed(AfterInstall(c, d))
  {
  }

  lemma InstallEvidenceTimes(id: nat, c: Campaign, d: DeviceId, e: Evidence)
    ensures Times(InstallEvidence(id, c, d), e)
         == (if e == UpdateInstalled(id, d) && !HasStatus(c.rows, d, Installed) then 1 else 0)
            + (if e == CampaignCompleted(id) && AllDone(AfterInstall(c, d).rows) then 1 else 0)
  {
    var log1 := if HasStatus(c.rows, d, Installed) then [] else [UpdateInstalled(id, d)];
    var log2 := if AllDone(AfterInstall(c, d).rows) then [CampaignCompleted(id)] else [];
    hide AfterInstall, AllDone;
    TimesAppend(log1, log2, e);
  }

  lemma InstallStaysLogged(db: Db, id: nat, d: DeviceId, j: nat, x: DeviceId)
    requires id < |db.campaigns| && d in Devices(db.campaigns[id].rows)
    requires InstallLogged(db, j, x)
    ensures InstallLogged(InstallIn(db, id, d, db.campaigns[id].version), j, x)
  {
    var c := db.campaigns[id];
    TimesAppend(db.evidence, InstallEvidence(id, c, d), UpdateInstalled(j, x));
    InstallEvidenceTimes(id, c, d, UpdateInstalled(j, x));
    InstallHas(c.rows, d, x);
    assert AfterInstall(c, d).rows == SetStatus(c.rows, d, Installed);
    hide AfterInstall, AllDone, InstallEvidence, Times, HasStatus, SetStatus, Devices;
  }

  lemma CompletionStaysLogged(db: Db, id: nat, d: DeviceId, j: nat)
    requires id < |db.campaigns| && db.campaigns[id].status.Active?
    requires CompletionLogged(db, j)
    ensures CompletionLogged(InstallIn(db, id, d, db.campaigns[id].version), j)
  {
    var c := db.campaigns[id];
    TimesAppend(db.evidence, InstallEvidence(id, c, d), CampaignCompleted(j));
    InstallEvidenceTimes(id, c, d, CampaignCompleted(j));
    assert AfterInstall(c, d).status.Completed? <==> AllDone(AfterInstall(c, d).rows);
    hide AfterInstall, AllDone, InstallEvidence, Times, HasStatus;
  }

  /** The log entries of an installation are the ones it owes. */
  lemma InstallRecorded(db: Db, id: nat, d: DeviceId)
    requires Recorded(db) && id < |db.campaigns| && d in Devices(db.campaigns[id].rows)
    requires db.campaigns[id].status.Active?
    ensures Recorded(InstallIn(db, id, d, db.campaigns[id].version))
  {
    hide InstallIn, InstallLogged, CompletionLogged;
    var db' := InstallIn(db, id, d, db.campaigns[id].version);
    forall j: nat, x: DeviceId ensures InstallLogged(db', j, x) { InstallStaysLogged(db, id, d, j, x); }
    forall j: nat ensures CompletionLogged(db', j) { CompletionStaysLogged(db, id, d, j); }
  }

  /** Installing a device in an active campaign, and completing it with the last one. */
  lemma InstallInKeeps(db: Db, id: nat, d: DeviceId, version: Version)
    requires Inv(db)
    requires id < |db.campaigns| && db.campaigns[id].status.Active? && d in Devices(db.campaigns[id].rows)
    ensures Inv(InstallIn(db, id, d, version)) && Grows(db, InstallIn(db, id, d, version))
    ensures |InstallIn(db, id, d, version).campaigns| == |db.campaigns|
    ensures forall i :: 0 <= i < |db.campaigns| && i != id ==> InstallIn(db, id, d, version).campaigns[i] == db.campaigns[i]
  {
    var c := db.campaigns[id];
    if c.version == version {
      InstallEvolves(c, d);
      InstallRecorded(db, id, d);
      hide AfterInstall, InstallEvidence, Evolves, WellFormed, Recorded;
      forall i | 0 <= i < |db.campaigns| && i != id ensures Evolves(db.campaigns[i], db.campaigns[i]) {
        EvolvesRefl(db.campaigns[i]);
      }
    }
  }

  lemma {:induction false} InstallInAllKeeps(db: Db, ids: seq<nat>, d: DeviceId, version: Version)
    requires Inv(db) && ActiveIds(db.campaigns, ids, d)
    ensures Inv(InstallInAll(db, ids, d, version)) && Grows(db, InstallInAll(db, ids, d, version))
    decreases |ids|
  {
    hide InstallIn, Inv;
    if ids != [] {
      InstallInKeeps(db, ids[0], d, version);
      var db' := InstallIn(db, ids[0], d, version);
      assert ActiveIds(db'.campaigns, ids[1..], d);
      InstallInAllKeeps(db', ids[1..], d, version);
      GrowsTrans(db, db', InstallInAll(db', ids[1..], d, version));
    }
  }

  // ---- Activation ----------------------------------------------------------------

  /** The devices in `ds` marked downloading. */
  function MarkAll(rows: seq<Row>, ds: seq<DeviceId>): (r: seq<Row>)
    ensures |r| == |rows|
    ensures forall i :: 0 <= i < |rows| ==>
                          r[i] == if rows[i].device in ds then Row(rows[i].device, Downloading) else rows[i]
  {
    seq(|rows|, i requires 0 <= i < |rows| =>
      if rows[i].device in ds then Row(rows[i].device, Downloading) else rows[i])
  }

  function OfferTo(targets: map<DeviceId, Target>, t: Target, ds: seq<DeviceId>): map<DeviceId, Target> {
    targets + map d | d in ds :: t
  }

  lemma MarkMore(rows: seq<Row>, ds: seq<DeviceId>)
    requires ds != []
    ensures MarkAll(SetStatus(rows, ds[0], Downloading), ds[1..]) == MarkAll(rows, ds)
  {
    assert ds == [ds[0]] + ds[1..];
  }

  lemma OfferMore(targets: map<DeviceId, Target>, t: Target, ds: seq<DeviceId>)
    requires ds != []
    ensures OfferTo(targets[ds[0] := t], t, ds[1..]) == OfferTo(targets, t, ds)
  {
    assert ds == [ds[0]] + ds[1..];
  }

  /** The loop over the chosen devices, all at once. */
  lemma {:induction false} OfferEffect(db: Db, id: nat, t: Target, ds: seq<DeviceId>)
    requires id < |db.campaigns|
    ensures Offer(db, id, t, ds)
         == SetCampaign(db.(targets := OfferTo(db.targets, t, ds)), id,
                        db.campaigns[id].(rows := MarkAll(db.campaigns[id].rows, ds)))
    decreases |ds|
  {
    var c := db.campaigns[id];
    if ds == [] {
      assert MarkAll(c.rows, ds) == c.rows;
      assert OfferTo(db.targets, t, ds) == db.targets;
    } else {
      MarkMore(c.rows, ds);
      OfferMore(db.targets, t, ds);
      hide MarkAll, OfferTo, SetStatus;
      var db' := SetCampaign(db.(targets := db.targets[ds[0] := t]), id, c.(rows := SetStatus(c.rows, ds[0], Downloading)));
      OfferEffect(db', id, t, ds[1..]);
    }
  }

  function CountPending(rows: seq<Row>): (n: nat)
  {
    if rows == [] then 0 else (if rows[0].status.Pending? then 1 else 0) + CountPending(rows[1..])
  }

  /** A row is among the first n pending ones exactly if it is pending and fewer than n pending rows precede it. */
  lemma {:induction false} FirstPending(rows: seq<Row>, n: nat, i: nat)
    requires Sorted(rows) && n <= |PendingDevices(rows)| && i < |rows|
    ensures rows[i].device in PendingDevices(rows)[..n]
       <==> rows[i].status.Pending? && CountPending(rows[..i]) < n
    decreases |rows|
  {
    var rest := PendingDevices(rows[1..]);
    var k := if rows[0].status.Pending? then 1 else 0;
    if i == 0 {
      forall j | 0 <= j < |rest| ensures rest[j] != rows[0].device {
        PendingIsDevice(rows[1..], j);
      }
      if k == 1 && n > 0 {
        assert PendingDevices(rows)[..n][0] == rows[0].device;
      }
    } else {
      assert rows[..i][1..] == rows[1..][..i - 1];
      if k <= n {
        FirstPending(rows[1..], n - k, i - 1);
        assert PendingDevices(rows)[..n] == (if k == 1 then [rows[0].device] else []) + rest[..n - k];
      }
    }
  }

  lemma {:induction false} PendingIsDevice(rows: seq<Row>, j: nat)
    requires j < |PendingDevices(rows)|
    ensures Row(PendingDevices(rows)[j], Pending) in rows
    decreases |rows|
  {
    if !(rows[0].status.Pending? && j == 0) {
      var k := if rows[0].status.Pending? then 1 else 0;
      PendingIsDevice(rows[1..], j - k);
    }
  }

  lemma ChosenArePending(c: Campaign, i: nat)
    requires Sorted(c.rows) && i < |c.rows|
    ensures c.rows[i].device in Chosen(c) <==> c.rows[i].status.Pending? && CountPending(c.rows[..i]) < TargetCount(c)
  {
    FirstPending(c.rows, TargetCount(c), i);
  }

  /** The campaign once activated. */
  function Activated(c: Campaign, now: nat): Campaign {
    WithStatus(c.(rows := MarkAll(c.rows, Chosen(c))), Active, now)
  }

  lemma ActivationEvolves(c: Campaign, now: nat)
    requires WellFormed(c) && (c.status.Created? || c.status.Paused?)
    ensures Evolves(c, Activated(c, now)) && WellFormed(Activated(c, now)) && SameInstalled(c.rows, Activated(c, now).rows)
  {
    forall i | 0 <= i < |c.rows| ensures c.rows[i].device in Chosen(c) ==> c.rows[i].status.Pending? {
      ChosenArePending(c, i);
    }
    hide Chosen;
  }

  predicate CanActivate(db: Db, id: nat) {
    && id < |db.campaigns|
    && (db.campaigns[id].status.Created? || db.campaigns[id].status.Paused?)
    && db.campaigns[id].firmware in db.firmware
  }

  function CampaignTarget(db: Db, c: Campaign): Target
    requires c.firmware in db.firmware
  {
    Target(c.version, db.firmware[c.firmware].build)
  }

  /**
   Activation offers the campaign's build to the first pending devices and to
   no others: a canary to at least one and at most `rolloutPercent` percent of
   the pending ones, any other strategy to all of them.
   */
  lemma ActivationOffers(db: Db, id: nat, now: nat)
    requires CanActivate(db, id) && Sorted(db.campaigns[id].rows)
    ensures var c := db.campaigns[id]; var db' := ActivateCampaign(db, id, now);
            && db'.campaigns == db.campaigns[id := Activated(c, now)]
            && db'.firmware == db.firmware && db'.evidence == db.evidence
            && (forall d :: d in db'.targets <==> d in db.targets || d in Chosen(c))
            && (forall d :: d in db'.targets ==>
                              db'.targets[d] == if d in Chosen(c) then CampaignTarget(db, c) else db.targets[d])
            && (forall i :: 0 <= i < |c.rows| ==>
                              Activated(c, now).rows[i] ==
                              if c.rows[i].status.Pending? && CountPending(c.rows[..i]) < TargetCount(c)
                              then Row(c.rows[i].device, Downloading) else c.rows[i])
  {
    var c := db.campaigns[id];
    OfferEffect(db, id, CampaignTarget(db, c), Chosen(c));
    forall i | 0 <= i < |c.rows|
      ensures c.rows[i].device in Chosen(c) <==> c.rows[i].status.Pending? && CountPending(c.rows[..i]) < TargetCount(c)
    {
      ChosenArePending(c, i);
    }
    hide Offer, Chosen, TargetCount, CountPending;
  }

  lemma Share(product: int, q: int)
    requires q == product / 100
    ensures q * 100 <= product < (q + 1) * 100
  {
  }

  /** A canary reaches its share of the pending devices, at least one of them and at most all. */
  lemma CanarySize(c: Campaign)
    requires c.strategy.Canary? && PendingDevices(c.rows) != []
    ensures var n := |PendingDevices(c.rows)|; var count := TargetCount(c);
            && 1 <= count <= n
            && (count > 1 ==> count * 100 <= n * c.rolloutPercent)
            && (count < n ==> n * c.rolloutPercent < (count + 1) * 100)
  {
    var n := |PendingDevices(c.rows)|;
    hide PendingDevices;
    var product := n * c.rolloutPercent;
    Share(product, product / 100);
  }

  // ---- Creation --------------------------------------------------------------------

  ghost predicate Fresh(rows: seq<Row>) {
    Sorted(rows) && forall i :: 0 <= i < |rows| ==> rows[i].status.Pending?
  }

  lemma {:induction false} EnrolKeeps(rows: seq<Row>, d: DeviceId)
    requires Fresh(rows)
    ensures Fresh(Enrol(rows, d))
    ensures forall x :: x in Devices(Enrol(rows, d)) <==> x == d || x in Devices(rows)
    decreases |rows|
  {
    var rows' := Enrol(rows, d);
    if rows == [] || d < rows[0].device {
      assert rows' == [Row(d, Pending)] + rows;
      forall x | x in Devices(rows) ensures x in Devices(rows') {
        var i :| 0 <= i < |rows| && rows[i].device == x;
        assert rows'[i + 1].device == x;
      }
      assert rows'[0].device == d;
    } else if d != rows[0].device {
      EnrolKeeps(rows[1..], d);
      var rest := Enrol(rows[1..], d);
      forall x ensures x in Devices(rows') <==> x == rows[0].device || x in Devices(rest) { InTail(rows', x); }
      forall x ensures x in Devices(rows) <==> x == rows[0].device || x in Devices(rows[1..]) { InTail(rows, x); }
      assert rows'[1..] == rest;
      forall i | 0 <= i < |rest| ensures rows[0].device < rest[i].device {
        assert rest[i].device in Devices(rest);
      }
    }
  }

  lemma InTail(rows: seq<Row>, x: DeviceId)
    requires rows != []
    ensures x in Devices(rows) <==> x == rows[0].device || x in Devices(rows[1..])
  {
    if x in Devices(rows) && x != rows[0].device {
      var i :| 0 <= i < |rows| && rows[i].device == x;
      assert rows[1..][i - 1].device == x;
    }
    if x in Devices(rows[1..]) {
      var i :| 0 <= i < |rows[1..]| && rows[1..][i].device == x;
      assert rows[i + 1].device == x;
    }
  }

  /** A new campaign has one pending row for each of its devices, in order. */
  lemma {:induction false} EnrolAllFresh(ds: seq<DeviceId>)
    ensures Fresh(EnrolAll(ds))
    ensures forall x :: x in Devices(EnrolAll(ds)) <==> x in ds
    decreases |ds|
  {
    if ds != [] {
      EnrolAllFresh(ds[..|ds| - 1]);
      EnrolKeeps(EnrolAll(ds[..|ds| - 1]), ds[|ds| - 1]);
      assert ds == ds[..|ds| - 1] + [ds[|ds| - 1]];
    }
  }

  // ---- Every step, every run -----------------------------------------------------

  lemma CreateKeeps(
    db: Db, firmware: nat, version: Version, strategy: Strategy, percent: int, threshold: real, ds: seq<DeviceId>)
    requires Inv(db)
    ensures var db' := CreateCampaign(db, firmware, version, strategy, percent, threshold, ds); Inv(db') && Grows(db, db')
  {
    var db' := CreateCampaign(db, firmware, version, strategy, percent, threshold, ds);
    EnrolAllFresh(ds);
    hide EnrolAll;
    forall j: nat, x: DeviceId ensures InstallLogged(db', j, x) { assert InstallLogged(db, j, x); }
    forall j: nat ensures CompletionLogged(db', j) { assert CompletionLogged(db, j); }
  }

  lemma ActivateKeeps(db: Db, id: nat, now: nat)
    requires Inv(db)
    ensures Inv(ActivateCampaign(db, id, now)) && Grows(db, ActivateCampaign(db, id, now))
  {
    if CanActivate(db, id) {
      var c := db.campaigns[id];
      var t := CampaignTarget(db, c);
      OfferEffect(db, id, t, Chosen(c));
      ActivationEvolves(c, now);
      hide Evolves, WellFormed, SameInstalled, Recorded, Chosen, Offer, MarkAll, OfferTo;
      TouchKeeps(db, id, Activated(c, now), OfferTo(db.targets, t, Chosen(c)));
      assert ActivateCampaign(db, id, now).campaigns == db.campaigns[id := Activated(c, now)];
    } else {
      GrowsRefl(db);
    }
  }

  lemma GrowsRefl(db: Db)
    ensures Grows(db, db)
  {
  }

  lemma ReportKeeps(db: Db, d: DeviceId, build: u64, rolledBack: bool)
    requires Inv(db)
    ensures Inv(OtaReport(db, d, build, rolledBack)) && Grows(db, OtaReport(db, d, build, rolledBack))
  {
    hide Inv, Evolves, FailInAll, InstallInAll;
    var ids := ActiveFor(db.campaigns, d, |db.campaigns|);
    if rolledBack {
      var removed := d in db.targets && db.targets[d].build != build;
      var db1 := if removed then db.(targets := db.targets - {d}) else db;
      SilentKeeps(db, [], db1.targets);
      assert db1 == db.(evidence := db.evidence + [], targets := db1.targets);
      var p := Progress(db1, [], []);
      FailInAllKeeps(p, ids, d);
      var (db2, outcome) := RecordRollback(db, d, build);
      var log := [UpdateRolledBack(d)] + PauseEvidence(outcome.paused, d);
      SilentKeeps(db2, log, db2.targets);
      assert OtaReport(db, d, build, rolledBack) == db2.(evidence := db2.evidence + log, targets := db2.targets);
    } else if d in db.targets && db.targets[d].build == build {
      InstallInAllKeeps(db, ids, d, db.targets[d].version);
    } else {
      GrowsRefl(db);
    }
  }

  lemma StatusKeeps(db: Db, id: nat, status: Status, targets: map<DeviceId, Target>)
    requires Inv(db) && id < |db.campaigns|
    requires db.campaigns[id].status.Active? || db.campaigns[id].status.Paused?
    requires status.Paused? || status.RolledBack?
    ensures var db' := SetCampaign(db.(targets := targets), id, WithStatus(db.campaigns[id], status, 0));
            Inv(db') && Grows(db, db')
  {
    TouchKeeps(db, id, WithStatus(db.campaigns[id], status, 0), targets);
  }

  lemma StepKeeps(db: Db, e: Event)
    requires Inv(db)
    ensures Inv(Step(db, e)) && Grows(db, Step(db, e))
  {
    hide CreateCampaign, ActivateCampaign, OtaReport, Evolves, WellFormed, Recorded;
    match e
    case Create(f, v, st, p, t, ds) => CreateKeeps(db, f, v, st, p, t, ds);
    case Activate(id, now) => ActivateKeeps(db, id, now);
    case Pause(id) =>
      if id < |db.campaigns| && db.campaigns[id].status.Active? { StatusKeeps(db, id, Paused, db.targets); }
      else { GrowsRefl(db); }
    case Rollback(id) =>
      if id < |db.campaigns| && (db.campaigns[id].status.Active? || db.campaigns[id].status.Paused?) {
        StatusKeeps(db, id, RolledBack, WithoutTargets(db.targets, Devices(db.campaigns[id].rows)));
      } else { GrowsRefl(db); }
    case Report(d, build, rolledBack) => ReportKeeps(db, d, build, rolledBack);
    case SetTarget(_, _) => OthersKeep(db, e);
    case DropTarget(_) => OthersKeep(db, e);
    case AddFirmware(_, _) => OthersKeep(db, e);
    case DropFirmware(_) => OthersKeep(db, e);
  }

  lemma OthersKeep(db: Db, e: Event)
    requires Inv(db)
    requires Step(db, e).campaigns == db.campaigns && Step(db, e).evidence == db.evidence
    ensures Inv(Step(db, e)) && Grows(db, Step(db, e))
  {
    var db' := Step(db, e);
    hide Step, Evolves;
    forall i | 0 <= i < |db.campaigns| ensures Evolves(db.campaigns[i], db.campaigns[i]) { EvolvesRefl(db.campaigns[i]); }
    forall j: nat, x: DeviceId ensures InstallLogged(db', j, x) { assert InstallLogged(db, j, x); }
    forall j: nat ensures CompletionLogged(db', j) { assert CompletionLogged(db, j); }
  }

  lemma {:induction false} InvAlways(run: seq<Event>, n: nat)
    requires n <= |run|
    ensures Inv(After(run, n))
    decreases n
  {
    if n == 0 {
      var db := After(run, n);
      forall j: nat, x: DeviceId ensures InstallLogged(db, j, x) {}
      forall j: nat ensures CompletionLogged(db, j) {}
    } else {
      InvAlways(run, n - 1);
      StepKeeps(After(run, n - 1), run[n - 1]);
    }
  }

  /**
   Between any two moments of a run every campaign keeps its terms and its
   devices, no device slips back, a terminal campaign does not change at all,
   and the activation time is set once.
   */
  lemma {:induction false} CampaignsOnlyAdvance(run: seq<Event>, i: nat, j: nat)
    requires i <= j <= |run|
    ensures Grows(After(run, i), After(run, j))
    decreases j
  {
    if i == j {
      GrowsRefl(After(run, i));
    } else {
      hide Inv, Grows, Step;
      CampaignsOnlyAdvance(run, i, j - 1);
      InvAlways(run, j - 1);
      StepKeeps(After(run, j - 1), run[j - 1]);
      assert After(run, j) == Step(After(run, j - 1), run[j - 1]);
      GrowsTrans(After(run, i), After(run, j - 1), After(run, j));
    }
  }

  /** Once completed, always completed, with every device installed or failed as it was. */
  lemma CompletedForever(run: seq<Event>, i: nat, j: nat, id: nat)
    requires i <= j <= |run|
    requires id < |After(run, i).campaigns| && After(run, i).campaigns[id].status.Completed?
    ensures id < |After(run, j).campaigns| && After(run, j).campaigns[id] == After(run, i).campaigns[id]
    ensures AllDone(After(run, j).campaigns[id].rows)
  {
    CampaignsOnlyAdvance(run, i, j);
    InvAlways(run, j);
    hide After;
    assert Evolves(After(run, i).campaigns[id], After(run, j).campaigns[id]);
  }

  lemma StartedNotChosen(c: Campaign, c': Campaign, d: DeviceId, status: DeviceStatus)
    requires Evolves(c, c') && WellFormed(c')
    requires HasStatus(c.rows, d, status) && !status.Pending?
    ensures d !in Chosen(c')
  {
    var k :| 0 <= k < |c.rows| && c.rows[k] == Row(d, status);
    assert c'.rows[k].device == d && !c'.rows[k].status.Pending?;
    if d in Chosen(c') {
      var m :| 0 <= m < |Chosen(c')| && Chosen(c')[m] == d;
      PendingIsDevice(c'.rows, m);
      assert false;
    }
  }

  /** A device that has started a campaign, and above all one that failed in it, is never offered its build by it again. */
  lemma NeverOfferedAgain(run: seq<Event>, i: nat, j: nat, id: nat, d: DeviceId, status: DeviceStatus)
    requires i <= j <= |run| && id < |After(run, i).campaigns|
    requires HasStatus(After(run, i).campaigns[id].rows, d, status) && !status.Pending?
    ensures id < |After(run, j).campaigns| && d !in Chosen(After(run, j).campaigns[id])
  {
    CampaignsOnlyAdvance(run, i, j);
    InvAlways(run, j);
    hide After, Chosen, HasStatus, WellFormed, Recorded;
    StartedNotChosen(After(run, i).campaigns[id], After(run, j).campaigns[id], d, status);
  }

  /** The log of any run holds each installation and each completion once. */
  lemma LoggedOnce(run: seq<Event>, n: nat, id: nat, d: DeviceId)
    requires n <= |run|
    ensures var db := After(run, n);
            && Times(db.evidence, UpdateInstalled(id, d))
               == (if id < |db.campaigns| && HasStatus(db.campaigns[id].rows, d, Installed) then 1 else 0)
            && Times(db.evidence, CampaignCompleted(id))
               == (if id < |db.campaigns| && db.campaigns[id].status.Completed? then 1 else 0)
  {
    InvAlways(run, n);
    hide After;
    assert InstallLogged(After(run, n), id, d) && CompletionLogged(After(run, n), id);
  }

  // ---- Rollback reports --------------------------------------------------------------

  /** The report fails the device in this campaign. */
  predicate Hits(c: Campaign, d: DeviceId) { c.status.Active? && Undecided(c.rows, d) }

  /** The report also pauses it. */
  predicate Trips(c: Campaign, d: DeviceId) { Hits(c, d) && OverThreshold(AfterFailure(c, d)) }

  ghost predicate Increasing(ids: seq<nat>) { forall j, k :: 0 <= j < k < |ids| ==> ids[j] < ids[k] }

  /** One campaign's share, spelled out. */
  lemma FailInOne(p: Progress, id: nat, d: DeviceId)
    requires id < |p.db.campaigns| && p.db.campaigns[id].status.Active?
    ensures var q := FailIn(p, id, d); var c := p.db.campaigns[id];
            && q.db.campaigns == p.db.campaigns[id := if Hits(c, d) then AfterFailure(c, d) else c]
            && q.db.firmware == p.db.firmware && q.db.evidence == p.db.evidence
            && q.db.targets == (if Trips(c, d) then p.db.targets - Devices(c.rows) else p.db.targets)
            && q.failedIn == p.failedIn + (if Hits(c, d) then [id] else [])
            && q.paused == p.paused + (if Trips(c, d) then [id] else [])
  {
    var c := p.db.campaigns[id];
    assert Devices(AfterFailure(c, d).rows) == Devices(c.rows) by {
      SetStatusDevices(c.rows, d, Failed);
      hide OverThreshold;
    }
    hide AfterFailure, Undecided;
  }

  lemma SetStatusDevices(rows: seq<Row>, d: DeviceId, status: DeviceStatus)
    ensures Devices(SetStatus(rows, d, status)) == Devices(rows)
  {
    var rows' := SetStatus(rows, d, status);
    forall i | 0 <= i < |rows| ensures rows'[i].device == rows[i].device {}
    forall x ensures x in Devices(rows') <==> x in Devices(rows) {
      if x in Devices(rows) {
        var i :| 0 <= i < |rows| && rows[i].device == x;
        assert rows'[i].device == x;
      }
    }
  }

  /** The campaigns of `ids` that the report fails the device in. */
  function HitList(cs: seq<Campaign>, ids: seq<nat>, d: DeviceId): (r: seq<nat>)
    requires forall k :: 0 <= k < |ids| ==> ids[k] < |cs|
  {
    if ids == [] then [] else (if Hits(cs[ids[0]], d) then [ids[0]] else []) + HitList(cs, ids[1..], d)
  }

  /** The campaigns of `ids` that it pauses. */
  function TripList(cs: seq<Campaign>, ids: seq<nat>, d: DeviceId): (r: seq<nat>)
    requires forall k :: 0 <= k < |ids| ==> ids[k] < |cs|
  {
    if ids == [] then [] else (if Trips(cs[ids[0]], d) then [ids[0]] else []) + TripList(cs, ids[1..], d)
  }

  /** The devices of those. */
  function Cleared(cs: seq<Campaign>, ids: seq<nat>, d: DeviceId): (r: set<DeviceId>)
    requires forall k :: 0 <= k < |ids| ==> ids[k] < |cs|
  {
    if ids == [] then {} else (if Trips(cs[ids[0]], d) then Devices(cs[ids[0]].rows) else {}) + Cleared(cs, ids[1..], d)
  }

  lemma {:induction false} ListsFrame(cs: seq<Campaign>, cs': seq<Campaign>, ids: seq<nat>, d: DeviceId)
    requires |cs'| == |cs| && forall k :: 0 <= k < |ids| ==> ids[k] < |cs| && cs'[ids[k]] == cs[ids[k]]
    ensures HitList(cs', ids, d) == HitList(cs, ids, d)
    ensures TripList(cs', ids, d) == TripList(cs, ids, d)
    ensures Cleared(cs', ids, d) == Cleared(cs, ids, d)
    decreases |ids|
  {
    hide Hits, Trips, Devices;
    if ids != [] { ListsFrame(cs, cs', ids[1..], d); }
  }

  lemma IncreasingCons(i: nat, s: seq<nat>)
    requires Increasing(s) && forall x :: x in s ==> i < x
    ensures Increasing([i] + s)
  {
    forall k | 0 <= k < |s| ensures i < s[k] { assert s[k] in s; }
  }

  lemma {:induction false} HitListMeans(cs: seq<Campaign>, ids: seq<nat>, d: DeviceId)
    requires forall k :: 0 <= k < |ids| ==> ids[k] < |cs|
    requires Increasing(ids)
    ensures forall i :: i in HitList(cs, ids, d) <==> i in ids && Hits(cs[i], d)
    ensures Increasing(HitList(cs, ids, d))
    decreases |ids|
  {
    hide Hits;
    if ids != [] {
      HitListMeans(cs, ids[1..], d);
      assert ids == [ids[0]] + ids[1..];
      IncreasingCons(ids[0], HitList(cs, ids[1..], d));
    }
  }

  lemma {:induction false} TripListMeans(cs: seq<Campaign>, ids: seq<nat>, d: DeviceId)
    requires forall k :: 0 <= k < |ids| ==> ids[k] < |cs|
    requires Increasing(ids)
    ensures forall i :: i in TripList(cs, ids, d) <==> i in ids && Trips(cs[i], d)
    ensures Increasing(TripList(cs, ids, d))
    decreases |ids|
  {
    hide Trips;
    if ids != [] {
      TripListMeans(cs, ids[1..], d);
      assert ids == [ids[0]] + ids[1..];
      IncreasingCons(ids[0], TripList(cs, ids[1..], d));
    }
  }

  lemma {:induction false} ClearedMeans(cs: seq<Campaign>, ids: seq<nat>, d: DeviceId)
    requires forall k :: 0 <= k < |ids| ==> ids[k] < |cs|
    ensures forall x :: x in Cleared(cs, ids, d) <==> exists i :: i in ids && Trips(cs[i], d) && x in Devices(cs[i].rows)
    decreases |ids|
  {
    hide Trips, Devices;
    if ids != [] {
      ClearedMeans(cs, ids[1..], d);
      assert ids == [ids[0]] + ids[1..];
    }
  }

  /** A report's effect on the campaigns: each one it hits fails the device by itself. */
  lemma {:induction false} FailInAllCampaigns(p: Progress, ids: seq<nat>, d: DeviceId)
    requires ActiveIds(p.db.campaigns, ids, d)
    ensures var cs := p.db.campaigns; var cs' := FailInAll(p, ids, d).db.campaigns;
            && |cs'| == |cs|
            && (forall i :: 0 <= i < |cs| ==> cs'[i] == if i in ids && Hits(cs[i], d) then AfterFailure(cs[i], d) else cs[i])
    decreases |ids|
  {
    if ids != [] {
      FailInOne(p, ids[0], d);
      hide FailIn, Hits, Trips, AfterFailure, Devices;
      var p' := FailIn(p, ids[0], d);
      assert ActiveIds(p'.db.campaigns, ids[1..], d);
      assert ids[0] !in ids[1..];
      hide ActiveIds;
      FailInAllCampaigns(p', ids[1..], d);
      assert ids == [ids[0]] + ids[1..];
    }
  }

  /** The two lists of its outcome. */
  lemma {:induction false} FailInAllLists(p: Progress, ids: seq<nat>, d: DeviceId)
    requires ActiveIds(p.db.campaigns, ids, d)
    ensures var q := FailInAll(p, ids, d); var cs := p.db.campaigns;
            && q.db.firmware == p.db.firmware && q.db.evidence == p.db.evidence
            && q.failedIn == p.failedIn + HitList(cs, ids, d)
            && q.paused == p.paused + TripList(cs, ids, d)
    decreases |ids|
  {
    if ids != [] {
      FailInOne(p, ids[0], d);
      hide FailIn, Hits, Trips, AfterFailure, Devices;
      var p' := FailIn(p, ids[0], d);
      assert ActiveIds(p'.db.campaigns, ids[1..], d);
      FailInAllLists(p', ids[1..], d);
      ListsFrame(p.db.campaigns, p'.db.campaigns, ids[1..], d);
      var cs := p.db.campaigns;
      Assoc(p.failedIn, if Hits(cs[ids[0]], d) then [ids[0]] else [], HitList(cs, ids[1..], d));
      Assoc(p.paused, if Trips(cs[ids[0]], d) then [ids[0]] else [], TripList(cs, ids[1..], d));
    }
  }

  /** Its effect on the targets: each campaign it pauses withdraws its offers. */
  lemma {:induction false} FailInAllTargets(p: Progress, ids: seq<nat>, d: DeviceId)
    requires ActiveIds(p.db.campaigns, ids, d)
    ensures FailInAll(p, ids, d).db.targets == p.db.targets - Cleared(p.db.campaigns, ids, d)
    decreases |ids|
  {
    if ids != [] {
      FailInOne(p, ids[0], d);
      hide FailIn, Hits, Trips, AfterFailure, Devices;
      var p' := FailIn(p, ids[0], d);
      assert ActiveIds(p'.db.campaigns, ids[1..], d);
      FailInAllTargets(p', ids[1..], d);
      ListsFrame(p.db.campaigns, p'.db.campaigns, ids[1..], d);
      MapMinus(p.db.targets, p'.db.targets, Devices(p.db.campaigns[ids[0]].rows), Cleared(p.db.campaigns, ids[1..], d));
    }
  }

  lemma MapMinus(m: map<DeviceId, Target>, m': map<DeviceId, Target>, a: set<DeviceId>, b: set<DeviceId>)
    ensures m' == m - a ==> m' - b == m - (a + b)
    ensures m' == m ==> m' - b == m - ({} + b)
  {
  }

  lemma ActiveForExact(cs: seq<Campaign>, d: DeviceId)
    ensures var ids := ActiveFor(cs, d, |cs|);
            && ActiveIds(cs, ids, d)
            && (forall i :: i in ids && Hits(cs[i], d) <==> 0 <= i < |cs| && Hits(cs[i], d))
  {
    hide ActiveFor;
    forall i | 0 <= i < |cs| && Hits(cs[i], d) ensures d in Devices(cs[i].rows) {
      var k :| 0 <= k < |cs[i].rows| && cs[i].rows[k].device == d;
    }
  }

  /** The device's target is stale: it names another build than the one restored. */
  predicate Stale(db: Db, d: DeviceId, running: u64) { d in db.targets && db.targets[d].build != running }

  /**
   What a rollback report does. It withdraws the device's target exactly if
   that names another build; it fails the device in exactly the active
   campaigns in which it was neither installed nor failed; and it pauses
   exactly those among them whose failure rate is now above their threshold,
   withdrawing every offer to their devices. Nothing else changes.
   */
  lemma RollbackEffect(db: Db, d: DeviceId, running: u64)
    ensures var (db', o) := RecordRollback(db, d, running); var cs := db.campaigns;
            && |db'.campaigns| == |cs| && db'.firmware == db.firmware && db'.evidence == db.evidence
            && (forall i :: 0 <= i < |cs| ==> db'.campaigns[i] == if Hits(cs[i], d) then AfterFailure(cs[i], d) else cs[i])
            && (o.targetRemoved <==> Stale(db, d, running))
            && Increasing(o.failedIn) && (forall i :: i in o.failedIn <==> 0 <= i < |cs| && Hits(cs[i], d))
            && Increasing(o.paused) && (forall i :: i in o.paused <==> 0 <= i < |cs| && Trips(cs[i], d))
            && (forall x :: x in db'.targets <==>
                              x in db.targets && !(x == d && Stale(db, d, running))
                              && forall i :: i in o.paused ==> x !in Devices(cs[i].rows))
            && (forall x :: x in db'.targets ==> db'.targets[x] == db.targets[x])
  {
    RollbackCampaigns(db, d, running);
    RollbackLists(db, d, running);
    RollbackTargets(db, d, running);
    hide RecordRollback, Devices, AfterFailure, Hits, Trips, Stale;
  }

  /** Where the loop of a rollback report starts. */
  function RollbackStart(db: Db, d: DeviceId, running: u64): Progress {
    Progress(if Stale(db, d, running) then db.(targets := db.targets - {d}) else db, [], [])
  }

  lemma RollbackCampaigns(db: Db, d: DeviceId, running: u64)
    ensures var (db', o) := RecordRollback(db, d, running); var cs := db.campaigns;
            && |db'.campaigns| == |cs| && db'.firmware == db.firmware && db'.evidence == db.evidence
            && (forall i :: 0 <= i < |cs| ==> db'.campaigns[i] == if Hits(cs[i], d) then AfterFailure(cs[i], d) else cs[i])
            && (o.targetRemoved <==> Stale(db, d, running))
  {
    var ids := ActiveFor(db.campaigns, d, |db.campaigns|);
    ActiveForExact(db.campaigns, d);
    FailInAllCampaigns(RollbackStart(db, d, running), ids, d);
    FailInAllLists(RollbackStart(db, d, running), ids, d);
    hide ActiveFor, FailInAll, AfterFailure, Hits;
  }

  lemma RollbackLists(db: Db, d: DeviceId, running: u64)
    ensures var (db', o) := RecordRollback(db, d, running); var cs := db.campaigns;
            && Increasing(o.failedIn) && (forall i :: i in o.failedIn <==> 0 <= i < |cs| && Hits(cs[i], d))
            && Increasing(o.paused) && (forall i :: i in o.paused <==> 0 <= i < |cs| && Trips(cs[i], d))
  {
    var cs := db.campaigns;
    var ids := ActiveFor(cs, d, |cs|);
    ActiveForExact(cs, d);
    FailInAllLists(RollbackStart(db, d, running), ids, d);
    HitListMeans(cs, ids, d);
    TripListMeans(cs, ids, d);
    forall i ensures i in ids && Trips(cs[i], d) <==> 0 <= i < |cs| && Trips(cs[i], d) {}
    hide ActiveFor, FailInAll, HitList, TripList, Hits, Trips;
    assert [] + HitList(cs, ids, d) == HitList(cs, ids, d) && [] + TripList(cs, ids, d) == TripList(cs, ids, d);
  }

  lemma RollbackTargets(db: Db, d: DeviceId, running: u64)
    ensures var (db', o) := RecordRollback(db, d, running);
            && (forall x :: x in db'.targets <==>
                              x in db.targets && !(x == d && Stale(db, d, running))
                              && forall i :: 0 <= i < |db.campaigns| && Trips(db.campaigns[i], d) ==>
                                               x !in Devices(db.campaigns[i].rows))
            && (forall x :: x in db'.targets ==> db'.targets[x] == db.targets[x])
  {
    var cs := db.campaigns;
    var ids := ActiveFor(cs, d, |cs|);
    ActiveForExact(cs, d);
    var p := RollbackStart(db, d, running);
    FailInAllTargets(p, ids, d);
    ClearedMeans(cs, ids, d);
    forall i ensures i in ids && Trips(cs[i], d) <==> 0 <= i < |cs| && Trips(cs[i], d) {}
    hide ActiveFor, FailInAll, Devices, Cleared, Trips, Hits;
    assert RecordRollback(db, d, running).0.targets == p.db.targets - Cleared(cs, ids, d);
  }

  lemma FailureSettles(c: Campaign, d: DeviceId)
    ensures !Hits(AfterFailure(c, d), d)
  {
    hide OverThreshold;
  }

  lemma {:induction false} NothingToFail(p: Progress, ids: seq<nat>, d: DeviceId)
    requires ActiveIds(p.db.campaigns, ids, d)
    requires forall k :: 0 <= k < |ids| ==> !Hits(p.db.campaigns[ids[k]], d)
    ensures FailInAll(p, ids, d) == p
    decreases |ids|
  {
    if ids != [] {
      assert FailIn(p, ids[0], d) == p;
      forall k | 0 <= k < |ids[1..]| ensures !Hits(p.db.campaigns[ids[1..][k]], d) {}
      NothingToFail(p, ids[1..], d);
    }
  }

  /** The same report twice is the same report once: the second changes nothing and pauses nothing. */
  lemma RollbackIdempotent(db: Db, d: DeviceId, running: u64)
    ensures var (db', _) := RecordRollback(db, d, running);
            RecordRollback(db', d, running) == (db', RollbackOutcome(false, [], []))
  {
    var (db1, _) := RecordRollback(db, d, running);
    RollbackEffect(db, d, running);
    assert !Stale(db1, d, running);
    forall i | 0 <= i < |db.campaigns| ensures !Hits(db1.campaigns[i], d) { FailureSettles(db.campaigns[i], d); }
    assert |db1.campaigns| == |db.campaigns|;
    hide RecordRollback, Hits, AfterFailure, Devices;
    RollbackWithoutHits(db1, d, running);
  }

  lemma RollbackWithoutHits(db: Db, d: DeviceId, running: u64)
    requires !Stale(db, d, running)
    requires forall i :: 0 <= i < |db.campaigns| ==> !Hits(db.campaigns[i], d)
    ensures RecordRollback(db, d, running) == (db, RollbackOutcome(false, [], []))
  {
    var ids := ActiveFor(db.campaigns, d, |db.campaigns|);
    ActiveForExact(db.campaigns, d);
    NothingToFail(Progress(db, [], []), ids, d);
    hide FailInAll, ActiveFor, Hits;
  }

  /** Failing one undecided device raises the number of failures by one. */
  lemma {:induction false} FailureCounted(rows: seq<Row>, d: DeviceId)
    requires Sorted(rows) && Undecided(rows, d)
    ensures CountFailed(SetStatus(rows, d, Failed)) == CountFailed(rows) + 1
    decreases |rows|
  {
    var n := |rows| - 1;
    var rows' := SetStatus(rows, d, Failed);
    assert rows'[..n] == SetStatus(rows[..n], d, Failed);
    assert CountFailed(rows) == CountFailed(rows[..n]) + (if rows[n].status.Failed? then 1 else 0);
    assert CountFailed(rows') == CountFailed(rows'[..n]) + (if rows'[n].status.Failed? then 1 else 0);
    hide CountFailed;
    if rows[n].device == d {
      assert SetStatus(rows[..n], d, Failed) == rows[..n];
      var i :| 0 <= i < |rows| && rows[i].device == d && rows[i].status.Rank() < 2;
      assert i == n;
    } else {
      var i :| 0 <= i < |rows| && rows[i].device == d && rows[i].status.Rank() < 2;
      assert rows[..n][i] == rows[i];
      FailureCounted(rows[..n], d);
    }
  }

  /** `failed` of `total` devices are more than `percent` percent of them. */
  predicate MoreThan(failed: nat, total: nat, percent: real) {
    failed as real * 100.0 > percent * total as real
  }

  lemma OverThresholdMeans(c: Campaign)
    ensures OverThreshold(c) <==> |c.rows| > 0 && MoreThan(CountFailed(c.rows), |c.rows|, c.threshold)
  {
    if |c.rows| > 0 { RatioAbove(CountFailed(c.rows) as real * 100.0, |c.rows| as real, c.threshold); }
  }

  /** The auto-pause condition in terms of the campaign before the report. */
  lemma PausesExactly(c: Campaign, d: DeviceId)
    requires WellFormed(c) && Hits(c, d)
    ensures Trips(c, d) <==> MoreThan(CountFailed(c.rows) + 1, |c.rows|, c.threshold)
  {
    FailureCounted(c.rows, d);
    var c' := AfterFailure(c, d);
    assert c'.rows == SetStatus(c.rows, d, Failed) && c'.threshold == c.threshold;
    OverThresholdMeans(c');
    hide OverThreshold, AfterFailure, WellFormed, CountFailed, SetStatus, Hits, MoreThan;
  }

  lemma RatioAbove(k: real, n: real, t: real)
    requires n > 0.0
    ensures k / n > t <==> k > t * n
  {
    assert k == (k / n) * n;
  }

  // ---- Installations -------------------------------------------------------------------

  lemma {:induction false} InstallInAllEffect(db: Db, ids: seq<nat>, d: DeviceId, version: Version)
    requires ActiveIds(db.campaigns, ids, d)
    ensures var db' := InstallInAll(db, ids, d, version); var cs := db.campaigns;
            && |db'.campaigns| == |cs| && db'.targets == db.targets && db'.firmware == db.firmware
            && (forall i :: 0 <= i < |cs| ==>
                              db'.campaigns[i] == if i in ids && cs[i].version == version then AfterInstall(cs[i], d) else cs[i])
    decreases |ids|
  {
    hide AfterInstall, InstallEvidence, Devices;
    if ids != [] {
      var db' := InstallIn(db, ids[0], d, version);
      assert ActiveIds(db'.campaigns, ids[1..], d);
      assert ids[0] !in ids[1..];
      hide ActiveIds;
      InstallInAllEffect(db', ids[1..], d, version);
      assert ids == [ids[0]] + ids[1..];
    }
  }

  /** A device that runs its target's build is installed in exactly its active campaigns of that version. */
  lemma InstallReport(db: Db, d: DeviceId, build: u64)
    requires d in db.targets && db.targets[d].build == build
    ensures var db' := OtaReport(db, d, build, false); var cs := db.campaigns;
            && |db'.campaigns| == |cs| && db'.targets == db.targets && db'.firmware == db.firmware
            && (forall i :: 0 <= i < |cs| ==>
                              db'.campaigns[i] ==
                              if cs[i].status.Active? && d in Devices(cs[i].rows) && cs[i].version == db.targets[d].version
                              then AfterInstall(cs[i], d) else cs[i])
  {
    ActiveForExact(db.campaigns, d);
    hide InstallInAll, AfterInstall, Devices;
    InstallInAllEffect(db, ActiveFor(db.campaigns, d, |db.campaigns|), d, db.targets[d].version);
  }

  // ---- Who may offer a build ---------------------------------------------------------------

  /** The step calls `set_ota_target` for the device with this target. */
  ghost predicate Offers(db: Db, e: Event, d: DeviceId, t: Target) {
    || e == SetTarget(d, t)
    || (e.Activate? && CanActivate(db, e.id) && d in Chosen(db.campaigns[e.id]) && t == CampaignTarget(db, db.campaigns[e.id]))
  }

  /** A target is either the one that was there or one that this step set. */
  lemma TargetsComeFromOffers(db: Db, e: Event, d: DeviceId)
    requires d in Step(db, e).targets
    ensures (d in db.targets && Step(db, e).targets[d] == db.targets[d]) || Offers(db, e, d, Step(db, e).targets[d])
  {
    match e
    case Activate(id, now) =>
      if CanActivate(db, id) {
        var c := db.campaigns[id];
        OfferEffect(db, id, CampaignTarget(db, c), Chosen(c));
        hide Offer, Chosen;
      }
    case Report(x, build, rolledBack) =>
      if rolledBack { RollbackEffect(db, x, build); }
      else if x in db.targets && db.targets[x].build == build { InstallReport(db, x, build); }
      hide RecordRollback, InstallInAll;
    case Create(_, _, _, _, _, _) =>
    case Pause(_) =>
    case Rollback(_) =>
    case SetTarget(_, _) =>
    case DropTarget(_) =>
    case AddFirmware(_, _) =>
    case DropFirmware(_) =>
  }

  // ---- The store -------------------------------------------------------------------------

  /** The tables, changed in place by the handlers. */
  class Store {
    var campaigns: seq<Campaign>
    var targets: map<DeviceId, Target>
    var firmware: map<nat, Firmware>
    var evidence: seq<Evidence>

    function Contents(): Db
      reads this
    {
      Db(campaigns, targets, firmware, evidence)
    }

    constructor ()
      ensures Contents() == EMPTY_DB
    {
      campaigns, targets, firmware, evidence := [], map[], map[], [];
    }

    method SetOtaTarget(d: DeviceId, t: Target)
      modifies this`targets
      ensures targets == old(targets)[d := t]
    {
      targets := targets[d := t];
    }

    method DeleteOtaTarget(d: DeviceId) returns (removed: bool)
      modifies this`targets
      ensures targets == old(targets) - {d}
      ensures removed <==> d in old(targets)
    {
      removed := d in targets;
      targets := targets - {d};
    }

    method DeleteOtaTargetsForCampaign(id: nat)
      requires id < |campaigns|
      modifies this`targets
      ensures targets == WithoutTargets(old(targets), Devices(campaigns[id].rows))
    {
      targets := targets - (set r | r in campaigns[id].rows :: r.device);
      assert (set r | r in campaigns[id].rows :: r.device) == Devices(campaigns[id].rows);
    }

    method UpdateCampaignStatus(id: nat, status: Status, now: nat)
      requires id < |campaigns|
      modifies this`campaigns
      ensures campaigns == old(campaigns)[id := WithStatus(old(campaigns)[id], status, now)]
    {
      var c := campaigns[id];
      if status.Active? && c.activatedAt.None? {
        c := c.(activatedAt := Some(now));
      }
      campaigns := campaigns[id := c.(status := status)];
    }

    method UpdateCampaignDeviceStatus(id: nat, d: DeviceId, status: DeviceStatus)
      requires id < |campaigns|
      modifies this`campaigns
      ensures campaigns == old(campaigns)[id := old(campaigns)[id].(rows := SetStatus(old(campaigns)[id].rows, d, status))]
    {
      var rows := campaigns[id].rows;
      var k := 0;
      while k < |rows|
        invariant 0 <= k <= |rows| == |campaigns[id].rows|
        invariant rows[..k] == SetStatus(campaigns[id].rows, d, status)[..k]
        invariant rows[k..] == campaigns[id].rows[k..]
        invariant campaigns == old(campaigns)
      {
        if rows[k].device == d {
          rows := rows[k := Row(d, status)];
        }
        k := k + 1;
      }
      assert rows == SetStatus(campaigns[id].rows, d, status);
      campaigns := campaigns[id := campaigns[id].(rows := rows)];
    }

    method AddDevicesToCampaign(id: nat, ds: seq<DeviceId>)
      requires id < |campaigns| && campaigns[id].rows == []
      modifies this`campaigns
      ensures campaigns == old(campaigns)[id := old(campaigns)[id].(rows := EnrolAll(ds))]
    {
      var k := 0;
      while k < |ds|
        invariant 0 <= k <= |ds|
        invariant campaigns == old(campaigns)[id := old(campaigns)[id].(rows := EnrolAll(ds[..k]))]
      {
        assert ds[..k + 1][..k] == ds[..k];
        campaigns := campaigns[id := campaigns[id].(rows := Enrol(campaigns[id].rows, ds[k]))];
        k := k + 1;
      }
      assert ds[..k] == ds;
    }

    method Create(f: nat, version: Version, strategy: Strategy, percent: int, threshold: real, ds: seq<DeviceId>)
      modifies this`campaigns
      ensures Contents() == CreateCampaign(old(Contents()), f, version, strategy, percent, threshold, ds)
    {
      if f !in firmware { return; }
      campaigns := campaigns + [Campaign(f, version, strategy, percent, threshold, Created, None, [])];
      AddDevicesToCampaign(|campaigns| - 1, ds);
    }

    method Pending(id: nat) returns (ds: seq<DeviceId>)
      requires id < |campaigns|
      ensures ds == PendingDevices(campaigns[id].rows)
    {
      var rows := campaigns[id].rows;
      ds := [];
      var k := 0;
      while k < |rows|
        invariant 0 <= k <= |rows|
        invariant ds + PendingDevices(rows[k..]) == PendingDevices(rows)
      {
        if rows[k].status.Pending? {
          ds := ds + [rows[k].device];
        }
        k := k + 1;
      }
    }

    method Activate(id: nat, now: nat) returns (offered: nat)
      modifies this`targets, this`campaigns
      ensures Contents() == ActivateCampaign(old(Contents()), id, now)
      ensures offered == if CanActivate(old(Contents()), id) then |Chosen(old(campaigns)[id])| else 0
    {
      offered := 0;
      if id >= |campaigns| { return; }
      var c := campaigns[id];
      if !c.status.Created? && !c.status.Paused? { return; }
      if c.firmware !in firmware { return; }
      var pending := Pending(id);
      var count := |pending|;
      if c.strategy.Canary? {
        count := |pending| * c.rolloutPercent / 100;
        if count < 1 { count := 1; }
        if count > |pending| { count := |pending|; }
      }
      var chosen := pending[..count];
      assert chosen == Chosen(c);
      var t := Target(c.version, firmware[c.firmware].build);
      ghost var all := Offer(old(Contents()), id, t, chosen);
      while offered < |chosen|
        invariant 0 <= offered <= |chosen|
        invariant |campaigns| == old(|campaigns|) && firmware == old(firmware) && evidence == old(evidence)
        invariant Offer(Contents(), id, t, chosen[offered..]) == all
      {
        SetOtaTarget(chosen[offered], t);
        UpdateCampaignDeviceStatus(id, chosen[offered], Downloading);
        offered := offered + 1;
        assert chosen[offered - 1..][1..] == chosen[offered..];
      }
      assert Contents() == all;
      UpdateCampaignStatus(id, Active, now);
    }

    method Pause(id: nat) returns (ok: bool)
      modifies this`campaigns
      ensures Contents() == PauseCampaign(old(Contents()), id)
      ensures ok <==> id < |old(campaigns)| && old(campaigns)[id].status.Active?
    {
      if id >= |campaigns| || !campaigns[id].status.Active? { return false; }
      UpdateCampaignStatus(id, Paused, 0);
      return true;
    }

    method RollBack(id: nat) returns (ok: bool)
      modifies this`targets, this`campaigns
      ensures Contents() == RollbackCampaign(old(Contents()), id)
      ensures ok ==> id < |campaigns| && forall r :: r in campaigns[id].rows ==> r.device !in targets
      ensures ok <==> id < |old(campaigns)| && (old(campaigns)[id].status.Active? || old(campaigns)[id].status.Paused?)
    {
      if id >= |campaigns| || !(campaigns[id].status.Active? || campaigns[id].status.Paused?) { return false; }
      DeleteOtaTargetsForCampaign(id);
      UpdateCampaignStatus(id, RolledBack, 0);
      return true;
    }

    /** The body of the loop over a device's active campaigns. */
    method FailDevice(id: nat, d: DeviceId, failedIn: seq<nat>, paused: seq<nat>)
      returns (failedIn': seq<nat>, paused': seq<nat>)
      requires id < |campaigns|
      modifies this`targets, this`campaigns
      ensures FailIn(Progress(old(Contents()), failedIn, paused), id, d) == Progress(Contents(), failedIn', paused')
      ensures |campaigns| == |old(campaigns)|
    {
      failedIn', paused' := failedIn, paused;
      if !Undecided(campaigns[id].rows, d) { return; }
      UpdateCampaignDeviceStatus(id, d, Failed);
      failedIn' := failedIn' + [id];
      var c := campaigns[id];
      if OverThreshold(c) {
        UpdateCampaignStatus(id, Paused, 0);
        DeleteOtaTargetsForCampaign(id);
        paused' := paused' + [id];
      }
      assert campaigns == old(campaigns)[id := AfterFailure(old(campaigns)[id], d)];
    }

    method FailInCampaigns(ids: seq<nat>, d: DeviceId) returns (failedIn: seq<nat>, paused: seq<nat>)
      requires forall k :: 0 <= k < |ids| ==> ids[k] < |campaigns|
      modifies this`targets, this`campaigns
      ensures FailInAll(Progress(old(Contents()), [], []), ids, d) == Progress(Contents(), failedIn, paused)
    {
      hide FailIn;
      failedIn, paused := [], [];
      ghost var all := FailInAll(Progress(Contents(), [], []), ids, d);
      var k := 0;
      while k < |ids|
        invariant 0 <= k <= |ids| && |campaigns| == old(|campaigns|)
        invariant FailInAll(Progress(Contents(), failedIn, paused), ids[k..], d) == all
      {
        failedIn, paused := FailDevice(ids[k], d, failedIn, paused);
        assert ids[k..][1..] == ids[k + 1..];
        k := k + 1;
      }
    }

    method RecordOtaRollback(d: DeviceId, running: u64) returns (o: RollbackOutcome)
      modifies this`targets, this`campaigns
      ensures (Contents(), o) == RecordRollback(old(Contents()), d, running)
      ensures d in targets ==> targets[d].build == running
    {
      RollbackEffect(Contents(), d, running);
      var removed := false;
      if d in targets && targets[d].build != running {
        removed := DeleteOtaTarget(d);
      }
      var failedIn, paused := FailInCampaigns(ActiveFor(campaigns, d, |campaigns|), d);
      o := RollbackOutcome(removed, failedIn, paused);
    }

    /** The body of the loop that marks a device installed. */
    method InstallDevice(id: nat, d: DeviceId, version: Version)
      requires id < |campaigns|
      modifies this`campaigns, this`evidence
      ensures Contents() == InstallIn(old(Contents()), id, d, version)
    {
      if campaigns[id].version != version { return; }
      var wasInstalled := HasStatus(campaigns[id].rows, d, Installed);
      UpdateCampaignDeviceStatus(id, d, Installed);
      if !wasInstalled {
        evidence := evidence + [UpdateInstalled(id, d)];
      }
      if AllDone(campaigns[id].rows) {
        UpdateCampaignStatus(id, Completed, 0);
        evidence := evidence + [CampaignCompleted(id)];
      }
    }

    method ReportRollback(d: DeviceId, running: u64)
      modifies this`targets, this`campaigns, this`evidence
      ensures Contents() == OtaReport(old(Contents()), d, running, true)
    {
      hide RecordRollback;
      var o := RecordOtaRollback(d, running);
      evidence := evidence + [UpdateRolledBack(d)];
      ghost var before := Contents();
      var k := 0;
      while k < |o.paused|
        invariant 0 <= k <= |o.paused|
        invariant Contents() == before.(evidence := before.evidence + PauseEvidence(o.paused, d)[..k])
      {
        evidence := evidence + [AutoPaused(o.paused[k], d)];
        k := k + 1;
      }
    }

    method ReportInstall(d: DeviceId, version: Version)
      modifies this`campaigns, this`evidence
      ensures Contents() == InstallInAll(old(Contents()), ActiveFor(old(campaigns), d, |old(campaigns)|), d, version)
    {
      hide AfterInstall, InstallEvidence;
      var ids := ActiveFor(campaigns, d, |campaigns|);
      var k := 0;
      while k < |ids|
        invariant 0 <= k <= |ids|
        invariant |campaigns| == old(|campaigns|) && targets == old(targets) && firmware == old(firmware)
        invariant InstallInAll(Contents(), ids[k..], d, version) == InstallInAll(old(Contents()), ids, d, version)
      {
        InstallDevice(ids[k], d, version);
        assert ids[k..][1..] == ids[k + 1..];
        k := k + 1;
      }
    }

    /** The OTA-request branch of an upload. */
    method OtaRequest(d: DeviceId, build: u64, rolledBack: bool)
      modifies this`targets, this`campaigns, this`evidence
      ensures Contents() == OtaReport(old(Contents()), d, build, rolledBack)
    {
      if rolledBack {
        ReportRollback(d, build);
      } else if d in targets && targets[d].build == build {
        ReportInstall(d, targets[d].version);
      }
    }
  }
}
