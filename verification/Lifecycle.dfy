/** Boots, firmware updates, supervision and system off (src/main.c), over the retained record. */
module Lifecycle {
  import opened Words
  import opened RamRetention
  import opened Retained

  /** How far the device is: in system off, running after `main` succeeded, or after it failed. */
  datatype Phase = SystemOff | Up | Failed

  datatype Device = Device(
    rec: Record,
    retention: set<PowerBit>,
    phase: Phase,
    supervisionPending: bool,
    poweroffPending: bool,
    bluetoothStarted: bool)

  /** Where the record lies. */
  datatype Platform = Platform(sram: Sram, address: u32) {
    predicate Valid() {
      sram.Valid() && sram.Contains(address, CHECKED_SIZE)
    }

    function RecordBits(): set<PowerBit>
      requires Valid()
    {
      RangeBits(sram, address, CHECKED_SIZE)
    }
  }

  datatype Cause = WakeSignal | OtherReset

  /** One handler run to its end. `left` is what RAM holds for the record after a reset; `now` is the
      uptime in seconds, `pinReady`, `pinRc`, `pin` and `irqRc` what the GPIO driver returns. */
  datatype Event =
    | Boot(cause: Cause, left: Record, now: u32, pinReady: bool, pinRc: int)
    | MgmtCallback(dfuPending: bool, now: u32)
    | Update(now: u32)
    | Supervise(pin: int)
    | Poweroff(irqRc: int, now: u32)

  /** Which events can happen. System off keeps the record if its sections are retained; any other
      reset keeps it or leaves something that does not pass the check. */
  predicate Allowed(p: Platform, d: Device, e: Event)
    requires p.Valid()
  {
    match e
    case Boot(cause, left, _, _, _) =>
      && (left == d.rec || !Checked(left))
      && (cause.WakeSignal? ==> d.phase.SystemOff? && (p.RecordBits() <= d.retention ==> left == d.rec))
    case MgmtCallback(_, _) => !d.phase.SystemOff?
    case Update(_) => !d.phase.SystemOff?
    case Supervise(_) => !d.phase.SystemOff? && d.supervisionPending
    case Poweroff(_, _) => !d.phase.SystemOff? && d.poweroffPending
  }

  function Booted(left: Record, now: u32): Record {
    var valid := Validated(left);
    Updated(valid.(boots := ToU32(valid.boots + 1)), now)
  }

  function Step(p: Platform, d: Device, e: Event): Device
    requires p.Valid()
  {
    match e
    case Boot(_, left, now, pinReady, pinRc) =>
      var rec := Booted(left, now);
      var ok := pinReady && pinRc == 0;
      Device(rec, p.RecordBits(), if ok then Up else Failed, ok, false, rec.boots <= 1)
    case MgmtCallback(dfuPending, now) =>
      if dfuPending then d.(rec := Updated(d.rec.(boots := 0), now)) else d
    case Update(now) => d.(rec := Updated(d.rec, now))
    case Supervise(pin) =>
      if pin == 0 then d.(supervisionPending := false, poweroffPending := true) else d
    case Poweroff(irqRc, now) =>
      if irqRc != 0 then d.(poweroffPending := false, supervisionPending := true)
      else d.(poweroffPending := false, phase := SystemOff,
              rec := Updated(d.rec.(offCount := ToU32(d.rec.offCount + 1)), now))
  }

  // ---- Runs ----

  function Init<T>(s: seq<T>): seq<T>
    requires s != []
  {
    s[..|s| - 1]
  }

  function Last<T>(s: seq<T>): T
    requires s != []
  {
    s[|s| - 1]
  }

  function Run(p: Platform, d: Device, run: seq<Event>): Device
    requires p.Valid()
  {
    if run == [] then d else Step(p, Run(p, d, Init(run)), Last(run))
  }

  predicate ValidRun(p: Platform, d: Device, run: seq<Event>)
    requires p.Valid()
  {
    run != [] ==> ValidRun(p, d, Init(run)) && Allowed(p, Run(p, d, Init(run)), Last(run))
  }

  /** A device without history: not running, and nothing in RAM that passes the check. */
  predicate Fresh(d: Device) {
    d.phase.SystemOff? && !Checked(d.rec) && !d.supervisionPending && !d.poweroffPending
  }

  // ---- What a run's events say, without the device ----

  predicate DfuPending(e: Event) {
    e.MgmtCallback? && e.dfuPending
  }

  /** The event ends with `retained_update`. */
  predicate Updates(e: Event) {
    e.Boot? || e.Update? || DfuPending(e) || (e.Poweroff? && e.irqRc == 0)
  }

  /** Boots since the latest boot that failed validation (counting it) or the latest firmware update. */
  function BootsSince(run: seq<Event>): nat {
    if run == [] then 0
    else if Last(run).Boot? then (if Checked(Last(run).left) then BootsSince(Init(run)) else 0) + 1
    else if DfuPending(Last(run)) then 0
    else BootsSince(Init(run))
  }

  /** Times in system off since the latest boot that failed validation. */
  function OffsSince(run: seq<Event>): nat {
    if run == [] then 0
    else if Last(run).Boot? && !Checked(Last(run).left) then 0
    else OffsSince(Init(run)) + if Last(run).Poweroff? && Last(run).irqRc == 0 then 1 else 0
  }

  /** Uptime of the current session at its latest update. */
  function LatestUpdate(run: seq<Event>): u32 {
    if run == [] then 0 else if Updates(Last(run)) then Last(run).now else LatestUpdate(Init(run))
  }

  /** Uptime of the earlier sessions, each at its latest update, since the latest failed validation. */
  function Carried(run: seq<Event>): nat {
    if run == [] then 0
    else if !Last(run).Boot? then Carried(Init(run))
    else if Checked(Last(run).left) then Carried(Init(run)) + LatestUpdate(Init(run))
    else 0
  }

  // ---- What every state between steps satisfies ----

  lemma UpdatedFields(r: Record, now: u32)
    ensures var u := Updated(r, now);
      && Checked(u) && u.boots == r.boots && u.offCount == r.offCount && u.uptimeLatest == now
      && u.uptimeSum == ToU64(r.uptimeSum - r.uptimeLatest + now)
  {
    UpdatedIsChecked(r, now);
    hide ToU64, Checked;
    TruncatedSummand(r.uptimeSum, now - r.uptimeLatest);
  }

  /** The record counts what the run's events count. */
  predicate Tracks(r: Record, run: seq<Event>) {
    && r.boots == ToU32(BootsSince(run)) && r.offCount == ToU32(OffsSince(run))
    && r.uptimeLatest == LatestUpdate(run)
    && r.uptimeSum == ToU64(Carried(run) + LatestUpdate(run))
  }

  /** An update only moves `LatestUpdate`. */
  lemma UpdateTracks(r: Record, run: seq<Event>, now: u32)
    requires r.uptimeLatest == LatestUpdate(run) && r.uptimeSum == ToU64(Carried(run) + LatestUpdate(run))
    ensures Updated(r, now).uptimeSum == ToU64(Carried(run) + now)
  {
    UpdatedFields(r, now);
    hide ToU64, Updated, Checked;
    TruncatedSummand(now - LatestUpdate(run), Carried(run) + LatestUpdate(run));
  }

  /** The history functions, one event on. */
  lemma HistoryOfNext(run: seq<Event>, e: Event)
    ensures BootsSince(run + [e]) ==
      if e.Boot? then (if Checked(e.left) then BootsSince(run) else 0) + 1
      else if DfuPending(e) then 0 else BootsSince(run)
    ensures OffsSince(run + [e]) ==
      if e.Boot? && !Checked(e.left) then 0
      else OffsSince(run) + if e.Poweroff? && e.irqRc == 0 then 1 else 0
    ensures LatestUpdate(run + [e]) == if Updates(e) then e.now else LatestUpdate(run)
    ensures Carried(run + [e]) ==
      if !e.Boot? then Carried(run) else if Checked(e.left) then Carried(run) + LatestUpdate(run) else 0
  {
  }

  lemma BootTracks(run: seq<Event>, e: Event, rec: Record)
    requires e.Boot? && (e.left == rec || !Checked(e.left))
    requires Checked(rec) ==> Tracks(rec, run)
    ensures Tracks(Booted(e.left, e.now), run + [e]) && Checked(Booted(e.left, e.now))
  {
    hide Checked, Updated, ToU64, ToU32, BootsSince, OffsSince, LatestUpdate, Carried;
    HistoryOfNext(run, e);
    TruncateTwice(0);
    var valid := Validated(e.left);
    var counted := valid.(boots := ToU32(valid.boots + 1));
    UpdatedFields(counted, e.now);
    TruncatedSummand(1, BootsSince(run));
    TruncatedSummand(e.now, Carried(run) + LatestUpdate(run));
  }

  lemma OtherStepTracks(p: Platform, run: seq<Event>, e: Event, before: Device)
    requires p.Valid() && !e.Boot? && Checked(before.rec) && Tracks(before.rec, run)
    ensures var after := Step(p, before, e).rec; Tracks(after, run + [e]) && Checked(after)
  {
    hide Checked, Updated, ToU64, ToU32, BootsSince, OffsSince, LatestUpdate, Carried;
    HistoryOfNext(run, e);
    TruncateTwice(0);
    if Updates(e) {
      var counted := if e.MgmtCallback? then before.rec.(boots := 0)
                     else if e.Poweroff? then before.rec.(offCount := ToU32(before.rec.offCount + 1))
                     else before.rec;
      UpdatedFields(counted, e.now);
      UpdateTracks(counted, run, e.now);
      TruncatedSummand(1, OffsSince(run));
    }
  }

  /** In every state of every run the record tracks the history, passes the check and is retained. */
  lemma {:induction false} RecordTracksHistory(p: Platform, d: Device, run: seq<Event>)
    requires p.Valid() && Fresh(d) && run != [] && ValidRun(p, d, run)
    ensures var s := Run(p, d, run); Checked(s.rec) && Tracks(s.rec, run) && s.retention == p.RecordBits()
  {
    hide Checked, Tracks;
    var run0, e := Init(run), Last(run);
    assert run == run0 + [e];
    if run0 != [] {
      RecordTracksHistory(p, d, run0);
    }
    if e.Boot? {
      BootTracks(run0, e, Run(p, d, run0).rec);
    } else {
      OtherStepTracks(p, run0, e, Run(p, d, run0));
    }
  }

  // ---- Consequences for every run ----

  /** Bluetooth starts on a boot exactly if it is the first since the latest failed validation or
      firmware update, up to the 32-bit wrap of the boot counter. */
  lemma BluetoothGate(p: Platform, d: Device, run: seq<Event>)
    requires p.Valid() && Fresh(d) && run != [] && ValidRun(p, d, run) && Last(run).Boot?
    ensures Run(p, d, run).bluetoothStarted <==> ToU32(BootsSince(run)) <= 1
    ensures BootsSince(run) < 0x1_0000_0000 ==> (Run(p, d, run).bluetoothStarted <==> BootsSince(run) == 1)
  {
    hide Checked, Updated;
    RecordTracksHistory(p, d, run);
  }

  /** The operating time as src/ant.c computes it, in 64 bits. */
  function Uptime(r: Record, now: u32): u64 {
    ToU64(r.uptimeSum + ToU64(now - r.uptimeLatest))
  }

  /** The operating time as page 82 stores it. */
  function OperatingTime(r: Record, now: u32): u32 {
    ToU32(Uptime(r, now))
  }

  /** At any instant the report is the uptime carried from earlier sessions plus this session's. */
  lemma ReportedUptime(p: Platform, d: Device, run: seq<Event>, now: u32)
    requires p.Valid() && Fresh(d) && run != [] && ValidRun(p, d, run)
    ensures Uptime(Run(p, d, run).rec, now) == ToU64(Carried(run) + now)
    ensures OperatingTime(Run(p, d, run).rec, now) == ToU32(Carried(run) + now)
  {
    hide Checked, Updated, ToU64, ToU32, Run, Carried, LatestUpdate, BootsSince, OffsSince;
    RecordTracksHistory(p, d, run);
    var total := Carried(run) + LatestUpdate(run);
    TruncatedSummand(Run(p, d, run).rec.uptimeSum, now - LatestUpdate(run));
    TruncatedSummand(now - LatestUpdate(run), total);
    TruncateTwice(Carried(run) + now);
  }

  predicate NoBoot(run: seq<Event>) {
    forall e :: e in run ==> !e.Boot?
  }

  lemma {:induction false} SessionKeepsCarried(run: seq<Event>, more: seq<Event>)
    requires NoBoot(more)
    ensures Carried(run + more) == Carried(run)
    decreases |more|
  {
    if more == [] {
      assert run + more == run;
    } else {
      assert Init(run + more) == run + Init(more) && Last(run + more) == Last(more);
      SessionKeepsCarried(run, Init(more));
    }
  }

  /** Within a session the report depends on the instant alone, not on which updates came before,
      and never decreases (as long as the total fits 64 bits). */
  lemma ReportIgnoresUpdates(p: Platform, d: Device, run: seq<Event>, more: seq<Event>, now: u32, later: u32)
    requires p.Valid() && Fresh(d) && run != [] && ValidRun(p, d, run) && ValidRun(p, d, run + more)
    requires NoBoot(more) && now <= later
    ensures Uptime(Run(p, d, run + more).rec, now) == Uptime(Run(p, d, run).rec, now)
    ensures Carried(run) + later < 0x1_0000_0000_0000_0000 ==>
      Uptime(Run(p, d, run).rec, now) <= Uptime(Run(p, d, run + more).rec, later)
  {
    hide Run, Carried, Uptime, ValidRun;
    ReportedUptime(p, d, run, now);
    ReportedUptime(p, d, run + more, now);
    ReportedUptime(p, d, run + more, later);
    SessionKeepsCarried(run, more);
  }

  /** While the device is up exactly one of the two work items is pending; otherwise none is. */
  lemma {:induction false} OneWorkItemPending(p: Platform, d: Device, run: seq<Event>)
    requires p.Valid() && Fresh(d) && ValidRun(p, d, run)
    ensures var s := Run(p, d, run);
      && (s.phase.Up? ==> s.supervisionPending != s.poweroffPending)
      && (!s.phase.Up? ==> !s.supervisionPending && !s.poweroffPending)
  {
    hide Checked, Updated, RangeBits;
    if run != [] {
      OneWorkItemPending(p, d, Init(run));
    }
  }

  /** The events that schedule or consume work. */
  predicate IsWork(e: Event) {
    e.Boot? || e.Supervise? || e.Poweroff?
  }

  predicate LatestWork(run: seq<Event>, i: nat) {
    i < |run| && IsWork(run[i]) && forall j :: i < j < |run| ==> !IsWork(run[j])
  }

  lemma {:induction false} SomeLatestWork(p: Platform, d: Device, run: seq<Event>) returns (i: nat)
    requires p.Valid() && Fresh(d) && run != [] && ValidRun(p, d, run)
    ensures LatestWork(run, i)
  {
    hide Checked, Updated, RangeBits;
    if IsWork(Last(run)) {
      i := |run| - 1;
    } else {
      i := SomeLatestWork(p, d, Init(run));
    }
  }

  /** What is pending follows from the latest of boot, supervision and power-off alone. Power-off is
      pending exactly after a sample of 0; supervision exactly after any other sample, a power-off that
      failed or a boot that could set up the wake pin. Any other boot ends failed, and the power-off
      that did not fail in system off. */
  lemma {:induction false} PendingFollowsLatestWork(p: Platform, d: Device, run: seq<Event>, i: nat)
    requires p.Valid() && Fresh(d) && ValidRun(p, d, run) && LatestWork(run, i)
    ensures var s := Run(p, d, run);
      && (s.poweroffPending <==> run[i].Supervise? && run[i].pin == 0)
      && (s.supervisionPending <==>
            || (run[i].Supervise? && run[i].pin != 0)
            || (run[i].Poweroff? && run[i].irqRc != 0)
            || (run[i].Boot? && run[i].pinReady && run[i].pinRc == 0))
      && (s.phase == SystemOff <==> run[i].Poweroff? && run[i].irqRc == 0)
      && (s.phase == Failed <==> run[i].Boot? && !(run[i].pinReady && run[i].pinRc == 0))
  {
    hide Checked, Updated, RangeBits;
    OneWorkItemPending(p, d, run);
    OneWorkItemPending(p, d, Init(run));
    if i < |run| - 1 {
      PendingFollowsLatestWork(p, d, Init(run), i);
    }
  }

  /** A power-off only ever follows a sample of 0 that no boot or other sample came after; and exactly a
      power-off that does not fail takes the device from running to system off. */
  lemma SystemOffFollowsLowSample(p: Platform, d: Device, run: seq<Event>, e: Event)
    requires p.Valid() && Fresh(d) && run != [] && ValidRun(p, d, run + [e])
    ensures e.Poweroff? ==> exists i: nat :: LatestWork(run, i) && run[i] == Supervise(0)
    ensures var before, after := Run(p, d, run).phase, Run(p, d, run + [e]).phase;
      before != SystemOff && after == SystemOff <==> e.Poweroff? && e.irqRc == 0
  {
    hide Checked, Updated, RangeBits, LatestWork;
    assert Init(run + [e]) == run;
    var i := SomeLatestWork(p, d, run);
    PendingFollowsLatestWork(p, d, run, i);
  }

  /** A wake from system off finds the record as it was left, so its counts go on. */
  lemma WakeKeepsRecord(p: Platform, d: Device, run: seq<Event>, wake: Event)
    requires p.Valid() && Fresh(d) && run != [] && wake.Boot? && wake.cause.WakeSignal?
    requires ValidRun(p, d, run + [wake])
    ensures wake.left == Run(p, d, run).rec && Checked(wake.left)
    ensures BootsSince(run + [wake]) == BootsSince(run) + 1 && OffsSince(run + [wake]) == OffsSince(run)
    ensures Carried(run + [wake]) == Carried(run) + LatestUpdate(run)
  {
    hide Checked, Run, BootsSince, OffsSince, LatestUpdate, Carried;
    assert Init(run + [wake]) == run;
    RecordTracksHistory(p, d, run);
    HistoryOfNext(run, wake);
  }

  // ---- The handlers ----

  class Firmware {
    const platform: Platform
    const retained: RetainedData
    const power: RamPower
    var phase: Phase
    var supervisionPending: bool
    var poweroffPending: bool
    var bluetoothStarted: bool

    /** After a reset: RAM holds `left`, the power registers are clear and no work is scheduled. */
    constructor (platform: Platform, left: Record)
      requires platform.Valid()
      ensures Valid() && this.platform == platform && fresh(retained) && fresh(power)
      ensures retained.View() == left && power.bits == {} && !supervisionPending && !poweroffPending
    {
      this.platform := platform;
      retained := new RetainedData(platform.address, left);
      power := new RamPower();
      phase, supervisionPending, poweroffPending, bluetoothStarted := Failed, false, false, false;
    }

    predicate Valid() {
      platform.Valid() && retained.address == platform.address
    }

    function View(): Device
      reads this, retained, power
    {
      Device(retained.View(), power.bits, phase, supervisionPending, poweroffPending, bluetoothStarted)
    }

    /** `main`, from a reset on. */
    method BootSequence(now: u32, pinReady: bool, pinRc: int, ghost cause: Cause)
      requires Valid() && power.bits == {} && !supervisionPending && !poweroffPending
      modifies this, retained, power
      ensures View() == Step(platform, old(View()), Boot(cause, old(retained.View()), now, pinReady, pinRc))
    {
      hide Checked, Updated, RangeBits;
      var _ := retained.Validate(platform.sram, power);
      retained.boots := ToU32(retained.boots + 1);
      retained.Update(now);
      bluetoothStarted := retained.boots <= 1;
      phase := Failed;
      if !pinReady {
        return;
      }
      if pinRc != 0 {
        return;
      }
      supervisionPending := true;
      phase := Up;
    }

    /** `dfu_pending_cb`. */
    method DfuPendingCb(dfuPending: bool, now: u32)
      requires Valid()
      modifies this, retained
      ensures View() == Step(platform, old(View()), MgmtCallback(dfuPending, now))
    {
      hide Updated, RangeBits;
      if dfuPending {
        retained.boots := 0;
        retained.Update(now);
      }
    }

    /** `supervise`; the kernel has taken its work item off the queue. */
    method SuperviseWork(pin: int)
      requires Valid() && supervisionPending
      modifies this
      ensures View() == Step(platform, old(View()), Supervise(pin))
    {
      hide Updated, RangeBits;
      supervisionPending := false;
      if pin == 0 {
        poweroffPending := true;
      } else {
        supervisionPending := true;
      }
    }

    /** `poweroff`; the kernel has taken its work item off the queue. */
    method PoweroffWork(irqRc: int, now: u32)
      requires Valid() && poweroffPending
      modifies this, retained
      ensures View() == Step(platform, old(View()), Poweroff(irqRc, now))
    {
      hide Updated, RangeBits;
      poweroffPending := false;
      if irqRc != 0 {
        supervisionPending := true;
      } else {
        retained.offCount := ToU32(retained.offCount + 1);
        retained.Update(now);
        phase := SystemOff;
      }
    }
  }
}
