/** The configuration and sensor-reading handlers and the restore at start-up (src/ant.c). */
module Handlers {
  import opened Words
  import opened Pages
  import opened Settings
  import opened Sensor
  import opened Profile
  import Scheduler
  import Retained
  import Lifecycle

  const ROLE_KEY := "role"
  const ALARM_LOW_KEY := "alL"
  const ALARM_HIGH_KEY := "alH"

  const SET_ROLE := 0x1
  const SET_AMBIENT := 0x2
  const SET_ALARM_LOW := 0x4
  const SET_ALARM_HIGH := 0x8

  /** The profile pages the handlers own, and the stored settings. */
  datatype App = App(page1: Page1, page16: Page16, page82: Page82, values: Values)

  /** Which of a configuration page's writes to storage succeed. */
  datatype Saves = Saves(role: bool, alarmLow: bool, alarmHigh: bool)

  // ---- Configuration ----

  /** `command & flag`, for a single-bit flag. */
  predicate Has(command: u8, flag: u8)
    requires flag > 0
  {
    command / flag % 2 == 1
  }

  predicate IsReset(c: Page16) {
    c.command == 0 && c.ambient == 0xffff && c.alarmLow == 0xffff && c.alarmHigh == 0xffff
  }

  function Saved(values: Values, key: string, value: seq<u8>, ok: bool): Values {
    if ok then values[key := value] else values
  }

  function RoleConfigured(a: App, c: Page16, ok: bool): App {
    if !Has(c.command, SET_ROLE) then a
    else a.(page16 := a.page16.(role := c.role), values := Saved(a.values, ROLE_KEY, [c.role], ok))
  }

  function AmbientConfigured(a: App, c: Page16): App {
    if !Has(c.command, SET_AMBIENT) then a else a.(page16 := a.page16.(ambient := c.ambient))
  }

  function LowConfigured(a: App, c: Page16, ok: bool): App {
    if !Has(c.command, SET_ALARM_LOW) then a
    else a.(page16 := a.page16.(alarmLow := c.alarmLow),
            values := Saved(a.values, ALARM_LOW_KEY, Le(c.alarmLow, 2), ok))
  }

  function HighConfigured(a: App, c: Page16, ok: bool): App {
    if !Has(c.command, SET_ALARM_HIGH) then a
    else a.(page16 := a.page16.(alarmHigh := c.alarmHigh),
            values := Saved(a.values, ALARM_HIGH_KEY, Le(c.alarmHigh, 2), ok))
  }

  /** `ant_tpms_config_handler`. */
  function Configured(a: App, c: Page16, s: Saves): App {
    var a0 := if IsReset(c) then a.(page16 := DEFAULT_PAGE_16) else a;
    var a1 := AmbientConfigured(RoleConfigured(a0, c, s.role), c);
    var a2 := HighConfigured(LowConfigured(a1, c, s.alarmLow), c, s.alarmHigh);
    a2.(page1 := a2.page1.(role := a2.page16.role))
  }

  /** Whether the write after `n` others succeeds. */
  predicate Succeeds(faults: seq<bool>, n: nat) {
    n < |faults| ==> !faults[n]
  }

  /** The faults left after `n` writes. */
  function Rest(faults: seq<bool>, n: nat): seq<bool> {
    if n < |faults| then faults[n..] else []
  }

  lemma RestOfRest(faults: seq<bool>, m: nat, n: nat)
    ensures Rest(Rest(faults, m), n) == Rest(faults, m + n)
    ensures Succeeds(Rest(faults, m), 0) == Succeeds(faults, m)
  {
  }

  function Count(c: Page16, flag: u8): nat
    requires flag > 0
  {
    if Has(c.command, flag) then 1 else 0
  }

  /** The number of writes a configuration page causes. */
  function Writes(c: Page16): nat {
    Count(c, SET_ROLE) + Count(c, SET_ALARM_LOW) + Count(c, SET_ALARM_HIGH)
  }

  /** The outcomes of a configuration page's writes, in their order. */
  function Outcomes(c: Page16, faults: seq<bool>): Saves {
    Saves(Succeeds(faults, 0), Succeeds(faults, Count(c, SET_ROLE)),
          Succeeds(faults, Count(c, SET_ROLE) + Count(c, SET_ALARM_LOW)))
  }

  // ---- Readings ----

  function CompensatedPressure(ambient: u16, pressureHpa: i16): i16 {
    ToI16(AMBIENT_DEFAULT - (if ambient == UNSET then AMBIENT_DEFAULT else ambient as int) + pressureHpa)
  }

  function PublishedPressure(ambient: u16, pressureHpa: i16): u16 {
    var compensated := CompensatedPressure(ambient, pressureHpa);
    if compensated <= 75 then 0 else compensated
  }

  function Alarms(low: u16, high: u16, pressure: u16): u8 {
    if low != UNSET && high != UNSET then
      ALARM_ALL + (if low <= pressure then ALARM_LOW_OK else 0) + (if pressure <= high then ALARM_HIGH_OK else 0)
    else ALARM_NONE
  }

  function BatteryStatus(percent: u8): BatteryState {
    if percent >= 100 then BATTERY_STATE_NEW
    else if percent >= 50 then BATTERY_STATE_GOOD
    else if percent >= 15 then BATTERY_STATE_OK
    else if percent >= 5 then BATTERY_STATE_LOW
    else BATTERY_STATE_CRITICAL
  }

  /** `ant_sensor_data_handler_cb`, with the operating time it computes. */
  function Read(a: App, r: Reading, operatingTime: u32): App {
    var pressure := PublishedPressure(a.page16.ambient, r.pressureHpa);
    a.(page1 := a.page1.(pressure := pressure, alarms := Alarms(a.page16.alarmLow, a.page16.alarmHigh, pressure)),
       page82 := a.page82.(operatingTime := operatingTime, voltageMv := ToU16(r.voltageMv),
                           status := BatteryStatus(BatteryLevelPercent(r.voltageMv))))
  }

  lemma ReadKeeps(a: App, r: Reading, operatingTime: u32)
    ensures var b := Read(a, r, operatingTime);
      && b.page16 == a.page16 && b.values == a.values && b.page1.role == a.page1.role
      && b.page82.count == a.page82.count && b.page82.id == a.page82.id
  {
  }

  // ---- Start-up ----

  function WithDefault(values: Values, key: string, init: seq<u8>): Values {
    if key in values then values else values[key := init]
  }

  /** What load-or-initialise leaves in a buffer: the entry or the default, or, if the entry has
      another length, what the buffer held before. */
  function Loaded(values: Values, key: string, init: seq<u8>, buffer: seq<u8>): (r: seq<u8>)
    requires |init| == |buffer|
    ensures |r| == |buffer|
  {
    var value := WithDefault(values, key, init)[key];
    if |value| == |buffer| then value else buffer
  }

  /** `profile_setup`: default pages, then role and thresholds from storage. The two thresholds share
      one uninitialised local variable; `stack` is what it and the role's variable held. */
  function SetUp(values: Values, stack: (u8, u16)): App {
    var role := Loaded(values, ROLE_KEY, [ROLE_NONE], [stack.0])[0];
    var low := Loaded(values, ALARM_LOW_KEY, Le(UNSET, 2), Le(stack.1, 2));
    var high := Loaded(values, ALARM_HIGH_KEY, Le(UNSET, 2), low);
    var stored := WithDefault(WithDefault(WithDefault(values, ROLE_KEY, [ROLE_NONE]),
                                          ALARM_LOW_KEY, Le(UNSET, 2)), ALARM_HIGH_KEY, Le(UNSET, 2));
    App(DEFAULT_PAGE_1.(role := role),
        DEFAULT_PAGE_16.(role := role, alarmLow := Uint16Decode(low), alarmHigh := Uint16Decode(high)),
        DEFAULT_PAGE_82, stored)
  }

  // ---- The handlers ----

  class TpmsApp {
    const tpms: TpmsProfile
    const settings: Store

    function View(): App
      reads tpms, settings
    {
      App(tpms.page1, tpms.page16, tpms.page82, settings.values)
    }

    /** `profile_setup`: pages initialised, settings restored, channel opened with a first message. */
    constructor (settings: Store, page80: Payload, page81: Payload, stack: (u8, u16))
      modifies settings
      ensures this.settings == settings && fresh(tpms) && View() == SetUp(old(settings.values), stack)
      ensures tpms.messageCounter == 1 && tpms.events == [1]
    {
      hide SetUp, EncodePage1, EncodePage16, EncodePage82;
      this.settings := settings;
      tpms := new TpmsProfile(page80, page81);
      new;
      Restore(stack);
      var message := new u8[MESSAGE_SIZE];
      tpms.SensMessageEncode(message);
    }

    /** The part of `profile_setup` that reads the settings into freshly initialised pages. */
    method Restore(stack: (u8, u16))
      requires tpms.page1 == DEFAULT_PAGE_1 && tpms.page16 == DEFAULT_PAGE_16 && tpms.page82 == DEFAULT_PAGE_82
      modifies tpms`page1, tpms`page16, tpms`page82, settings
      ensures View() == SetUp(old(settings.values), stack)
    {
      hide Le, Uint16Decode;
      var _, role := settings.LoadImmediateValueInitDefault(ROLE_KEY, [stack.0], [ROLE_NONE]);
      tpms.page1 := tpms.page1.(role := role[0]);
      tpms.page16 := tpms.page16.(role := role[0]);
      var thres := Le(stack.1, 2);
      var _, low := settings.LoadImmediateValueInitDefault(ALARM_LOW_KEY, thres, Le(UNSET, 2));
      tpms.page16 := tpms.page16.(alarmLow := Uint16Decode(low));
      var _, high := settings.LoadImmediateValueInitDefault(ALARM_HIGH_KEY, low, Le(UNSET, 2));
      tpms.page16 := tpms.page16.(alarmHigh := Uint16Decode(high));
      tpms.page82 := tpms.page82.(count := 0xf, id := 0xf);
    }

    method ConfigureRole(c: Page16)
      modifies tpms, settings
      ensures View() == RoleConfigured(old(View()), c, Succeeds(old(settings.faults), 0))
      ensures settings.faults == Rest(old(settings.faults), Count(c, SET_ROLE))
    {
      if Has(c.command, SET_ROLE) {
        tpms.page16 := tpms.page16.(role := c.role);
        var _ := settings.SaveOne(ROLE_KEY, [c.role]);
      }
    }

    method ConfigureAmbient(c: Page16)
      modifies tpms
      ensures View() == AmbientConfigured(old(View()), c)
    {
      if Has(c.command, SET_AMBIENT) {
        tpms.page16 := tpms.page16.(ambient := c.ambient);
      }
    }

    method ConfigureLow(c: Page16)
      modifies tpms, settings
      ensures View() == LowConfigured(old(View()), c, Succeeds(old(settings.faults), 0))
      ensures settings.faults == Rest(old(settings.faults), Count(c, SET_ALARM_LOW))
    {
      hide Le;
      if Has(c.command, SET_ALARM_LOW) {
        tpms.page16 := tpms.page16.(alarmLow := c.alarmLow);
        var _ := settings.SaveOne(ALARM_LOW_KEY, Le(c.alarmLow, 2));
      }
    }

    method ConfigureHigh(c: Page16)
      modifies tpms, settings
      ensures View() == HighConfigured(old(View()), c, Succeeds(old(settings.faults), 0))
      ensures settings.faults == Rest(old(settings.faults), Count(c, SET_ALARM_HIGH))
    {
      hide Le;
      if Has(c.command, SET_ALARM_HIGH) {
        tpms.page16 := tpms.page16.(alarmHigh := c.alarmHigh);
        var _ := settings.SaveOne(ALARM_HIGH_KEY, Le(c.alarmHigh, 2));
      }
    }

    /** `ant_tpms_config_handler`; the store's faults decide which of its writes succeed. */
    method ConfigHandler(c: Page16)
      modifies tpms, settings
      ensures View() == Configured(old(View()), c, Outcomes(c, old(settings.faults)))
      ensures settings.faults == Rest(old(settings.faults), Writes(c))
    {
      hide RoleConfigured, AmbientConfigured, LowConfigured, HighConfigured, Has, Count, Succeeds, Rest;
      ghost var role, low := Count(c, SET_ROLE), Count(c, SET_ALARM_LOW);
      RestOfRest(settings.faults, role, low);
      RestOfRest(settings.faults, role + low, Count(c, SET_ALARM_HIGH));
      if c.command == 0 && c.ambient == 0xffff && c.alarmLow == 0xffff && c.alarmHigh == 0xffff {
        tpms.page16 := DEFAULT_PAGE_16;
      }
      ConfigureRole(c);
      ConfigureAmbient(c);
      ConfigureLow(c);
      ConfigureHigh(c);
      tpms.page1 := tpms.page1.(role := tpms.page16.role);
    }

    /** `sens_message_decode`: only page 16 is acted on. */
    method SensMessageDecode(message: array<u8>)
      requires message.Length == MESSAGE_SIZE
      modifies tpms, settings
      ensures View() ==
        if old(message[0]) != Scheduler.PAGE_16 then old(View())
        else var c := DecodePage16(old(message[1..]));
          Configured(old(View()), c, Outcomes(c, old(settings.faults)))
    {
      hide Configured, DecodePage16, Outcomes, Rest;
      if message[0] == Scheduler.PAGE_16 {
        ConfigHandler(DecodePage16(message[1..]));
      }
    }

    method SensorDataHandler(r: Reading, retained: Retained.RetainedData, now: u32)
      modifies tpms
      ensures View() == Read(old(View()), r, Lifecycle.OperatingTime(retained.View(), now))
    {
      hide Lifecycle.OperatingTime, BatteryLevelPercent;
      var ambient: int := if tpms.page16.ambient == 0xffff then AMBIENT_DEFAULT else tpms.page16.ambient;
      var compensated := ToI16(AMBIENT_DEFAULT - ambient + r.pressureHpa);
      tpms.page1 := tpms.page1.(pressure := if compensated <= 75 then 0 else compensated);
      if tpms.page16.alarmLow != 0xffff && tpms.page16.alarmHigh != 0xffff {
        var alarms: u8 := ALARM_ALL;
        if tpms.page16.alarmLow <= tpms.page1.pressure {
          alarms := alarms + ALARM_LOW_OK;
        }
        if tpms.page1.pressure <= tpms.page16.alarmHigh {
          alarms := alarms + ALARM_HIGH_OK;
        }
        tpms.page1 := tpms.page1.(alarms := alarms);
      } else {
        tpms.page1 := tpms.page1.(alarms := ALARM_NONE);
      }
      var percent := BatteryLevelPercent(r.voltageMv);
      var state := BATTERY_STATE_INVALID;
      if percent >= 100 {
        state := BATTERY_STATE_NEW;
      } else if percent >= 50 {
        state := BATTERY_STATE_GOOD;
      } else if percent >= 15 {
        state := BATTERY_STATE_OK;
      } else if percent >= 5 {
        state := BATTERY_STATE_LOW;
      } else {
        state := BATTERY_STATE_CRITICAL;
      }
      tpms.page82 := tpms.page82.(operatingTime := Lifecycle.OperatingTime(retained.View(), now),
                        voltageMv := ToU16(r.voltageMv), status := state);
    }
  }

  // ---- Single steps ----

  /** The entry at `key` is `value` if it was written, and else as before. */
  predicate EntryIs(before: Values, after: Values, key: string, written: bool, value: seq<u8>) {
    if written then key in after && after[key] == value
    else (key in after <==> key in before) && (key in after ==> after[key] == before[key])
  }

  /** A configuration page changes exactly the fields whose command bit is set: bit 0 stands for the
      role, bit 1 for the ambient pressure, bits 2 and 3 for the low and the high threshold. The empty
      command with all values unset restores every default. Page 1 takes over the role and keeps
      pressure and alarms. */
  lemma ConfigChangesExactly(a: App, c: Page16, s: Saves)
    ensures var b := Configured(a, c, s);
      && b.page16 ==
        (if c == Page16(0, c.role, 0xffff, 0xffff, 0xffff) then Page16(0, 0, 1013, 0xffff, 0xffff)
         else Page16(a.page16.command,
                     if c.command % 2 == 1 then c.role else a.page16.role,
                     if c.command / 2 % 2 == 1 then c.ambient else a.page16.ambient,
                     if c.command / 4 % 2 == 1 then c.alarmLow else a.page16.alarmLow,
                     if c.command / 8 % 2 == 1 then c.alarmHigh else a.page16.alarmHigh))
      && b.page1 == a.page1.(role := b.page16.role) && b.page82 == a.page82
  {
    hide Le;
  }

  lemma ConfigUpdatesEntry(a: App, c: Page16, s: Saves, key: string)
    ensures EntryIs(a.values, Configured(a, c, s).values, key,
                    SavesKey(Config(c, s), key), if SavesKey(Config(c, s), key) then EntryOf(c, key) else [])
  {
    hide Le;
  }

  /** In storage a configuration page changes exactly the entries of role and thresholds whose command
      bit is set and whose write succeeds; a reset changes none. */
  lemma ConfigStoresExactly(a: App, c: Page16, s: Saves, key: string)
    ensures var stored := Configured(a, c, s).values;
      && EntryIs(a.values, stored, "role", c.command % 2 == 1 && s.role, [c.role])
      && EntryIs(a.values, stored, "alL", c.command / 4 % 2 == 1 && s.alarmLow, [c.alarmLow % 256, c.alarmLow / 256])
      && EntryIs(a.values, stored, "alH", c.command / 8 % 2 == 1 && s.alarmHigh,
                 [c.alarmHigh % 256, c.alarmHigh / 256])
      && (key !in ["role", "alL", "alH"] ==> EntryIs(a.values, stored, key, false, []))
  {
    hide Configured, Le, SavesKey, EntryOf;
    SavedEntries(c, s, key);
    ConfigUpdatesEntry(a, c, s, "role");
    ConfigUpdatesEntry(a, c, s, "alL");
    ConfigUpdatesEntry(a, c, s, "alH");
    ConfigUpdatesEntry(a, c, s, key);
  }

  lemma SavedEntries(c: Page16, s: Saves, key: string)
    ensures SavesKey(Config(c, s), "role") <==> c.command % 2 == 1 && s.role
    ensures SavesKey(Config(c, s), "alL") <==> c.command / 4 % 2 == 1 && s.alarmLow
    ensures SavesKey(Config(c, s), "alH") <==> c.command / 8 % 2 == 1 && s.alarmHigh
    ensures key !in ["role", "alL", "alH"] ==> !SavesKey(Config(c, s), key)
    ensures EntryOf(c, "role") == [c.role] && EntryOf(c, "alL") == [c.alarmLow % 256, c.alarmLow / 256]
    ensures EntryOf(c, "alH") == [c.alarmHigh % 256, c.alarmHigh / 256]
  {
    hide Le;
    LeOfWord(c.alarmLow);
    LeOfWord(c.alarmHigh);
    assert "alL"[2] != "alH"[2];
    assert ["role", "alL", "alH"][0] == "role" && ["role", "alL", "alH"][1] == "alL";
    assert ["role", "alL", "alH"][2] == "alH";
  }

  lemma LeOfWord(v: u16)
    ensures Le(v, 2) == [v % 256, v / 256]
  {
    hide Le;
    LeBytes(v);
    SecondByte(v);
  }

  /** Role, low and high threshold are written in this order, each if its bit is set. */
  lemma WritesInOrder(c: Page16, faults: seq<bool>)
    ensures var low := c.command % 2;
      var high := low + c.command / 4 % 2;
      && Writes(c) == high + c.command / 8 % 2
      && Outcomes(c, faults) == Saves(Succeeds(faults, 0), Succeeds(faults, low), Succeeds(faults, high))
  {
  }

  /** The reading shifted by how far the ambient pressure is below 1013 hPa, before it is stored in 16
      bits. */
  function ExactPressure(ambient: u16, p: int): int {
    (if ambient == 0xffff then 0 else 1013 - ambient as int) + p
  }

  /** The exact pressure is published right, cut off at 75 hPa, although stored in 16 bits. */
  predicate Fits(exact: int) {
    -0x8000 <= exact < 0x8000 || exact <= -65461
  }

  /** The published pressure is 0 or 76 to 32767, and it is the exact one, cut off at 75 hPa, exactly
      if that fits. */
  lemma PublishedPressureRange(ambient: u16, p: i16)
    ensures PublishedPressure(ambient, p) == 0 || 76 <= PublishedPressure(ambient, p) <= 0x7fff
    ensures var exact := ExactPressure(ambient, p);
      PublishedPressure(ambient, p) == (if exact <= 75 then 0 else exact) <==> Fits(exact)
  {
  }

  /** An ambient pressure that a display can command turns 757 hPa into 27306 hPa. */
  lemma AmbientWraps()
    ensures Convertible(60) && PressureHpa(60) == 757 && PublishedPressure(40000, 757) == 27306
  {
    PressureCurve(60);
  }

  /** With both thresholds set each OK bit is its comparison. Both alarms are raised exactly if the
      pressure lies strictly between a high threshold below and a low one above it, so never if low
      is no greater than high. With a threshold missing there is no alarm. */
  lemma AlarmBits(low: u16, high: u16, p: u16)
    ensures low != 0xffff && high != 0xffff ==>
      && Alarms(low, high, p) < 4
      && (Alarms(low, high, p) % 2 == 1 <==> low <= p) && (Alarms(low, high, p) / 2 == 1 <==> p <= high)
      && (Alarms(low, high, p) == 0 <==> high < p < low)
    ensures low == 0xffff || high == 0xffff ==> Alarms(low, high, p) == 3
    ensures low <= high ==> Alarms(low, high, p) != 0
  {
  }

  /** The battery voltages at which each status begins. */
  lemma StatusVoltages(v: i16)
    ensures BatteryStatus(BatteryLevelPercent(v)) ==
      if v >= 2999 then 1 else if v >= 2913 then 2 else if v >= 2641 then 3 else if v >= 2327 then 4 else 5
  {
  }

  /** The battery status is one of the five states, and never worse at a higher voltage. */
  lemma BatteryStatusMonotone(v: i16, w: i16)
    requires v <= w
    ensures var f := (x: i16) => BatteryStatus(BatteryLevelPercent(x));
      1 <= f(w) <= f(v) <= 5
  {
  }

  /** Start-up restores what storage holds, in the right length, and initialises what it does not. */
  lemma StartUp(values: Values, stack: (u8, u16))
    ensures var a := SetUp(values, stack);
      && a.page1 == Page1(a.page16.role, 3, 0xffff) && a.page82 == Page82(15, 15, 0, 0, 7)
      && a.page16.command == 0 && a.page16.ambient == 1013
      && (if "role" !in values then a.page16.role == 0 && Holds(a.values, "role", [0])
          else |values["role"]| == 1 ==> a.page16.role == values["role"][0])
      && (if "alL" !in values then a.page16.alarmLow == 0xffff && Holds(a.values, "alL", [255, 255])
          else |values["alL"]| == 2 ==> a.page16.alarmLow == values["alL"][0] as int + 256 * values["alL"][1] as int)
      && (if "alH" !in values then a.page16.alarmHigh == 0xffff && Holds(a.values, "alH", [255, 255])
          else |values["alH"]| == 2 ==> a.page16.alarmHigh == values["alH"][0] as int + 256 * values["alH"][1] as int)
      && (forall key :: key in values ==> Holds(a.values, key, values[key]))
  {
    LeOfWord(0xffff);
    hide Le;
  }

  /** A stored high threshold of the wrong length silently becomes the low one. */
  lemma WrongLengthHigh(values: Values, stack: (u8, u16))
    requires ALARM_HIGH_KEY in values && |values[ALARM_HIGH_KEY]| != 2
    ensures SetUp(values, stack).page16.alarmHigh == SetUp(values, stack).page16.alarmLow
  {
  }

  // ---- Runs ----

  datatype Event =
    | Config(page: Page16, saves: Saves)
    | Sensed(reading: Reading, operatingTime: u32)
    | Reboot(stack: (u8, u16))

  function Step(a: App, e: Event): App {
    match e
    case Config(page, saves) => Configured(a, page, saves)
    case Sensed(reading, time) => Read(a, reading, time)
    case Reboot(stack) => SetUp(a.values, stack)
  }

  /** The state after start-up on `values` and the events of `run`. */
  function Run(values: Values, stack: (u8, u16), run: seq<Event>): App {
    if run == [] then SetUp(values, stack)
    else Step(Run(values, stack, run[..|run| - 1]), run[|run| - 1])
  }

  /** The event saves a new entry at `key`. */
  predicate SavesKey(e: Event, key: string) {
    && e.Config?
    && ( || (key == ROLE_KEY && Has(e.page.command, SET_ROLE) && e.saves.role)
         || (key == ALARM_LOW_KEY && Has(e.page.command, SET_ALARM_LOW) && e.saves.alarmLow)
         || (key == ALARM_HIGH_KEY && Has(e.page.command, SET_ALARM_HIGH) && e.saves.alarmHigh))
  }

  predicate IsKey(key: string) {
    key == ROLE_KEY || key == ALARM_LOW_KEY || key == ALARM_HIGH_KEY
  }

  /** A page's value for `key`, as it is stored. */
  function EntryOf(c: Page16, key: string): seq<u8>
    requires IsKey(key)
  {
    if key == ROLE_KEY then [c.role] else Le(if key == ALARM_LOW_KEY then c.alarmLow else c.alarmHigh, 2)
  }

  /** The entry of the latest command that was saved, or else what storage held at first, or else the
      default. */
  function LatestEntry(values: Values, run: seq<Event>, key: string): seq<u8>
    requires IsKey(key)
  {
    if run == [] then WithDefault(values, key, EntryOf(DEFAULT_PAGE_16, key))[key]
    else if SavesKey(run[|run| - 1], key) then EntryOf(run[|run| - 1].page, key)
    else LatestEntry(values, run[..|run| - 1], key)
  }

  predicate Holds(values: Values, key: string, entry: seq<u8>) {
    key in values && values[key] == entry
  }

  lemma SetUpKeeps(values: Values, stack: (u8, u16), key: string)
    requires IsKey(key)
    ensures Holds(SetUp(values, stack).values, key, WithDefault(values, key, EntryOf(DEFAULT_PAGE_16, key))[key])
  {
    hide Le;
  }

  /** Storage always holds the latest saved entries, whatever resets came between. */
  lemma {:induction false} StorageHoldsLatest(values: Values, stack: (u8, u16), run: seq<Event>, key: string)
    requires IsKey(key)
    ensures Holds(Run(values, stack, run).values, key, LatestEntry(values, run, key))
    decreases |run|
  {
    hide Configured, SetUp, SavesKey, EntryOf, IsKey;
    if run == [] {
      SetUpKeeps(values, stack, key);
    } else {
      var run0, e := run[..|run| - 1], run[|run| - 1];
      var before := Run(values, stack, run0);
      StorageHoldsLatest(values, stack, run0, key);
      OnlyConfigSaves(e, key);
      match e
      case Config(c, s) => ConfigUpdatesEntry(before, c, s, key);
      case Sensed(_, _) =>
      case Reboot(s) => SetUpKeeps(before.values, s, key);
    }
  }

  lemma OnlyConfigSaves(e: Event, key: string)
    ensures !e.Config? ==> !SavesKey(e, key)
    ensures SavesKey(e, key) ==> IsKey(key)
  {
  }

  /** After a reboot role and thresholds are those of the latest saved commands and the ambient
      pressure is the default again. An entry that storage held at first in a wrong length leaves what
      the reading variable happened to hold. */
  lemma RebootRestores(values: Values, stack: (u8, u16), run: seq<Event>, reboot: Event)
    requires reboot.Reboot?
    ensures var role := LatestEntry(values, run, ROLE_KEY);
      var low, high := LatestEntry(values, run, ALARM_LOW_KEY), LatestEntry(values, run, ALARM_HIGH_KEY);
      var a := Run(values, stack, run + [reboot]);
      && a.page16.role == a.page1.role == (if |role| == 1 then role[0] else reboot.stack.0)
      && a.page16.alarmLow == (if |low| == 2 then Uint16Decode(low) else reboot.stack.1)
      && a.page16.alarmHigh == (if |high| == 2 then Uint16Decode(high) else a.page16.alarmLow)
      && a.page16.ambient == 1013 && a.page16.command == 0
  {
    hide Configured, Read, LatestEntry, Le, Uint16Decode;
    assert (run + [reboot])[..|run|] == run;
    StorageHoldsLatest(values, stack, run, ROLE_KEY);
    StorageHoldsLatest(values, stack, run, ALARM_LOW_KEY);
    StorageHoldsLatest(values, stack, run, ALARM_HIGH_KEY);
    UintRoundTrips(reboot.stack.1);
  }

  /** Between steps page 1 shows page 16's role, and page 16 carries no command. */
  lemma {:induction false} RolesAgree(values: Values, stack: (u8, u16), run: seq<Event>)
    ensures var a := Run(values, stack, run); a.page1.role == a.page16.role && a.page16.command == 0
    decreases |run|
  {
    hide Le, Uint16Decode;
    if run != [] {
      RolesAgree(values, stack, run[..|run| - 1]);
    }
  }

  /** Roles fit four bits: those stored at first, those the variable on the stack may contribute, and
      those commanded, as every decoded page 16 has them. */
  predicate FourBitRoles(values: Values, stack: (u8, u16), run: seq<Event>) {
    && (ROLE_KEY in values && |values[ROLE_KEY]| == 1 ==> values[ROLE_KEY][0] < 16) && stack.0 < 16
    && forall e :: e in run ==> (e.Config? ==> e.page.role < 16) && (e.Reboot? ==> e.stack.0 < 16)
  }

  predicate RoleFits(a: App) {
    a.page16.role < 16 && (ROLE_KEY in a.values && |a.values[ROLE_KEY]| == 1 ==> a.values[ROLE_KEY][0] < 16)
  }

  lemma SetUpRoleFits(values: Values, stack: (u8, u16))
    requires FourBitRoles(values, stack, [])
    ensures RoleFits(SetUp(values, stack))
  {
    hide Le, Uint16Decode;
  }

  lemma ConfigRoleFits(a: App, c: Page16, s: Saves)
    requires RoleFits(a) && c.role < 16
    ensures RoleFits(Configured(a, c, s))
  {
    hide Configured;
    ConfigChangesExactly(a, c, s);
    ConfigUpdatesEntry(a, c, s, ROLE_KEY);
  }

  lemma {:induction false} RolesFit(values: Values, stack: (u8, u16), run: seq<Event>)
    requires FourBitRoles(values, stack, run)
    ensures RoleFits(Run(values, stack, run))
    decreases |run|
  {
    hide Configured, SetUp;
    if run == [] {
      SetUpRoleFits(values, stack);
    } else {
      var e := run[|run| - 1];
      assert e in run;
      var before := Run(values, stack, run[..|run| - 1]);
      RolesFit(values, stack, run[..|run| - 1]);
      match e
      case Config(c, s) => ConfigRoleFits(before, c, s);
      case Sensed(_, _) =>
      case Reboot(s) => SetUpRoleFits(before.values, s);
    }
  }
}
