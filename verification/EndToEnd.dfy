/** Properties that span the components: from the sensor's wire and the retained record to a display,
    and from a display's command through storage back to the pages. */
module EndToEnd {
  import opened Words
  import opened Pages
  import opened Profile
  import opened Sensor
  import opened Handlers
  import Scheduler
  import Retained
  import Lifecycle
  import Settings

  /** `spim_receive` (src/spi.c), the bus delivering readings to their handler. `spiRc` is the
      driver's result for the transfer into the buffer. */
  method SpimReceive(app: TpmsApp, retained: Retained.RetainedData, rxBuffer: array<bv8>, spiRc: int, now: u32)
    returns (ghost r: Reading)
    requires rxBuffer.Length == SENSOR_BUFFER_SIZE
    modifies rxBuffer, app.tpms
    ensures spiRc >= 0 && Accepted(old(rxBuffer[..])) ==>
      && Means(Shifted(old(rxBuffer[..])), r)
      && app.View() == Read(old(app.View()), r, Lifecycle.OperatingTime(retained.View(), now))
    ensures spiRc < 0 || !Accepted(old(rxBuffer[..])) ==> app.View() == old(app.View())
    ensures app.tpms.page16 == old(app.tpms.page16)
  {
    hide Accepted, Means, Shifted, Read, Lifecycle.OperatingTime;
    if spiRc < 0 {
      return Reading(0, 0, 0, 0, 0);
    }
    var err, reading := DecodeSensorBuffer(rxBuffer);
    r := reading;
    if err == SENSOR_ERROR_CHK {
      return;
    }
    ReadKeeps(app.View(), reading, Lifecycle.OperatingTime(retained.View(), now));
    app.SensorDataHandler(reading, retained, now);
  }

  /** What a display shows after a reading, once it has received the given page. */
  function Shown(a: App, page80: Payload, page81: Payload, d: AllPages, page: u8): AllPages
    requires Scheduler.Known(page)
  {
    Received(d, page, Encoded(AllPages(a.page1, a.page16, page80, page81, a.page82), page))
  }

  /** Page 82 on the display after a frame: the voltage at most 4 mV below the sensor's, the battery
      status computed from the unrounded voltage, and the operating time rounded down to even. */
  lemma FrameToPage82(a: App, f: Frame, r: Reading, time: u32, page80: Payload, page81: Payload, d: AllPages)
    requires Means(f, r)
    ensures var mv := 10 * f[3] as int + 1220;
      var shown := Shown(Read(a, r, time), page80, page81, d, Scheduler.PAGE_82).page82;
      && mv - 4 <= shown.voltageMv <= mv
      && shown.status == (if mv >= 2999 then 1 else if mv >= 2913 then 2 else if mv >= 2641 then 3
                          else if mv >= 2327 then 4 else 5)
      && shown.operatingTime == (time - time % 2) % 0x200_0000
      && shown.count == a.page82.count % 16 && shown.id == a.page82.id % 16
  {
    hide Encoded, Received, BatteryLevelPercent, RoundedVoltage, PublishedPressure, Alarms, Checksum, BatteryStatus;
    var s := Read(a, r, time);
    DisplayShowsPage(AllPages(s.page1, s.page16, page80, page81, s.page82), d, Scheduler.PAGE_82);
    VoltageError(r.voltageMv);
    StatusVoltages(r.voltageMv);
  }

  /** Page 1 on the display after a frame whose pressure code is in range: the calibration curve,
      shifted by the configured ambient pressure and cut off at 75 hPa, exactly if the shifted value
      fits; and its alarms. */
  lemma FrameToPage1(a: App, f: Frame, r: Reading, time: u32, page80: Payload, page81: Payload, d: AllPages)
    requires Means(f, r) && 256 * f[0] as int + f[1] as int <= 1971
    ensures var exact := ExactPressure(a.page16.ambient, 67 * (256 * f[0] as int + f[1] as int) / 4 - 248);
      var shown := Shown(Read(a, r, time), page80, page81, d, Scheduler.PAGE_1).page1;
      && (shown.pressure == (if exact <= 75 then 0 else exact) <==> Fits(exact))
      && (shown.pressure == 0 || 76 <= shown.pressure <= 0x7fff)
      && shown.alarms == Alarms(a.page16.alarmLow, a.page16.alarmHigh, shown.pressure)
      && shown.role == a.page1.role
  {
    hide Encoded, Received, BatteryLevelPercent, PublishedPressure, Alarms, Checksum, BatteryStatus, RoundedPage82,
      ExactPressure, Fits;
    var s := Read(a, r, time);
    PublishedPressureRange(a.page16.ambient, r.pressureHpa);
    DisplayShowsPage(AllPages(s.page1, s.page16, page80, page81, s.page82), d, Scheduler.PAGE_1);
  }

  /** The five bytes a sensor sends, one bit late and with their exclusive or, are the bytes decoded. */
  lemma SentBytesAreDecoded(stale: bool, sent: Frame, r: Reading)
    requires sent[5] == XorOfData(sent)
    ensures Accepted(OneBitLate(stale, sent))
    ensures Means(Shifted(OneBitLate(stale, sent)), r) ==>
      var word := 256 * sent[0] as int + sent[1] as int;
      && (word <= 1971 ==> r.pressureHpa == 67 * word / 4 - 248)
      && r.temperatureC == sent[2] as int - 55 - (if sent[2] as int <= 182 then 0 else 256)
      && r.voltageMv == 10 * sent[3] as int + 1220
      && r.flags == sent[4] && r.checksum == ClearLowest(sent[5])
  {
    hide Accepted, Shifted, OneBitLate, XorOfData, ClearLowest;
    LateFrameRecovered(stale, sent);
    XorIgnoresChecksum(sent, ClearLowest(sent[5]));
  }

  /** The operating time on the display is the uptime carried from earlier sessions plus this
      session's, rounded down to even and modulo 2^25. */
  lemma UptimeToDisplay(p: Lifecycle.Platform, device: Lifecycle.Device, run: seq<Lifecycle.Event>, now: u32,
                        a: App, f: Frame, r: Reading, page80: Payload, page81: Payload, d: AllPages)
    requires p.Valid() && Lifecycle.Fresh(device) && run != [] && Lifecycle.ValidRun(p, device, run) && Means(f, r)
    ensures var time := Lifecycle.OperatingTime(Lifecycle.Run(p, device, run).rec, now);
      var total := Lifecycle.Carried(run) + now;
      Shown(Read(a, r, time), page80, page81, d, Scheduler.PAGE_82).page82.operatingTime
      == (total - total % 2) % 0x200_0000
  {
    hide Lifecycle.Run, Lifecycle.OperatingTime, Lifecycle.Uptime, Lifecycle.Carried,
      Lifecycle.ValidRun, Means, Read, Shown;
    Lifecycle.ReportedUptime(p, device, run, now);
    var time := Lifecycle.OperatingTime(Lifecycle.Run(p, device, run).rec, now);
    FrameToPage82(a, f, r, time, page80, page81, d);
    RoundingIgnoresWrap(Lifecycle.Carried(run) + now);
  }

  lemma RoundingIgnoresWrap(total: nat)
    ensures RoundedTime(ToU32(total)) == (total - total % 2) % 0x200_0000
  {
    var q, t := total / 0x1_0000_0000, total % 0x1_0000_0000;
    SameParity(q, t);
    DropMultiple(128 * q, t - t % 2);
    assert total - total % 2 == 0x200_0000 * (128 * q) + (t - t % 2);
  }

  lemma SameParity(q: nat, t: nat)
    ensures (0x1_0000_0000 * q + t) % 2 == t % 2
  {
    assert 0x1_0000_0000 * q + t == 2 * (0x8000_0000 * q) + t;
  }

  lemma DropMultiple(n: nat, x: nat)
    ensures (0x200_0000 * n + x) % 0x200_0000 == x % 0x200_0000
  {
  }

  // ---- Commands from a display ----

  predicate NothingSaved(run: seq<Event>, key: string) {
    forall e :: e in run ==> !SavesKey(e, key)
  }

  lemma {:induction false} LatestEntryStays(values: Settings.Values, run: seq<Event>, more: seq<Event>, key: string)
    requires IsKey(key) && NothingSaved(more, key)
    ensures LatestEntry(values, run + more, key) == LatestEntry(values, run, key)
    decreases |more|
  {
    hide SavesKey, EntryOf, IsKey;
    if more == [] {
      assert run + more == run;
    } else {
      assert (run + more)[..|run + more| - 1] == run + more[..|more| - 1];
      assert (run + more)[|run + more| - 1] == more[|more| - 1];
      LatestEntryStays(values, run, more[..|more| - 1], key);
    }
  }

  /** After `before`, a received command, and events that save nothing at `key`, the latest entry is
      the command's. */
  lemma CommandIsLatest(values: Settings.Values, before: seq<Event>, c: Page16, saves: Saves, more: seq<Event>,
                        key: string)
    requires SavesKey(Config(c, saves), key) && NothingSaved(more, key)
    ensures IsKey(key) && LatestEntry(values, before + [Config(c, saves)] + more, key) == EntryOf(c, key)
  {
    hide SavesKey, EntryOf;
    var run := before + [Config(c, saves)];
    OnlyConfigSaves(Config(c, saves), key);
    assert run[..|run| - 1] == before && run[|run| - 1] == Config(c, saves);
    LatestEntryStays(values, run, more, key);
  }

  /** The settings that a received message commands, and that were saved, are those after a reboot,
      unless others were saved since; whatever storage held at first. */
  lemma CommandSurvivesReboot(values: Settings.Values, stack: (u8, u16), before: seq<Event>, b: Payload, saves: Saves,
                              more: seq<Event>, reboot: Event)
    requires reboot.Reboot?
    ensures var received := Config(DecodePage16(b), saves);
      var a := Run(values, stack, (before + [received] + more) + [reboot]);
      && (b[0] / 16 % 2 == 1 && saves.role && NothingSaved(more, "role") ==>
            a.page1.role == a.page16.role == b[0] % 16)
      && (b[0] / 64 % 2 == 1 && saves.alarmLow && NothingSaved(more, "alL") ==>
            a.page16.alarmLow == b[3] as int + 256 * b[4] as int)
      && (b[0] / 128 == 1 && saves.alarmHigh && NothingSaved(more, "alH") ==>
            a.page16.alarmHigh == b[5] as int + 256 * b[6] as int)
  {
    hide DecodePage16, Run, LatestEntry, EntryOf, SavesKey, NothingSaved;
    var c := DecodePage16(b);
    var e := Config(c, saves);
    PayloadEntries(b, saves);
    RebootRestores(values, stack, before + [e] + more, reboot);
    if SavesKey(e, "role") && NothingSaved(more, "role") {
      CommandIsLatest(values, before, c, saves, more, "role");
    }
    if SavesKey(e, "alL") && NothingSaved(more, "alL") {
      CommandIsLatest(values, before, c, saves, more, "alL");
    }
    if SavesKey(e, "alH") && NothingSaved(more, "alH") {
      CommandIsLatest(values, before, c, saves, more, "alH");
    }
  }

  /** What a received payload saves, from its bytes. */
  lemma PayloadEntries(b: Payload, s: Saves)
    ensures var c := DecodePage16(b);
      && (SavesKey(Config(c, s), "role") <==> b[0] / 16 % 2 == 1 && s.role)
      && (SavesKey(Config(c, s), "alL") <==> b[0] / 64 % 2 == 1 && s.alarmLow)
      && (SavesKey(Config(c, s), "alH") <==> b[0] / 128 == 1 && s.alarmHigh)
      && EntryOf(c, "role") == [b[0] % 16] && EntryOf(c, "alL") == [b[3], b[4]] && EntryOf(c, "alH") == [b[5], b[6]]
  {
    hide SavesKey, EntryOf;
    SavedEntries(DecodePage16(b), s, "");
    CommandBits(b[0]);
    WordBytesOf(b[3], b[4]);
    WordBytesOf(b[5], b[6]);
  }

  /** In every state of every run with four-bit roles a display shows the configuration without loss. */
  lemma ConfigurationShown(values: Settings.Values, stack: (u8, u16), run: seq<Event>,
                           page80: Payload, page81: Payload, d: AllPages)
    requires FourBitRoles(values, stack, run)
    ensures var a := Run(values, stack, run);
      Shown(a, page80, page81, d, Scheduler.PAGE_16) == d.(page16 := a.page16)
  {
    hide Run, Encoded, Received, FourBitRoles, RoundedPage82;
    var a := Run(values, stack, run);
    RolesFit(values, stack, run);
    RolesAgree(values, stack, run);
    DisplayShowsPage(AllPages(a.page1, a.page16, page80, page81, a.page82), d, Scheduler.PAGE_16);
  }

  const FF := 0xFF

  /** What any payload of page 16 does when it is received, from the bits of its first byte: 16 sets the
      role, 32 the ambient pressure, 64 and 128 the low and the high threshold, of which all but the
      ambient pressure are saved. A first byte below 16 resets if all others are ones, and else does nothing. */
  lemma PayloadConfigures(a: App, b: Payload, s: Saves)
    ensures var after := Configured(a, DecodePage16(b), s);
      && after.page16 ==
        (if b[0] < 16 && b[1..] == [FF, FF, FF, FF, FF, FF] then Page16(0, 0, 1013, 0xffff, 0xffff)
         else Page16(a.page16.command,
                     if b[0] / 16 % 2 == 1 then b[0] % 16 else a.page16.role,
                     if b[0] / 32 % 2 == 1 then b[1] as int + 256 * b[2] as int else a.page16.ambient,
                     if b[0] / 64 % 2 == 1 then b[3] as int + 256 * b[4] as int else a.page16.alarmLow,
                     if b[0] / 128 == 1 then b[5] as int + 256 * b[6] as int else a.page16.alarmHigh))
      && EntryIs(a.values, after.values, "role", b[0] / 16 % 2 == 1 && s.role, [b[0] % 16])
      && EntryIs(a.values, after.values, "alL", b[0] / 64 % 2 == 1 && s.alarmLow, [b[3], b[4]])
      && EntryIs(a.values, after.values, "alH", b[0] / 128 == 1 && s.alarmHigh, [b[5], b[6]])
  {
    hide Configured;
    var c := DecodePage16(b);
    CommandBits(b[0]);
    WordBytesOf(b[1], b[2]);
    WordBytesOf(b[3], b[4]);
    WordBytesOf(b[5], b[6]);
    ConfigChangesExactly(a, c, s);
    ConfigStoresExactly(a, c, s, "");
  }

  lemma CommandBits(b: u8)
    ensures b / 16 / 2 % 2 == b / 32 % 2 && b / 16 / 4 % 2 == b / 64 % 2 && b / 16 / 8 % 2 == b / 128
    ensures b / 16 == 0 <==> b < 16
  {
  }

  lemma WordBytesOf(low: u8, high: u8)
    ensures var v := low as int + 256 * high as int;
      v % 256 == low && v / 256 == high && (v == 0xffff <==> low == FF && high == FF)
  {
  }

  /** A display sets one threshold, to any value, with first byte 64 or 128 plus a role that is ignored. */
  lemma ThresholdCommands(a: App, role: nat, low: u8, high: u8, s: Saves)
    requires role < 16
    ensures Configured(a, DecodePage16([0x40 + role, FF, FF, low, high, FF, FF]), s)
         == a.(page1 := a.page1.(role := a.page16.role),
               page16 := a.page16.(alarmLow := low as int + 256 * high as int),
               values := if s.alarmLow then a.values["alL" := [low, high]] else a.values)
    ensures Configured(a, DecodePage16([0x80 + role, FF, FF, FF, FF, low, high]), s)
         == a.(page1 := a.page1.(role := a.page16.role),
               page16 := a.page16.(alarmHigh := low as int + 256 * high as int),
               values := if s.alarmHigh then a.values["alH" := [low, high]] else a.values)
  {
    hide Le;
    var v := low as int + 256 * high as int;
    WordBytesOf(low, high);
    LeOfWord(v);
    Nibbles(role, 4);
    Nibbles(role, 8);
    assert DecodePage16([0x40 + role, FF, FF, low, high, FF, FF]) == Page16(4, role, 0xffff, v, 0xffff);
    assert DecodePage16([0x80 + role, FF, FF, FF, FF, low, high]) == Page16(8, role, 0xffff, 0xffff, v);
  }

  /** The messages that doc/ANT_TPMS_profile.md lists, by the code: the first two set the role and the
      last resets, but the one said to set an alarm sets role and ambient pressure and no alarm. */
  lemma DocumentedMessages(a: App, s: Saves)
    ensures Configured(a, DecodePage16([0x11, FF, FF, FF, FF, FF, FF]), s).page16 == a.page16.(role := 1)
    ensures Configured(a, DecodePage16([0x12, FF, FF, FF, FF, FF, FF]), s).page16 == a.page16.(role := 2)
    ensures Configured(a, DecodePage16([0x30, FF, FF, 0xF5, 0x03, FF, FF]), s).page16
         == a.page16.(role := 0, ambient := 0xffff)
    ensures Configured(a, DecodePage16([0x00, FF, FF, FF, FF, FF, FF]), s).page16
         == Page16(0, 0, 1013, 0xffff, 0xffff)
  {
    hide Configured, DecodePage16;
    PayloadConfigures(a, [0x11, FF, FF, FF, FF, FF, FF], s);
    PayloadConfigures(a, [0x12, FF, FF, FF, FF, FF, FF], s);
    PayloadConfigures(a, [0x30, FF, FF, 0xF5, 0x03, FF, FF], s);
    PayloadConfigures(a, [0x00, FF, FF, FF, FF, FF, FF], s);
  }
}
