/** The speaker configuration, its validator and its JSON form: src/config/SpeakerConfig.h,
    ConfigValidator.cpp, DefaultConfig.cpp and ConfigSerialization.h. */
module Configs {
  import opened Options
  import opened Jsons

  datatype DeviceConfig = DeviceConfig(deviceId: string, name: string, serialNumber: string, model: string,
                                       hardwareVersion: string, softwareVersion: string)

  datatype PairingConfig = PairingConfig(paired: bool, streamerId: string, streamerPublicKey: string)

  datatype NetworkConfig = NetworkConfig(wifiConfigured: bool, connectionMode: string)

  datatype AudioConfig = AudioConfig(volume: Int32, muted: bool, delayMs: Int32, eqProfile: string,
                                     gainDb: Double, phaseInvert: bool, outputDevice: string, inputDevice: string)

  datatype SystemConfig = SystemConfig(autoUpdate: bool, logLevel: string)

  datatype Config = Config(schemaVersion: Int32, device: DeviceConfig, pairing: PairingConfig,
                           network: NetworkConfig, audio: AudioConfig, system: SystemConfig)

  // Member defaults of the structs, used for absent keys.
  const DEVICE := DeviceConfig("", "", "", "", "", "1.0.0")
  const PAIRING := PairingConfig(false, "", "")
  const NETWORK := NetworkConfig(false, "wifi")
  const AUDIO := AudioConfig(30, true, 0, "default", ZERO, false, "default", "default")
  const SYSTEM := SystemConfig(true, "info")

  const DEFAULTS :=
    Config(1, DEVICE.(model := "NEXUS-SPEAKER-3", hardwareVersion := "1.0"), PAIRING, NETWORK, AUDIO, SYSTEM)

  predicate Valid(c: Config) {
    && c.schemaVersion == 1
    && 0 <= c.audio.volume <= 100
    && c.audio.delayMs >= 0
    && c.audio.eqProfile != ""
    && (c.network.connectionMode == "wifi" || c.network.connectionMode == "ethernet")
    && c.system.logLevel in {"debug", "info", "warning", "error", "critical"}
    && (c.pairing.paired ==> c.pairing.streamerId != "")
  }

  // ------------------------------------------------------------- JSON

  function DeviceToJson(d: DeviceConfig): Json {
    Object(map["device_id" := Str(d.deviceId), "serial_number" := Str(d.serialNumber),
               "model" := Str(d.model), "hardware_version" := Str(d.hardwareVersion),
               "software_version" := Str(d.softwareVersion)])
  }

  function DeviceFromJson(j: Json): Option<DeviceConfig> {
    var id := TextOr(j, "device_id", DEVICE.deviceId);
    var serial := TextOr(j, "serial_number", DEVICE.serialNumber);
    var model := TextOr(j, "model", DEVICE.model);
    var hardware := TextOr(j, "hardware_version", DEVICE.hardwareVersion);
    var software := TextOr(j, "software_version", DEVICE.softwareVersion);
    if id.None? || serial.None? || model.None? || hardware.None? || software.None? then None
    else Some(DeviceConfig(id.value, DEVICE.name, serial.value, model.value, hardware.value, software.value))
  }

  function PairingToJson(p: PairingConfig): Json {
    Object(map["paired" := Bool(p.paired), "streamer_id" := Str(p.streamerId),
               "streamer_public_key" := Str(p.streamerPublicKey)])
  }

  function PairingFromJson(j: Json): Option<PairingConfig> {
    var paired := BoolOr(j, "paired", PAIRING.paired);
    var id := TextOr(j, "streamer_id", PAIRING.streamerId);
    var key := TextOr(j, "streamer_public_key", PAIRING.streamerPublicKey);
    if paired.None? || id.None? || key.None? then None
    else Some(PairingConfig(paired.value, id.value, key.value))
  }

  function NetworkToJson(n: NetworkConfig): Json {
    Object(map["wifi_configured" := Bool(n.wifiConfigured), "connection_mode" := Str(n.connectionMode)])
  }

  function NetworkFromJson(j: Json): Option<NetworkConfig> {
    var wifi := BoolOr(j, "wifi_configured", NETWORK.wifiConfigured);
    var mode := TextOr(j, "connection_mode", NETWORK.connectionMode);
    if wifi.None? || mode.None? then None else Some(NetworkConfig(wifi.value, mode.value))
  }

  function AudioToJson(a: AudioConfig): Json {
    Object(map["volume" := Int(a.volume), "muted" := Bool(a.muted), "delay_ms" := Int(a.delayMs),
               "eq_profile" := Str(a.eqProfile), "gain_db" := Float(a.gainDb),
               "phase_invert" := Bool(a.phaseInvert), "output_device" := Str(a.outputDevice),
               "input_device" := Str(a.inputDevice)])
  }

  function AudioFromJson(j: Json, nearest: Number -> Double): Option<AudioConfig> {
    var volume := Int32Or(j, "volume", AUDIO.volume);
    var muted := BoolOr(j, "muted", AUDIO.muted);
    var delay := Int32Or(j, "delay_ms", AUDIO.delayMs);
    var eq := TextOr(j, "eq_profile", AUDIO.eqProfile);
    var gain := DoubleOr(j, "gain_db", AUDIO.gainDb, nearest);
    var phase := BoolOr(j, "phase_invert", AUDIO.phaseInvert);
    var output := TextOr(j, "output_device", AUDIO.outputDevice);
    var input := TextOr(j, "input_device", AUDIO.inputDevice);
    if volume.None? || muted.None? || delay.None? || eq.None? || gain.None? || phase.None?
       || output.None? || input.None? then None
    else Some(AudioConfig(volume.value, muted.value, delay.value, eq.value, gain.value, phase.value,
                          output.value, input.value))
  }

  function SystemToJson(s: SystemConfig): Json {
    Object(map["auto_update" := Bool(s.autoUpdate), "log_level" := Str(s.logLevel)])
  }

  function SystemFromJson(j: Json): Option<SystemConfig> {
    var update := BoolOr(j, "auto_update", SYSTEM.autoUpdate);
    var level := TextOr(j, "log_level", SYSTEM.logLevel);
    if update.None? || level.None? then None else Some(SystemConfig(update.value, level.value))
  }

  function ToJson(c: Config): Json {
    Object(map["schema_version" := Int(c.schemaVersion), "device" := DeviceToJson(c.device),
               "pairing" := PairingToJson(c.pairing), "network" := NetworkToJson(c.network),
               "audio" := AudioToJson(c.audio), "system" := SystemToJson(c.system)])
  }

  /** A section: its default when absent, the conversion of the value otherwise. */
  function Section<T>(j: Json, key: string, default: T, convert: Json -> Option<T>): Option<T>
    requires j.Object?
  {
    if key in j.members then convert(j.members[key]) else Some(default)
  }

  /** None stands for the exception of a wrongly typed value. */
  function FromJson(j: Json, nearest: Number -> Double): Option<Config> {
    var version := Int32Or(j, "schema_version", 1);
    if version.None? then None
    else
      var device := Section(j, "device", DEVICE, DeviceFromJson);
      var pairing := Section(j, "pairing", PAIRING, PairingFromJson);
      var network := Section(j, "network", NETWORK, NetworkFromJson);
      var audio := Section(j, "audio", AUDIO, a => AudioFromJson(a, nearest));
      var system := Section(j, "system", SYSTEM, SystemFromJson);
      if device.None? || pairing.None? || network.None? || audio.None? || system.None? then None
      else Some(Config(version.value, device.value, pairing.value, network.value, audio.value, system.value))
  }

  /** What of a config survives the disk: all but the device's display name. */
  function Stored(c: Config): Config {
    c.(device := c.device.(name := ""))
  }

  lemma JsonRoundTrip(c: Config, nearest: Number -> Double)
    ensures FromJson(ToJson(c), nearest) == Some(Stored(c))
    ensures Valid(Stored(c)) <==> Valid(c)
  {
    DeviceRoundTrip(c.device);
    SmallRoundTrips(c.pairing, c.network, c.system);
    AudioRoundTrip(c.audio, nearest);
    ToInt32Same(c.schemaVersion);
    FirstSections(c);
    LastSections(c);
  }

  /** Each section is found under its own key. */
  lemma FirstSections(c: Config)
    ensures var m := ToJson(c).members;
            && "schema_version" in m && m["schema_version"] == Int(c.schemaVersion)
            && "device" in m && m["device"] == DeviceToJson(c.device)
            && "pairing" in m && m["pairing"] == PairingToJson(c.pairing)
  {
  }

  lemma LastSections(c: Config)
    ensures var m := ToJson(c).members;
            && "network" in m && m["network"] == NetworkToJson(c.network)
            && "audio" in m && m["audio"] == AudioToJson(c.audio)
            && "system" in m && m["system"] == SystemToJson(c.system)
  {
  }

  lemma DeviceRoundTrip(d: DeviceConfig)
    ensures DeviceFromJson(DeviceToJson(d)) == Some(d.(name := ""))
  {
  }

  lemma SmallRoundTrips(p: PairingConfig, n: NetworkConfig, s: SystemConfig)
    ensures PairingFromJson(PairingToJson(p)) == Some(p)
    ensures NetworkFromJson(NetworkToJson(n)) == Some(n)
    ensures SystemFromJson(SystemToJson(s)) == Some(s)
  {
  }

  lemma AudioRoundTrip(a: AudioConfig, nearest: Number -> Double)
    ensures AudioFromJson(AudioToJson(a), nearest) == Some(a)
  {
    ToInt32Same(a.volume);
    ToInt32Same(a.delayMs);
    Levels(a);
    Names(a);
  }

  lemma Levels(a: AudioConfig)
    ensures var m := AudioToJson(a).members;
            && "volume" in m && m["volume"] == Int(a.volume)
            && "muted" in m && m["muted"] == Bool(a.muted)
            && "delay_ms" in m && m["delay_ms"] == Int(a.delayMs)
            && "gain_db" in m && m["gain_db"] == Float(a.gainDb)
  {
  }

  lemma Names(a: AudioConfig)
    ensures var m := AudioToJson(a).members;
            && "eq_profile" in m && m["eq_profile"] == Str(a.eqProfile)
            && "phase_invert" in m && m["phase_invert"] == Bool(a.phaseInvert)
            && "output_device" in m && m["output_device"] == Str(a.outputDevice)
            && "input_device" in m && m["input_device"] == Str(a.inputDevice)
  {
  }
}

/** Loading and saving the configuration: src/config/ConfigManager.cpp. */
module ConfigManagers {
  import opened Options
  import opened Jsons
  import opened Configs
  import opened AtomicFiles

  datatype Status = Success | ValidationFailed | WriteFailed | Corrupt

  function Text(c: Config, codec: Codec): string {
    codec.dump(ToJson(c))
  }

  /** tryParse: the config in a file, if it parses, converts and validates. */
  function ReadConfig(f: Option<File>, codec: Codec): Option<Config> {
    if f.None? then None
    else
      var j := codec.parse(f.value.text);
      if j.None? then None
      else
        var c := FromJson(j.value, codec.nearest);
        if c.None? || !Valid(c.value) then None else c
  }

  lemma ReadBack(c: Config, codec: Codec, synced: bool)
    requires codec.RoundTrips() && Valid(c)
    ensures ReadConfig(Some(File(Text(c, codec), synced)), codec) == Some(Stored(c))
  {
    JsonRoundTrip(c, codec.nearest);
    assert codec.parse(codec.dump(ToJson(c))) == Some(ToJson(c));
  }

  /** The disk surely holds this config: synced, and no older file can come back. */
  predicate Settled(d: Disk, c: Config, codec: Codec) {
    d.primary == Some(File(Text(c, codec), true)) && d.earlier == {}
  }

  /** Every file that is or may come back as primary is a whole, synced, valid config of `cs`; if
      `absent`, there may also be none. */
  ghost predicate HoldsOneOf(d: Disk, cs: set<Config>, absent: bool, codec: Codec) {
    forall f :: f in d.earlier + {d.primary} ==> HoldsFrom(f, cs, absent, codec)
  }

  ghost predicate HoldsFrom(f: Option<File>, cs: set<Config>, absent: bool, codec: Codec) {
    if f.None? then absent else exists c :: c in cs && Holds(f, c, codec)
  }

  predicate Holds(f: Option<File>, c: Config, codec: Codec) {
    Configs.Valid(c) && f == Some(File(Text(c, codec), true))
  }

  lemma MoreHolds(f: Option<File>, cs: set<Config>, more: set<Config>, absent: bool, codec: Codec)
    requires HoldsFrom(f, cs, absent, codec)
    ensures HoldsFrom(f, cs + more, absent, codec)
  {
    if f.Some? {
      var c :| c in cs && Holds(f, c, codec);
      assert c in cs + more;
    }
  }

  /** Any disk a write of `after` passes through holds a config of the old set, or `after`. */
  lemma WriteHolds(d: Disk, s: Disk, cs: set<Config>, absent: bool, after: Config, codec: Codec)
    requires Configs.Valid(after)
    requires HoldsOneOf(d, cs, absent, codec) && During(s, d, Text(after, codec))
    ensures HoldsOneOf(s, cs + {after}, absent, codec)
  {
    forall f | f in s.earlier + {s.primary}
      ensures HoldsFrom(f, cs + {after}, absent, codec)
    {
      if f in d.earlier + {d.primary} {
        MoreHolds(f, cs, {after}, absent, codec);
      } else {
        assert after in cs + {after} && Holds(f, after, codec);
      }
    }
  }

  /** A crash keeps that, and what is then read back is one of those configs, whole; or there is none,
      where that was possible. */
  lemma CrashHolds(d: Disk, e: Disk, cs: set<Config>, absent: bool, codec: Codec)
    requires codec.RoundTrips()
    requires HoldsOneOf(d, cs, absent, codec) && CrashesTo(d, e)
    ensures HoldsOneOf(e, cs, absent, codec)
    ensures ReadsOneOf(e.primary, cs, codec) || (absent && e.primary.None?)
  {
    var f :| f in d.earlier + {d.primary} && Survives(f, e.primary);
    assert HoldsFrom(f, cs, absent, codec);
    assert e.primary == f && e.earlier + {e.primary} == {f};
    if f.Some? {
      HeldIsRead(f, cs, codec);
    }
  }

  ghost predicate ReadsOneOf(f: Option<File>, cs: set<Config>, codec: Codec) {
    exists c :: c in cs && ReadConfig(f, codec) == Some(Stored(c))
  }

  lemma HeldIsRead(f: Option<File>, cs: set<Config>, codec: Codec)
    requires codec.RoundTrips() && HoldsFrom(f, cs, false, codec)
    ensures ReadsOneOf(f, cs, codec)
  {
    var c :| c in cs && Holds(f, c, codec);
    ReadBack(c, codec, true);
  }

  /** Everything the disk may show after a crash reads as one of the two configs. */
  predicate SurelyEither(f: Option<File>, before: Config, after: Config, codec: Codec) {
    f.Some? && f.value.synced && ReadConfig(f, codec) in {Some(Stored(before)), Some(Stored(after))}
  }

  /** Whatever may be the primary now or come back as it reads as one of the two. */
  predicate AllEither(d: Disk, before: Config, after: Config, codec: Codec) {
    forall f :: f in d.earlier + {d.primary} ==> SurelyEither(f, before, after, codec)
  }

  ghost predicate OldOrNewAfterCrash(d: Disk, before: Config, after: Config, codec: Codec) {
    forall s, e :: During(s, d, Text(after, codec)) && CrashesTo(s, e) ==>
      ReadConfig(e.primary, codec) in {Some(Stored(before)), Some(Stored(after))}
  }

  /** A crash at any point of a write of `after` leaves the whole old or the whole new config if and
      only if every file that may be, or come back as, the primary when the write begins is synced
      and reads as one of the two. */
  lemma OldOrNewIff(d: Disk, before: Config, after: Config, codec: Codec)
    requires codec.RoundTrips() && Configs.Valid(after)
    ensures OldOrNewAfterCrash(d, before, after, codec) <==> AllEither(d, before, after, codec)
  {
    if OldOrNewAfterCrash(d, before, after, codec) {
      forall f | f in d.earlier + {d.primary}
        ensures SurelyEither(f, before, after, codec)
      {
        MustBeEither(d, f, before, after, codec);
      }
    }
    if AllEither(d, before, after, codec) {
      forall s, e | During(s, d, Text(after, codec)) && CrashesTo(s, e)
        ensures ReadConfig(e.primary, codec) in {Some(Stored(before)), Some(Stored(after))}
      {
        var f :| f in s.earlier + {s.primary} && Survives(f, e.primary);
        assert f in d.earlier + {d.primary} ==> SurelyEither(f, before, after, codec);
        EitherShows(f, e.primary, before, after, codec);
      }
    }
  }

  /** Whichever file comes back. */
  lemma EitherShows(f: Option<File>, shown: Option<File>, before: Config, after: Config, codec: Codec)
    requires codec.RoundTrips() && Configs.Valid(after) && Survives(f, shown)
    requires SurelyEither(f, before, after, codec) || f == Some(File(Text(after, codec), true))
    ensures ReadConfig(shown, codec) in {Some(Stored(before)), Some(Stored(after))}
  {
    assert shown == f;
    ReadBack(after, codec, true);
  }

  /** A config that differs from two others after the disk. */
  lemma ThirdConfig(before: Config, after: Config) returns (c: Config)
    ensures Configs.Valid(c) && Stored(c) != Stored(before) && Stored(c) != Stored(after)
  {
    var one, two, three := DEFAULTS, DEFAULTS.(audio := AUDIO.(volume := 31)), DEFAULTS.(audio := AUDIO.(volume := 32));
    assert one.audio.volume != two.audio.volume && two.audio.volume != three.audio.volume;
    c := if Stored(one) !in {Stored(before), Stored(after)} then one
         else if Stored(two) !in {Stored(before), Stored(after)} then two else three;
  }

  /** Otherwise a crash before the first step shows something else. */
  lemma MustBeEither(d: Disk, f: Option<File>, before: Config, after: Config, codec: Codec)
    requires codec.RoundTrips() && f in d.earlier + {d.primary}
    requires OldOrNewAfterCrash(d, before, after, codec)
    ensures SurelyEither(f, before, after, codec)
  {
    var c := ThirdConfig(before, after);
    var shown := match f
      case None => None
      case Some(x) => Some(File(if x.synced then x.text else Text(c, codec), true));
    assert ReadConfig(shown, codec) in {Some(Stored(before)), Some(Stored(after))} by {
      var e := Disk(shown, {}, None, None, None);
      assert During(d, d, Text(after, codec)) && Survives(f, e.primary) && CrashesTo(d, e);
    }
    assert f.Some? && !f.value.synced ==> ReadConfig(shown, codec) == Some(Stored(c)) by {
      ReadBack(c, codec, true);
    }
  }

  /** In particular from a disk that surely holds `before`. */
  lemma CrashLeavesOldOrNew(d: Disk, before: Config, after: Config, codec: Codec)
    requires codec.RoundTrips() && Configs.Valid(before) && Configs.Valid(after)
    requires Settled(d, before, codec)
    ensures OldOrNewAfterCrash(d, before, after, codec)
  {
    ReadBack(before, codec, true);
    OldOrNewIff(d, before, after, codec);
  }

  /** But not after an update whose directory sync failed, although it reported success: the config
      before that one may come back. */
  lemma UnsyncedDirectoryBreaksIt(d: Disk, oldest: Config, before: Config, after: Config, codec: Codec)
    requires codec.RoundTrips() && Configs.Valid(oldest) && Configs.Valid(before) && Configs.Valid(after)
    requires d.primary == Some(File(Text(before, codec), true)) && d.earlier == {Some(File(Text(oldest, codec), true))}
    ensures OldOrNewAfterCrash(d, before, after, codec) <==> Stored(oldest) in {Stored(before), Stored(after)}
  {
    var f, g := Some(File(Text(oldest, codec), true)), Some(File(Text(before, codec), true));
    assert SurelyEither(f, before, after, codec) <==> Stored(oldest) in {Stored(before), Stored(after)} by {
      ReadBack(oldest, codec, true);
    }
    assert SurelyEither(g, before, after, codec) by {
      ReadBack(before, codec, true);
    }
    assert d.earlier + {d.primary} == {f, g};
    OldOrNewIff(d, before, after, codec);
  }

  /** Once a write has succeeded and the directory is synced, a crash changes nothing. */
  lemma SettledSurvives(d: Disk, e: Disk, c: Config, codec: Codec)
    requires codec.RoundTrips() && Configs.Valid(c)
    requires Settled(d, c, codec) && CrashesTo(d, e)
    ensures Settled(e, c, codec) && ReadConfig(e.primary, codec) == Some(Stored(c))
  {
    ReadBack(c, codec, true);
  }

  /** How saving c ends: refused when invalid; the backup copy, whose answer is ignored, uses one reply. */
  function Saving(d: Disk, script: seq<int>, c: Config, codec: Codec): Outcome {
    if !Configs.Valid(c) then Failed
    else WriteOutcome(if d.primary.Some? then Tail(script) else script, |Text(c, codec)|)
  }

  /** The primary, and what may come back in its place, after saving ends so. */
  predicate Saved(d: Disk, e: Disk, outcome: Outcome, c: Config, codec: Codec) {
    match outcome
    case Failed => e.primary == d.primary && e.earlier == d.earlier
    case Undurable => e.primary == Some(File(Text(c, codec), true)) && e.earlier == d.earlier + {d.primary}
    case Durable => Settled(e, c, codec)
  }

  lemma WillingSaves(script: seq<int>, n: nat)
    ensures Willing(script, n + 6) ==> WriteOutcome(script, n) == Durable
    ensures Willing(script, n + 6) ==> WriteOutcome(Tail(script), n) == Durable
    ensures Willing(script, n + 6) ==> WriteOutcome(Tail(Tail(script)), n) == Durable
  {
    if Willing(script, n + 6) {
      assert Willing(script, n + 4) && Willing(Tail(script), n + 4) && Willing(Tail(Tail(script)), n + 4);
      WillingIsDurable(script, n);
      WillingIsDurable(Tail(script), n);
      WillingIsDurable(Tail(Tail(script)), n);
    }
  }

  // ------------------------------------------------------------- histories

  /** A speaker: its disk and, while it runs, the config in memory. */
  datatype Device = Device(disk: Disk, memory: Option<Config>)

  datatype Happening =
    | Updating(candidate: Config)              // an update or a reset, returning
    | CrashWhileUpdating(candidate: Config)
    | Crashing
    | Loading
    | CrashWhileLoading

  predicate UpdateStep(a: Device, b: Device, c: Config, codec: Codec) {
    && a.memory.Some? && b.memory.Some?
    && (|| (b.memory == a.memory && b.disk.primary == a.disk.primary && b.disk.earlier == a.disk.earlier)
        || (Configs.Valid(c) && b.memory == Some(c) && During(b.disk, a.disk, Text(c, codec))
            && b.disk.primary == Some(File(Text(c, codec), true))))
  }

  /** A disk that loading passes through: an absent file is seeded with the defaults, a readable one is
      left alone. Recovery of an unreadable one is not told here. */
  predicate WhileLoading(s: Disk, d: Disk, codec: Codec) {
    && (d.primary.None? ==> During(s, d, Text(DEFAULTS, codec)))
    && (ReadConfig(d.primary, codec).Some? ==> s == d)
  }

  predicate LoadStep(a: Device, b: Device, codec: Codec) {
    && b.memory.Some? && Configs.Valid(b.memory.value) && WhileLoading(b.disk, a.disk, codec)
    && (a.disk.primary.None? ==> b.memory == Some(DEFAULTS))
    && (ReadConfig(a.disk.primary, codec).Some? ==> b.memory == ReadConfig(a.disk.primary, codec))
  }

  ghost predicate Happens(a: Device, b: Device, h: Happening, codec: Codec) {
    match h
    case Updating(c) => UpdateStep(a, b, c, codec)
    case CrashWhileUpdating(c) =>
      && b.memory.None? && Configs.Valid(c)
      && exists s :: During(s, a.disk, Text(c, codec)) && CrashesTo(s, b.disk)
    case Crashing => b.memory.None? && CrashesTo(a.disk, b.disk)
    case Loading => LoadStep(a, b, codec)
    case CrashWhileLoading =>
      b.memory.None? && exists s :: WhileLoading(s, a.disk, codec) && CrashesTo(s, b.disk)
  }

  ghost predicate IsHistory(ds: seq<Device>, hs: seq<Happening>, codec: Codec) {
    |ds| == |hs| + 1 && forall k :: 0 <= k < |hs| ==> Happens(ds[k], ds[k + 1], hs[k], codec)
  }

  /** What a happening may save. */
  function Offers(h: Happening): set<Config> {
    match h
    case Updating(c) => {c}
    case CrashWhileUpdating(c) => {c}
    case _ => {}
  }

  /** The configs of cs and those that the first k happenings tried to save. */
  function Offered(cs: set<Config>, hs: seq<Happening>, k: nat): set<Config>
    requires k <= |hs|
  {
    if k == 0 then cs else Offered(cs, hs, k - 1) + Offers(hs[k - 1])
  }

  /** The disk holds one of these configs, or none as far as that is allowed; the defaults, which are
      seeded then, count among them. */
  ghost predicate Sane(d: Device, cs: set<Config>, absent: bool, codec: Codec) {
    && HoldsOneOf(d.disk, cs, absent, codec) && (d.memory.Some? ==> Configs.Valid(d.memory.value))
    && (absent ==> DEFAULTS in cs)
  }

  lemma MoreConfigs(d: Disk, cs: set<Config>, more: set<Config>, absent: bool, codec: Codec)
    requires HoldsOneOf(d, cs, absent, codec)
    ensures HoldsOneOf(d, cs + more, absent, codec)
  {
    forall f | f in d.earlier + {d.primary}
      ensures HoldsFrom(f, cs + more, absent, codec)
    {
      MoreHolds(f, cs, more, absent, codec);
    }
  }

  /** Loading passes only through disks that hold one of the same configs. */
  lemma LoadHolds(d: Disk, s: Disk, cs: set<Config>, absent: bool, codec: Codec)
    requires codec.RoundTrips() && HoldsOneOf(d, cs, absent, codec) && (absent ==> DEFAULTS in cs)
    requires WhileLoading(s, d, codec)
    ensures HoldsOneOf(s, cs, absent, codec)
    ensures d.primary.None? || ReadsOneOf(d.primary, cs, codec)
  {
    assert HoldsFrom(d.primary, cs, absent, codec);
    if d.primary.None? {
      WriteHolds(d, s, cs, absent, DEFAULTS, codec);
      assert cs + {DEFAULTS} == cs;
    } else {
      HeldIsRead(d.primary, cs, codec);
    }
  }

  ghost predicate LoadedOneOf(d: Device, cs: set<Config>) {
    exists c :: c in cs && d.memory == Some(Stored(c))
  }

  lemma LoadingYields(a: Device, b: Device, cs: set<Config>, absent: bool, codec: Codec)
    requires codec.RoundTrips() && Sane(a, cs, absent, codec) && LoadStep(a, b, codec)
    ensures HoldsOneOf(b.disk, cs, absent, codec) && LoadedOneOf(b, cs)
  {
    LoadHolds(a.disk, b.disk, cs, absent, codec);
    if a.disk.primary.None? {
      assert HoldsFrom(a.disk.primary, cs, absent, codec);
      assert DEFAULTS in cs && Stored(DEFAULTS) == DEFAULTS;
    } else {
      var c :| c in cs && ReadConfig(a.disk.primary, codec) == Some(Stored(c));
    }
  }

  lemma HappeningKeepsSane(a: Device, b: Device, h: Happening, cs: set<Config>, absent: bool, codec: Codec)
    requires codec.RoundTrips() && Sane(a, cs, absent, codec) && Happens(a, b, h, codec)
    ensures Sane(b, cs + Offers(h), absent, codec)
    ensures h.Loading? ==> LoadedOneOf(b, cs)
  {
    match h
    case Updating(c) =>
      if b.memory == a.memory && b.disk.primary == a.disk.primary && b.disk.earlier == a.disk.earlier {
        MoreConfigs(a.disk, cs, {c}, absent, codec);
      } else {
        WriteHolds(a.disk, b.disk, cs, absent, c, codec);
      }
    case CrashWhileUpdating(c) =>
      var s :| During(s, a.disk, Text(c, codec)) && CrashesTo(s, b.disk);
      WriteHolds(a.disk, s, cs, absent, c, codec);
      CrashHolds(s, b.disk, cs + {c}, absent, codec);
    case Crashing =>
      CrashHolds(a.disk, b.disk, cs, absent, codec);
      MoreConfigs(b.disk, cs, {}, absent, codec);
    case Loading =>
      LoadingYields(a, b, cs, absent, codec);
      MoreConfigs(b.disk, cs, {}, absent, codec);
    case CrashWhileLoading =>
      var s :| WhileLoading(s, a.disk, codec) && CrashesTo(s, b.disk);
      LoadHolds(a.disk, s, cs, absent, codec);
      CrashHolds(s, b.disk, cs, absent, codec);
      MoreConfigs(b.disk, cs, {}, absent, codec);
  }

  /** Over every history of updates, loads and crashes at any point of either: the primary, and anything
      that may come back as primary, is a whole valid config that was offered, or is absent if that was
      possible at the start; the memory is valid; and every load yields one of those configs. */
  lemma {:induction false} HistoryHolds(ds: seq<Device>, hs: seq<Happening>, cs: set<Config>, absent: bool,
                                        codec: Codec, k: nat)
    requires codec.RoundTrips() && IsHistory(ds, hs, codec) && Sane(ds[0], cs, absent, codec) && k <= |hs|
    ensures Sane(ds[k], Offered(cs, hs, k), absent, codec)
    ensures k > 0 && hs[k - 1].Loading? ==> LoadedOneOf(ds[k], Offered(cs, hs, k - 1))
  {
    if k > 0 {
      HistoryHolds(ds, hs, cs, absent, codec, k - 1);
      assert Happens(ds[k - 1], ds[k - 1 + 1], hs[k - 1], codec);
      HappeningKeepsSane(ds[k - 1], ds[k], hs[k - 1], Offered(cs, hs, k - 1), absent, codec);
    }
  }

  const FACTORY_NEW := Device(Disk(None, {}, None, None, None), None)

  /** So from the factory on, with no file at all: every load yields the defaults or a config that was
      offered, and the file is never anything but absent or one of those, whole. */
  lemma FactoryHistory(ds: seq<Device>, hs: seq<Happening>, codec: Codec, k: nat)
    requires codec.RoundTrips() && IsHistory(ds, hs, codec) && ds[0] == FACTORY_NEW && k <= |hs|
    ensures HoldsOneOf(ds[k].disk, Offered({DEFAULTS}, hs, k), true, codec)
    ensures ds[k].memory.Some? ==> Configs.Valid(ds[k].memory.value)
    ensures k > 0 && hs[k - 1].Loading? ==> LoadedOneOf(ds[k], Offered({DEFAULTS}, hs, k - 1))
  {
    assert HoldsOneOf(ds[0].disk, {DEFAULTS}, true, codec);
    HistoryHolds(ds, hs, {DEFAULTS}, true, codec, k);
  }

  // ------------------------------------------------------------- recovery

  /** The config can still be read from the primary or the backup. */
  predicate Kept(d: Disk, c: Config, codec: Codec) {
    ReadConfig(d.primary, codec) == Some(c) || ReadConfig(d.bak, codec) == Some(c)
  }

  /** Recovering c from the backup: the corrupt primary is set aside, or its copy does not spoil the
      backup, or c is written back. */
  predicate RecoveryKeeps(d: Disk, script: seq<int>, c: Config, codec: Codec)
    requires d.primary.Some?
  {
    || Head(script) >= 0
    || ReadConfig(BackupAfter(d.primary.value.text, d.bak, Head(Tail(script))), codec) == Some(c)
    || WriteOutcome(Tail(Tail(script)), |Text(c, codec)|) != Failed
  }

  /** A copy that does nothing keeps the backup; a whole copy of an unreadable file spoils it. */
  lemma CopySpoils(d: Disk, c: Config, r: int, codec: Codec)
    requires d.primary.Some? && ReadConfig(d.primary, codec).None? && ReadConfig(d.bak, codec) == Some(c)
    ensures var after := ReadConfig(BackupAfter(d.primary.value.text, d.bak, r), codec);
            (r == -1 ==> after == Some(c)) && (r >= 0 ==> after.None?)
  {
  }

  lemma ReadIsStored(f: Option<File>, codec: Codec)
    ensures ReadConfig(f, codec).Some? ==> Stored(ReadConfig(f, codec).value) == ReadConfig(f, codec).value
  {
  }

  class ConfigManager {
    const fs: FileSystem
    const codec: Codec
    var config: Config

    ghost predicate Ok()
      reads this
    {
      Configs.Valid(config) && codec.RoundTrips()
    }

    constructor (fs: FileSystem, codec: Codec)
      requires codec.RoundTrips()
      ensures this.fs == fs && this.codec == codec && Ok() && config == DEFAULTS
    {
      this.fs, this.codec, config := fs, codec, DEFAULTS;
    }

    method Persist(c: Config) returns (status: Status)
      modifies fs
      ensures status in {Success, ValidationFailed, WriteFailed}
      ensures status == ValidationFailed <==> !Configs.Valid(c)
      ensures status == ValidationFailed ==> fs.disk == old(fs.disk) && fs.trace == old(fs.trace)
      ensures status == Success <==> Saving(old(fs.disk), old(fs.script), c, codec) != Failed
      ensures Saved(old(fs.disk), fs.disk, Saving(old(fs.disk), old(fs.script), c, codec), c, codec)
      ensures Configs.Valid(c) ==>
                fs.disk.bak == if old(fs.disk).primary.None? then old(fs.disk).bak
                               else BackupAfter(old(fs.disk).primary.value.text, old(fs.disk).bak,
                                                Head(old(fs.script)))
      ensures fs.disk.corrupt == old(fs.disk).corrupt
      ensures old(fs.trace) <= fs.trace && AllDuring(fs.trace, |old(fs.trace)|, old(fs.disk), Text(c, codec))
    {
      if !Configs.Valid(c) {
        return ValidationFailed;
      }
      if fs.disk.primary.Some? {
        fs.CopyToBackup();
      }
      var ok := fs.AtomicWriteFile(Text(c, codec));
      return if ok then Success else WriteFailed;
    }

    /** An error leaves the primary and the memory as they were. Success stores the candidate in
        both. Every disk on the way is one that a write of the candidate passes through. */
    method Update(mutate: Config -> Config) returns (status: Status)
      requires Ok()
      modifies this, fs
      ensures Ok()
      ensures status == ValidationFailed <==> !Configs.Valid(mutate(old(config)))
      ensures status == ValidationFailed ==> fs.disk == old(fs.disk) && fs.trace == old(fs.trace)
      ensures status == Success <==> Saving(old(fs.disk), old(fs.script), mutate(old(config)), codec) != Failed
      ensures Saved(old(fs.disk), fs.disk, Saving(old(fs.disk), old(fs.script), mutate(old(config)), codec),
                    mutate(old(config)), codec)
      ensures config == if status == Success then mutate(old(config)) else old(config)
      ensures UpdateStep(Device(old(fs.disk), Some(old(config))), Device(fs.disk, Some(config)),
                         mutate(old(config)), codec)
      ensures old(fs.trace) <= fs.trace
      ensures AllDuring(fs.trace, |old(fs.trace)|, old(fs.disk), Text(mutate(old(config)), codec))
    {
      var candidate := mutate(config);
      if !Configs.Valid(candidate) {
        return ValidationFailed;
      }
      status := Persist(candidate);
      if status != Success {
        return;
      }
      config := candidate;
    }

    method ResetToDefaults() returns (status: Status)
      requires Ok()
      modifies this, fs
      ensures Ok()
      ensures status == Success <==> Saving(old(fs.disk), old(fs.script), DEFAULTS, codec) != Failed
      ensures Saved(old(fs.disk), fs.disk, Saving(old(fs.disk), old(fs.script), DEFAULTS, codec), DEFAULTS, codec)
      ensures config == if status == Success then DEFAULTS else old(config)
      ensures UpdateStep(Device(old(fs.disk), Some(old(config))), Device(fs.disk, Some(config)), DEFAULTS, codec)
      ensures AllDuring(fs.trace, |old(fs.trace)|, old(fs.disk), Text(DEFAULTS, codec))
    {
      status := Persist(DEFAULTS);
      if status == Success {
        config := DEFAULTS;
      }
    }

    /** A readable primary is loaded without touching the disk; otherwise the backup is promoted;
        otherwise the defaults are. The config in memory is valid whatever was on the disk. A backup
        that was recovered can still be read afterwards exactly when RecoveryKeeps says. */
    method Load() returns (status: Status)
      requires Ok()
      modifies this, fs
      ensures Ok()
      ensures ReadConfig(old(fs.disk).primary, codec).Some? ==>
                status == Success && fs.disk == old(fs.disk) && fs.trace == old(fs.trace)
                && config == ReadConfig(old(fs.disk).primary, codec).value
      ensures old(fs.disk).primary.None? ==> config == DEFAULTS
      ensures old(fs.disk).primary.Some? && ReadConfig(old(fs.disk).primary, codec).None? ==>
                if ReadConfig(old(fs.disk).bak, codec).Some?
                then status == Success && config == ReadConfig(old(fs.disk).bak, codec).value
                else status == Corrupt && config == DEFAULTS
      ensures ReadConfig(old(fs.disk).primary, codec).None? ==>
                || fs.disk.primary in {old(fs.disk).primary, None}
                || fs.disk.primary == Some(File(Text(config, codec), true))
      ensures LoadStep(Device(old(fs.disk), None), Device(fs.disk, Some(config)), codec)
      ensures old(fs.disk).primary.None? ==>
                old(fs.trace) <= fs.trace &&
                AllDuring(fs.trace, |old(fs.trace)|, old(fs.disk), Text(DEFAULTS, codec))
      ensures old(fs.disk).primary.Some? && ReadConfig(old(fs.disk).primary, codec).None? &&
              ReadConfig(old(fs.disk).bak, codec).Some? ==>
                (Kept(fs.disk, config, codec) <==> RecoveryKeeps(old(fs.disk), old(fs.script), config, codec))
      ensures ReadConfig(old(fs.disk).primary, codec).None? &&
              Willing(old(fs.script), |Text(config, codec)| + 6) ==>
                Settled(fs.disk, config, codec) &&
                fs.disk.corrupt ==
                if old(fs.disk).primary.Some? then old(fs.disk).primary else old(fs.disk).corrupt
    {
      ghost var replies, before := fs.script, fs.disk;
      if fs.disk.primary.None? {
        status := Persist(DEFAULTS);
        config := DEFAULTS;
        WillingSaves(replies, |Text(DEFAULTS, codec)|);
        return;
      }
      var parsed := ReadConfig(fs.disk.primary, codec);
      if parsed.Some? {
        config := parsed.value;
        return Success;
      }
      if fs.disk.bak.Some? {
        var fromBak := ReadConfig(fs.disk.bak, codec);
        if fromBak.Some? {
          var renamed := fs.SetCorruptAside();
          var written := Persist(fromBak.value);
          config := fromBak.value;
          ReadIsStored(before.bak, codec);
          ReadBack(config, codec, true);
          WillingSaves(replies, |Text(config, codec)|);
          return Success;
        }
      }
      var renamed := fs.SetCorruptAside();
      var written := Persist(DEFAULTS);
      config := DEFAULTS;
      WillingSaves(replies, |Text(config, codec)|);
      return Corrupt;
    }
  }

  /** An update from a settled disk in which every step but the directory sync succeeds. */
  method UnsyncedUpdate(codec: Codec, oldest: Config, before: Config)
    returns (manager: ConfigManager, status: Status)
    requires codec.RoundTrips() && Configs.Valid(before)
    ensures manager.codec == codec && status == Success && manager.config == before
    ensures manager.fs.disk.primary == Some(File(Text(before, codec), true))
    ensures manager.fs.disk.earlier == {Some(File(Text(oldest, codec), true))}
  {
    var n := |Text(before, codec)|;
    var script: seq<int> := if n == 0 then [1, 1, 1, 1, -1] else [1, 1, n, 1, 1, -1];
    var fs := new FileSystem(Disk(Some(File(Text(oldest, codec), true)), {}, None, None, None), script);
    manager := new ConfigManager(fs, codec);
    UnsyncedScript(script, n);
    status := manager.Update(_ => before);
  }

  lemma UnsyncedScript(script: seq<int>, n: int)
    requires n >= 0 && script == if n == 0 then [1, 1, 1, 1, -1] else [1, 1, n, 1, 1, -1]
    ensures WriteOutcome(Tail(script), n) == Undurable
  {
    var rest: seq<int> := [1, 1, -1];
    if n == 0 {
      assert Tail(Tail(script)) == rest;
    } else {
      assert Tail(Tail(script)) == [n] + rest;
      assert WriteLoop([n] + rest, n) == WriteLoop(rest, 0);
    }
  }

  /** The failing run: that update reports success, and a crash in the next one, before its first
      step, brings `oldest` back. */
  method StaleConfigRun(codec: Codec, oldest: Config, before: Config, after: Config)
    returns (manager: ConfigManager, status: Status, ghost e: Disk)
    requires codec.RoundTrips() && Configs.Valid(oldest) && Configs.Valid(before) && Configs.Valid(after)
    requires Stored(oldest) !in {Stored(before), Stored(after)}
    ensures manager.codec == codec && status == Success && manager.config == before
    ensures CrashesTo(manager.fs.disk, e) && ReadConfig(e.primary, codec) == Some(Stored(oldest))
    ensures !OldOrNewAfterCrash(manager.fs.disk, before, after, codec)
  {
    manager, status := UnsyncedUpdate(codec, oldest, before);
    var f := Some(File(Text(oldest, codec), true));
    e := Disk(f, {}, None, None, None);
    assert f in manager.fs.disk.earlier && Survives(f, e.primary);
    ReadBack(oldest, codec, true);
    UnsyncedDirectoryBreaksIt(manager.fs.disk, oldest, before, after, codec);
  }

  /** A recovery that loses the last good config from the disk: the rename fails, the corrupt primary is
      copied over the backup and the write fails. Loading reports success. */
  method LostBackupRun(codec: Codec, good: Config, bad: string)
    returns (manager: ConfigManager, status: Status)
    requires codec.RoundTrips() && Configs.Valid(good) && codec.parse(bad).None?
    ensures manager.codec == codec && status == Success && manager.config == Stored(good)
    ensures !Kept(manager.fs.disk, manager.config, codec)
  {
    var disk := Disk(Some(File(bad, true)), {}, None, Some(File(Text(good, codec), true)), None);
    var fs := new FileSystem(disk, [-1, 1, -1]);
    manager := new ConfigManager(fs, codec);
    ReadBack(good, codec, true);
    LostBackupScript(disk, fs.script, Stored(good), codec);
    status := manager.Load();
  }

  lemma LostBackupScript(d: Disk, script: seq<int>, c: Config, codec: Codec)
    requires d.primary.Some? && ReadConfig(d.primary, codec).None? && ReadConfig(d.bak, codec) == Some(c)
    requires script == [-1, 1, -1]
    ensures !RecoveryKeeps(d, script, c, codec)
  {
    CopySpoils(d, c, 1, codec);
  }
}
