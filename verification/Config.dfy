/** The configuration object: the fields that files, documents and observations update in place.
    Each method is proved to be the step of the same name. */
module ConfigObject {
  import opened FollowerProtocol
  import opened Wrappers
  import opened ConfigModel
  import opened ConfigRuns

  import ConfigFiles
  import FollowerConfig

  // The documents of a request, each read if it is there and parses.
  datatype Parsed = Parsed(device: Option<DeviceConfig>, outputs: Option<map<int, OutputConfig>>,
                           ndi: Option<FollowerConfig.NdiConfig>, audio: Option<AudioConfig>,
                           display: Option<DisplayConfig>, network: Option<NetworkBinding>)

  function Got<T>(parse: Json -> Result<T, string>, d: Documents, key: string, keys: set<string>): Option<T> {
    if key in keys && key in d && parse(d[key]).Ok? then Some(parse(d[key]).value) else None
  }

  function GotAudio(p: Parsers, d: Documents, keys: set<string>, n: nat): Option<AudioConfig> {
    if "audio" in keys && "audio" in d && p.audio(d["audio"]).Ok? then Some(Audio(p, d["audio"], n)) else None
  }

  function GotAmong(p: Parsers, d: Documents, keys: set<string>, n: nat): Parsed {
    Parsed(Got(p.device, d, "device", keys), Got(p.outputs, d, "outputs", keys), Got(p.ndi, d, "ndi", keys),
           GotAudio(p, d, keys, n), Got(p.display, d, "display", keys), Got(p.network, d, "network", keys))
  }

  // One document that parses, kept with the others.
  function Keep(got: Parsed, p: Parsers, key: string, doc: Json, n: nat): Parsed
    requires FaultOf(p, key, doc) == None
  {
    if key == "device" then got.(device := Some(p.device(doc).value))
    else if key == "outputs" then got.(outputs := Some(p.outputs(doc).value))
    else if key == "ndi" then got.(ndi := Some(p.ndi(doc).value))
    else if key == "audio" then got.(audio := Some(Audio(p, doc, n)))
    else if key == "display" then got.(display := Some(p.display(doc).value))
    else got.(network := Some(p.network(doc).value))
  }

  lemma OneMore<T>(parse: Json -> Result<T, string>, d: Documents, name: string, keys: set<string>, key: string)
    requires key in d
    ensures Got(parse, d, name, keys + {key}) ==
              if key == name && parse(d[key]).Ok? then Some(parse(d[key]).value) else Got(parse, d, name, keys)
  {}

  lemma OneMoreAudio(p: Parsers, d: Documents, keys: set<string>, key: string, n: nat)
    requires key in d
    ensures GotAudio(p, d, keys + {key}, n) ==
              if key == "audio" && p.audio(d[key]).Ok? then Some(Audio(p, d[key], n)) else GotAudio(p, d, keys, n)
  {
    hide Audio;
  }

  lemma OneMoreGot(p: Parsers, d: Documents, keys: set<string>, key: string, n: nat)
    requires key in d
    ensures GotAmong(p, d, keys + {key}, n) ==
              if FaultOf(p, key, d[key]) == None then Keep(GotAmong(p, d, keys, n), p, key, d[key], n) else GotAmong(p, d, keys, n)
  {
    hide Got, GotAudio, Audio;
    OneMore(p.device, d, "device", keys, key);
    OneMore(p.outputs, d, "outputs", keys, key);
    OneMore(p.ndi, d, "ndi", keys, key);
    OneMoreAudio(p, d, keys, key, n);
    OneMore(p.display, d, "display", keys, key);
    OneMore(p.network, d, "network", keys, key);
  }

  lemma OneMoreFault(p: Parsers, d: Documents, keys: set<string>, key: string)
    requires keys <= d.Keys && key in d
    ensures FaultsAmong(p, d, keys + {key}) == FaultsAmong(p, d, keys) +
              match FaultOf(p, key, d[key]) { case None => {} case Some(what) => {BadDomain(key, what)} }
  {}

  method ParseDomains(p: Parsers, d: Documents, n: nat) returns (faults: set<Fault>, got: Parsed)
    ensures faults == FaultsAmong(p, d, d.Keys) && got == GotAmong(p, d, d.Keys, n)
  {
    hide FaultsAmong, GotAmong, Keep;
    faults, got := {}, Parsed(None, None, None, None, None, None);
    var rest := d.Keys;
    NoneAmongNone(p, d, n);
    assert d.Keys - rest == {};
    while rest != {}
      invariant rest <= d.Keys
      invariant faults == FaultsAmong(p, d, d.Keys - rest) && got == GotAmong(p, d, d.Keys - rest, n)
      decreases |rest|
    {
      var key :| key in rest;
      OneMoreFault(p, d, d.Keys - rest, key);
      OneMoreGot(p, d, d.Keys - rest, key, n);
      assert d.Keys - (rest - {key}) == (d.Keys - rest) + {key};
      rest := rest - {key};
      match FaultOf(p, key, d[key]) {
        case Some(what) => faults := faults + {BadDomain(key, what)};
        case None =>
          got := Keep(got, p, key, d[key], n);
      }
    }
    assert d.Keys - {} == d.Keys;
  }

  lemma NoneAmongNone(p: Parsers, d: Documents, n: nat)
    ensures FaultsAmong(p, d, {}) == {} && GotAmong(p, d, {}, n) == Parsed(None, None, None, None, None, None)
  {}

  // One domain taken over, if it is there. Audio and the observed address have owners of their own.
  function DeviceInto(s: Settings, taken: Option<DeviceConfig>): Settings {
    if taken.None? then s
    else s.(device := taken.value.(audioEngine := s.device.audioEngine, deviceIp := s.device.deviceIp))
  }

  function OutputsInto(s: Settings, taken: Option<map<int, OutputConfig>>): Settings {
    if taken.None? then s
    else
      var first := FirstOutput(taken.value);
      s.(outputs := taken.value, sourceName := first.sourceName, sourceIp := first.sourceIp,
         decoder := s.decoder.(screensaverMode := first.screensaverMode, sourceSelection := first.sourceSelection))
  }

  function NdiInto(s: Settings, taken: Option<FollowerConfig.NdiConfig>): Settings {
    if taken.None? then s
    else
      var ndi := taken.value;
      s.(transport := ndi.transport, finder := ndi.finder, groups := ndi.groups, offSubnetIps := ndi.offSubnetIps,
         decoder := s.decoder.(tallyMode := ndi.tallyMode, colorSpace := ndi.colorSpace))
  }

  function AudioInto(s: Settings, taken: Option<AudioConfig>): Settings {
    if taken.None? then s
    else
      s.(device := s.device.(audioEngine := taken.value.engine), audio := taken.value.settings,
         decoder := s.decoder.(ndiAudio := if taken.value.primaryEnabled then "NDIAudioEn" else "NDIAudioDis"))
  }

  function DisplayInto(s: Settings, display: Option<DisplayConfig>, binding: Option<NetworkBinding>): Settings {
    var t := if display.None? then s else s.(splash := display.value.splash, osd := display.value.osd);
    if binding.None? then t else t.(network := binding.value)
  }

  class Config {
    const parsers: Parsers
    var decoder: DecoderConfig
    var transport: FollowerConfig.TransportConfig
    var finder: FollowerConfig.FinderConfig
    var device: DeviceConfig
    var groups: string
    var splash: SplashConfig
    var osd: OsdConfig
    var sourceName: string
    var sourceIp: string
    var offSubnetIps: string
    var outputCache: map<int, OutputConfig>
    var followed: set<string>
    var revision: Revision
    var audioSettings: AudioSettings
    var network: NetworkBinding
    var followedConfig: Documents

    ghost function State(): Settings
      reads this
    {
      Settings(decoder, transport, finder, device, groups, splash, osd, sourceName, sourceIp, offSubnetIps,
               outputCache, followed, revision, audioSettings, network, followedConfig)
    }

    // What the control plane owns is live as it was handed over.
    ghost predicate Valid()
      reads this
    {
      Live(State(), parsers)
    }

    constructor (parsers: Parsers)
      ensures this.parsers == parsers && Valid() && State() == FRESH
    {
      this.parsers := parsers;
      decoder, transport, finder, device := FRESH.decoder, FRESH.transport, FRESH.finder, FRESH.device;
      groups, splash, osd, sourceName, sourceIp, offSubnetIps := "public", FRESH.splash, FRESH.osd, "", "", "";
      outputCache, followed, revision := map[], {}, NO_REVISION;
      audioSettings, network, followedConfig := FRESH.audio, FRESH.network, map[];
    }

    method TakeDevice(taken: Option<DeviceConfig>)
      modifies this`device
      ensures State() == DeviceInto(old(State()), taken)
    {
      if taken.Some? {
        device := taken.value.(audioEngine := device.audioEngine, deviceIp := device.deviceIp);
      }
    }

    method TakeOutputs(taken: Option<map<int, OutputConfig>>)
      modifies this`decoder, this`outputCache, this`sourceName, this`sourceIp
      ensures State() == OutputsInto(old(State()), taken)
    {
      if taken.Some? {
        outputCache := taken.value;
        var first := FirstOutput(outputCache);
        sourceName, sourceIp := first.sourceName, first.sourceIp;
        decoder := decoder.(screensaverMode := first.screensaverMode, sourceSelection := first.sourceSelection);
      }
    }

    method TakeNdi(taken: Option<FollowerConfig.NdiConfig>)
      modifies this`decoder, this`transport, this`finder, this`groups, this`offSubnetIps
      ensures State() == NdiInto(old(State()), taken)
    {
      if taken.Some? {
        transport, finder, groups := taken.value.transport, taken.value.finder, taken.value.groups;
        offSubnetIps := taken.value.offSubnetIps;
        decoder := decoder.(tallyMode := taken.value.tallyMode, colorSpace := taken.value.colorSpace);
      }
    }

    method TakeAudio(taken: Option<AudioConfig>)
      modifies this`decoder, this`device, this`audioSettings
      ensures State() == AudioInto(old(State()), taken)
    {
      if taken.Some? {
        device := device.(audioEngine := taken.value.engine);
        audioSettings := taken.value.settings;
        decoder := decoder.(ndiAudio := if taken.value.primaryEnabled then "NDIAudioEn" else "NDIAudioDis");
      }
    }

    method TakeDisplayAndNetwork(display: Option<DisplayConfig>, binding: Option<NetworkBinding>)
      modifies this`splash, this`osd, this`network
      ensures State() == DisplayInto(old(State()), display, binding)
    {
      if display.Some? { splash, osd := display.value.splash, display.value.osd; }
      if binding.Some? { network := binding.value; }
    }

    // All domains of a request, one after the other.
    method Take(got: Parsed, ghost p: Parsers, ghost d: Documents, ghost n: nat)
      requires AllParse(p, d) && got == GotAmong(p, d, d.Keys, n)
      modifies this
      ensures State() ==
        Taken(old(State()), p, d, n).(followed := old(followed), documents := old(followedConfig), revision := old(revision))
    {
      hide AllParse, GotAmong, Taken, DeviceInto, OutputsInto, NdiInto, AudioInto, DisplayInto;
      IntoTakes(old(State()), got, p, d, n);
      TakeDevice(got.device);
      TakeOutputs(got.outputs);
      TakeNdi(got.ndi);
      TakeAudio(got.audio);
      TakeDisplayAndNetwork(got.display, got.network);
    }

    // The domains follow the control plane from now on.
    method Follow(d: Documents)
      modifies this`followed, this`followedConfig
      ensures followed == old(followed) + d.Keys && followedConfig == old(followedConfig) + d
    {
      var rest := d.Keys;
      while rest != {}
        invariant rest <= d.Keys
        invariant followed == old(followed) + (d.Keys - rest)
        invariant followedConfig == old(followedConfig) + (d - rest)
        decreases |rest|
      {
        var key :| key in rest;
        rest := rest - {key};
        followed := followed + {key};
        followedConfig := followedConfig[key := d[key]];
      }
      assert d - {} == d;
    }

    method ApplyConfig(request: Json, apply: AudioApply) returns (response: Response)
      requires Valid()
      modifies this
      ensures Valid() && old(followed) <= followed
      ensures (State(), response) == ConfigModel.Applied(old(State()), request, parsers, apply)
    {
      hide Taken, FaultsAmong, AllParse, Live;
      StepLive(State(), Apply(request, apply), parsers);
      response := Accept(request, apply);
    }

    method TakeOver(got: Parsed, d: Documents, next: nat)
      requires AllParse(parsers, d) && got == GotAmong(parsers, d, d.Keys, next)
      modifies this
      ensures State() == Taken(old(State()), parsers, d, next)
    {
      hide Taken, AllParse, GotAmong;
      TakenBooks(State(), parsers, d, next);
      Take(got, parsers, d, next);
      Follow(d);
      revision := revision.Commit(next);
    }

    method Accept(request: Json, apply: AudioApply) returns (response: Response)
      modifies this
      ensures (State(), response) == ConfigModel.Applied(old(State()), request, parsers, apply)
    {
      hide Taken, FaultsAmong, AllParse;
      var next;
      match revision.Check(request) {
        case Err(f) => return Refused({f});
        case Ok(n) => next := n;
      }
      var config;
      match At(request, "config") {
        case Err(f) => return Refused({f});
        case Ok(c) => config := c;
      }
      if !config.Obj? || config.fields == map[] { return Refused({NoDomains}); }
      var d := config.fields;
      var faults, got := ParseDomains(parsers, d, next);
      if faults != {} { return Refused(faults); }
      NoFaultsIff(parsers, d);
      EachParses(parsers, d);
      if got.audio.Some? {
        var reason := apply(got.audio.value.settings);
        if reason != "" { return Refused({AudioRefused(reason)}); }
      }
      TakeOver(got, d, next);
      return Accepted(next);
    }

    // ---------- files ----------

    method LoadDecoderAudio(f: Documents) returns (ok: bool)
      modifies this`decoder
      ensures Loading(State(), ok) == DecoderAudioRead(Loading(old(State()), true), f)
    {
      if f == map[] || "audio" in followed { return true; }
      var audio := Text(f, "NDIAudio", "NDIAudioEn");
      if audio.None? { return false; }
      decoder := decoder.(ndiAudio := audio.value);
      return true;
    }

    method LoadDecoderOutputs(f: Documents) returns (ok: bool)
      modifies this`decoder
      ensures Loading(State(), ok) ==
        DecoderSelectionRead(DecoderOutputsRead(Loading(old(State()), true), f), f)
    {
      if f == map[] || "outputs" in followed { return true; }
      var number := Number(f, "ChNum", 1);
      if number.None? { return false; }
      decoder := decoder.(chNum := number.value);
      var saver := Text(f, "ScreenSaverMode", "BlackSS");
      if saver.None? { return false; }
      decoder := decoder.(screensaverMode := saver.value);
      var selection := Text(f, "SourceSelection", "NDI");
      if selection.None? { return false; }
      decoder := decoder.(sourceSelection := selection.value);
      return true;
    }

    method LoadDecoderSource(f: Documents) returns (ok: bool)
      modifies this`sourceName, this`sourceIp
      ensures Loading(State(), ok) == DecoderSourceRead(Loading(old(State()), true), f)
    {
      if f == map[] || "outputs" in followed { return true; }
      var name := Text(f, "SourceName", "");
      if name.None? { return false; }
      sourceName := name.value;
      var ip := Text(f, "SourceIP", "");
      if ip.None? { return false; }
      sourceIp := ip.value;
      return true;
    }

    method LoadDecoderNdi(f: Documents) returns (ok: bool)
      modifies this`decoder
      ensures Loading(State(), ok) == DecoderNdiRead(Loading(old(State()), true), f)
    {
      if f == map[] || "ndi" in followed { return true; }
      var tally := Text(f, "TallyMode", "TallyOff");
      if tally.None? { return false; }
      decoder := decoder.(tallyMode := tally.value);
      var color := Text(f, "ColorSpace", "YUV");
      if color.None? { return false; }
      decoder := decoder.(colorSpace := color.value);
      return true;
    }

    method LoadDecoder(f: Documents) returns (ok: bool)
      modifies this`decoder, this`sourceName, this`sourceIp
      ensures Loading(State(), ok) == DecoderFileRead(Loading(old(State()), true), f)
    {
      hide Leaves, Text, Number;
      ok := LoadDecoderAudio(f);
      if ok { ok := LoadDecoderOutputs(f); }
      if ok { ok := LoadDecoderSource(f); }
      if ok { ok := LoadDecoderNdi(f); }
    }

    method LoadTransport(f: Documents) returns (ok: bool)
      modifies this`transport
      ensures Loading(State(), ok) == TransportRead(Loading(old(State()), true), f)
    {
      if f == map[] || "ndi" in followed { return true; }
      var mode := Text(f, "Rxpm", "RUDP");
      if mode.None? { return false; }
      transport := FollowerConfig.TransportConfig(mode.value);
      return true;
    }

    method LoadFinder(f: Documents) returns (ok: bool)
      modifies this`finder
      ensures Loading(State(), ok) == FinderRead(Loading(old(State()), true), f)
    {
      if f == map[] || "ndi" in followed { return true; }
      var mode := Text(f, "NDIDisServ", "NDIDisServDis");
      if mode.None? { return false; }
      finder := finder.(serverMode := mode.value);
      var ip := Text(f, "NDIDisServIP", "");
      if ip.None? { return false; }
      finder := finder.(serverIp := ip.value);
      return true;
    }

    method LoadDevice(f: Documents) returns (ok: bool)
      modifies this`device
      ensures Loading(State(), ok) == DeviceFileRead(Loading(old(State()), true), f)
    {
      hide Leaves;
      ok := LoadDeviceModes(f);
      if ok { ok := LoadDeviceNames(f); }
      if ok { ok := LoadEngine(f); }
    }

    method LoadDeviceModes(f: Documents) returns (ok: bool)
      modifies this`device
      ensures Loading(State(), ok) == DeviceModesRead(Loading(old(State()), true), f)
    {
      if f == map[] || "device" in followed { return true; }
      var mode := Text(f, "mode", "decode");
      if mode.None? { return false; }
      device := device.(mode := mode.value);
      var output := Text(f, "videooutput", "hdmi");
      if output.None? { return false; }
      device := device.(videoOutput := output.value);
      return true;
    }

    method LoadDeviceNames(f: Documents) returns (ok: bool)
      modifies this`device
      ensures Loading(State(), ok) == DeviceNamesRead(Loading(old(State()), true), f)
    {
      if f == map[] || "device" in followed { return true; }
      var name := Text(f, "ndi_recv_name", "");
      if name.None? { return false; }
      device := device.(ndiRecvName := name.value);
      var decode := Text(f, "decode_mode", "auto");
      if decode.None? { return false; }
      device := device.(decodeMode := decode.value);
      return true;
    }

    method LoadEngine(f: Documents) returns (ok: bool)
      modifies this`device
      ensures Loading(State(), ok) == EngineRead(Loading(old(State()), true), f)
    {
      if f == map[] || "audio" in followed { return true; }
      var engine := Text(f, "audio_engine", "v1");
      if engine.None? { return false; }
      device := device.(audioEngine := engine.value);
      if device.audioEngine != "v2" { device := device.(audioEngine := "v1"); }
      return true;
    }

    method LoadGroup(f: Documents) returns (ok: bool)
      modifies this`groups
      ensures Loading(State(), ok) == GroupRead(Loading(old(State()), true), f)
    {
      if f == map[] || "ndi" in followed { return true; }
      var names := Text(f, "ndi_groups", "public");
      if names.None? { return false; }
      groups := names.value;
      return true;
    }

    method LoadDisplay(disk: Disk) returns (ok: bool)
      modifies this`splash, this`osd
      ensures Loading(State(), ok) == OsdRead(SplashRead(Loading(old(State()), true), File(disk.splash), parsers), File(disk.osd))
    {
      if "display" in followed { return true; }
      var f := File(disk.splash);
      if f != map[] {
        var read := parsers.splashFile(splash, f);
        splash := read.0;
        if !read.1 { return false; }
      }
      var g := File(disk.osd);
      if g == map[] { return true; }
      var enabled := Switch(g, "enabled", false);
      if enabled.None? { return false; }
      osd := osd.(enabled := enabled.value);
      var text := Text(g, "text", "");
      if text.None? { return false; }
      osd := osd.(text := text.value);
      return true;
    }

    method Load(disk: Disk) returns (ok: bool)
      requires Valid()
      modifies this
      ensures Valid() && followed == old(followed)
      ensures Loading(State(), ok) == Loaded(old(State()), disk, parsers)
      ensures ok <==> ConfigFiles.WellTyped(old(State()), disk, parsers)
    {
      hide Live, Loaded, ConfigFiles.WellTyped;
      ConfigFiles.LoadedIs(State(), disk, parsers);
      StepLive(State(), Event.Load(disk), parsers);
      LoadLeaves(State(), disk, parsers);
      ok := ReadFiles(disk);
    }

    method ReadFiles(disk: Disk) returns (ok: bool)
      modifies this
      ensures Loading(State(), ok) == Loaded(old(State()), disk, parsers)
    {
      hide Leaves, DecoderAudioRead, DecoderOutputsRead, DecoderSelectionRead, DecoderSourceRead, DecoderNdiRead,
           TransportRead, FinderRead, DeviceModesRead, DeviceNamesRead, EngineRead, GroupRead, SplashRead, OsdRead;
      if "outputs" !in followed { outputCache := map[]; }
      ok := LoadDecoder(File(disk.decoder));
      if ok { ok := LoadTransport(File(disk.transport)); }
      if ok { ok := LoadFinder(File(disk.finder)); }
      if ok { ok := LoadDevice(File(disk.device)); }
      if ok { ok := LoadGroup(File(disk.group)); }
      if ok {
        if disk.ndi.Str? && "ndi" !in followed { offSubnetIps := disk.ndi.s; }
        ok := LoadDisplay(disk);
      }
    }

    // ---------- outputs and observations ----------

    method GetOutput(ch: int, file: Json) returns (out: Option<OutputConfig>)
      requires Valid()
      modifies this`outputCache
      ensures Valid()
      ensures (State(), out) == OutputGot(old(State()), ch, file)
    {
      hide Live;
      StepLive(State(), Event.GetOutput(ch, file), parsers);
      if ch in outputCache { return Some(outputCache[ch]); }
      if "outputs" in followed { return Some(EMPTY_OUTPUT); }
      var f, o := File(file), EMPTY_OUTPUT;
      if f != map[] {
        var mode, scale := Text(f, "videooutput", ""), Text(f, "ScaleMode", "letterbox");
        var name, ip := Text(f, "SourceName", ""), Text(f, "SourceIP", "");
        var alias, rotation := Text(f, "output_alias", ""), Number(f, "rotation", 0);
        if mode.None? || scale.None? || name.None? || ip.None? || alias.None? || rotation.None? { return None; }
        o := o.(preferredMode := mode.value, scaleMode := scale.value, sourceName := name.value, sourceIp := ip.value,
                outputAlias := alias.value, rotation := rotation.value % 0x1_0000_0000);
      } else if ch == 1 {
        o := o.(preferredMode := device.videoOutput, sourceName := sourceName, sourceIp := sourceIp, scaleMode := "letterbox");
      }
      outputCache := outputCache[ch := o];
      return Some(o);
    }

    method WriteOutput(ch: int, out: OutputConfig, file: Json) returns (written: Option<Documents>)
      modifies this`outputCache, this`sourceName, this`sourceIp, this`device
      ensures (State(), written) == OutputSet(old(State()), ch, out, file)
    {
      hide Written, Empty, File;
      if "outputs" in followed { return None; }
      if !Empty(file) && !file.Obj? { return None; }
      outputCache := outputCache[ch := out];
      if ch == 1 {
        sourceName, sourceIp := out.sourceName, out.sourceIp;
        device := device.(videoOutput := out.preferredMode);
      }
      return Some(Written(File(file), out));
    }

    method SetOutput(ch: int, out: OutputConfig, file: Json) returns (written: Option<Documents>)
      requires Valid()
      modifies this`outputCache, this`sourceName, this`sourceIp, this`device
      ensures Valid()
      ensures (State(), written) == OutputSet(old(State()), ch, out, file)
    {
      hide Live, OutputSet;
      StepLive(State(), Event.SetOutput(ch, out, file), parsers);
      written := WriteOutput(ch, out, file);
    }

    method SetRuntimeIp(ip: string)
      requires Valid()
      modifies this`device
      ensures Valid()
      ensures State() == old(State()).(device := old(device).(deviceIp := ip))
    {
      hide Live;
      StepLive(State(), Event.SetRuntimeIp(ip), parsers);
      device := device.(deviceIp := ip);
    }

    // Null until something is followed.
    method AppliedRevision() returns (status: Json)
      requires Valid()
      ensures status == if followed == {} then Null else Int(revision.value)
    {
      status := revision.Status();
    }

    method FollowerSnapshot() returns (request: Json)
      ensures request == Snapshot(State())
    {
      request := Obj(map["action" := Str("apply_config"), "revision" := Int(revision.value), "config" := Obj(followedConfig)]);
    }
  }

  lemma EachParses(p: Parsers, d: Documents)
    requires AllParse(p, d)
    ensures "device" in d ==> p.device(d["device"]).Ok?
    ensures "outputs" in d ==> p.outputs(d["outputs"]).Ok?
    ensures "ndi" in d ==> p.ndi(d["ndi"]).Ok?
    ensures "audio" in d ==> p.audio(d["audio"]).Ok?
    ensures "display" in d ==> p.display(d["display"]).Ok?
    ensures "network" in d ==> p.network(d["network"]).Ok?
  {
    assert "device" in d ==> FaultOf(p, "device", d["device"]) == None;
    assert "outputs" in d ==> FaultOf(p, "outputs", d["outputs"]) == None;
  }

  // With every document parsing, what was got is what is there.
  lemma GotAll(p: Parsers, d: Documents, n: nat)
    requires AllParse(p, d)
    ensures var got := GotAmong(p, d, d.Keys, n);
            && got.device == (if "device" in d then Some(p.device(d["device"]).value) else None)
            && got.outputs == (if "outputs" in d then Some(p.outputs(d["outputs"]).value) else None)
            && got.ndi == (if "ndi" in d then Some(p.ndi(d["ndi"]).value) else None)
            && got.audio == (if "audio" in d then Some(Audio(p, d["audio"], n)) else None)
            && got.display == (if "display" in d then Some(p.display(d["display"]).value) else None)
            && got.network == (if "network" in d then Some(p.network(d["network"]).value) else None)
  {
    hide AllParse;
    EachParses(p, d);
  }

  lemma IntoTakes(s: Settings, got: Parsed, p: Parsers, d: Documents, n: nat)
    requires AllParse(p, d) && got == GotAmong(p, d, d.Keys, n)
    ensures DisplayInto(AudioInto(NdiInto(OutputsInto(DeviceInto(s, got.device), got.outputs), got.ndi), got.audio),
                        got.display, got.network)
            == Taken(s, p, d, n).(followed := s.followed, documents := s.documents, revision := s.revision)
  {
    hide AllParse, FirstOutput, Audio, GotAmong;
    GotAll(p, d, n);
  }

  // What a handover books.
  lemma TakenBooks(s: Settings, p: Parsers, d: Documents, n: nat)
    requires AllParse(p, d)
    ensures var t := Taken(s, p, d, n);
            t.followed == s.followed + d.Keys && t.documents == s.documents + d && t.revision == s.revision.Commit(n)
  {}
}
