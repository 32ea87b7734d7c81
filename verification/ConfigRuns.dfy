/** Disk contents and runtime observations beside the handovers, and what every run keeps: a domain
    once followed stays followed, and its live fields are those of its last accepted document. */
module ConfigRuns {
  import opened FollowerProtocol
  import opened Wrappers
  import opened ConfigModel

  import FollowerConfig

  // ---------- what files leave alone ----------

  // The fields of the device domain. The video output is set_output's too.
  predicate DeviceLive(s: Settings, c: DeviceConfig) {
    && s.device.mode == c.mode && s.device.decodeMode == c.decodeMode && s.device.ndiRecvName == c.ndiRecvName
    && s.device.hostName == c.hostName && s.device.deviceName == c.deviceName
  }

  // The live fields of every domain s follows are the same in t.
  ghost predicate SameOwned(s: Settings, t: Settings) {
    && ("device" in s.followed ==> DeviceLive(t, s.device))
    && ("outputs" in s.followed ==>
          && t.outputs == s.outputs && t.sourceName == s.sourceName && t.sourceIp == s.sourceIp
          && t.decoder.screensaverMode == s.decoder.screensaverMode && t.decoder.sourceSelection == s.decoder.sourceSelection)
    && ("ndi" in s.followed ==>
          && t.transport == s.transport && t.finder == s.finder && t.groups == s.groups && t.offSubnetIps == s.offSubnetIps
          && t.decoder.tallyMode == s.decoder.tallyMode && t.decoder.colorSpace == s.decoder.colorSpace)
    && ("audio" in s.followed ==>
          t.device.audioEngine == s.device.audioEngine && t.decoder.ndiAudio == s.decoder.ndiAudio && t.audio.graph == s.audio.graph)
    && ("display" in s.followed ==> t.splash == s.splash && t.osd == s.osd)
    && ("network" in s.followed ==> t.network == s.network)
  }

  // Files and observations leave what the control plane owns alone.
  ghost predicate Untouched(s: Settings, t: Settings) {
    && SameOwned(s, t) && t.followed == s.followed && t.documents == s.documents && t.revision == s.revision
    && t.audio == s.audio && t.network == s.network
  }

  // What no file touches, however it is owned.
  ghost predicate FilesLeave(s: Settings, t: Settings) {
    && Untouched(s, t) && t.device.deviceIp == s.device.deviceIp
    && ("device" in s.followed ==> t.device.videoOutput == s.device.videoOutput)
  }

  // ---------- reading files ----------

  // A file read so far: the settings, and whether every value had its type. A value of another
  // type throws, and leaves what was read before it.
  datatype Loading = Loading(s: Settings, ok: bool)

  ghost predicate Leaves(l: Loading, m: Loading) {
    FilesLeave(l.s, m.s) && m.s.outputs == l.s.outputs
  }

  // json::value on a string.
  function Text(f: Documents, key: string, absent: string): Option<string> {
    if key !in f then Some(absent) else if f[key].Str? then Some(f[key].s) else None
  }

  // json::value on an integer, which takes any number, and a boolean too.
  function Number(f: Documents, key: string, absent: int): Option<int> {
    if key !in f then Some(absent)
    else match f[key]
      case Int(i) => Some(i)
      case Bool(b) => Some(if b then 1 else 0)
      case Real(r) => Some(if r < 0.0 then -(-r).Floor else r.Floor)
      case _ => None
  }

  function Switch(f: Documents, key: string, absent: bool): Option<bool> {
    if key !in f then Some(absent) else if f[key].Bool? then Some(f[key].b) else None
  }

  function Put<T>(l: Loading, value: Option<T>, set_: (Settings, T) -> Settings): Loading {
    if !l.ok then l else if value.None? then l.(ok := false) else Loading(set_(l.s, value.value), true)
  }

  // The fields of a file that counts: a non-empty object.
  function File(j: Json): Documents {
    if j.Obj? then j.fields else map[]
  }

  datatype Disk = Disk(decoder: Json, transport: Json, finder: Json, device: Json, group: Json, ndi: Json,
                       splash: Json, osd: Json)

  function DecoderAudioRead(l: Loading, f: Documents): (r: Loading)
    ensures Leaves(l, r) && (!l.ok ==> r == l)
  {
    if f == map[] || "audio" in l.s.followed then l
    else Put(l, Text(f, "NDIAudio", "NDIAudioEn"), (s: Settings, v) => s.(decoder := s.decoder.(ndiAudio := v)))
  }

  function DecoderOutputsRead(l: Loading, f: Documents): (r: Loading)
    ensures Leaves(l, r) && (!l.ok ==> r == l)
  {
    if f == map[] || "outputs" in l.s.followed then l
    else
      var a := Put(l, Number(f, "ChNum", 1), (s: Settings, v) => s.(decoder := s.decoder.(chNum := v)));
      Put(a, Text(f, "ScreenSaverMode", "BlackSS"), (s: Settings, v) => s.(decoder := s.decoder.(screensaverMode := v)))
  }

  function DecoderSelectionRead(l: Loading, f: Documents): (r: Loading)
    ensures Leaves(l, r) && (!l.ok ==> r == l)
  {
    if f == map[] || "outputs" in l.s.followed then l
    else Put(l, Text(f, "SourceSelection", "NDI"), (s: Settings, v) => s.(decoder := s.decoder.(sourceSelection := v)))
  }

  function DecoderSourceRead(l: Loading, f: Documents): (r: Loading)
    ensures Leaves(l, r) && (!l.ok ==> r == l)
  {
    if f == map[] || "outputs" in l.s.followed then l
    else
      var a := Put(l, Text(f, "SourceName", ""), (s: Settings, v) => s.(sourceName := v));
      Put(a, Text(f, "SourceIP", ""), (s: Settings, v) => s.(sourceIp := v))
  }

  function DecoderNdiRead(l: Loading, f: Documents): (r: Loading)
    ensures Leaves(l, r) && (!l.ok ==> r == l)
  {
    if f == map[] || "ndi" in l.s.followed then l
    else
      var a := Put(l, Text(f, "TallyMode", "TallyOff"), (s: Settings, v) => s.(decoder := s.decoder.(tallyMode := v)));
      Put(a, Text(f, "ColorSpace", "YUV"), (s: Settings, v) => s.(decoder := s.decoder.(colorSpace := v)))
  }

  function TransportRead(l: Loading, f: Documents): (r: Loading)
    ensures Leaves(l, r) && (!l.ok ==> r == l)
  {
    if f == map[] || "ndi" in l.s.followed then l
    else Put(l, Text(f, "Rxpm", "RUDP"), (s: Settings, v) => s.(transport := FollowerConfig.TransportConfig(v)))
  }

  function FinderRead(l: Loading, f: Documents): (r: Loading)
    ensures Leaves(l, r) && (!l.ok ==> r == l)
  {
    if f == map[] || "ndi" in l.s.followed then l
    else
      var a := Put(l, Text(f, "NDIDisServ", "NDIDisServDis"), (s: Settings, v) => s.(finder := s.finder.(serverMode := v)));
      Put(a, Text(f, "NDIDisServIP", ""), (s: Settings, v) => s.(finder := s.finder.(serverIp := v)))
  }

  function DeviceModesRead(l: Loading, f: Documents): (r: Loading)
    ensures Leaves(l, r) && (!l.ok ==> r == l)
  {
    if f == map[] || "device" in l.s.followed then l
    else
      var a := Put(l, Text(f, "mode", "decode"), (s: Settings, v) => s.(device := s.device.(mode := v)));
      Put(a, Text(f, "videooutput", "hdmi"), (s: Settings, v) => s.(device := s.device.(videoOutput := v)))
  }

  function DeviceNamesRead(l: Loading, f: Documents): (r: Loading)
    ensures Leaves(l, r) && (!l.ok ==> r == l)
  {
    if f == map[] || "device" in l.s.followed then l
    else
      var a := Put(l, Text(f, "ndi_recv_name", ""), (s: Settings, v) => s.(device := s.device.(ndiRecvName := v)));
      Put(a, Text(f, "decode_mode", "auto"), (s: Settings, v) => s.(device := s.device.(decodeMode := v)))
  }

  function EngineRead(l: Loading, f: Documents): (r: Loading)
    ensures Leaves(l, r) && (!l.ok ==> r == l)
  {
    if f == map[] || "audio" in l.s.followed then l
    else Put(l, Text(f, "audio_engine", "v1"),
             (s: Settings, v) => s.(device := s.device.(audioEngine := if v == "v2" then v else "v1")))
  }

  function GroupRead(l: Loading, f: Documents): (r: Loading)
    ensures Leaves(l, r) && (!l.ok ==> r == l)
  {
    if f == map[] || "ndi" in l.s.followed then l
    else Put(l, Text(f, "ndi_groups", "public"), (s: Settings, v) => s.(groups := v))
  }

  function OffSubnetRead(l: Loading, j: Json): (r: Loading)
    ensures Leaves(l, r) && (!l.ok ==> r == l)
  {
    if !l.ok || !j.Str? || "ndi" in l.s.followed then l else l.(s := l.s.(offSubnetIps := j.s))
  }

  function SplashRead(l: Loading, f: Documents, p: Parsers): (r: Loading)
    ensures Leaves(l, r) && (!l.ok ==> r == l)
  {
    if !l.ok || f == map[] || "display" in l.s.followed then l
    else
      var (splash, ok) := p.splashFile(l.s.splash, f);
      Loading(l.s.(splash := splash), ok)
  }

  function OsdRead(l: Loading, f: Documents): (r: Loading)
    ensures Leaves(l, r) && (!l.ok ==> r == l)
  {
    if f == map[] || "display" in l.s.followed then l
    else
      var a := Put(l, Switch(f, "enabled", false), (s: Settings, v) => s.(osd := s.osd.(enabled := v)));
      Put(a, Text(f, "text", ""), (s: Settings, v) => s.(osd := s.osd.(text := v)))
  }

  function DecoderFileRead(l: Loading, f: Documents): Loading {
    DecoderNdiRead(DecoderSourceRead(DecoderSelectionRead(DecoderOutputsRead(DecoderAudioRead(l, f), f), f), f), f)
  }

  function NdiFilesRead(l: Loading, disk: Disk): Loading {
    FinderRead(TransportRead(l, File(disk.transport)), File(disk.finder))
  }

  function DeviceFileRead(l: Loading, f: Documents): Loading {
    EngineRead(DeviceNamesRead(DeviceModesRead(l, f), f), f)
  }

  function RestRead(l: Loading, disk: Disk, p: Parsers): Loading {
    OsdRead(SplashRead(OffSubnetRead(GroupRead(l, File(disk.group)), disk.ndi), File(disk.splash), p), File(disk.osd))
  }

  // load(): every file in turn, for the domains not followed; the cached outputs are dropped.
  function Loaded(s: Settings, disk: Disk, p: Parsers): Loading {
    var start := Loading(if "outputs" in s.followed then s else s.(outputs := map[]), true);
    RestRead(DeviceFileRead(NdiFilesRead(DecoderFileRead(start, File(disk.decoder)), disk), File(disk.device)), disk, p)
  }

  // ---------- outputs ----------

  // The settings file of one output, or the legacy fields for output 1.
  function OutputRead(s: Settings, ch: int, file: Json): Option<OutputConfig> {
    var f := File(file);
    if f != map[] then
      match (Text(f, "videooutput", ""), Text(f, "ScaleMode", "letterbox"), Text(f, "SourceName", ""),
             Text(f, "SourceIP", ""), Text(f, "output_alias", ""), Number(f, "rotation", 0))
      case (Some(mode), Some(scale), Some(name), Some(ip), Some(alias), Some(rotation)) =>
        Some(EMPTY_OUTPUT.(preferredMode := mode, scaleMode := scale, sourceName := name, sourceIp := ip,
                           outputAlias := alias, rotation := rotation % 0x1_0000_0000))
      case _ => None
    else if ch == 1 then
      Some(EMPTY_OUTPUT.(preferredMode := s.device.videoOutput, sourceName := s.sourceName,
                         sourceIp := s.sourceIp, scaleMode := "letterbox"))
    else Some(EMPTY_OUTPUT)
  }

  // get_output(): cached, or not there, or read and cached. None is an exception.
  function OutputGot(s: Settings, ch: int, file: Json): (Settings, Option<OutputConfig>) {
    if ch in s.outputs then (s, Some(s.outputs[ch]))
    else if "outputs" in s.followed then (s, Some(EMPTY_OUTPUT))
    else match OutputRead(s, ch, file)
      case Some(out) => (s.(outputs := s.outputs[ch := out]), Some(out))
      case None => (s, None)
  }

  // What j.empty() says of a file.
  predicate Empty(j: Json) {
    j == Null || j == Arr([]) || j == Obj(map[])
  }

  function Written(f: Documents, out: OutputConfig): Documents {
    f["videooutput" := Str(out.preferredMode)]["ScaleMode" := Str(out.scaleMode)]["SourceName" := Str(out.sourceName)]
     ["SourceIP" := Str(out.sourceIp)]["output_alias" := Str(out.outputAlias)]["rotation" := Int(out.rotation)]
  }

  // set_output(): the new settings, and the file written; nothing for followed outputs, and an
  // exception for a file that is no object.
  function OutputSet(s: Settings, ch: int, out: OutputConfig, file: Json): (Settings, Option<Documents>) {
    if "outputs" in s.followed || (!Empty(file) && !file.Obj?) then (s, None)
    else
      var t := s.(outputs := s.outputs[ch := out]);
      (if ch == 1 then t.(sourceName := out.sourceName, sourceIp := out.sourceIp,
                          device := t.device.(videoOutput := out.preferredMode)) else t,
       Some(Written(File(file), out)))
  }

  lemma WrittenIsRead(s: Settings, ch: int, out: OutputConfig, f: Documents)
    requires out.rotation < 0x1_0000_0000
    ensures OutputRead(s, ch, Obj(Written(f, out)))
            == Some(out.(refreshHz := 0.0, screensaverMode := "BlackSS", sourceSelection := "NDI"))
  {
    var w := Written(f, out);
    assert w["videooutput"] == Str(out.preferredMode) && w["ScaleMode"] == Str(out.scaleMode);
    assert w["SourceName"] == Str(out.sourceName) && w["SourceIP"] == Str(out.sourceIp);
    assert w["output_alias"] == Str(out.outputAlias) && w["rotation"] == Int(out.rotation);
  }

  // What set_output wrote, load and get_output bring back: the file's six fields of the output.
  lemma WrittenIsReadBack(s: Settings, ch: int, out: OutputConfig, file: Json, disk: Disk, p: Parsers)
    requires "outputs" !in s.followed && (Empty(file) || file.Obj?) && out.rotation < 0x1_0000_0000
    ensures var (t, written) := OutputSet(s, ch, out, file);
            && written == Some(Written(File(file), out))
            && OutputGot(Loaded(t, disk, p).s, ch, Obj(written.value)).1
               == Some(out.(refreshHz := 0.0, screensaverMode := "BlackSS", sourceSelection := "NDI"))
  {
    hide Loaded, Written, OutputRead;
    var t := OutputSet(s, ch, out, file).0;
    LoadDropsCache(t, disk, p);
    WrittenIsRead(Loaded(t, disk, p).s, ch, out, File(file));
  }

  // The other fields of the file stay.
  lemma WrittenKeepsOthers(f: Documents, out: OutputConfig, key: string)
    requires key !in ["videooutput", "ScaleMode", "SourceName", "SourceIP", "output_alias", "rotation"]
    ensures key in Written(f, out) <==> key in f
    ensures key in f ==> Written(f, out)[key] == f[key]
  {}

  // ---------- runs ----------

  datatype Event =
    | Apply(request: Json, apply: AudioApply)
    | Load(disk: Disk)
    | GetOutput(ch: int, file: Json)
    | SetOutput(ch: int, out: OutputConfig, file: Json)
    | SetRuntimeIp(ip: string)

  ghost function Step(s: Settings, e: Event, p: Parsers): Settings {
    match e
    case Apply(request, apply) => ConfigModel.Applied(s, request, p, apply).0
    case Load(disk) => Loaded(s, disk, p).s
    case GetOutput(ch, file) => OutputGot(s, ch, file).0
    case SetOutput(ch, out, file) => OutputSet(s, ch, out, file).0
    case SetRuntimeIp(ip) => s.(device := s.device.(deviceIp := ip))
  }

  ghost function Run(s: Settings, events: seq<Event>, p: Parsers): Settings
    decreases |events|
  {
    if events == [] then s else Run(Step(s, events[0], p), events[1..], p)
  }

  predicate OutputsLive(s: Settings, outputs: map<int, OutputConfig>) {
    var first := FirstOutput(outputs);
    && s.outputs == outputs && s.sourceName == first.sourceName && s.sourceIp == first.sourceIp
    && s.decoder.screensaverMode == first.screensaverMode && s.decoder.sourceSelection == first.sourceSelection
  }

  predicate NdiLive(s: Settings, c: FollowerConfig.NdiConfig) {
    && s.transport == c.transport && s.finder == c.finder && s.groups == c.groups && s.offSubnetIps == c.offSubnetIps
    && s.decoder.tallyMode == c.tallyMode && s.decoder.colorSpace == c.colorSpace
  }

  predicate AudioLive(s: Settings, c: AudioConfig) {
    && s.device.audioEngine == c.engine && s.audio.graph == c.settings.graph
    && s.decoder.ndiAudio == (if c.primaryEnabled then "NDIAudioEn" else "NDIAudioDis")
  }

  // The live fields of each followed domain are those of its document.
  ghost predicate Live(s: Settings, p: Parsers) {
    && s.followed == s.documents.Keys && AllParse(p, s.documents)
    && (s.revision.applied <==> s.followed != {}) && (!s.revision.applied ==> s.revision.value == 0)
    && ("device" in s.followed ==> DeviceLive(s, p.device(s.documents["device"]).value))
    && ("outputs" in s.followed ==> OutputsLive(s, p.outputs(s.documents["outputs"]).value))
    && ("ndi" in s.followed ==> NdiLive(s, p.ndi(s.documents["ndi"]).value))
    && ("audio" in s.followed ==> AudioLive(s, p.audio(s.documents["audio"]).value))
    && ("display" in s.followed ==> p.display(s.documents["display"]).value == DisplayConfig(s.splash, s.osd))
    && ("network" in s.followed ==> s.network == p.network(s.documents["network"]).value)
  }

  lemma UntouchedLive(s: Settings, t: Settings, p: Parsers)
    requires Untouched(s, t) && Live(s, p)
    ensures Live(t, p)
  {}

  lemma LeavesTrans(a: Loading, b: Loading, c: Loading)
    requires Leaves(a, b) && Leaves(b, c)
    ensures Leaves(a, c)
  {}

  lemma FilesLeaveDomains(l: Loading, disk: Disk, p: Parsers)
    ensures Leaves(l, DecoderFileRead(l, File(disk.decoder)))
    ensures Leaves(l, NdiFilesRead(l, disk))
    ensures Leaves(l, DeviceFileRead(l, File(disk.device)))
    ensures Leaves(l, RestRead(l, disk, p))
  {
    hide DecoderAudioRead, DecoderOutputsRead, DecoderSelectionRead, DecoderSourceRead, DecoderNdiRead,
         TransportRead, FinderRead, DeviceModesRead, DeviceNamesRead, EngineRead,
         GroupRead, OffSubnetRead, SplashRead, OsdRead, Leaves;
    var f := File(disk.decoder);
    var a := DecoderAudioRead(l, f);
    var b := DecoderOutputsRead(a, f);
    var c := DecoderSelectionRead(b, f);
    var d := DecoderSourceRead(c, f);
    LeavesTrans(l, a, b);
    LeavesTrans(l, b, c);
    LeavesTrans(l, c, d);
    LeavesTrans(l, d, DecoderNdiRead(d, f));
    LeavesTrans(l, TransportRead(l, File(disk.transport)), NdiFilesRead(l, disk));
    var modes := DeviceModesRead(l, File(disk.device));
    var names := DeviceNamesRead(modes, File(disk.device));
    LeavesTrans(l, modes, names);
    LeavesTrans(l, names, DeviceFileRead(l, File(disk.device)));
    var g := GroupRead(l, File(disk.group));
    var o := OffSubnetRead(g, disk.ndi);
    var sp := SplashRead(o, File(disk.splash), p);
    LeavesTrans(l, g, o);
    LeavesTrans(l, o, sp);
    LeavesTrans(l, sp, OsdRead(sp, File(disk.osd)));
  }

  // Whatever the disk holds, and wherever reading stops, followed domains are left alone.
  lemma LoadLeaves(s: Settings, disk: Disk, p: Parsers)
    ensures FilesLeave(s, Loaded(s, disk, p).s)
    ensures Loaded(s, disk, p).s.outputs == if "outputs" in s.followed then s.outputs else map[]
  {
    hide DecoderFileRead, NdiFilesRead, DeviceFileRead, RestRead, FilesLeave;
    var start := Loading(if "outputs" in s.followed then s else s.(outputs := map[]), true);
    FilesLeaveDomains(start, disk, p);
    var a := DecoderFileRead(start, File(disk.decoder));
    FilesLeaveDomains(a, disk, p);
    var b := NdiFilesRead(a, disk);
    FilesLeaveDomains(b, disk, p);
    var c := DeviceFileRead(b, File(disk.device));
    FilesLeaveDomains(c, disk, p);
    StartLeaves(s, start.s);
    LeavesTrans(start, a, b);
    LeavesTrans(start, b, c);
    LeavesTrans(start, c, RestRead(c, disk, p));
    FilesLeaveTrans(s, start.s, Loaded(s, disk, p).s);
  }

  lemma StartLeaves(s: Settings, t: Settings)
    requires t == if "outputs" in s.followed then s else s.(outputs := map[])
    ensures FilesLeave(s, t)
  {}

  lemma FilesLeaveTrans(s: Settings, t: Settings, u: Settings)
    requires FilesLeave(s, t) && FilesLeave(t, u)
    ensures FilesLeave(s, u)
  {}

  lemma LoadDropsCache(s: Settings, disk: Disk, p: Parsers)
    requires "outputs" !in s.followed
    ensures Loaded(s, disk, p).s.outputs == map[] && "outputs" !in Loaded(s, disk, p).s.followed
  {
    LoadLeaves(s, disk, p);
  }

  lemma MergedParse(p: Parsers, d: Documents, e: Documents)
    requires AllParse(p, d) && AllParse(p, e)
    ensures AllParse(p, d + e)
  {}

  lemma TakenLive(s: Settings, p: Parsers, d: Documents, n: nat)
    requires Live(s, p) && AllParse(p, d) && d != map[]
    ensures Live(Taken(s, p, d, n), p)
  {
    hide AllParse, FaultOf, FirstOutput;
    MergedParse(p, s.documents, d);
    assert (s.documents + d).Keys == s.documents.Keys + d.Keys;
    assert exists key :: key in d.Keys;
  }

  lemma AppliedLive(s: Settings, request: Json, apply: AudioApply, p: Parsers)
    requires Live(s, p)
    ensures var t := ConfigModel.Applied(s, request, p, apply).0; Live(t, p) && s.followed <= t.followed
  {
    hide Live, Taken, AllParse, FaultsAmong, Consent;
    var domains := Domains(s.revision, request);
    if domains.Ok? {
      NoFaultsIff(p, domains.value);
      if AllParse(p, domains.value) {
        TakenLive(s, p, domains.value, s.revision.Check(request).value);
        TakenGrows(s, p, domains.value, s.revision.Check(request).value);
      }
    }
  }

  // Every step keeps the invariant, and ownership only grows.
  lemma StepLive(s: Settings, e: Event, p: Parsers)
    requires Live(s, p)
    ensures Live(Step(s, e, p), p) && s.followed <= Step(s, e, p).followed
  {
    hide Live, ConfigModel.Applied, Loaded, OutputRead, Written;
    match e
    case Apply(request, apply) => AppliedLive(s, request, apply, p);
    case Load(disk) =>
      LoadLeaves(s, disk, p);
      UntouchedLive(s, Step(s, e, p), p);
    case GetOutput(ch, file) => UntouchedLive(s, Step(s, e, p), p);
    case SetOutput(ch, out, file) => UntouchedLive(s, Step(s, e, p), p);
    case SetRuntimeIp(ip) => UntouchedLive(s, Step(s, e, p), p);
  }

  lemma TakenGrows(s: Settings, p: Parsers, d: Documents, n: nat)
    requires AllParse(p, d)
    ensures s.followed <= Taken(s, p, d, n).followed
  {}

  lemma {:induction false} RunLive(s: Settings, events: seq<Event>, p: Parsers)
    requires Live(s, p)
    ensures Live(Run(s, events, p), p) && s.followed <= Run(s, events, p).followed
    decreases |events|
  {
    if events != [] {
      StepLive(s, events[0], p);
      RunLive(Step(s, events[0], p), events[1..], p);
    }
  }

  // ---------- fields with a further owner ----------

  // The observed address is set_runtime_ip's alone, and the audio settings change only when they
  // are handed over, which stamps them with that revision.
  lemma OtherOwners(s: Settings, e: Event, p: Parsers)
    ensures Step(s, e, p).device.deviceIp == if e.SetRuntimeIp? then e.ip else s.device.deviceIp
    ensures Step(s, e, p).audio != s.audio ==>
              && e.Apply? && Domains(s.revision, e.request).Ok? && "audio" in Domains(s.revision, e.request).value
              && Step(s, e, p).revision == Revision(true, Step(s, e, p).audio.revision)
  {
    hide Loaded;
    if e.Load? { LoadLeaves(s, e.disk, p); }
  }

  // The video output of the device document.
  ghost predicate VideoOutputLive(s: Settings, p: Parsers)
    requires AllParse(p, s.documents)
  {
    "device" in s.documents ==> s.device.videoOutput == p.device(s.documents["device"]).value.videoOutput
  }

  // set_output writes the video output of output 1 even while the device domain is followed.
  // It stays the document's exactly if the call is not for output 1, is ignored because outputs
  // are followed too or its file is unusable, or asks for the same.
  lemma SetOutputKeepsDeviceIff(s: Settings, ch: int, out: OutputConfig, file: Json, p: Parsers)
    requires Live(s, p) && "device" in s.followed && VideoOutputLive(s, p)
    ensures VideoOutputLive(OutputSet(s, ch, out, file).0, p) <==>
              || ch != 1 || "outputs" in s.followed || (!Empty(file) && !file.Obj?)
              || out.preferredMode == p.device(s.documents["device"]).value.videoOutput
  {}

  predicate SetsOutputOne(e: Event) {
    e.SetOutput? && e.ch == 1
  }

  lemma StepKeepsVideoOutput(s: Settings, e: Event, p: Parsers)
    requires Live(s, p) && VideoOutputLive(s, p) && ("outputs" in s.followed || !SetsOutputOne(e))
    ensures Live(Step(s, e, p), p) && VideoOutputLive(Step(s, e, p), p)
  {
    hide Loaded, Live, DecoderTaken, FirstOutput;
    StepLive(s, e, p);
    assert s.followed == s.documents.Keys by { LiveFollows(s, p); }
    match e
    case Apply(request, apply) =>
      var domains := Domains(s.revision, request);
      if domains.Ok? { NoFaultsIff(p, domains.value); }
    case Load(disk) => LoadLeaves(s, disk, p);
    case _ =>
  }

  lemma LiveFollows(s: Settings, p: Parsers)
    requires Live(s, p)
    ensures s.followed == s.documents.Keys
  {}

  lemma DeviceHandedOver(p: Parsers, document: Json, apply: AudioApply)
    requires p.device(document).Ok?
    ensures var request := Obj(map["revision" := Int(1), "config" := Obj(map["device" := document])]);
            var s := ConfigModel.Applied(FRESH, request, p, apply).0;
            Live(s, p) && s.documents == map["device" := document] && VideoOutputLive(s, p)
  {
    hide Live, DecoderTaken;
    var d := map["device" := document];
    var request := Obj(map["revision" := Int(1), "config" := Obj(d)]);
    FreshIsLive(p);
    assert AllParse(p, d) && Hands(request, d, 1);
    AllOrNothing(FRESH, request, d, 1, p, apply);
    TakenLive(FRESH, p, d, 1);
    assert FRESH.documents + d == d;
  }

  // One request and one observation: a followed device with another video output than its document's.
  lemma SetOutputOverridesDevice(p: Parsers, document: Json, out: OutputConfig, apply: AudioApply)
    requires p.device(document).Ok? && out.preferredMode != p.device(document).value.videoOutput
    ensures var request := Obj(map["revision" := Int(1), "config" := Obj(map["device" := document])]);
            var s := Run(FRESH, [Apply(request, apply), SetOutput(1, out, Null)], p);
            Live(s, p) && "device" in s.followed && !VideoOutputLive(s, p)
  {
    hide Run, VideoOutputLive, ConfigModel.Applied;
    var request := Obj(map["revision" := Int(1), "config" := Obj(map["device" := document])]);
    DeviceHandedOver(p, document, apply);
    var s := ConfigModel.Applied(FRESH, request, p, apply).0;
    StepLive(s, SetOutput(1, out, Null), p);
    SetOutputKeepsDeviceIff(s, 1, out, Null, p);
    RunTwo(FRESH, Apply(request, apply), SetOutput(1, out, Null), p);
  }

  lemma RunTwo(s: Settings, e: Event, f: Event, p: Parsers)
    ensures Run(s, [e, f], p) == Step(Step(s, e, p), f, p)
  {
    hide Step;
    var t := Step(s, e, p);
    assert [e, f][1..] == [f] && [f][1..] == [];
    assert Run(t, [f], p) == Run(Step(t, f, p), [], p);
  }

  // In every run without set_output(1), or with the outputs followed, it stays the document's.
  lemma {:induction false} RunKeepsVideoOutput(s: Settings, events: seq<Event>, p: Parsers)
    requires Live(s, p) && VideoOutputLive(s, p)
    requires "outputs" in s.followed || forall i :: 0 <= i < |events| ==> !SetsOutputOne(events[i])
    ensures Live(Run(s, events, p), p) && VideoOutputLive(Run(s, events, p), p)
    decreases |events|
  {
    hide Live, VideoOutputLive, Step;
    if events != [] {
      StepKeepsVideoOutput(s, events[0], p);
      StepLive(s, events[0], p);
      RunKeepsVideoOutput(Step(s, events[0], p), events[1..], p);
    }
  }

  // ---------- snapshots ----------

  const FRESH := Settings(
    DecoderConfig(1, "NDIAudioEn", "BlackSS", "TallyOff", "YUV", "NDI"),
    FollowerConfig.TransportConfig("RUDP"), FollowerConfig.FinderConfig("NDIDisServDis", "", true, true),
    DeviceConfig("decode", "hdmi", "NDI Decoder", "", "", "", "v1", "auto"), "public",
    SplashConfig(
      map["bg_idle" := "#0D1B2A", "bg_live" := "#0D2B1A", "accent_idle" := "#4488CC", "accent_live" := "#22FF88",
          "logo_path" := "", "text_idle" := "No Signal", "text_live" := "Signal Available", "backdrop" := "gradient"],
      map["logo_x_pct" := 50.0, "logo_y_pct" := 50.0, "logo_w_pct" := 50.0, "text_height_pct" := 4.0],
      map["show_signal_text" := true, "show_device_name" := true, "show_device_url" := true, "show_sources_available" := true]),
    OsdConfig(false, ""), "", "", "", map[], {}, NO_REVISION, AudioSettings(0, Null), NetworkBinding(false, "", ""), map[])

  lemma FreshIsLive(p: Parsers)
    ensures Live(FRESH, p)
  {}

  // follower_snapshot()
  function Snapshot(s: Settings): Json {
    Obj(map["action" := Str("apply_config"), "revision" := Int(s.revision.value), "config" := Obj(s.documents)])
  }

  // A snapshot applied to a fresh configuration restores what is followed, at which revision, from
  // which documents, and every live field of it; only the revision the audio settings are stamped
  // with becomes the snapshot's.
  lemma SnapshotRestores(s: Settings, p: Parsers, apply: AudioApply)
    requires Live(s, p) && s.followed != {} && Consent(p, s.documents, s.revision.value, apply) == ""
    ensures var (t, response) := ConfigModel.Applied(FRESH, Snapshot(s), p, apply);
            && response == Accepted(s.revision.value)
            && t.followed == s.followed && t.revision == s.revision && t.documents == s.documents
            && SameOwned(s, t) && Live(t, p)
            && ("audio" in s.followed ==> t.audio == s.audio.(revision := s.revision.value))
  {
    FreshIsLive(p);
    assert s.documents != map[];
    assert Hands(Snapshot(s), s.documents, s.revision.value);
    AllOrNothing(FRESH, Snapshot(s), s.documents, s.revision.value, p, apply);
    RestoredFrom(s, p);
  }

  lemma RestoredFrom(s: Settings, p: Parsers)
    requires Live(s, p) && s.followed != {}
    ensures var t := Taken(FRESH, p, s.documents, s.revision.value);
            && t.followed == s.followed && t.revision == s.revision && t.documents == s.documents
            && SameOwned(s, t) && Live(t, p)
            && ("audio" in s.followed ==> t.audio == s.audio.(revision := s.revision.value))
  {
    hide AllParse, FaultOf, FirstOutput;
    FreshIsLive(p);
    assert s.documents != map[];
    TakenLive(FRESH, p, s.documents, s.revision.value);
    assert FRESH.documents + s.documents == s.documents;
  }

  // A snapshot of what follows nothing is refused: the exact limit of restoring.
  lemma SnapshotAcceptedIff(s: Settings, p: Parsers, apply: AudioApply)
    requires Live(s, p) && Consent(p, s.documents, s.revision.value, apply) == ""
    ensures ConfigModel.Applied(FRESH, Snapshot(s), p, apply).1.Accepted? <==> s.followed != {}
  {
    if s.followed != {} {
      SnapshotRestores(s, p, apply);
    } else {
      assert s.documents == map[];
      assert Domains(FRESH.revision, Snapshot(s)) == Err(NoDomains);
    }
  }
}
