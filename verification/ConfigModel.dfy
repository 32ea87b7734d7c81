/** The decoder's settings under two owners: files on disk, and the control plane's documents, one
    per domain, which once accepted are never given back to disk. */
module ConfigModel {
  import opened FollowerProtocol
  import opened Wrappers
  import opened FollowerConfig

  datatype DecoderConfig = DecoderConfig(chNum: int, ndiAudio: string, screensaverMode: string,
                                         tallyMode: string, colorSpace: string, sourceSelection: string)
  datatype DeviceConfig = DeviceConfig(mode: string, videoOutput: string, deviceName: string, hostName: string,
                                       deviceIp: string, ndiRecvName: string, audioEngine: string, decodeMode: string)
  datatype OutputConfig = OutputConfig(preferredMode: string, scaleMode: string, sourceName: string, sourceIp: string,
                                       outputAlias: string, rotation: nat, refreshHz: real,
                                       screensaverMode: string, sourceSelection: string)
  datatype SplashConfig = SplashConfig(texts: map<string, string>, numbers: map<string, real>, toggles: map<string, bool>)
  datatype OsdConfig = OsdConfig(enabled: bool, text: string)
  datatype DisplayConfig = DisplayConfig(splash: SplashConfig, osd: OsdConfig)
  datatype AudioSettings = AudioSettings(revision: nat, graph: Json)
  datatype AudioConfig = AudioConfig(engine: string, settings: AudioSettings, primaryEnabled: bool)
  datatype NetworkBinding = NetworkBinding(managed: bool, ndi: string, management: string)

  const EMPTY_OUTPUT := OutputConfig("", "", "", "", "", 0, 0.0, "BlackSS", "NDI")

  type Documents = map<string, Json>

  // The field-by-field readers, of documents and of the splash file.
  datatype Parsers = Parsers(
    device: Json -> Result<DeviceConfig, string>,
    outputs: Json -> Result<map<int, OutputConfig>, string>,
    ndi: ParseNdi,
    audio: Json -> Result<AudioConfig, string>,
    display: Json -> Result<DisplayConfig, string>,
    network: Json -> Result<NetworkBinding, string>,
    splashFile: (SplashConfig, Documents) -> (SplashConfig, bool))

  datatype Settings = Settings(
    decoder: DecoderConfig, transport: TransportConfig, finder: FinderConfig, device: DeviceConfig,
    groups: string, splash: SplashConfig, osd: OsdConfig, sourceName: string, sourceIp: string,
    offSubnetIps: string, outputs: map<int, OutputConfig>, followed: set<string>, revision: Revision,
    audio: AudioSettings, network: NetworkBinding, documents: Documents)

  // ---------- handing over domains ----------

  function Failure<T>(r: Result<T, string>): Option<string> {
    match r
    case Ok(_) => None
    case Err(what) => Some(what)
  }

  function FaultOf(p: Parsers, key: string, doc: Json): Option<string> {
    if key == "device" then Failure(p.device(doc))
    else if key == "outputs" then Failure(p.outputs(doc))
    else if key == "ndi" then Failure(p.ndi(doc))
    else if key == "audio" then Failure(p.audio(doc))
    else if key == "display" then Failure(p.display(doc))
    else if key == "network" then Failure(p.network(doc))
    else Some("unknown follower domain")
  }

  ghost predicate AllParse(p: Parsers, d: Documents) {
    forall key :: key in d ==> FaultOf(p, key, d[key]) == None
  }

  function FaultsAmong(p: Parsers, d: Documents, keys: set<string>): set<Fault>
    requires keys <= d.Keys
  {
    set key | key in keys && FaultOf(p, key, d[key]).Some? :: BadDomain(key, FaultOf(p, key, d[key]).value)
  }

  lemma NoFaultsIff(p: Parsers, d: Documents)
    ensures FaultsAmong(p, d, d.Keys) == {} <==> AllParse(p, d)
  {
    if !AllParse(p, d) {
      var key :| key in d && FaultOf(p, key, d[key]).Some?;
      assert BadDomain(key, FaultOf(p, key, d[key]).value) in FaultsAmong(p, d, d.Keys);
    }
  }

  // parse_audio stamps the settings with the request's revision.
  function Audio(p: Parsers, doc: Json, n: nat): AudioConfig
    requires p.audio(doc).Ok?
  {
    var a := p.audio(doc).value;
    a.(settings := a.settings.(revision := n))
  }

  function FirstOutput(outputs: map<int, OutputConfig>): OutputConfig {
    if 1 in outputs then outputs[1] else EMPTY_OUTPUT
  }

  // The fields with more than one owner: decoder and device.
  function DecoderTaken(c: DecoderConfig, p: Parsers, d: Documents, n: nat): DecoderConfig
    requires AllParse(p, d)
  {
    var first := if "outputs" in d then FirstOutput(p.outputs(d["outputs"]).value)
                 else EMPTY_OUTPUT.(screensaverMode := c.screensaverMode, sourceSelection := c.sourceSelection);
    DecoderConfig(
      c.chNum,
      if "audio" !in d then c.ndiAudio else if Audio(p, d["audio"], n).primaryEnabled then "NDIAudioEn" else "NDIAudioDis",
      first.screensaverMode,
      if "ndi" in d then p.ndi(d["ndi"]).value.tallyMode else c.tallyMode,
      if "ndi" in d then p.ndi(d["ndi"]).value.colorSpace else c.colorSpace,
      first.sourceSelection)
  }

  function DeviceTaken(c: DeviceConfig, p: Parsers, d: Documents, n: nat): DeviceConfig
    requires AllParse(p, d)
  {
    var base := if "device" in d then p.device(d["device"]).value else c;
    base.(deviceIp := c.deviceIp, audioEngine := if "audio" in d then Audio(p, d["audio"], n).engine else c.audioEngine)
  }

  // The settings after the domains d are taken over at revision n.
  function Taken(s: Settings, p: Parsers, d: Documents, n: nat): Settings
    requires AllParse(p, d)
  {
    var outputs := if "outputs" in d then p.outputs(d["outputs"]).value else s.outputs;
    s.(decoder := DecoderTaken(s.decoder, p, d, n),
       device := DeviceTaken(s.device, p, d, n),
       outputs := outputs,
       sourceName := if "outputs" in d then FirstOutput(outputs).sourceName else s.sourceName,
       sourceIp := if "outputs" in d then FirstOutput(outputs).sourceIp else s.sourceIp,
       transport := if "ndi" in d then p.ndi(d["ndi"]).value.transport else s.transport,
       finder := if "ndi" in d then p.ndi(d["ndi"]).value.finder else s.finder,
       groups := if "ndi" in d then p.ndi(d["ndi"]).value.groups else s.groups,
       offSubnetIps := if "ndi" in d then p.ndi(d["ndi"]).value.offSubnetIps else s.offSubnetIps,
       audio := if "audio" in d then Audio(p, d["audio"], n).settings else s.audio,
       splash := if "display" in d then p.display(d["display"]).value.splash else s.splash,
       osd := if "display" in d then p.display(d["display"]).value.osd else s.osd,
       network := if "network" in d then p.network(d["network"]).value else s.network,
       followed := s.followed + d.Keys, documents := s.documents + d, revision := s.revision.Commit(n))
  }

  // The domains of a request, or why there are none.
  function Domains(v: Revision, request: Json): Result<Documents, Fault> {
    match v.Check(request)
    case Err(fault) => Err(fault)
    case Ok(_) =>
      match At(request, "config")
      case Err(fault) => Err(fault)
      case Ok(config) => if !config.Obj? || config.fields == map[] then Err(NoDomains) else Ok(config.fields)
  }

  // What the audio engine says to new settings; "" is consent.
  type AudioApply = AudioSettings -> string

  ghost function Consent(p: Parsers, d: Documents, n: nat, apply: AudioApply): string
    requires AllParse(p, d)
  {
    if "audio" in d then apply(Audio(p, d["audio"], n).settings) else ""
  }

  ghost function Handed(s: Settings, d: Documents, n: nat, p: Parsers, apply: AudioApply): (Settings, Response) {
    var faults := FaultsAmong(p, d, d.Keys);
    NoFaultsIff(p, d);
    if faults != {} then (s, Refused(faults))
    else if Consent(p, d, n, apply) != "" then (s, Refused({AudioRefused(Consent(p, d, n, apply))}))
    else (Taken(s, p, d, n), Accepted(n))
  }

  ghost function Applied(s: Settings, request: Json, p: Parsers, apply: AudioApply): (Settings, Response) {
    match Domains(s.revision, request)
    case Err(fault) => (s, Refused({fault}))
    case Ok(d) => Handed(s, d, s.revision.Check(request).value, p, apply)
  }

  // A request for the domains d at revision n.
  ghost predicate Hands(request: Json, d: Documents, n: nat) {
    d != map[] && Carries(request, n, Obj(d))
  }

  // A request is accepted exactly if its revision passes and every domain is known, parses and is
  // taken by the audio engine; otherwise nothing changes, however many domains were good.
  lemma AllOrNothing(s: Settings, request: Json, d: Documents, n: nat, p: Parsers, apply: AudioApply)
    requires Hands(request, d, n)
    ensures var (t, response) := Applied(s, request, p, apply);
            if (!s.revision.applied || s.revision.value <= n || Resets(request)) && AllParse(p, d) && Consent(p, d, n, apply) == ""
            then response == Accepted(n) && t == Taken(s, p, d, n)
            else response.Refused? && t == s
  {
    CheckIff(s.revision, request, n, Obj(d));
    NoFaultsIff(p, d);
  }

  // The same told from the documents: which domains there are, which reader each has, and what the
  // audio engine is asked.
  lemma AcceptedIff(s: Settings, request: Json, d: Documents, n: nat, p: Parsers, apply: AudioApply)
    requires Hands(request, d, n)
    ensures Applied(s, request, p, apply).1.Accepted? <==>
              && (s.revision.applied && n < s.revision.value ==> Resets(request))
              && d.Keys <= {"device", "outputs", "ndi", "audio", "display", "network"}
              && ("device" in d ==> p.device(d["device"]).Ok?)
              && ("outputs" in d ==> p.outputs(d["outputs"]).Ok?)
              && ("ndi" in d ==> p.ndi(d["ndi"]).Ok?)
              && ("display" in d ==> p.display(d["display"]).Ok?)
              && ("network" in d ==> p.network(d["network"]).Ok?)
              && ("audio" in d ==>
                    p.audio(d["audio"]).Ok? && apply(AudioSettings(n, p.audio(d["audio"]).value.settings.graph)) == "")
  {
    AllOrNothing(s, request, d, n, p, apply);
    hide Applied, Taken;
    KnownAndRead(p, d);
  }

  lemma KnownAndRead(p: Parsers, d: Documents)
    ensures AllParse(p, d) <==>
              && d.Keys <= {"device", "outputs", "ndi", "audio", "display", "network"}
              && ("device" in d ==> p.device(d["device"]).Ok?) && ("outputs" in d ==> p.outputs(d["outputs"]).Ok?)
              && ("ndi" in d ==> p.ndi(d["ndi"]).Ok?) && ("audio" in d ==> p.audio(d["audio"]).Ok?)
              && ("display" in d ==> p.display(d["display"]).Ok?) && ("network" in d ==> p.network(d["network"]).Ok?)
  {
    if AllParse(p, d) {
      forall key | key in d ensures key in {"device", "outputs", "ndi", "audio", "display", "network"} {
        assert FaultOf(p, key, d[key]) == None;
      }
    }
  }

  // What is not handed over stays: every field of the other domains, and what no document owns.
  lemma TakenLeaves(s: Settings, p: Parsers, d: Documents, n: nat)
    requires AllParse(p, d)
    ensures var t := Taken(s, p, d, n);
            && t.device.deviceIp == s.device.deviceIp && t.decoder.chNum == s.decoder.chNum
            && ("device" !in d ==> t.device == s.device.(audioEngine := t.device.audioEngine))
            && ("audio" !in d ==>
                 t.device.audioEngine == s.device.audioEngine && t.decoder.ndiAudio == s.decoder.ndiAudio && t.audio == s.audio)
            && ("outputs" !in d ==>
                 && t.outputs == s.outputs && t.sourceName == s.sourceName && t.sourceIp == s.sourceIp
                 && t.decoder.screensaverMode == s.decoder.screensaverMode && t.decoder.sourceSelection == s.decoder.sourceSelection)
            && ("ndi" !in d ==>
                 && t.transport == s.transport && t.finder == s.finder && t.groups == s.groups
                 && t.offSubnetIps == s.offSubnetIps
                 && t.decoder.tallyMode == s.decoder.tallyMode && t.decoder.colorSpace == s.decoder.colorSpace)
            && ("display" !in d ==> t.splash == s.splash && t.osd == s.osd)
            && ("network" !in d ==> t.network == s.network)
            && t.revision == Revision(true, n) && t.followed == s.followed + d.Keys && t.documents == s.documents + d
  {}

  // What is handed over takes effect at once, whatever was there before.
  lemma TakenTakes(s: Settings, p: Parsers, d: Documents, n: nat)
    requires AllParse(p, d)
    ensures var t := Taken(s, p, d, n);
            && ("device" in d ==>
                 var c := p.device(d["device"]).value;
                 t.device == c.(deviceIp := s.device.deviceIp, audioEngine := t.device.audioEngine))
            && ("outputs" in d ==>
                 var o := p.outputs(d["outputs"]).value;
                 && t.outputs == o && t.sourceName == (if 1 in o then o[1].sourceName else "")
                 && t.sourceIp == (if 1 in o then o[1].sourceIp else "")
                 && t.decoder.screensaverMode == (if 1 in o then o[1].screensaverMode else "BlackSS")
                 && t.decoder.sourceSelection == (if 1 in o then o[1].sourceSelection else "NDI"))
            && ("ndi" in d ==>
                 var c := p.ndi(d["ndi"]).value;
                 && t.transport == c.transport && t.finder == c.finder && t.groups == c.groups
                 && t.offSubnetIps == c.offSubnetIps
                 && t.decoder.tallyMode == c.tallyMode && t.decoder.colorSpace == c.colorSpace)
            && ("audio" in d ==>
                 var c := p.audio(d["audio"]).value;
                 && t.device.audioEngine == c.engine && t.audio == AudioSettings(n, c.settings.graph)
                 && t.decoder.ndiAudio == (if c.primaryEnabled then "NDIAudioEn" else "NDIAudioDis"))
            && ("display" in d ==> p.display(d["display"]).value == DisplayConfig(t.splash, t.osd))
            && ("network" in d ==> t.network == p.network(d["network"]).value)
  {
    KnownAndRead(p, d);
  }

  // ---------- handovers commute ----------

  ghost predicate Agree(d: Documents, e: Documents) {
    forall key :: key in d && key in e ==> d[key] == e[key]
  }

  lemma DeviceMerges(c: DeviceConfig, p: Parsers, d: Documents, e: Documents, n: nat)
    requires AllParse(p, d) && AllParse(p, e) && Agree(d, e)
    ensures AllParse(p, d + e)
    ensures DeviceTaken(DeviceTaken(c, p, d, n), p, e, n) == DeviceTaken(c, p, d + e, n)
  {}

  lemma DecoderMerges(c: DecoderConfig, p: Parsers, d: Documents, e: Documents, n: nat)
    requires AllParse(p, d) && AllParse(p, e) && Agree(d, e)
    ensures AllParse(p, d + e)
    ensures DecoderTaken(DecoderTaken(c, p, d, n), p, e, n) == DecoderTaken(c, p, d + e, n)
  {}

  // Two handovers at one revision are the handover of both.
  lemma TakenMerges(s: Settings, p: Parsers, d: Documents, e: Documents, n: nat)
    requires AllParse(p, d) && AllParse(p, e) && Agree(d, e)
    ensures AllParse(p, d + e)
    ensures Taken(Taken(s, p, d, n), p, e, n) == Taken(s, p, d + e, n)
  {
    hide DeviceTaken, DecoderTaken, FaultOf, FirstOutput, AllParse;
    DeviceMerges(s.device, p, d, e, n);
    DecoderMerges(s.decoder, p, d, e, n);
    KeysMerge(s.documents, s.followed, d, e);
  }

  lemma KeysMerge(documents: Documents, followed: set<string>, d: Documents, e: Documents)
    ensures documents + d + e == documents + (d + e)
    ensures followed + d.Keys + e.Keys == followed + (d + e).Keys
  {}

  ghost function AppliedAll(s: Settings, requests: seq<Json>, p: Parsers, apply: AudioApply): Settings
    decreases |requests|
  {
    if requests == [] then s else AppliedAll(Applied(s, requests[0], p, apply).0, requests[1..], p, apply)
  }

  // The documents of a list of handovers, all parts of one whole.
  ghost function Union(parts: seq<Documents>): (u: Documents) {
    if parts == [] then map[] else parts[0] + Union(parts[1..])
  }

  ghost predicate PartOf(d: Documents, whole: Documents) {
    d.Keys <= whole.Keys && Agree(d, whole)
  }

  ghost predicate HandsParts(requests: seq<Json>, parts: seq<Documents>, whole: Documents, n: nat) {
    |parts| == |requests| && forall i :: 0 <= i < |requests| ==> Hands(requests[i], parts[i], n) && PartOf(parts[i], whole)
  }

  // What lets all parts be accepted.
  ghost predicate Acceptable(s: Settings, whole: Documents, n: nat, p: Parsers, apply: AudioApply) {
    (s.revision.applied ==> s.revision.value <= n) && AllParse(p, whole) && Consent(p, whole, n, apply) == ""
  }

  lemma {:induction false} UnionIsPart(parts: seq<Documents>, whole: Documents)
    requires forall i :: 0 <= i < |parts| ==> PartOf(parts[i], whole)
    ensures PartOf(Union(parts), whole)
  {
    if parts != [] {
      UnionIsPart(parts[1..], whole);
    }
  }

  lemma {:induction false} PartsMerge(s: Settings, requests: seq<Json>, parts: seq<Documents>, whole: Documents,
                                      n: nat, p: Parsers, apply: AudioApply)
    requires requests != [] && HandsParts(requests, parts, whole, n) && Acceptable(s, whole, n, p, apply)
    ensures AllParse(p, Union(parts)) && AppliedAll(s, requests, p, apply) == Taken(s, p, Union(parts), n)
    decreases |requests|
  {
    hide Taken, Consent, Hands, FaultsAmong, FaultOf, Applied;
    UnionIsPart(parts, whole);
    var d, t := parts[0], Applied(s, requests[0], p, apply).0;
    assert Hands(requests[0], d, n) && PartOf(d, whole);
    PartAccepted(s, requests[0], d, whole, n, p, apply);
    if |requests| == 1 {
      assert parts[1..] == [] && Union(parts) == d;
      assert AppliedAll(s, requests, p, apply) == AppliedAll(t, requests[1..], p, apply) == t;
    } else {
      var rest := parts[1..];
      assert HandsParts(requests[1..], rest, whole, n);
      PartsMerge(t, requests[1..], rest, whole, n, p, apply);
      UnionIsPart(rest, whole);
      TakenMerges(s, p, d, Union(rest), n);
    }
  }

  lemma PartAccepted(s: Settings, request: Json, d: Documents, whole: Documents, n: nat, p: Parsers, apply: AudioApply)
    requires Hands(request, d, n) && PartOf(d, whole) && Acceptable(s, whole, n, p, apply)
    ensures AllParse(p, d) && Applied(s, request, p, apply) == (Taken(s, p, d, n), Accepted(n))
    ensures Acceptable(Taken(s, p, d, n), whole, n, p, apply)
  {
    AllOrNothing(s, request, d, n, p, apply);
  }

  // Handing over the domains of one document in separate requests, in any order, in any grouping
  // and with retries, ends in the state that one request with all of them gives.
  lemma AnyOrderAnyGrouping(s: Settings, requests: seq<Json>, parts: seq<Documents>, whole: Documents, single: Json,
                            n: nat, p: Parsers, apply: AudioApply)
    requires requests != [] && HandsParts(requests, parts, whole, n) && Acceptable(s, whole, n, p, apply)
    requires Union(parts).Keys == whole.Keys && Hands(single, whole, n)
    ensures AppliedAll(s, requests, p, apply) == Applied(s, single, p, apply).0
    ensures Applied(s, single, p, apply).1 == Accepted(n)
  {
    PartsMerge(s, requests, parts, whole, n, p, apply);
    UnionIsPart(parts, whole);
    assert Union(parts) == whole;
    AllOrNothing(s, single, whole, n, p, apply);
  }

  // An accepted request sent again changes nothing.
  lemma ReplayIsIdempotent(s: Settings, request: Json, d: Documents, n: nat, p: Parsers, apply: AudioApply)
    requires Hands(request, d, n) && Applied(s, request, p, apply).1.Accepted?
    ensures var t := Applied(s, request, p, apply).0; Applied(t, request, p, apply) == (t, Accepted(n))
  {
    AllOrNothing(s, request, d, n, p, apply);
    var t := Taken(s, p, d, n);
    AllOrNothing(t, request, d, n, p, apply);
    TakenMerges(s, p, d, d, n);
    assert d + d == d;
  }
}
