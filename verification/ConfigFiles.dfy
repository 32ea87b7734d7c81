/** What loading reads: every setting that no document owns becomes the value in its file, or the
    default; and what an output's settings are, before and after they are set. */
module ConfigFiles {
  import opened FollowerProtocol
  import opened Wrappers
  import opened ConfigModel
  import opened ConfigRuns

  import FollowerConfig

  // ---------- one value of a file ----------

  // An empty file says nothing; in any other, an absent value is its default.
  function Now(f: Documents, key: string, absent: string, before: string): string {
    if f == map[] then before else if key in f && f[key].Str? then f[key].s else absent
  }

  predicate TextOk(f: Documents, key: string) {
    key in f ==> f[key].Str?
  }

  predicate NumberOk(f: Documents, key: string) {
    key in f ==> f[key].Int? || f[key].Bool? || f[key].Real?
  }

  // Numbers are cut off towards zero.
  function NumberNow(f: Documents, key: string, absent: int, before: int): int {
    if f == map[] then before
    else if key !in f then absent
    else match f[key]
      case Int(i) => i
      case Bool(b) => if b then 1 else 0
      case Real(r) => if r < 0.0 then -(-r).Floor else r.Floor
      case _ => absent
  }

  // ---------- one file after the other ----------

  lemma DecoderAudioIs(l: Loading, f: Documents)
    requires l.ok
    ensures var r := DecoderAudioRead(l, f);
            if "audio" in l.s.followed then r == l
            else
              && (r.ok <==> TextOk(f, "NDIAudio"))
              && (r.ok ==> r.s == l.s.(decoder := l.s.decoder.(ndiAudio := Now(f, "NDIAudio", "NDIAudioEn", l.s.decoder.ndiAudio))))
  {}

  lemma DecoderOutputsIs(l: Loading, f: Documents)
    requires l.ok
    ensures var r, d := DecoderOutputsRead(l, f), l.s.decoder;
            if "outputs" in l.s.followed then r == l
            else
              && (r.ok <==> NumberOk(f, "ChNum") && TextOk(f, "ScreenSaverMode"))
              && (r.ok ==> r.s == l.s.(decoder := d.(chNum := NumberNow(f, "ChNum", 1, d.chNum),
                                                     screensaverMode := Now(f, "ScreenSaverMode", "BlackSS", d.screensaverMode))))
  {}

  lemma DecoderSelectionIs(l: Loading, f: Documents)
    requires l.ok
    ensures var r, d := DecoderSelectionRead(l, f), l.s.decoder;
            if "outputs" in l.s.followed then r == l
            else
              && (r.ok <==> TextOk(f, "SourceSelection"))
              && (r.ok ==> r.s == l.s.(decoder := d.(sourceSelection := Now(f, "SourceSelection", "NDI", d.sourceSelection))))
  {}

  lemma DecoderSourceIs(l: Loading, f: Documents)
    requires l.ok
    ensures var r := DecoderSourceRead(l, f);
            if "outputs" in l.s.followed then r == l
            else
              && (r.ok <==> TextOk(f, "SourceName") && TextOk(f, "SourceIP"))
              && (r.ok ==> r.s == l.s.(sourceName := Now(f, "SourceName", "", l.s.sourceName), sourceIp := Now(f, "SourceIP", "", l.s.sourceIp)))
  {}

  lemma DecoderNdiIs(l: Loading, f: Documents)
    requires l.ok
    ensures var r, d := DecoderNdiRead(l, f), l.s.decoder;
            if "ndi" in l.s.followed then r == l
            else
              && (r.ok <==> TextOk(f, "TallyMode") && TextOk(f, "ColorSpace"))
              && (r.ok ==> r.s == l.s.(decoder := d.(tallyMode := Now(f, "TallyMode", "TallyOff", d.tallyMode),
                                                  colorSpace := Now(f, "ColorSpace", "YUV", d.colorSpace))))
  {}

  lemma TransportIs(l: Loading, f: Documents)
    requires l.ok
    ensures var r := TransportRead(l, f);
            if "ndi" in l.s.followed then r == l
            else
              && (r.ok <==> TextOk(f, "Rxpm"))
              && (r.ok ==> r.s == l.s.(transport := FollowerConfig.TransportConfig(Now(f, "Rxpm", "RUDP", l.s.transport.rxpm))))
  {}

  lemma FinderIs(l: Loading, f: Documents)
    requires l.ok
    ensures var r, d := FinderRead(l, f), l.s.finder;
            if "ndi" in l.s.followed then r == l
            else
              && (r.ok <==> TextOk(f, "NDIDisServ") && TextOk(f, "NDIDisServIP"))
              && (r.ok ==> r.s == l.s.(finder := d.(serverMode := Now(f, "NDIDisServ", "NDIDisServDis", d.serverMode),
                                                    serverIp := Now(f, "NDIDisServIP", "", d.serverIp))))
  {}

  lemma DeviceModesAre(l: Loading, f: Documents)
    requires l.ok
    ensures var r, d := DeviceModesRead(l, f), l.s.device;
            if "device" in l.s.followed then r == l
            else
              && (r.ok <==> TextOk(f, "mode") && TextOk(f, "videooutput"))
              && (r.ok ==> r.s == l.s.(device := d.(mode := Now(f, "mode", "decode", d.mode),
                                                    videoOutput := Now(f, "videooutput", "hdmi", d.videoOutput))))
  {}

  lemma DeviceNamesAre(l: Loading, f: Documents)
    requires l.ok
    ensures var r, d := DeviceNamesRead(l, f), l.s.device;
            if "device" in l.s.followed then r == l
            else
              && (r.ok <==> TextOk(f, "ndi_recv_name") && TextOk(f, "decode_mode"))
              && (r.ok ==> r.s == l.s.(device := d.(ndiRecvName := Now(f, "ndi_recv_name", "", d.ndiRecvName),
                                                    decodeMode := Now(f, "decode_mode", "auto", d.decodeMode))))
  {}

  // Anything but "v2" is "v1".
  lemma EngineIs(l: Loading, f: Documents)
    requires l.ok
    ensures var r, d := EngineRead(l, f), l.s.device;
            if "audio" in l.s.followed then r == l
            else
              && (r.ok <==> TextOk(f, "audio_engine"))
              && (r.ok ==> r.s == l.s.(device := d.(audioEngine :=
                 if f == map[] then d.audioEngine else if Now(f, "audio_engine", "v1", "") == "v2" then "v2" else "v1")))
  {}

  lemma GroupsAre(l: Loading, f: Documents, j: Json)
    requires l.ok
    ensures var r := OffSubnetRead(GroupRead(l, f), j);
            if "ndi" in l.s.followed then r == l
            else
              && (r.ok <==> TextOk(f, "ndi_groups"))
              && (r.ok ==> r.s == l.s.(groups := Now(f, "ndi_groups", "public", l.s.groups),
                                    offSubnetIps := if j.Str? then j.s else l.s.offSubnetIps))
  {}

  lemma DisplayIs(l: Loading, disk: Disk, p: Parsers)
    requires l.ok
    ensures var r := OsdRead(SplashRead(l, File(disk.splash), p), File(disk.osd));
            var f, g := File(disk.splash), File(disk.osd);
            if "display" in l.s.followed then r == l
            else
              && (r.ok <==> (f != map[] ==> p.splashFile(l.s.splash, f).1) && ("enabled" in g ==> g["enabled"].Bool?) && TextOk(g, "text"))
              && (r.ok ==>
                 r.s == l.s.(splash := if f == map[] then l.s.splash else p.splashFile(l.s.splash, f).0,
                             osd := if g == map[] then l.s.osd
                                    else OsdConfig("enabled" in g && g["enabled"].b, Now(g, "text", "", ""))))
  {}

  // ---------- all of them ----------

  function Unless(followed: bool, f: Documents, key: string, absent: string, before: string): string {
    if followed then before else Now(f, key, absent, before)
  }

  predicate DecoderTyped(followed: set<string>, d: Documents) {
    && ("audio" !in followed ==> TextOk(d, "NDIAudio"))
    && ("outputs" !in followed ==>
          && NumberOk(d, "ChNum") && TextOk(d, "ScreenSaverMode") && TextOk(d, "SourceSelection")
          && TextOk(d, "SourceName") && TextOk(d, "SourceIP"))
    && ("ndi" !in followed ==> TextOk(d, "TallyMode") && TextOk(d, "ColorSpace"))
  }

  lemma DecoderFileIs(l: Loading, d: Documents)
    requires l.ok
    ensures var r, c := DecoderFileRead(l, d), l.s.decoder;
            var audio, outputs, ndi := "audio" in l.s.followed, "outputs" in l.s.followed, "ndi" in l.s.followed;
            && (r.ok <==> DecoderTyped(l.s.followed, d))
            && (r.ok ==>
                 r.s == l.s.(decoder := DecoderConfig(
                               if outputs then c.chNum else NumberNow(d, "ChNum", 1, c.chNum),
                               Unless(audio, d, "NDIAudio", "NDIAudioEn", c.ndiAudio),
                               Unless(outputs, d, "ScreenSaverMode", "BlackSS", c.screensaverMode),
                               Unless(ndi, d, "TallyMode", "TallyOff", c.tallyMode),
                               Unless(ndi, d, "ColorSpace", "YUV", c.colorSpace),
                               Unless(outputs, d, "SourceSelection", "NDI", c.sourceSelection)),
                             sourceName := Unless(outputs, d, "SourceName", "", l.s.sourceName),
                             sourceIp := Unless(outputs, d, "SourceIP", "", l.s.sourceIp)))
  {
    hide DecoderAudioRead, DecoderOutputsRead, DecoderSelectionRead, DecoderSourceRead, DecoderNdiRead,
         Now, TextOk, NumberOk, NumberNow, Leaves;
    DecoderAudioIs(l, d);
    var a := DecoderAudioRead(l, d);
    if !a.ok { return; }
    DecoderOutputsIs(a, d);
    var b := DecoderOutputsRead(a, d);
    if !b.ok { return; }
    DecoderSelectionIs(b, d);
    var c := DecoderSelectionRead(b, d);
    if !c.ok { return; }
    DecoderSourceIs(c, d);
    var e := DecoderSourceRead(c, d);
    if !e.ok { return; }
    DecoderNdiIs(e, d);
  }

  predicate DeviceTyped(followed: set<string>, v: Documents) {
    && ("device" !in followed ==> TextOk(v, "mode") && TextOk(v, "videooutput") && TextOk(v, "ndi_recv_name") && TextOk(v, "decode_mode"))
    && ("audio" !in followed ==> TextOk(v, "audio_engine"))
  }

  lemma DeviceFileIs(l: Loading, v: Documents)
    requires l.ok
    ensures var r, c := DeviceFileRead(l, v), l.s.device;
            var device := "device" in l.s.followed;
            && (r.ok <==> DeviceTyped(l.s.followed, v))
            && (r.ok ==>
                 r.s == l.s.(device := c.(mode := Unless(device, v, "mode", "decode", c.mode),
                                          videoOutput := Unless(device, v, "videooutput", "hdmi", c.videoOutput),
                                          ndiRecvName := Unless(device, v, "ndi_recv_name", "", c.ndiRecvName),
                                          decodeMode := Unless(device, v, "decode_mode", "auto", c.decodeMode),
                                          audioEngine := if "audio" in l.s.followed || v == map[] then c.audioEngine
                                                         else if Now(v, "audio_engine", "v1", "") == "v2" then "v2" else "v1")))
  {
    hide DeviceModesRead, DeviceNamesRead, EngineRead, Now, TextOk, Leaves;
    DeviceModesAre(l, v);
    var a := DeviceModesRead(l, v);
    if !a.ok { return; }
    DeviceNamesAre(a, v);
    var b := DeviceNamesRead(a, v);
    if !b.ok { return; }
    EngineIs(b, v);
  }

  // Every value in a file that counts has its type.
  predicate WellTyped(s: Settings, disk: Disk, p: Parsers) {
    var o := File(disk.osd);
    && DecoderTyped(s.followed, File(disk.decoder)) && DeviceTyped(s.followed, File(disk.device))
    && ("ndi" !in s.followed ==>
          && TextOk(File(disk.transport), "Rxpm") && TextOk(File(disk.finder), "NDIDisServ")
          && TextOk(File(disk.finder), "NDIDisServIP") && TextOk(File(disk.group), "ndi_groups"))
    && ("display" !in s.followed ==>
          && (File(disk.splash) != map[] ==> p.splashFile(s.splash, File(disk.splash)).1)
          && ("enabled" in o ==> o["enabled"].Bool?) && TextOk(o, "text"))
  }

  // The files as load() goes through them.
  function Halfway(s: Settings, disk: Disk): Loading {
    NdiFilesRead(DecoderFileRead(Loading(if "outputs" in s.followed then s else s.(outputs := map[]), true), File(disk.decoder)), disk)
  }

  lemma HalfwayIs(s: Settings, disk: Disk)
    ensures var l := Halfway(s, disk); var t, ndi := l.s, "ndi" in s.followed;
            var f, g := File(disk.transport), File(disk.finder);
            && (l.ok <==> DecoderTyped(s.followed, File(disk.decoder)) &&
                          (ndi || (TextOk(f, "Rxpm") && TextOk(g, "NDIDisServ") && TextOk(g, "NDIDisServIP"))))
            && (l.ok ==>
                 && t == s.(decoder := t.decoder, sourceName := t.sourceName, sourceIp := t.sourceIp, outputs := t.outputs,
                            transport := t.transport, finder := t.finder)
                 && t.outputs == (if "outputs" in s.followed then s.outputs else map[])
                 && t.transport.rxpm == Unless(ndi, f, "Rxpm", "RUDP", s.transport.rxpm)
                 && t.finder.serverMode == Unless(ndi, g, "NDIDisServ", "NDIDisServDis", s.finder.serverMode)
                 && t.finder.serverIp == Unless(ndi, g, "NDIDisServIP", "", s.finder.serverIp)
                 && t.sourceName == Unless("outputs" in s.followed, File(disk.decoder), "SourceName", "", s.sourceName)
                 && t.sourceIp == Unless("outputs" in s.followed, File(disk.decoder), "SourceIP", "", s.sourceIp)
                 && DecoderFrom(t.decoder, s.decoder, s.followed, File(disk.decoder)))
  {
    hide DecoderFileRead, TransportRead, FinderRead, File, Now, TextOk, NumberNow, DecoderTyped, Leaves;
    var a := Loading(if "outputs" in s.followed then s else s.(outputs := map[]), true);
    DecoderFileIs(a, File(disk.decoder));
    var b := DecoderFileRead(a, File(disk.decoder));
    if !b.ok { return; }
    TransportIs(b, File(disk.transport));
    var c := TransportRead(b, File(disk.transport));
    if !c.ok { return; }
    FinderIs(c, File(disk.finder));
  }

  ghost predicate DecoderFrom(c: DecoderConfig, before: DecoderConfig, followed: set<string>, d: Documents) {
    && c.chNum == (if "outputs" in followed then before.chNum else NumberNow(d, "ChNum", 1, before.chNum))
    && c.ndiAudio == Unless("audio" in followed, d, "NDIAudio", "NDIAudioEn", before.ndiAudio)
    && c.screensaverMode == Unless("outputs" in followed, d, "ScreenSaverMode", "BlackSS", before.screensaverMode)
    && c.tallyMode == Unless("ndi" in followed, d, "TallyMode", "TallyOff", before.tallyMode)
    && c.colorSpace == Unless("ndi" in followed, d, "ColorSpace", "YUV", before.colorSpace)
    && c.sourceSelection == Unless("outputs" in followed, d, "SourceSelection", "NDI", before.sourceSelection)
  }

  ghost predicate DeviceFrom(c: DeviceConfig, before: DeviceConfig, followed: set<string>, v: Documents) {
    && c.mode == Unless("device" in followed, v, "mode", "decode", before.mode)
    && c.videoOutput == Unless("device" in followed, v, "videooutput", "hdmi", before.videoOutput)
    && c.ndiRecvName == Unless("device" in followed, v, "ndi_recv_name", "", before.ndiRecvName)
    && c.decodeMode == Unless("device" in followed, v, "decode_mode", "auto", before.decodeMode)
    && c.audioEngine == (if "audio" in followed || v == map[] then before.audioEngine
                         else if Now(v, "audio_engine", "v1", "") == "v2" then "v2" else "v1")
    && c.deviceName == before.deviceName && c.hostName == before.hostName && c.deviceIp == before.deviceIp
  }

  lemma FailureEndsLoading(l: Loading, disk: Disk, p: Parsers)
    requires !l.ok
    ensures DeviceFileRead(l, File(disk.device)) == l && RestRead(l, disk, p) == l
  {
    hide DeviceModesRead, DeviceNamesRead, EngineRead, GroupRead, OffSubnetRead, SplashRead, OsdRead, File, Leaves;
  }

  // Loading succeeds exactly if every value that counts has its type. Then every setting of the
  // domains that are not followed is what its file says, or the default, and the others stay.
  lemma LoadedIs(s: Settings, disk: Disk, p: Parsers)
    ensures var l := Loaded(s, disk, p); var t, ndi := l.s, "ndi" in s.followed;
            && (l.ok <==> WellTyped(s, disk, p))
            && (l.ok ==>
                 && DecoderFrom(t.decoder, s.decoder, s.followed, File(disk.decoder))
                 && DeviceFrom(t.device, s.device, s.followed, File(disk.device))
                 && t.outputs == (if "outputs" in s.followed then s.outputs else map[])
                 && t.sourceName == Unless("outputs" in s.followed, File(disk.decoder), "SourceName", "", s.sourceName)
                 && t.sourceIp == Unless("outputs" in s.followed, File(disk.decoder), "SourceIP", "", s.sourceIp)
                 && t.transport.rxpm == Unless(ndi, File(disk.transport), "Rxpm", "RUDP", s.transport.rxpm)
                 && t.finder.serverMode == Unless(ndi, File(disk.finder), "NDIDisServ", "NDIDisServDis", s.finder.serverMode)
                 && t.finder.serverIp == Unless(ndi, File(disk.finder), "NDIDisServIP", "", s.finder.serverIp)
                 && t.groups == Unless(ndi, File(disk.group), "ndi_groups", "public", s.groups)
                 && t.offSubnetIps == (if !ndi && disk.ndi.Str? then disk.ndi.s else s.offSubnetIps))
            && (l.ok && "display" !in s.followed ==>
                 && t.splash == (if File(disk.splash) == map[] then s.splash else p.splashFile(s.splash, File(disk.splash)).0)
                 && (File(disk.osd) != map[] ==>
                       t.osd == OsdConfig("enabled" in File(disk.osd) && File(disk.osd)["enabled"].b, Now(File(disk.osd), "text", "", ""))))
  {
    hide DecoderFileRead, NdiFilesRead, DeviceFileRead, GroupRead, OffSubnetRead, SplashRead, OsdRead, File,
         Now, TextOk, DecoderTyped, DeviceTyped, DecoderFrom, Leaves;
    HalfwayIs(s, disk);
    var a := Halfway(s, disk);
    if !a.ok {
      FailureEndsLoading(a, disk, p);
      return;
    }
    DeviceFileIs(a, File(disk.device));
    var b := DeviceFileRead(a, File(disk.device));
    if !b.ok { return; }
    GroupsAre(b, File(disk.group), disk.ndi);
    var c := OffSubnetRead(GroupRead(b, File(disk.group)), disk.ndi);
    if !c.ok { return; }
    DisplayIs(c, disk, p);
  }

  // ---------- outputs ----------

  // An output that is read has the values of its own file, or the defaults; without a file, output 1
  // has the legacy settings of the device and the decoder. A value of another type is an exception.
  lemma OutputIs(s: Settings, ch: int, file: Json)
    requires ch !in s.outputs && "outputs" !in s.followed
    ensures var (t, got) := OutputGot(s, ch, file); var f := File(file);
            && (got.Some? <==>
                 f == map[] || (TextOk(f, "videooutput") && TextOk(f, "ScaleMode") && TextOk(f, "SourceName")
                                && TextOk(f, "SourceIP") && TextOk(f, "output_alias") && NumberOk(f, "rotation")))
            && (got.None? ==> t == s)
            && (got.Some? ==> t == s.(outputs := s.outputs[ch := got.value]))
            && (got.Some? && f != map[] ==>
                 got.value == OutputConfig(Now(f, "videooutput", "", ""), Now(f, "ScaleMode", "letterbox", ""),
                                           Now(f, "SourceName", "", ""), Now(f, "SourceIP", "", ""), Now(f, "output_alias", "", ""),
                                           NumberNow(f, "rotation", 0, 0) % 4294967296, 0.0, "BlackSS", "NDI"))
            && (got.Some? && f == map[] && ch == 1 ==>
                 got.value == OutputConfig(s.device.videoOutput, "letterbox", s.sourceName, s.sourceIp, "", 0, 0.0, "BlackSS", "NDI"))
            && (got.Some? && f == map[] && ch != 1 ==> got.value == OutputConfig("", "", "", "", "", 0, 0.0, "BlackSS", "NDI"))
  {
    hide File;
  }

  // What is set is what is got, without another look at the file; followed outputs are got from the
  // document, and one that is not in it is empty.
  lemma GotIsWhatIsSet(s: Settings, ch: int, out: OutputConfig, file: Json, later: Json)
    ensures "outputs" !in s.followed && (file == Null || file.Obj?) ==>
              var t := OutputSet(s, ch, out, file).0;
              && OutputGot(t, ch, later) == (t, Some(out))
              && (ch == 1 ==> t.sourceName == out.sourceName && t.sourceIp == out.sourceIp && t.device.videoOutput == out.preferredMode)
              && (ch != 1 ==> t == s.(outputs := s.outputs[ch := out]))
    ensures "outputs" in s.followed ==>
              && OutputSet(s, ch, out, file) == (s, None)
              && OutputGot(s, ch, later) == (s, Some(if ch in s.outputs then s.outputs[ch] else EMPTY_OUTPUT))
  {
    hide File, Written, OutputRead;
  }
}
