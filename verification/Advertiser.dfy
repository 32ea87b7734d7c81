/** Registration with the Discovery Server: a background thread creates advertisers outside the
    control lock, while other threads change the address, the permission and the receiver. The
    SDK's side is explicit, and remembers any call that breaks its rules. */
module Advertiser {
  // ---------- the SDK ----------

  // Live handles, who is registered with whom and under which settings, and the handles destroyed.
  datatype Sdk = Sdk(next: nat, advertisers: map<nat, string>, receivers: set<nat>,
                     registrations: map<(nat, nat), (bool, string)>, ended: set<nat>, misused: bool)

  predicate Registered(k: Sdk, h: nat) {
    exists key :: key in k.registrations && (key.0 == h || key.1 == h)
  }

  function AdvertiserCreated(k: Sdk, url: string): Sdk {
    k.(next := k.next + 1, advertisers := k.advertisers[k.next := url])
  }

  function AdvertiserDestroyed(k: Sdk, h: nat): (j: Sdk)
    ensures j.next == k.next
  {
    if h in k.advertisers && !Registered(k, h) then k.(advertisers := k.advertisers - {h}, ended := k.ended + {h})
    else k.(misused := true)
  }

  function ReceiverCreated(k: Sdk): Sdk {
    k.(next := k.next + 1, receivers := k.receivers + {k.next})
  }

  function ReceiverDestroyed(k: Sdk, h: nat): (j: Sdk)
    ensures j.next == k.next
  {
    if h in k.receivers && !Registered(k, h) then k.(receivers := k.receivers - {h}, ended := k.ended + {h})
    else k.(misused := true)
  }

  function ReceiverAdded(k: Sdk, a: nat, r: nat, control: bool, input: string): (j: Sdk)
    ensures j.next == k.next
  {
    if a in k.advertisers && r in k.receivers && (a, r) !in k.registrations
    then k.(registrations := k.registrations[(a, r) := (control, input)])
    else k.(misused := true)
  }

  function ReceiverRemoved(k: Sdk, a: nat, r: nat): (j: Sdk)
    ensures j.next == k.next
  {
    if (a, r) in k.registrations then k.(registrations := k.registrations - {(a, r)}) else k.(misused := true)
  }

  // ---------- the receiver ----------

  // Where the advertiser thread is: between looks, creating outside the lock, or holding what it
  // created. Zero is no handle.
  datatype Thread = NotStarted | Looking | Creating(url: string) | Holding(url: string, handle: nat) | Waiting | Exited

  datatype Receiver = Receiver(server: string, advertise: bool, control: bool, input: string,
                               advertiser: nat, recv: nat, registered: bool,
                               thread: Thread, stop: bool, sdk: Sdk)

  const NEW := Receiver("", true, true, "", 0, 0, false, NotStarted, false, Sdk(1, map[], {}, map[], {}, false))

  function Enlisted(s: Receiver): (r: Receiver)
    ensures r == s.(registered := r.registered, sdk := r.sdk) && r.sdk.next == s.sdk.next
  {
    if s.advertiser == 0 || s.recv == 0 || s.registered || !s.advertise then s
    else s.(registered := true, sdk := ReceiverAdded(s.sdk, s.advertiser, s.recv, s.control, s.input))
  }

  function Delisted(s: Receiver): (r: Receiver)
    ensures r == s.(registered := false, sdk := r.sdk) && r.sdk.next == s.sdk.next
  {
    s.(registered := false,
       sdk := if s.advertiser != 0 && s.recv != 0 && s.registered then ReceiverRemoved(s.sdk, s.advertiser, s.recv) else s.sdk)
  }

  function WithoutAdvertiser(s: Receiver): (r: Receiver)
    ensures r == s.(registered := false, advertiser := 0, sdk := r.sdk) && r.sdk.next == s.sdk.next
  {
    var d := Delisted(s);
    if d.advertiser == 0 then d else d.(advertiser := 0, sdk := AdvertiserDestroyed(d.sdk, d.advertiser))
  }

  function WithoutRecv(s: Receiver): (r: Receiver)
    ensures r == s.(recv := 0, sdk := r.sdk) && r.sdk.next == s.sdk.next
  {
    if s.recv == 0 then s else s.(recv := 0, sdk := ReceiverDestroyed(s.sdk, s.recv))
  }

  // create_recv(), which the SDK may fail.
  function WithRecv(s: Receiver, works: bool): Receiver {
    if s.recv != 0 || !works then s else s.(recv := s.sdk.next, sdk := ReceiverCreated(s.sdk))
  }

  // The pieces other threads can see between: everything done while the control lock is held is one step.
  datatype Event =
    | Look
    | Create(answers: bool)
    | Install
    | Wake
    | SetAdvertising(advertise: bool, control: bool, input: string)
    | ReloadDiscovery(server: string)
    | Recreate(works: bool, reconnects: bool, worksNow: bool)
    | Connect(named: bool, works: bool)
    | InitRecv(works: bool)
    | Shutdown
    | Destroy

  function Looked(s: Receiver): Receiver {
    if s.thread != Looking then s
    else s.(thread := if s.advertise && s.server != "" && s.advertiser == 0 then Creating(s.server) else Waiting)
  }

  function CreateReturned(s: Receiver, answers: bool): Receiver {
    if !s.thread.Creating? then s
    else if answers then s.(thread := Holding(s.thread.url, s.sdk.next), sdk := AdvertiserCreated(s.sdk, s.thread.url))
    else s.(thread := Holding(s.thread.url, 0))
  }

  function Installed(s: Receiver): Receiver {
    if !s.thread.Holding? then s
    else
      var url, h, w := s.thread.url, s.thread.handle, s.(thread := Waiting);
      if h != 0 && s.advertise && s.advertiser == 0 && url == s.server then Enlisted(w.(advertiser := h))
      else if h != 0 then w.(sdk := AdvertiserDestroyed(w.sdk, h))
      else w
  }

  function Woken(s: Receiver): Receiver {
    if s.thread != Waiting then s else s.(thread := if s.stop then Exited else Looking)
  }

  function AdvertisingSet(s: Receiver, advertise: bool, control: bool, input: string): (r: Receiver)
    ensures r.recv == s.recv && r.thread == s.thread && (s.advertiser == 0 ==> r.advertiser == 0)
  {
    if advertise == s.advertise && control == s.control && input == s.input then s
    else
      var d := Delisted(s).(advertise := advertise, control := control, input := input);
      if advertise then Enlisted(d) else WithoutAdvertiser(d)
  }

  function DiscoveryReloaded(s: Receiver, server: string): (r: Receiver)
    ensures r.recv == s.recv && r.thread == s.thread && (s.advertiser == 0 ==> r.advertiser == 0)
  {
    if server == s.server then s else WithoutAdvertiser(s.(server := server))
  }

  // A reconnection creates the receiver if the first attempt failed, and does not register it.
  function Recreated(s: Receiver, works: bool, reconnects: bool, worksNow: bool): (r: Receiver)
    ensures r.thread == s.thread && r.advertiser == s.advertiser && (works && 0 < s.sdk.next ==> r.recv != 0)
  {
    var e := Enlisted(WithRecv(WithoutRecv(Delisted(s)), works));
    if reconnects then WithRecv(e, worksNow) else e
  }

  function Connected(s: Receiver, named: bool, works: bool): Receiver {
    if named then WithRecv(s, works) else s
  }

  function Initialized(s: Receiver, works: bool): Receiver {
    var e := WithRecv(s, works);
    if e.recv != 0 && e.thread == NotStarted then e.(thread := Looking) else e
  }

  // The end: the thread has been joined, then the advertiser and the receiver go.
  predicate Joined(s: Receiver) {
    s.stop && (s.thread == NotStarted || s.thread == Exited)
  }

  function Destroyed(s: Receiver): Receiver {
    if Joined(s) then WithoutRecv(WithoutAdvertiser(s)) else s
  }

  function Step(s: Receiver, e: Event): Receiver {
    match e
    case Look => Looked(s)
    case Create(answers) => CreateReturned(s, answers)
    case Install => Installed(s)
    case Wake => Woken(s)
    case SetAdvertising(advertise, control, input) => AdvertisingSet(s, advertise, control, input)
    case ReloadDiscovery(server) => DiscoveryReloaded(s, server)
    case Recreate(works, reconnects, worksNow) => Recreated(s, works, reconnects, worksNow)
    case Connect(named, works) => Connected(s, named, works)
    case InitRecv(works) => Initialized(s, works)
    case Shutdown => s.(stop := true)
    case Destroy => Destroyed(s)
  }

  function Run(s: Receiver, events: seq<Event>): Receiver
    decreases |events|
  {
    if events == [] then s else Run(Step(s, events[0]), events[1..])
  }

  // ---------- what every interleaving keeps ----------

  function Held(s: Receiver): nat {
    if s.thread.Holding? then s.thread.handle else 0
  }

  // The handles of the SDK: each one created is live or destroyed, never both, and a live one is of
  // one kind. Every SDK call keeps this.
  ghost predicate Counted(k: Sdk) {
    && 0 < k.next
    && (forall h :: 0 < h < k.next <==> h in k.ended || h in k.receivers || h in k.advertisers)
    && k.ended !! k.receivers && k.ended !! k.advertisers.Keys && k.receivers !! k.advertisers.Keys
  }

  lemma CallsKeepCounts(k: Sdk, h: nat, r: nat, url: string, control: bool, input: string)
    requires Counted(k)
    ensures Counted(AdvertiserCreated(k, url)) && Counted(AdvertiserDestroyed(k, h))
    ensures Counted(ReceiverCreated(k)) && Counted(ReceiverDestroyed(k, h))
    ensures Counted(ReceiverAdded(k, h, r, control, input)) && Counted(ReceiverRemoved(k, h, r))
  {}

  // An installed advertiser serves the current address and may advertise. What is registered is the
  // installed pair, under the current settings.
  ghost predicate Consistent(s: Receiver) {
    && (s.advertiser != 0 ==> s.advertise && s.server != "")
    && (s.thread.Creating? || s.thread.Holding? ==> s.thread.url != "")
    && (s.registered ==> s.advertiser != 0 && s.recv != 0)
    && s.sdk.registrations == if s.registered then map[(s.advertiser, s.recv) := (s.control, s.input)] else map[]
  }

  function Own(h: nat, url: string): map<nat, string> {
    if h != 0 then map[h := url] else map[]
  }

  // The SDK was never misused, and its live handles are the ones installed or in the thread's
  // hands, each advertiser under the address it was created for.
  ghost predicate Accounted(s: Receiver) {
    && !s.sdk.misused && Counted(s.sdk)
    && s.sdk.receivers == (if s.recv != 0 then {s.recv} else {})
    && s.sdk.advertisers == Own(s.advertiser, s.server) + (if s.thread.Holding? then Own(s.thread.handle, s.thread.url) else map[])
    && (s.advertiser != 0 ==> s.advertiser != Held(s))
  }

  ghost predicate Inv(s: Receiver) {
    Consistent(s) && Accounted(s)
  }

  lemma EnlistedKeeps(s: Receiver)
    requires Inv(s)
    ensures Inv(Enlisted(s))
  {}

  lemma DelistedKeeps(s: Receiver)
    requires Inv(s)
    ensures Inv(Delisted(s)) && Delisted(s).sdk.registrations == map[]
  {}

  lemma WithoutRecvKeeps(s: Receiver)
    requires Inv(s) && !s.registered
    ensures Inv(WithoutRecv(s))
  {}

  lemma WithRecvKeeps(s: Receiver, works: bool)
    requires Inv(s)
    ensures Inv(WithRecv(s, works))
  {}

  // Nothing registered, the advertiser goes, and the address or the settings may have changed.
  lemma AdvertiserGone(s: Receiver, t: Receiver)
    requires Inv(s) && !s.registered
    requires t == s.(server := t.server, advertise := t.advertise, control := t.control, input := t.input)
    ensures Inv(WithoutAdvertiser(t))
  {
    hide Counted;
    CallsKeepCounts(s.sdk, s.advertiser, 0, "", false, "");
  }

  lemma DiscoveryReloadedKeeps(s: Receiver, server: string)
    requires Inv(s)
    ensures Inv(DiscoveryReloaded(s, server))
  {
    hide Inv;
    DelistedKeeps(s);
    var d := Delisted(s);
    AdvertiserGone(d, d.(server := server));
    assert WithoutAdvertiser(s.(server := server)) == WithoutAdvertiser(d.(server := server));
  }

  lemma AdvertisingSetKeeps(s: Receiver, advertise: bool, control: bool, input: string)
    requires Inv(s)
    ensures Inv(AdvertisingSet(s, advertise, control, input))
  {
    DelistedKeeps(s);
    var d := Delisted(s);
    var t := d.(advertise := advertise, control := control, input := input);
    if advertise {
      assert Inv(t);
      EnlistedKeeps(t);
    } else {
      AdvertiserGone(d, t);
    }
  }

  lemma RecreatedKeeps(s: Receiver, works: bool, reconnects: bool, worksNow: bool)
    requires Inv(s)
    ensures Inv(Recreated(s, works, reconnects, worksNow))
  {
    hide Inv;
    DelistedKeeps(s);
    WithoutRecvKeeps(Delisted(s));
    var d := WithoutRecv(Delisted(s));
    WithRecvKeeps(d, works);
    EnlistedKeeps(WithRecv(d, works));
    WithRecvKeeps(Enlisted(WithRecv(d, works)), worksNow);
  }

  lemma CreateReturnedKeeps(s: Receiver, answers: bool)
    requires Inv(s)
    ensures Inv(CreateReturned(s, answers))
  {
    assert s.advertiser != 0 ==> s.advertiser in s.sdk.advertisers;
  }

  // What the thread holds becomes the advertiser.
  lemma TakenOver(s: Receiver)
    requires Inv(s) && Held(s) != 0 && s.advertise && s.advertiser == 0 && s.thread.url == s.server
    ensures Inv(s.(thread := Waiting, advertiser := Held(s)))
  {
    hide Counted;
  }

  lemma ThrownAway(s: Receiver)
    requires Inv(s) && Held(s) != 0
    ensures Inv(s.(thread := Waiting, sdk := AdvertiserDestroyed(s.sdk, Held(s))))
  {
    hide Counted, Registered;
    NotBoth(s);
    CallsKeepCounts(s.sdk, Held(s), 0, "", false, "");
    assert s.sdk.advertisers - {Held(s)} == Own(s.advertiser, s.server);
  }

  lemma NotBoth(s: Receiver)
    requires Inv(s) && Held(s) != 0
    ensures Held(s) != s.recv && !Registered(s.sdk, Held(s))
  {
    assert s.recv != 0 ==> s.recv in s.sdk.receivers;
    assert Held(s) in s.sdk.advertisers;
  }

  lemma InstalledKeeps(s: Receiver)
    requires Inv(s)
    ensures Inv(Installed(s))
  {
    hide Counted;
    if Held(s) != 0 {
      if s.advertise && s.advertiser == 0 && s.thread.url == s.server {
        TakenOver(s);
        EnlistedKeeps(s.(thread := Waiting, advertiser := Held(s)));
      } else {
        ThrownAway(s);
      }
    }
  }

  lemma DestroyedKeeps(s: Receiver)
    requires Inv(s)
    ensures Inv(Destroyed(s))
  {
    hide Inv;
    DelistedKeeps(s);
    AdvertiserGone(Delisted(s), Delisted(s));
    assert WithoutAdvertiser(s) == WithoutAdvertiser(Delisted(s));
    WithoutRecvKeeps(WithoutAdvertiser(s));
  }

  lemma StepKeeps(s: Receiver, e: Event)
    requires Inv(s)
    ensures Inv(Step(s, e))
  {
    hide Counted;
    match e
    case Create(answers) => CreateReturnedKeeps(s, answers);
    case Install => InstalledKeeps(s);
    case SetAdvertising(advertise, control, input) => AdvertisingSetKeeps(s, advertise, control, input);
    case ReloadDiscovery(server) => DiscoveryReloadedKeeps(s, server);
    case Recreate(works, reconnects, worksNow) => RecreatedKeeps(s, works, reconnects, worksNow);
    case Connect(named, works) => WithRecvKeeps(s, works);
    case InitRecv(works) => WithRecvKeeps(s, works);
    case Destroy => DestroyedKeeps(s);
    case _ =>
  }

  lemma {:induction false} RunKeeps(s: Receiver, events: seq<Event>)
    requires Inv(s)
    ensures Inv(Run(s, events))
    decreases |events|
  {
    if events != [] {
      StepKeeps(s, events[0]);
      RunKeeps(Step(s, events[0]), events[1..]);
    }
  }

  // Over every interleaving no SDK call breaks the rules: nothing is destroyed while registered or
  // twice, nothing registered twice or with a dead handle.
  lemma NeverMisused(events: seq<Event>)
    ensures var s := Run(NEW, events);
            && !s.sdk.misused
            && (s.advertiser != 0 ==> s.advertise && s.advertiser in s.sdk.advertisers && s.sdk.advertisers[s.advertiser] == s.server)
            && (s.registered ==> s.advertiser in s.sdk.advertisers && s.recv in s.sdk.receivers
                                 && s.sdk.registrations == map[(s.advertiser, s.recv) := (s.control, s.input)])
  {
    hide Run;
    RunKeeps(NEW, events);
  }

  // After the join and the final destruction, each handle ever created has been destroyed.
  lemma EverythingIsDestroyed(events: seq<Event>)
    requires Joined(Run(NEW, events))
    ensures var s := Run(NEW, events + [Destroy]);
            && !s.sdk.misused && s.sdk.registrations == map[] && s.sdk.advertisers == map[] && s.sdk.receivers == {}
            && (forall h :: 0 < h < s.sdk.next <==> h in s.sdk.ended)
  {
    RunKeeps(NEW, events);
    RunOneMore(NEW, events, Destroy);
    StepKeeps(Run(NEW, events), Destroy);
  }

  lemma {:induction false} RunOneMore(s: Receiver, events: seq<Event>, e: Event)
    ensures Run(s, events + [e]) == Step(Run(s, events), e)
    decreases |events|
  {
    hide Step;
    if events == [] {
      assert [] + [e] == [e] && [e][1..] == [];
    } else {
      RunOneMore(Step(s, events[0]), events[1..], e);
      assert (events + [e])[1..] == events[1..] + [e];
    }
  }

  // From wherever it is, one more round of the thread after the shutdown ends it, so the join returns.
  lemma ShutdownEndsThread(s: Receiver, answers: bool)
    requires s.thread != NotStarted
    ensures Joined(Woken(Installed(CreateReturned(Looked(s.(stop := true)), answers))))
  {}

  // ---------- where registration is missed ----------

  // Everything is there, and the receiver is not registered.
  predicate Missing(s: Receiver) {
    s.advertiser != 0 && s.recv != 0 && s.advertise && !s.registered
  }

  // A receiver created on the way to a source, or at the start, under an advertiser already there.
  predicate Misses(s: Receiver, e: Event) {
    && s.advertiser != 0 && s.advertise
    && match e
       case Recreate(works, reconnects, worksNow) => !works && reconnects && worksNow
       case Connect(named, works) => s.recv == 0 && named && works
       case InitRecv(works) => s.recv == 0 && works
       case _ => false
  }

  // Registration is missed exactly by those steps.
  lemma MissedIff(s: Receiver, e: Event)
    requires Inv(s) && !Missing(s)
    ensures Missing(Step(s, e)) <==> Misses(s, e)
  {
    NextIsNotZero(s);
    hide Accounted;
  }

  lemma NextIsNotZero(s: Receiver)
    requires Inv(s)
    ensures 0 < s.sdk.next
  {}

  // One run that does: the receiver stays invisible although everything it needs is there.
  lemma FailedRecreationLosesRegistration(server: string)
    requires server != ""
    ensures var events := [ReloadDiscovery(server), InitRecv(true), Look, Create(true), Install,
                           Recreate(false, true, true)];
            Missing(Run(NEW, events))
  {
    var a := Step(NEW, ReloadDiscovery(server));
    var b := Step(a, InitRecv(true));
    var c := Step(b, Look);
    var d := Step(c, Create(true));
    var e := Step(d, Install);
    assert e.advertiser != 0 && e.registered;
    RunKeeps(NEW, [ReloadDiscovery(server), InitRecv(true), Look, Create(true), Install]);
    RunSix(NEW, ReloadDiscovery(server), InitRecv(true), Look, Create(true), Install, Recreate(false, true, true));
  }

  lemma RunNothing(s: Receiver)
    ensures Run(s, []) == s
  {}

  lemma RunSix(s: Receiver, a: Event, b: Event, c: Event, d: Event, e: Event, f: Event)
    ensures Run(s, [a, b, c, d, e, f]) == Step(Step(Step(Step(Step(Step(s, a), b), c), d), e), f)
  {
    hide Step, Run;
    RunNothing(s);
    RunOneMore(s, [], a);
    RunOneMore(s, [a], b);
    RunOneMore(s, [a, b], c);
    RunOneMore(s, [a, b, c], d);
    RunOneMore(s, [a, b, c, d], e);
    RunOneMore(s, [a, b, c, d, e], f);
    assert [] + [a] == [a] && [a] + [b] == [a, b] && [a, b] + [c] == [a, b, c] && [a, b, c] + [d] == [a, b, c, d];
    assert [a, b, c, d] + [e] == [a, b, c, d, e] && [a, b, c, d, e] + [f] == [a, b, c, d, e, f];
  }

  predicate CreationsWork(e: Event) {
    match e
    case Recreate(works, _, _) => works
    case InitRecv(works) => works
    case Connect(named, works) => works
    case _ => true
  }

  // As long as the SDK creates every receiver asked for, an advertiser in place and permission to
  // use it mean that the receiver is registered.
  lemma {:induction false} RegisteredWhenItCanBe(s: Receiver, events: seq<Event>)
    requires Inv(s) && !Missing(s) && (s.thread != NotStarted ==> s.recv != 0) && (s.thread == NotStarted ==> s.advertiser == 0)
    requires forall i :: 0 <= i < |events| ==> CreationsWork(events[i]) && events[i] != Destroy
    ensures !Missing(Run(s, events))
    decreases |events|
  {
    if events != [] {
      StepKeeps(s, events[0]);
      MissedIff(s, events[0]);
      StaysThere(s, events[0]);
      RegisteredWhenItCanBe(Step(s, events[0]), events[1..]);
    }
  }

  lemma StaysThere(s: Receiver, e: Event)
    requires CreationsWork(e) && e != Destroy && 0 < s.sdk.next
    requires (s.thread != NotStarted ==> s.recv != 0) && (s.thread == NotStarted ==> s.advertiser == 0)
    ensures var t := Step(s, e); (t.thread != NotStarted ==> t.recv != 0) && (t.thread == NotStarted ==> t.advertiser == 0)
  {
    hide Enlisted, AdvertiserDestroyed, AdvertisingSet, DiscoveryReloaded, Recreated, Destroyed;
  }
}
