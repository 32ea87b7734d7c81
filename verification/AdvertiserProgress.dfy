/** What the creating thread and the control operations achieve: the thread ends a round with an
    advertiser in place whenever one is wanted, and each command has the effect it is for. */
module AdvertiserProgress {
  import opened Advertiser

  // ---------- the thread ----------

  // An advertiser is wanted and not there.
  predicate Wanted(s: Receiver) {
    !s.stop && s.advertise && s.server != "" && s.advertiser == 0
  }

  // An advertiser created for this server is installed, and with a receiver, that is registered.
  ghost predicate InPlace(s: Receiver, server: string) {
    && s.server == server && s.advertiser in s.sdk.advertisers && s.sdk.advertisers[s.advertiser] == server
    && s.advertiser != 0 && s.thread == Waiting
    && (s.recv != 0 ==> s.registered && s.sdk.registrations == map[(s.advertiser, s.recv) := (s.control, s.input)])
  }

  // What other threads may do meanwhile: anything that keeps the address and the permission.
  predicate Harmless(e: Event, server: string) {
    match e
    case SetAdvertising(advertise, _, _) => advertise
    case ReloadDiscovery(address) => address == server
    case Recreate(_, _, _) => true
    case Connect(_, _) => true
    case InitRecv(_) => true
    case _ => false
  }

  predicate AllHarmless(events: seq<Event>, server: string) {
    forall i :: 0 <= i < |events| ==> Harmless(events[i], server)
  }

  lemma HarmlessKeeps(s: Receiver, e: Event)
    requires Inv(s) && Wanted(s) && s.thread != NotStarted && Harmless(e, s.server)
    ensures var t := Step(s, e); Inv(t) && Wanted(t) && t.thread == s.thread && t.server == s.server
  {
    StepKeeps(s, e);
    hide Inv;
  }

  lemma {:induction false} HarmlessRunKeeps(s: Receiver, events: seq<Event>)
    requires Inv(s) && Wanted(s) && s.thread != NotStarted && AllHarmless(events, s.server)
    ensures var t := Run(s, events); Inv(t) && Wanted(t) && t.thread == s.thread && t.server == s.server
    decreases |events|
  {
    hide Inv, Wanted, Step;
    if events != [] {
      HarmlessKeeps(s, events[0]);
      HarmlessRunKeeps(Step(s, events[0]), events[1..]);
    }
  }

  // Other threads do what they like, then the creating thread takes a step.
  function Then(s: Receiver, others: seq<Event>, e: Event): Receiver {
    Step(Run(s, others), e)
  }

  lemma Installs(s: Receiver, others: seq<Event>)
    requires Inv(s) && Wanted(s) && s.thread.Holding? && s.thread.handle != 0 && s.thread.url == s.server
    requires AllHarmless(others, s.server)
    ensures InPlace(Then(s, others, Install), s.server)
  {
    HarmlessRunKeeps(s, others);
    StepKeeps(Run(s, others), Install);
    hide Run;
  }

  lemma Creates(s: Receiver, others: seq<Event>, others': seq<Event>)
    requires Inv(s) && Wanted(s) && s.thread == Creating(s.server)
    requires AllHarmless(others, s.server) && AllHarmless(others', s.server)
    ensures InPlace(Then(Then(s, others, Create(true)), others', Install), s.server)
  {
    HarmlessRunKeeps(s, others);
    var t := Run(s, others);
    StepKeeps(t, Create(true));
    NextIsNotZero(t);
    hide Run, Inv;
    Installs(Step(t, Create(true)), others');
  }

  // A thread about to look ends the round with an advertiser in place, if the SDK creates one.
  lemma LookingThreadInstalls(s: Receiver, a: seq<Event>, b: seq<Event>, c: seq<Event>)
    requires Inv(s) && Wanted(s) && s.thread == Looking
    requires AllHarmless(a, s.server) && AllHarmless(b, s.server) && AllHarmless(c, s.server)
    ensures InPlace(Then(Then(Then(s, a, Look), b, Create(true)), c, Install), s.server)
  {
    HarmlessRunKeeps(s, a);
    var t := Run(s, a);
    StepKeeps(t, Look);
    hide Run, Inv;
    Creates(Step(t, Look), b, c);
  }

  // A waiting thread wakes up and does the same: no advertiser is forgotten, whatever happened before.
  lemma WaitingThreadInstalls(s: Receiver, w: seq<Event>, a: seq<Event>, b: seq<Event>, c: seq<Event>)
    requires Inv(s) && Wanted(s) && s.thread == Waiting && AllHarmless(w, s.server)
    requires AllHarmless(a, s.server) && AllHarmless(b, s.server) && AllHarmless(c, s.server)
    ensures InPlace(Then(Then(Then(Then(s, w, Wake), a, Look), b, Create(true)), c, Install), s.server)
  {
    HarmlessRunKeeps(s, w);
    var t := Run(s, w);
    StepKeeps(t, Wake);
    hide Run, Inv;
    LookingThreadInstalls(Step(t, Wake), a, b, c);
  }

  // A thread that is creating ends its round with the advertiser in place, or, if what comes is for
  // another address or nothing, waiting for the next one, with nothing of it left.
  lemma CreatingThreadRetries(s: Receiver, answers: bool, a: seq<Event>, b: seq<Event>)
    requires Inv(s) && Wanted(s) && s.thread.Creating?
    requires AllHarmless(a, s.server) && AllHarmless(b, s.server)
    ensures var t := Then(Then(s, a, Create(answers)), b, Install);
            if answers && s.thread.url == s.server then InPlace(t, s.server)
            else Inv(t) && Wanted(t) && t.thread == Waiting && t.server == s.server && t.sdk.advertisers == map[]
  {
    HarmlessRunKeeps(s, a);
    var t := Run(s, a);
    StepKeeps(t, Create(answers));
    NextIsNotZero(t);
    hide Run, Inv;
    HoldingThreadRetries(Step(t, Create(answers)), b);
  }

  lemma HoldingThreadRetries(s: Receiver, others: seq<Event>)
    requires Inv(s) && Wanted(s) && s.thread.Holding? && AllHarmless(others, s.server)
    ensures var t := Then(s, others, Install);
            if s.thread.handle != 0 && s.thread.url == s.server then InPlace(t, s.server)
            else Inv(t) && Wanted(t) && t.thread == Waiting && t.server == s.server && t.sdk.advertisers == map[]
  {
    if s.thread.handle != 0 && s.thread.url == s.server {
      Installs(s, others);
    } else {
      HarmlessRunKeeps(s, others);
      var t := Run(s, others);
      StepKeeps(t, Install);
      hide Run, AdvertiserDestroyed;
    }
  }

  // ---------- the end ----------

  // The thread exits exactly when it wakes up after a shutdown, and only a shutdown sets the flag.
  lemma ExitsIff(s: Receiver, e: Event)
    requires s.thread != Exited
    ensures Step(s, e).thread == Exited <==> s.thread == Waiting && e == Wake && s.stop
    ensures Step(s, e).stop <==> s.stop || e == Shutdown
  {
    hide AdvertisingSet, DiscoveryReloaded, Recreated, Destroyed, Enlisted, AdvertiserDestroyed;
    match e
    case SetAdvertising(advertise, control, input) => SettingsLeaveThread(s, advertise, control, input);
    case ReloadDiscovery(server) => ReloadLeavesThread(s, server);
    case Recreate(works, reconnects, worksNow) => RecreationLeavesThread(s, works, reconnects, worksNow);
    case Destroy => ReloadLeavesThread(s, s.server);
    case _ =>
  }

  lemma SettingsLeaveThread(s: Receiver, advertise: bool, control: bool, input: string)
    ensures var t := AdvertisingSet(s, advertise, control, input); t.thread == s.thread && t.stop == s.stop
  {
    hide Enlisted, Delisted, WithoutAdvertiser;
  }

  lemma ReloadLeavesThread(s: Receiver, server: string)
    ensures var t := DiscoveryReloaded(s, server); t.thread == s.thread && t.stop == s.stop
    ensures Destroyed(s).thread == s.thread && Destroyed(s).stop == s.stop
  {
    hide WithoutRecv, WithoutAdvertiser;
  }

  lemma RecreationLeavesThread(s: Receiver, works: bool, reconnects: bool, worksNow: bool)
    ensures var t := Recreated(s, works, reconnects, worksNow); t.thread == s.thread && t.stop == s.stop
  {
    hide Enlisted, Delisted, WithoutRecv, ReceiverCreated;
  }

  lemma {:induction false} ExitsOnlyThroughShutdown(s: Receiver, events: seq<Event>)
    requires s.thread != Exited && !s.stop && Shutdown !in events
    ensures Run(s, events).thread != Exited && !Run(s, events).stop
    decreases |events|
  {
    if events != [] {
      ExitsIff(s, events[0]);
      hide Step;
      ExitsOnlyThroughShutdown(Step(s, events[0]), events[1..]);
    }
  }

  // ---------- the commands ----------

  // The permission and the settings are those asked for. Without permission there is no advertiser;
  // with it, an installed one keeps a receiver it had registered, under the new settings.
  lemma AdvertisingTakesEffect(s: Receiver, advertise: bool, control: bool, input: string)
    requires Inv(s)
    ensures var t := Step(s, SetAdvertising(advertise, control, input));
            && t.advertise == advertise && t.control == control && t.input == input
            && t.server == s.server && t.recv == s.recv && t.stop == s.stop
            && (!advertise ==> t.advertiser == 0 && !t.registered && t.sdk.registrations == map[])
            && (advertise ==> t.advertiser == s.advertiser)
            && (advertise && s.registered ==> t.registered && t.sdk.registrations == map[(t.advertiser, t.recv) := (control, input)])
  {
    StepKeeps(s, SetAdvertising(advertise, control, input));
    hide Counted;
  }

  // The address is the one asked for; an advertiser for another one is gone.
  lemma DiscoveryTakesEffect(s: Receiver, server: string)
    requires Inv(s)
    ensures var t := Step(s, ReloadDiscovery(server));
            && t.server == server && t.advertise == s.advertise && t.recv == s.recv && t.stop == s.stop
            && (server == s.server ==> t == s)
            && (server != s.server ==> t.advertiser == 0 && !t.registered && t.sdk.registrations == map[]
                                       && (s.advertiser != 0 ==> s.advertiser in t.sdk.ended))
  {
    StepKeeps(s, ReloadDiscovery(server));
    if s.advertiser != 0 { OldAdvertiserEnds(s, server); }
    hide Counted, AdvertiserDestroyed;
  }

  lemma OldAdvertiserEnds(s: Receiver, server: string)
    requires Inv(s) && s.advertiser != 0
    ensures s.advertiser in WithoutAdvertiser(s.(server := server)).sdk.ended
  {
    assert s.advertiser in s.sdk.advertisers;
  }

  // The old receiver is gone and, if the SDK gives one, there is a new one, which is registered
  // where an advertiser is installed.
  lemma RecreationTakesEffect(s: Receiver, works: bool, reconnects: bool, worksNow: bool)
    requires Inv(s)
    ensures var t := Step(s, Recreate(works, reconnects, worksNow));
            && (s.recv != 0 ==> s.recv in t.sdk.ended && t.recv != s.recv)
            && (t.recv != 0 <==> works || (reconnects && worksNow))
            && t.advertiser == s.advertiser && t.advertise == s.advertise && t.server == s.server
            && (works && t.advertiser != 0 ==> t.registered && t.sdk.registrations == map[(t.advertiser, t.recv) := (t.control, t.input)])
  {
    NextIsNotZero(s);
    StepKeeps(s, Recreate(works, reconnects, worksNow));
    DelistedKeeps(s);
    var d := Delisted(s);
    WithoutRecvKeeps(d);
    assert s.recv != 0 ==> s.recv in WithoutRecv(d).sdk.ended;
    hide Inv, Counted;
  }

  lemma ReceiverTakesEffect(s: Receiver, named: bool, works: bool)
    requires Inv(s)
    ensures var t := Step(s, Connect(named, works)); t.recv != 0 <==> s.recv != 0 || (named && works)
    ensures var t := Step(s, InitRecv(works));
            && (t.recv != 0 <==> s.recv != 0 || works)
            && t.thread == if s.thread == NotStarted && t.recv != 0 then Looking else s.thread
  {
    NextIsNotZero(s);
  }
}
