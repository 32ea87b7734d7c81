/** The receiver object: the fields the control operations and the advertiser thread update, each
    method one step of the protocol. What the SDK answers is a parameter. */
module ReceiverObject {
  import opened Advertiser

  import AdvertiserProgress

  class NDIReceiver {
    var server: string
    var advertise: bool
    var control: bool
    var input: string
    var advertiser: nat
    var recv: nat
    var registered: bool
    var thread: Thread
    var stop: bool
    var sdk: Sdk

    ghost function State(): Receiver
      reads this
    {
      Receiver(server, advertise, control, input, advertiser, recv, registered, thread, stop, sdk)
    }

    // The SDK was never misused, and everything it holds is accounted for.
    ghost predicate Valid()
      reads this
    {
      Inv(State())
    }

    constructor ()
      ensures Valid() && State() == NEW
    {
      server, advertise, control, input := "", true, true, "";
      advertiser, recv, registered, thread, stop := 0, 0, false, NotStarted, false;
      sdk := Sdk(1, map[], {}, map[], {}, false);
    }

    // ---------- registration ----------

    method RegisterReceiver()
      modifies this`registered, this`sdk
      ensures State() == Enlisted(old(State()))
    {
      if advertiser == 0 || recv == 0 || registered || !advertise { return; }
      sdk := ReceiverAdded(sdk, advertiser, recv, control, input);
      registered := true;
    }

    method UnregisterReceiver()
      modifies this`registered, this`sdk
      ensures State() == Delisted(old(State()))
    {
      if advertiser != 0 && recv != 0 && registered {
        sdk := ReceiverRemoved(sdk, advertiser, recv);
      }
      registered := false;
    }

    method DestroyAdvertiser()
      modifies this`registered, this`sdk, this`advertiser
      ensures State() == WithoutAdvertiser(old(State()))
    {
      UnregisterReceiver();
      if advertiser != 0 {
        sdk := AdvertiserDestroyed(sdk, advertiser);
        advertiser := 0;
      }
    }

    // ---------- the advertiser thread ----------

    // Under the lock: is an advertiser wanted?
    method Look()
      requires Valid()
      modifies this`thread
      ensures Valid()
      ensures State() == Looked(old(State()))
      ensures old(thread) == Looking ==>
        thread == if advertise && server != "" && advertiser == 0 then Creating(server) else Waiting
    {
      hide Inv;
      StepKeeps(State(), Event.Look);
      if thread != Looking { return; }
      thread := if advertise && server != "" && advertiser == 0 then Creating(server) else Waiting;
    }

    // Outside the lock, as long as the Discovery Server takes.
    method Create(answers: bool)
      requires Valid()
      modifies this`thread, this`sdk
      ensures Valid()
      ensures State() == CreateReturned(old(State()), answers)
    {
      hide Inv;
      StepKeeps(State(), Event.Create(answers));
      if !thread.Creating? { return; }
      var url := thread.url;
      if answers {
        thread := Holding(url, sdk.next);
        sdk := AdvertiserCreated(sdk, url);
      } else {
        thread := Holding(url, 0);
      }
    }

    // Under the lock again: what was created may no longer be wanted.
    method Install()
      requires Valid()
      modifies this`thread, this`advertiser, this`registered, this`sdk
      ensures Valid()
      ensures State() == Installed(old(State()))
      ensures old(AdvertiserProgress.Wanted(State())) && old(thread.Holding? && thread.handle != 0 && thread.url == server) ==>
        AdvertiserProgress.InPlace(State(), server)
    {
      hide Inv, AdvertiserProgress.InPlace;
      StepKeeps(State(), Event.Install);
      if AdvertiserProgress.Wanted(State()) && thread.Holding? && thread.handle != 0 && thread.url == server {
        AdvertiserProgress.Installs(State(), []);
      }
      if !thread.Holding? { return; }
      var url, created := thread.url, thread.handle;
      thread := Waiting;
      if created != 0 && advertise && advertiser == 0 && url == server {
        advertiser := created;
        RegisterReceiver();
      } else if created != 0 {
        sdk := AdvertiserDestroyed(sdk, created);
      }
    }

    method Wake()
      requires Valid()
      modifies this`thread
      ensures Valid()
      ensures State() == Woken(old(State()))
      ensures old(thread) == Waiting ==> thread == if stop then Exited else Looking
    {
      hide Inv;
      StepKeeps(State(), Event.Wake);
      if thread == Waiting { thread := if stop then Exited else Looking; }
    }

    // ---------- control operations ----------

    method ChangeAdvertising(allowed: bool, controlled: bool, name: string)
      modifies this`advertise, this`control, this`input, this`advertiser, this`registered, this`sdk
      ensures State() == AdvertisingSet(old(State()), allowed, controlled, name)
    {
      hide WithoutAdvertiser, Enlisted, Delisted;
      if allowed == advertise && controlled == control && name == input { return; }
      UnregisterReceiver();
      advertise, control, input := allowed, controlled, name;
      if !advertise { DestroyAdvertiser(); } else { RegisterReceiver(); }
    }

    method SetAdvertising(allowed: bool, controlled: bool, name: string)
      requires Valid()
      modifies this`advertise, this`control, this`input, this`advertiser, this`registered, this`sdk
      ensures Valid()
      ensures State() == AdvertisingSet(old(State()), allowed, controlled, name)
      ensures advertise == allowed && control == controlled && input == name && (!allowed ==> advertiser == 0 && !registered)
      ensures allowed ==> advertiser == old(advertiser) && (old(registered) ==> registered)
    {
      hide Inv, AdvertisingSet;
      AdvertiserProgress.AdvertisingTakesEffect(State(), allowed, controlled, name);
      StepKeeps(State(), Event.SetAdvertising(allowed, controlled, name));
      ChangeAdvertising(allowed, controlled, name);
    }

    method ReloadDiscovery(address: string)
      requires Valid()
      modifies this`server, this`advertiser, this`registered, this`sdk
      ensures Valid()
      ensures State() == DiscoveryReloaded(old(State()), address)
      ensures server == address && (address != old(server) ==> advertiser == 0 && !registered)
    {
      hide Inv, WithoutAdvertiser;
      StepKeeps(State(), Event.ReloadDiscovery(address));
      if address == server { return; }
      server := address;
      DestroyAdvertiser();
    }

    method CreateRecv(works: bool) returns (ok: bool)
      requires 0 < sdk.next
      modifies this`recv, this`sdk
      ensures State() == WithRecv(old(State()), works) && ok == (recv != 0) && 0 < sdk.next
    {
      if recv != 0 { return true; }
      if !works { return false; }
      recv := sdk.next;
      sdk := ReceiverCreated(sdk);
      return true;
    }

    method DestroyRecvHandle()
      modifies this`recv, this`sdk
      ensures State() == WithoutRecv(old(State()))
    {
      if recv != 0 {
        sdk := ReceiverDestroyed(sdk, recv);
        recv := 0;
      }
    }

    method RecreateRecvPreservingSource(works: bool, reconnects: bool, worksNow: bool)
      requires Valid()
      modifies this`recv, this`registered, this`sdk
      ensures Valid()
      ensures State() == Recreated(old(State()), works, reconnects, worksNow)
      ensures (recv != 0 <==> works || (reconnects && worksNow)) && (old(recv) != 0 ==> recv != old(recv))
    {
      hide Inv, Enlisted, Delisted, WithoutRecv, WithRecv;
      AdvertiserProgress.RecreationTakesEffect(State(), works, reconnects, worksNow);
      StepKeeps(State(), Event.Recreate(works, reconnects, worksNow));
      NextIsNotZero(State());
      UnregisterReceiver();
      DestroyRecvHandle();
      var ok := CreateRecv(works);
      RegisterReceiver();
      if reconnects { ok := CreateRecv(worksNow); }
    }

    method Connect(named: bool, works: bool) returns (ok: bool)
      requires Valid()
      modifies this`recv, this`sdk
      ensures Valid()
      ensures State() == Connected(old(State()), named, works) && ok == (!named || recv != 0)
    {
      hide Inv;
      StepKeeps(State(), Event.Connect(named, works));
      NextIsNotZero(State());
      ok := true;
      if named { ok := CreateRecv(works); }
    }

    method InitRecv(works: bool) returns (ok: bool)
      requires Valid()
      modifies this`recv, this`sdk, this`thread
      ensures Valid()
      ensures State() == Initialized(old(State()), works) && ok == (recv != 0)
    {
      hide Inv;
      StepKeeps(State(), Event.InitRecv(works));
      NextIsNotZero(State());
      ok := CreateRecv(works);
      if ok && thread == NotStarted { thread := Looking; }
    }

    // After the stop flag is set and the thread joined.
    method DestroyAll()
      requires Valid()
      modifies this`advertiser, this`recv, this`registered, this`sdk
      ensures Valid()
      ensures State() == Destroyed(old(State()))
    {
      hide Inv, WithoutAdvertiser, WithoutRecv;
      StepKeeps(State(), Event.Destroy);
      if stop && (thread == NotStarted || thread == Exited) {
        DestroyAdvertiser();
        DestroyRecvHandle();
      }
    }
  }
}
