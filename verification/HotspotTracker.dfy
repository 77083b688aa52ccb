/** The last-hotspot tracker of the dock plugin (dock-hotspot-plugin/hotspotplugin.cpp):
    which device and connection the switch acts on, and whether the hotspot is on. */
module HotspotTracker {
  import opened Sequences

  datatype Connection = Connection(path: string, mode: string, timestamp: nat)

  /** What the devices report while an event is handled: their connections, whether they are
      available, and whether they have an active connection. */
  datatype Facts = Facts(
    connections: string -> seq<Connection>, available: string -> bool, connected: string -> bool)

  datatype State = On | Off | Unavailable | Unsupported

  /** The plugin's fields; devices are named by their uni. */
  datatype Plugin = Plugin(
    devices: seq<string>, latestDevice: Option<string>, latestHotSpot: Option<Connection>, hotspotEnabled: bool)

  const FRESH := Plugin([], None, None, false)

  datatype Event =
    | DeviceAdded(uni: string)
    | DeviceRemoved(uni: string)
    | ConnectionRemoved(path: string)
    | ActiveChanged(uni: string, active: Option<Connection>)
    | FlagsChanged(uni: string, activated: Option<Connection>)
    | Refreshed

  // ----- choosing the latest hotspot

  datatype Candidate = Candidate(device: string, connection: Connection)

  function Usable(device: string, connections: seq<Connection>, n: nat): seq<Candidate>
    requires n <= |connections|
  {
    if n == 0 then []
    else if connections[n - 1].mode == "infrastructure" then Usable(device, connections, n - 1)
    else Usable(device, connections, n - 1) + [Candidate(device, connections[n - 1])]
  }

  /** The usable connections of the first n devices, in the order of the nested loop. */
  function Candidates(devices: seq<string>, facts: Facts, n: nat): seq<Candidate>
    requires n <= |devices|
  {
    if n == 0 then []
    else
      var conns := facts.connections(devices[n - 1]);
      Candidates(devices, facts, n - 1) + Usable(devices[n - 1], conns, |conns|)
  }

  /** The candidate the loop ends with among these, and its timestamp. */
  function Latest(cs: seq<Candidate>): (Option<Candidate>, nat) {
    if cs == [] then (None, 0)
    else
      var (best, max) := Latest(cs[..|cs| - 1]);
      var c := cs[|cs| - 1];
      if c.connection.timestamp >= max then (Some(c), c.connection.timestamp) else (best, max)
  }

  /** One turn of the loop. */
  lemma LatestOfOneMore(cs: seq<Candidate>, c: Candidate)
    ensures Latest(cs + [c]) ==
            if c.connection.timestamp >= Latest(cs).1 then (Some(c), c.connection.timestamp) else Latest(cs)
  {
    assert (cs + [c])[..|cs|] == cs;
  }

  ghost predicate LastNewest(cs: seq<Candidate>, k: nat) {
    && k < |cs|
    && (forall j :: 0 <= j < |cs| ==> cs[j].connection.timestamp <= cs[k].connection.timestamp)
    && (forall j :: k < j < |cs| ==> cs[j].connection.timestamp < cs[k].connection.timestamp)
  }

  /** The loop ends with the last of the newest candidates. */
  lemma {:induction false} LatestIs(cs: seq<Candidate>)
    ensures cs == [] <==> Latest(cs).0.None?
    ensures cs != [] ==> exists k: nat :: LastNewest(cs, k) && Latest(cs) == (Some(cs[k]), cs[k].connection.timestamp)
  {
    if cs != [] {
      var n := |cs| - 1;
      var init := cs[..n];
      LatestIs(init);
      if init == [] || cs[n].connection.timestamp >= Latest(init).1 {
        assert LastNewest(cs, n);
      } else {
        var k: nat :| LastNewest(init, k) && Latest(init) == (Some(init[k]), init[k].connection.timestamp);
        assert LastNewest(cs, k);
      }
    }
  }

  function OnStateChanged(p: Plugin, state: State): Plugin {
    p.(hotspotEnabled := state == On && p.devices != [])
  }

  function UpdateLatestHotSpot(p: Plugin, facts: Facts): Plugin {
    var (best, max) := Latest(Candidates(p.devices, facts, |p.devices|));
    if max == 0 || best.None? then OnStateChanged(p.(latestDevice := None, latestHotSpot := None), Off)
    else
      var q := p.(latestDevice := Some(best.value.device), latestHotSpot := Some(best.value.connection));
      if facts.available(best.value.device) then q else OnStateChanged(q, Unavailable)
  }

  /** No candidate has a positive timestamp. */
  ghost predicate Undated(cs: seq<Candidate>) {
    forall j :: 0 <= j < |cs| ==> cs[j].connection.timestamp == 0
  }

  /** The choice is the last of the newest usable connections, or none exactly when no usable
      connection has a positive timestamp; it ignores what was chosen before. */
  lemma ChoiceIsLastNewest(p: Plugin, other: Plugin, facts: Facts)
    requires other.devices == p.devices
    ensures var cs := Candidates(p.devices, facts, |p.devices|);
            var q := UpdateLatestHotSpot(p, facts);
            && (q.latestDevice.None? <==> Undated(cs))
            && (q.latestDevice.Some? ==>
                  exists k: nat :: LastNewest(cs, k) && q.latestDevice == Some(cs[k].device)
                                   && q.latestHotSpot == Some(cs[k].connection))
            && q.latestDevice == UpdateLatestHotSpot(other, facts).latestDevice
            && q.latestHotSpot == UpdateLatestHotSpot(other, facts).latestHotSpot
  {
    var cs := Candidates(p.devices, facts, |p.devices|);
    LatestIs(cs);
    if cs != [] {
      var k: nat :| LastNewest(cs, k) && Latest(cs) == (Some(cs[k]), cs[k].connection.timestamp);
      assert Latest(cs).1 == 0 ==> Undated(cs);
      var q := UpdateLatestHotSpot(p, facts);
      assert cs[k].connection.timestamp > 0 ==> q.latestDevice == Some(cs[k].device);
    }
  }

  // ----- the events

  predicate IsHotspot(c: Connection) {
    c.mode == "ap" || c.mode == "adhoc"
  }

  function UpdateState(p: Plugin, uni: string, active: Option<Connection>, facts: Facts): Plugin {
    if facts.available(uni) && active.Some? && IsHotspot(active.value) then
      OnStateChanged(p.(latestDevice := Some(uni), latestHotSpot := active), On)
    else if p.latestDevice.Some? && p.latestDevice.value != uni then p
    else OnStateChanged(p, if facts.available(uni) then Off else Unavailable)
  }

  /** The body of the deviceRemoved loop for one device with the uni. */
  function RemoveDevice(p: Plugin, uni: string, facts: Facts): Plugin {
    var q := p.(devices := RemoveOne(p.devices, uni));
    if q.latestDevice != Some(uni) then q
    else
      var r := UpdateLatestHotSpot(q.(latestDevice := None, latestHotSpot := None), facts);
      if r.latestHotSpot.Some? then r else OnStateChanged(r, Off)
  }

  /** The deviceRemoved loop over the devices there were, from the i-th on. */
  function RemoveFrom(p: Plugin, devices: seq<string>, uni: string, facts: Facts, i: nat): Plugin
    requires i <= |devices|
    decreases |devices| - i
  {
    if i == |devices| then p
    else RemoveFrom(if devices[i] == uni then RemoveDevice(p, uni, facts) else p, devices, uni, facts, i + 1)
  }

  /** The connection the loop body asks to activate in place of a lost one. */
  function Replacement(p: Plugin, uni: string, facts: Facts): seq<Candidate> {
    var q := RemoveDevice(p, uni, facts);
    if p.latestDevice == Some(uni) && q.latestDevice.Some? && q.latestHotSpot.Some?
    then [Candidate(q.latestDevice.value, q.latestHotSpot.value)] else []
  }

  function Replacements(p: Plugin, devices: seq<string>, uni: string, facts: Facts, i: nat): seq<Candidate>
    requires i <= |devices|
    decreases |devices| - i
  {
    if i == |devices| then []
    else if devices[i] != uni then Replacements(p, devices, uni, facts, i + 1)
    else Replacement(p, uni, facts) + Replacements(RemoveDevice(p, uni, facts), devices, uni, facts, i + 1)
  }

  predicate SomeAvailable(devices: seq<string>, facts: Facts) {
    exists i :: 0 <= i < |devices| && facts.available(devices[i])
  }

  function Step(p: Plugin, e: Event, facts: Facts): Plugin {
    match e
    case DeviceAdded(uni) => p.(devices := p.devices + [uni])
    case DeviceRemoved(uni) => RemoveFrom(p, p.devices, uni, facts, 0)
    case ConnectionRemoved(path) =>
      if p.latestHotSpot.Some? && p.latestHotSpot.value.path == path then UpdateLatestHotSpot(p, facts) else p
    case ActiveChanged(uni, active) => UpdateState(p, uni, active, facts)
    case FlagsChanged(uni, activated) =>
      if p.latestDevice != Some(uni) then
        OnStateChanged(p, if SomeAvailable(p.devices, facts) then Off else Unavailable)
      else if activated.None? then p
      else OnStateChanged(p, if facts.available(uni) then Off else Unavailable)
    case Refreshed => UpdateLatestHotSpot(p, facts)
  }

  function Run(events: seq<(Event, Facts)>): Plugin {
    if events == [] then FRESH
    else Step(Run(events[..|events| - 1]), events[|events| - 1].0, events[|events| - 1].1)
  }

  /** Device and connection are known together, and the hotspot is on only when they are. */
  predicate Tracked(p: Plugin) {
    && (p.latestDevice.None? <==> p.latestHotSpot.None?)
    && (p.hotspotEnabled ==> p.latestDevice.Some?)
  }

  lemma {:induction false} RemoveKeeps(p: Plugin, devices: seq<string>, uni: string, facts: Facts, i: nat)
    requires Tracked(p) && i <= |devices|
    ensures Tracked(RemoveFrom(p, devices, uni, facts, i))
    decreases |devices| - i
  {
    if i < |devices| {
      RemoveKeeps(if devices[i] == uni then RemoveDevice(p, uni, facts) else p, devices, uni, facts, i + 1);
    }
  }

  /** In every run of plugin events the dereferences of the latest device and connection are safe. */
  lemma {:induction false} AlwaysTracked(events: seq<(Event, Facts)>)
    ensures Tracked(Run(events))
  {
    if events != [] {
      var p, e := Run(events[..|events| - 1]), events[|events| - 1];
      AlwaysTracked(events[..|events| - 1]);
      if e.0.DeviceRemoved? {
        RemoveKeeps(p, p.devices, e.0.uni, e.1, 0);
      }
    }
  }

  // ----- the device the switch acts on is one of the plugin's

  ghost predicate Listed(p: Plugin) {
    Distinct(p.devices) && (p.latestDevice.Some? ==> p.latestDevice.value in p.devices)
  }

  /** A device is announced while absent, and an available device with an active hotspot is present. */
  ghost predicate FromPresent(p: Plugin, e: Event, facts: Facts) {
    match e
    case DeviceAdded(uni) => uni !in p.devices
    case ActiveChanged(uni, active) =>
      facts.available(uni) && active.Some? && IsHotspot(active.value) ==> uni in p.devices
    case _ => true
  }

  lemma {:induction false} UsableAreOf(device: string, connections: seq<Connection>, n: nat)
    requires n <= |connections|
    ensures forall c :: c in Usable(device, connections, n) ==> c.device == device
  {
    if n > 0 {
      UsableAreOf(device, connections, n - 1);
    }
  }

  lemma {:induction false} CandidatesAreOf(devices: seq<string>, facts: Facts, n: nat)
    requires n <= |devices|
    ensures forall c :: c in Candidates(devices, facts, n) ==> c.device in devices
  {
    if n > 0 {
      var conns := facts.connections(devices[n - 1]);
      CandidatesAreOf(devices, facts, n - 1);
      UsableAreOf(devices[n - 1], conns, |conns|);
    }
  }

  lemma ChoiceIsListed(p: Plugin, facts: Facts)
    requires Distinct(p.devices)
    ensures Listed(UpdateLatestHotSpot(p, facts)) && UpdateLatestHotSpot(p, facts).devices == p.devices
  {
    var cs := Candidates(p.devices, facts, |p.devices|);
    CandidatesAreOf(p.devices, facts, |p.devices|);
    LatestIs(cs);
    if cs != [] {
      var k: nat :| LastNewest(cs, k) && Latest(cs) == (Some(cs[k]), cs[k].connection.timestamp);
      assert cs[k] in cs;
    }
  }

  lemma RemoveOneIsWithout(devices: seq<string>, uni: string)
    requires Distinct(devices)
    ensures RemoveOne(devices, uni) == Without(devices, [uni]) && Distinct(RemoveOne(devices, uni))
  {
    WithoutNone(devices, []);
    RemoveNext(devices, [], uni);
    assert [] + [uni] == [uni];
    WithoutDistinct(devices, [uni]);
  }

  lemma RemoveDeviceKeepsListed(p: Plugin, uni: string, facts: Facts)
    requires Listed(p)
    ensures Listed(RemoveDevice(p, uni, facts)) && RemoveDevice(p, uni, facts).devices == Without(p.devices, [uni])
  {
    RemoveOneIsWithout(p.devices, uni);
    if p.latestDevice == Some(uni) {
      ChoiceIsListed(p.(devices := RemoveOne(p.devices, uni), latestDevice := None, latestHotSpot := None), facts);
    }
  }

  lemma {:induction false} RemoveForgets(p: Plugin, devices: seq<string>, uni: string, facts: Facts, i: nat)
    requires Listed(p) && i <= |devices|
    requires uni in devices[i..] || uni !in p.devices
    ensures var q := RemoveFrom(p, devices, uni, facts, i);
            Listed(q) && uni !in q.devices && q.latestDevice != Some(uni)
    decreases |devices| - i
  {
    if i < |devices| {
      if devices[i] == uni {
        RemoveDeviceKeepsListed(p, uni, facts);
        RemoveForgets(RemoveDevice(p, uni, facts), devices, uni, facts, i + 1);
      } else {
        RemoveForgets(p, devices, uni, facts, i + 1);
      }
    }
  }

  ghost predicate FairRun(events: seq<(Event, Facts)>) {
    forall n :: 0 <= n < |events| ==> FromPresent(Run(events[..n]), events[n].0, events[n].1)
  }

  /** An event keeps the latest device among the plugin's devices exactly when it is such an event. */
  lemma ListedExactly(p: Plugin, e: Event, facts: Facts)
    requires Listed(p)
    ensures Listed(Step(p, e, facts)) <==> FromPresent(p, e, facts)
  {
    match e {
      case DeviceAdded(uni) =>
        if uni in p.devices {
          var i :| 0 <= i < |p.devices| && p.devices[i] == uni;
          var after := p.devices + [uni];
          assert after[i] == after[|p.devices|];
        }
      case DeviceRemoved(uni) =>
        assert p.devices[0..] == p.devices;
        RemoveForgets(p, p.devices, uni, facts, 0);
      case ConnectionRemoved(_) => ChoiceIsListed(p, facts);
      case Refreshed => ChoiceIsListed(p, facts);
      case _ =>
    }
  }

  /** In such runs the latest device is always one of the plugin's devices, so that a removed
      device is never acted on. */
  lemma {:induction false} LatestIsListed(events: seq<(Event, Facts)>)
    requires FairRun(events)
    ensures Listed(Run(events))
  {
    if events != [] {
      var init, e := events[..|events| - 1], events[|events| - 1];
      assert forall n :: 0 <= n < |init| ==> init[..n] == events[..n];
      LatestIsListed(init);
      assert FromPresent(Run(init), e.0, e.1);
      ListedExactly(Run(init), e.0, e.1);
    }
  }

  /** What a click asks NetworkManager or the control center for. NullConnection is the
      dereference of the active connection of a device that has none. */
  datatype Action =
    | Nothing
    | Deactivate(device: string)
    | Activate(path: string, device: string)
    | ShowPage
    | NullConnection

  function Stop(device: string, facts: Facts): Action {
    if facts.connected(device) then Deactivate(device) else NullConnection
  }

  /** Start the latest hotspot, or show the page where one can be made. */
  function Start(p: Plugin, facts: Facts): Action
    requires Tracked(p)
  {
    if p.latestDevice.None? then ShowPage
    else if facts.available(p.latestDevice.value) then Activate(p.latestHotSpot.value.path, p.latestDevice.value)
    else Nothing
  }

  /** A click on the dock item. */
  function Click(p: Plugin, facts: Facts): Action
    requires Tracked(p)
  {
    if p.devices == [] then Nothing
    else if p.hotspotEnabled then Stop(p.latestDevice.value, facts)
    else Start(p, facts)
  }

  /** A click on the quick panel, which asks for the devices after the switch. */
  function QuickClick(p: Plugin, facts: Facts): Action
    requires Tracked(p)
  {
    if p.hotspotEnabled then Stop(p.latestDevice.value, facts)
    else if p.devices == [] then Nothing
    else Start(p, facts)
  }

  /** The two clicks differ exactly for a hotspot that is on without any device. */
  lemma ClicksAgreeExactly(p: Plugin, facts: Facts)
    requires Tracked(p)
    ensures Click(p, facts) == QuickClick(p, facts) <==> !(p.hotspotEnabled && p.devices == [])
  {
    assert p.hotspotEnabled ==> QuickClick(p, facts) != Nothing;
  }

  /** In such runs both clicks do the same and only ever act on a device that is present: they
      switch off the hotspot that is on, or on the latest one where its device is available.
      They are safe exactly when the device of a hotspot that is on still has a connection. */
  lemma ClickActsOnPresentDevices(events: seq<(Event, Facts)>, facts: Facts)
    requires FairRun(events)
    ensures var p := Run(events);
            && Tracked(p)
            && Click(p, facts) == QuickClick(p, facts)
            && (Click(p, facts).Deactivate? || Click(p, facts).NullConnection? <==> p.hotspotEnabled)
            && (Click(p, facts).NullConnection? <==> p.hotspotEnabled && !facts.connected(p.latestDevice.value))
            && (Click(p, facts).Deactivate? ==> Click(p, facts).device in p.devices)
            && (Click(p, facts).Activate? ==>
                  Click(p, facts).device in p.devices && facts.available(Click(p, facts).device))
            && (Click(p, facts).Activate? <==> p.devices != [] && !p.hotspotEnabled && p.latestDevice.Some?
                                               && facts.available(p.latestDevice.value))
            && (Click(p, facts).Activate? ==> Some(Click(p, facts).device) == p.latestDevice
                                              && Click(p, facts).path == p.latestHotSpot.value.path)
            && (Click(p, facts).Deactivate? ==> Some(Click(p, facts).device) == p.latestDevice)
            && (Click(p, facts).ShowPage? <==> p.devices != [] && p.latestDevice.None?)
  {
    AlwaysTracked(events);
    LatestIsListed(events);
    ClicksAgreeExactly(Run(events), facts);
  }

  const HOTSPOT := Connection("/h", "ap", 1)

  /** Such a click is reachable: the device drops its hotspot, and the click comes before the
      queued signal that tells the plugin. */
  lemma ClickMeetsNoConnection()
    ensures var on, off := Facts(_ => [], _ => true, _ => true), Facts(_ => [], _ => true, _ => false);
            var events := [(DeviceAdded("w"), on), (ActiveChanged("w", Some(HOTSPOT)), on)];
            FairRun(events) && Tracked(Run(events)) && Click(Run(events), off) == NullConnection
  {
    var on := Facts(_ => [], _ => true, _ => true);
    var events := [(DeviceAdded("w"), on), (ActiveChanged("w", Some(HOTSPOT)), on)];
    assert events[..0] == [] && events[..1] == [events[0]] && [events[0]][..0] == [];
    assert Run(events[..0]) == FRESH && [] + ["w"] == ["w"];
    assert Run(events[..1]) == FRESH.(devices := ["w"]);
    assert Run(events) == Plugin(["w"], Some("w"), Some(HOTSPOT), true);
  }

  lemma RemovedIsForgotten(p: Plugin, uni: string, facts: Facts)
    requires Listed(p)
    ensures var q := Step(p, DeviceRemoved(uni), facts);
            uni !in q.devices && q.latestDevice != Some(uni)
  {
    assert p.devices[0..] == p.devices;
    RemoveForgets(p, p.devices, uni, facts, 0);
  }
}
