/** The plugin object (dock-hotspot-plugin/hotspotplugin.cpp): its event handlers against
    the steps of HotspotTracker. */
module HotspotPlugins {
  import opened Sequences
  import opened HotspotTracker

  class HotspotPlugin {
    var wirelessDev: seq<string>
    var latestDevice: Option<string>
    var latestHotSpot: Option<Connection>
    var hotspotEnabled: bool

    ghost function State(): Plugin
      reads this
    {
      Plugin(wirelessDev, latestDevice, latestHotSpot, hotspotEnabled)
    }

    ghost predicate Valid()
      reads this
    {
      Tracked(State())
    }

    constructor ()
      ensures Valid() && State() == FRESH
    {
      wirelessDev, latestDevice, latestHotSpot, hotspotEnabled := [], None, None, false;
    }

    method OnStateChanged(state: State)
      modifies this`hotspotEnabled
      ensures State() == HotspotTracker.OnStateChanged(old(State()), state)
    {
      var shown := state;
      if wirelessDev == [] {
        shown := Unsupported;
      }
      hotspotEnabled := shown == On;
    }

    /** The fields hold the choice so far, once there is one. */
    ghost predicate Chosen(seen: seq<Candidate>, maxTimeStamp: nat)
      reads this
    {
      && maxTimeStamp == Latest(seen).1
      && match Latest(seen).0
         case Some(c) => latestDevice == Some(c.device) && latestHotSpot == Some(c.connection)
         case None => maxTimeStamp == 0
    }

    /** The inner loop over the connections of one device. */
    method Consider(device: string, connections: seq<Connection>, max: nat, ghost before: seq<Candidate>)
      returns (maxTimeStamp: nat)
      requires Chosen(before, max)
      modifies this`latestDevice, this`latestHotSpot
      ensures Chosen(before + Usable(device, connections, |connections|), maxTimeStamp)
    {
      maxTimeStamp := max;
      ghost var seen := before;
      assert before + [] == before;
      for j := 0 to |connections|
        invariant seen == before + Usable(device, connections, j)
        invariant Chosen(seen, maxTimeStamp)
      {
        var elem := connections[j];
        if elem.mode == "infrastructure" {
          continue;
        }
        ghost var c := Candidate(device, elem);
        LatestOfOneMore(seen, c);
        Regroup(before, Usable(device, connections, j), [c]);
        seen := seen + [c];
        if elem.timestamp >= maxTimeStamp {
          maxTimeStamp := elem.timestamp;
          latestDevice, latestHotSpot := Some(device), Some(elem);
        }
      }
    }

    /** The nested loop over devices and their connections, then the switch. */
    method UpdateLatestHotSpot(facts: Facts)
      requires latestDevice.None? <==> latestHotSpot.None?
      modifies this`latestDevice, this`latestHotSpot, this`hotspotEnabled
      ensures State() == HotspotTracker.UpdateLatestHotSpot(old(State()), facts)
    {
      var maxTimeStamp: nat := 0;
      for i := 0 to |wirelessDev|
        invariant Chosen(Candidates(wirelessDev, facts, i), maxTimeStamp)
        invariant hotspotEnabled == old(hotspotEnabled)
      {
        maxTimeStamp := Consider(wirelessDev[i], facts.connections(wirelessDev[i]), maxTimeStamp,
                                 Candidates(wirelessDev, facts, i));
      }
      LatestIs(Candidates(wirelessDev, facts, |wirelessDev|));
      if maxTimeStamp == 0 {
        latestDevice, latestHotSpot := None, None;
        OnStateChanged(Off);
      } else if !facts.available(latestDevice.value) {
        OnStateChanged(Unavailable);
      }
    }

    method UpdateState(uni: string, active: Option<Connection>, facts: Facts)
      requires Valid()
      modifies this`latestDevice, this`latestHotSpot, this`hotspotEnabled
      ensures Valid() && State() == Step(old(State()), ActiveChanged(uni, active), facts)
    {
      var enabled := Off;
      if !facts.available(uni) {
        enabled := Unavailable;
      } else if active.Some? {
        if active.value.mode == "ap" || active.value.mode == "adhoc" {
          enabled := On;
        }
      }
      if enabled == On {
        latestDevice, latestHotSpot := Some(uni), active;
      } else {
        if latestDevice.Some? && uni != latestDevice.value {
          return;
        }
      }
      OnStateChanged(enabled);
    }

    method OnDeviceAdded(uni: string)
      requires Valid()
      modifies this`wirelessDev
      ensures Valid() && State() == Step(old(State()), DeviceAdded(uni), Facts(_ => [], _ => false, _ => false))
    {
      wirelessDev := wirelessDev + [uni];
    }

    /** The body of the deviceRemoved loop for one device with the uni. */
    method Lose(uni: string, facts: Facts) returns (activations: seq<Candidate>)
      requires Valid()
      modifies this
      ensures Valid() && State() == RemoveDevice(old(State()), uni, facts)
      ensures activations == Replacement(old(State()), uni, facts)
    {
      activations := [];
      wirelessDev := RemoveOne(wirelessDev, uni);
      if latestDevice.Some? && uni == latestDevice.value {
        latestDevice, latestHotSpot := None, None;
        UpdateLatestHotSpot(facts);
        if latestHotSpot.Some? {
          activations := [Candidate(latestDevice.value, latestHotSpot.value)];
        } else {
          OnStateChanged(Off);
        }
      }
    }

    /** `activations` are the connections the handler asks to activate in place of the lost one. */
    method OnDeviceRemoved(uni: string, facts: Facts) returns (activations: seq<Candidate>)
      requires Valid()
      modifies this
      ensures Valid() && State() == Step(old(State()), DeviceRemoved(uni), facts)
      ensures activations == Replacements(old(State()), old(wirelessDev), uni, facts, 0)
    {
      var devices := wirelessDev;
      activations := [];
      for i := 0 to |devices|
        invariant Valid()
        invariant RemoveFrom(State(), devices, uni, facts, i) == RemoveFrom(old(State()), devices, uni, facts, 0)
        invariant activations + Replacements(State(), devices, uni, facts, i) ==
                    Replacements(old(State()), devices, uni, facts, 0)
      {
        if devices[i] == uni {
          var replacement := Lose(uni, facts);
          Regroup(activations, replacement, Replacements(State(), devices, uni, facts, i + 1));
          activations := activations + replacement;
        }
      }
    }

    method OnConnectionRemoved(path: string, facts: Facts)
      requires Valid()
      modifies this`latestDevice, this`latestHotSpot, this`hotspotEnabled
      ensures Valid() && State() == Step(old(State()), ConnectionRemoved(path), facts)
    {
      if latestHotSpot.None? {
        return;
      }
      if path == latestHotSpot.value.path {
        UpdateLatestHotSpot(facts);
      }
    }

    /** interfaceFlagsChanged of a device whose active connection, when activated, is given. */
    method OnInterfaceFlagsChanged(uni: string, activated: Option<Connection>, facts: Facts) returns (action: Action)
      requires Valid()
      modifies this`hotspotEnabled
      ensures Valid() && State() == Step(old(State()), FlagsChanged(uni, activated), facts)
      ensures action.Deactivate? <==>
                (latestDevice == Some(uni) && activated.Some? && activated.value.path == latestHotSpot.value.path)
    {
      action := Nothing;
      if latestDevice.None? || uni != latestDevice.value {
        var allDisable := false;
        for i := 0 to |wirelessDev|
          invariant allDisable <==> exists k :: 0 <= k < i && facts.available(wirelessDev[k])
          invariant State() == old(State())
        {
          allDisable := allDisable || facts.available(wirelessDev[i]);
        }
        if allDisable {
          OnStateChanged(Off);
        } else {
          OnStateChanged(Unavailable);
        }
        return;
      }
      if activated.None? {
        return;
      }
      if facts.available(uni) {
        OnStateChanged(Off);
      } else {
        OnStateChanged(Unavailable);
      }
      if activated.value.path == latestHotSpot.value.path {
        action := Deactivate(latestDevice.value);
      }
    }

    /** A click on the dock item. The dereferences of the latest device are guarded. */
    method ItemCommand(facts: Facts) returns (action: Action)
      requires Valid()
      ensures action == Click(State(), facts)
    {
      if wirelessDev == [] {
        return Nothing;
      }
      if hotspotEnabled {
        if !facts.connected(latestDevice.value) {
          return NullConnection;
        }
        return Deactivate(latestDevice.value);
      } else if latestDevice.Some? && latestHotSpot.Some? {
        if !facts.available(latestDevice.value) {
          return Nothing;
        }
        return Activate(latestHotSpot.value.path, latestDevice.value);
      }
      return ShowPage;
    }

    /** A click on the quick panel. */
    method OnQuickPanelClicked(facts: Facts) returns (action: Action)
      requires Valid()
      ensures action == QuickClick(State(), facts)
    {
      if hotspotEnabled {
        if !facts.connected(latestDevice.value) {
          return NullConnection;
        }
        return Deactivate(latestDevice.value);
      } else {
        if wirelessDev == [] {
          return Nothing;
        }
        if latestDevice.Some? && latestHotSpot.Some? {
          if !facts.available(latestDevice.value) {
            return Nothing;
          }
          return Activate(latestHotSpot.value.path, latestDevice.value);
        }
        return ShowPage;
      }
    }
  }
}
