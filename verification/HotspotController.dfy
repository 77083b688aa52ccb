/** The hotspot controller (src-old/hotspotcontroller.cpp): the loops over device and
    connection snapshots, proved against the functions of HotspotItems. */
module HotspotControllers {
  import opened Sequences
  import opened KeyedList
  import opened ControllItems
  import opened HotspotItems
  import opened HotspotProofs
  import opened HotspotStatuses
  import HotspotChanges

  lemma {:induction false} WantedPrefix(hw: Hardware, devices: seq<Device>, jsons: seq<Conn>, m: nat, n: nat)
    requires m <= n <= |devices|
    ensures Wanted(hw, devices, jsons, m) <= Wanted(hw, devices, jsons, n)
    decreases n
  {
    if m < n {
      WantedPrefix(hw, devices, jsons, m, n - 1);
      assert Wanted(hw, devices, jsons, n - 1) <= Wanted(hw, devices, jsons, n);
    }
  }

  /** The offers of one device lie together, after those of the devices before it. */
  lemma WantedExtends(hw: Hardware, devices: seq<Device>, jsons: seq<Conn>, i: nat)
    requires i < |devices|
    ensures var mine := Offers(devices[i], ForDevice(hw, jsons, devices[i]));
            Wanted(hw, devices, jsons, i) + mine == Wanted(hw, devices, jsons, i + 1) <= AllWanted(hw, devices, jsons)
  {
    WantedPrefix(hw, devices, jsons, i + 1, |devices|);
  }

  lemma At<T>(a: seq<T>, b: seq<T>, all: seq<T>, j: nat)
    requires a + b <= all && j < |b|
    ensures |a| + j < |all| && all[|a| + j] == b[j]
  {
    assert all[|a| + j] == (a + b)[|a| + j];
  }

  class HotspotController {
    var devices: seq<Device>
    var items: seq<HotspotItem>
    var next: nat
    /** What the items show, by identity. */
    var status: map<nat, Shown>

    ghost function State(): HotspotState
      reads this
    {
      HotspotState(devices, HotspotList(items, next))
    }

    constructor ()
      ensures State() == RunHotspots([])
    {
      devices, items, next, status := [], [], 0, map[];
    }

    method FindItem(device: Device, uuid: string) returns (k: nat)
      ensures k == Find(Table(items), (device, uuid))
    {
      k := 0;
      while k < |items|
        invariant k <= |items| && forall j :: 0 <= j < k ==> Table(items)[j].key != (device, uuid)
      {
        if items[k].device == device && items[k].connection.uuid == uuid {
          return;
        }
        k := k + 1;
      }
    }

    /** Whether a connection is that of some item. */
    method IsHotspotConnection(uuid: string) returns (known: bool)
      ensures known <==> exists k :: 0 <= k < |items| && items[k].connection.uuid == uuid
    {
      for k := 0 to |items|
        invariant forall j :: 0 <= j < k ==> items[j].connection.uuid != uuid
      {
        if items[k].connection.uuid == uuid {
          return true;
        }
      }
      return false;
    }

    method FindDevice(hw: Hardware, path: string) returns (d: nat)
      ensures d == HotspotStatuses.FindDevice(hw, devices, path, 0)
    {
      d := 0;
      while d < |devices| && hw.path(devices[d]) != path
        invariant d <= |devices|
        invariant HotspotStatuses.FindDevice(hw, devices, path, 0) == HotspotStatuses.FindDevice(hw, devices, path, d)
      {
        d := d + 1;
      }
    }

    ghost function ShownNow(): (r: seq<Shown>)
      reads this
      ensures |r| == |items|
    {
      Showing(items, status)
    }

    ghost function BoardNow(hw: Hardware): Board
      reads this
    {
      Board(hw, devices, items)
    }

    /** Keep every status under its uuid, and show every item idle. */
    method Save() returns (statuses: map<string, ConnectionStatus>)
      requires Rising(Identities(items), 0, next)
      modifies this`status
      ensures forall k :: 0 <= k < |items| ==> ShownNow()[k] == IDLE
      ensures Kept(statuses, items, old(ShownNow()), |items|)
    {
      statuses := map[];
      ghost var was := ShownNow();
      for k := 0 to |items|
        invariant forall j :: 0 <= j < |items| ==> ShownNow()[j] == if j < k then IDLE else was[j]
        invariant Kept(statuses, items, was, k)
      {
        statuses := statuses[items[k].connection.uuid := Showing(items, status)[k].status];
        ShowingOne(items, status, k, IDLE, next);
        status := status[items[k].ident := IDLE];
      }
    }

    /** The body of the loop over the device paths of an entry. */
    method ShowOn(hw: Hardware, a: ActiveHotspot, path: string, statuses: map<string, ConnectionStatus>,
                  before: Tidings, ghost was: Option<ConnectionStatus>)
        returns (tidings: Tidings)
      requires Rising(Identities(items), 0, next)
      requires was == if a.uuid in statuses then Some(statuses[a.uuid]) else None
      modifies this`status
      ensures var k := Target(BoardNow(hw), a.uuid, path);
              ShownNow() == if k < |items| then old(ShownNow())[k := ShownOf(a)] else old(ShownNow())
      ensures tidings == TellPath(BoardNow(hw), was, before, a, path)
    {
      tidings := before;
      var d := FindDevice(hw, path);
      if d == |devices| {
        return;
      }
      var k := FindItem(devices[d], a.uuid);
      if k == |items| {
        return;
      }
      ShowingOne(items, status, k, ShownOf(a), next);
      status := status[items[k].ident := ShownOf(a)];
      if a.uuid !in statuses {
        return;
      }
      var oldConnectionStatus, state := statuses[a.uuid], ConvertStatus(a.state);
      if (oldConnectionStatus == Activating && state == Activated)
         || (oldConnectionStatus == Deactivating && state == Deactivated) {
        tidings := tidings.(switches := tidings.switches + 1);
      }
      if oldConnectionStatus != state {
        tidings := tidings.(changed := true);
        if devices[d] !in tidings.devices {
          tidings := tidings.(devices := tidings.devices + [devices[d]]);
        }
      }
    }

    /** One entry of the snapshot, shown on the items its device paths lead to. */
    method Show(hw: Hardware, a: ActiveHotspot, statuses: map<string, ConnectionStatus>, before: Tidings,
                ghost was: Option<ConnectionStatus>)
        returns (tidings: Tidings)
      requires Rising(Identities(items), 0, next)
      requires was == if a.uuid in statuses then Some(statuses[a.uuid]) else None
      modifies this`status
      ensures ShowHits(BoardNow(hw), old(ShownNow()), ShownNow(), a, |a.devices|)
      ensures tidings == Tell(BoardNow(hw), was, before, a, |a.devices|)
    {
      tidings := before;
      ghost var start := ShownNow();
      for i := 0 to |a.devices|
        invariant ShowHits(BoardNow(hw), start, ShownNow(), a, i)
        invariant tidings == Tell(BoardNow(hw), was, before, a, i)
      {
        ghost var shown := ShownNow();
        tidings := ShowOn(hw, a, a.devices[i], statuses, tidings, was);
        HitTurn(BoardNow(hw), start, shown, ShownNow(), a, i);
      }
    }

    /** An active-connection snapshot; the result are the signals it emits. */
    method UpdateActiveConnection(hw: Hardware, actives: seq<ActiveHotspot>) returns (tidings: Tidings)
      requires Rising(Identities(items), 0, next)
      modifies this`status
      ensures ShowAfter(BoardNow(hw), ShownNow(), actives, |actives|)
      ensures tidings == TellAll(BoardNow(hw), old(ShownNow()), actives, |actives|)
    {
      ghost var was := ShownNow();
      var statuses := Save();
      tidings := QUIET;
      for i := 0 to |actives|
        invariant ShowAfter(BoardNow(hw), ShownNow(), actives, i)
        invariant tidings == TellAll(BoardNow(hw), was, actives, i)
      {
        ghost var old_, shown := HotspotStatuses.OldStatus(items, was, actives[i].uuid, |items|), ShownNow();
        var known := IsHotspotConnection(actives[i].uuid);
        if known {
          tidings := Show(hw, actives[i], statuses, tidings, old_);
        } else {
          UnknownHitsNothing(BoardNow(hw), old_, tidings, shown, actives[i], |actives[i].devices|);
        }
        ShowTurn(BoardNow(hw), shown, ShownNow(), actives, i);
      }
    }

    static method Minus(a: seq<Device>, b: seq<Device>) returns (r: seq<Device>)
      ensures forall d :: d in r <==> d in a && d !in b
    {
      r := [];
      for i := 0 to |a|
        invariant forall d :: d in r <==> d in a[..i] && d !in b
      {
        if a[i] !in b {
          r := r + [a[i]];
        }
      }
      assert a[..|a|] == a;
    }

    /** The loop that erases the items of devices that left. */
    static method DropHomeless(items: seq<HotspotItem>, devices: seq<Device>) returns (left: seq<HotspotItem>)
      ensures left == Without(items, Lacking(DeviceOf, items, devices, 0))
    {
      left := items;
      var i := 0;
      ghost var j: nat := 0;
      while i < |left|
        invariant i <= |left| && j <= |items| && left[i..] == items[j..]
        invariant left[..i] + Sheltered(items, devices, j) == Sheltered(items, devices, 0)
        decreases |left| - i
      {
        ShelterTurn(items, devices, left, i, j);
        if left[i].device !in devices {
          left := left[..i] + left[i + 1..];
        } else {
          i := i + 1;
        }
        j := j + 1;
      }
      assert left[..i] == left;
      ShelteredAreLeft(items, devices);
    }

    /** A device snapshot. Items of devices that left go silently; the results are the
        lists of deviceAdded and deviceRemove, and whether enabledChanged is emitted. */
    method UpdateDevices(infos: seq<DeviceInfo>)
        returns (newDevices: seq<Device>, rmDevices: seq<Device>, enabledChanged: bool)
      modifies this`devices, this`items
      ensures State() == HotspotStep(old(State()), Devices(infos))
      ensures forall d :: d in devices <==> exists i :: 0 <= i < |infos| && infos[i] == DeviceInfo(d, true, true, true)
      ensures forall d :: d in newDevices <==> d in devices && d !in old(devices)
      ensures forall d :: d in rmDevices <==> d in old(devices) && d !in devices
      ensures enabledChanged <==> (old(devices) == []) != (devices == [])
    {
      var tmpDevices := devices;
      devices := [];
      for i := 0 to |infos|
        invariant devices == Eligible(infos, i) && items == old(items)
      {
        if infos[i].wireless && infos[i].supportHotspot && infos[i].enabled {
          devices := devices + [infos[i].device];
        }
      }
      forall d
        ensures d in devices <==> exists i :: 0 <= i < |infos| && infos[i] == DeviceInfo(d, true, true, true)
      {
        HotspotChanges.EligibleAre(infos, |infos|, d);
      }
      items := DropHomeless(items, devices);
      enabledChanged := (|tmpDevices| > 0) != (|devices| > 0);
      rmDevices := Minus(tmpDevices, devices);
      newDevices := Minus(devices, tmpDevices);
    }

    /** Where the loops stand after the first n offers. */
    ghost predicate Progress(hw: Hardware, start: HotspotList, es: seq<Offer>, n: nat,
                             infoChangeItems: seq<HotspotItem>, newItems: seq<HotspotItem>, allHotsItem: seq<string>)
      reads this
    {
      && n <= |es| && start.next <= next
      && PlaceFrom(HotspotList(items, next), es, n) == PlaceFrom(start, es, 0)
      && Identities(infoChangeItems) + RenamedFrom(HotspotList(items, next), es, n) == RenamedFrom(start, es, 0)
      && Identities(newItems) == Range(start.next, next)
      && allHotsItem == PathKeys(hw, es)[..n]
    }

    lemma ProgressEnds(hw: Hardware, start: HotspotList, es: seq<Offer>, changes: seq<HotspotItem>,
                       news: seq<HotspotItem>, keys: seq<string>)
      requires Progress(hw, start, es, |es|, changes, news, keys)
      ensures HotspotList(items, next) == PlaceFrom(start, es, 0)
      ensures Identities(changes) == RenamedFrom(start, es, 0) && Identities(news) == Range(start.next, next)
      ensures keys == PathKeys(hw, es)
    {
      assert Identities(changes) + [] == Identities(changes);
    }

    /** One connection on one device: its item is updated, or created and appended. */
    method PlaceOne(hw: Hardware, device: Device, json: Conn, ghost start: HotspotList, ghost es: seq<Offer>,
                    ghost n: nat, changes: seq<HotspotItem>, news: seq<HotspotItem>, keys: seq<string>)
        returns (infoChangeItems: seq<HotspotItem>, newItems: seq<HotspotItem>, allHotsItem: seq<string>)
      requires n < |es| && es[n] == Offered(device, json)
      requires Progress(hw, start, es, n, changes, news, keys)
      modifies this`items, this`next
      ensures Progress(hw, start, es, n + 1, infoChangeItems, newItems, allHotsItem)
    {
      infoChangeItems, newItems, allHotsItem := changes, news, keys;
      var k := FindItem(device, json.uuid);
      ghost var rest := RenamedFrom(Place(HotspotList(items, next), es[n]), es, n + 1);
      if k == |items| {
        var item := HotspotItem(next, device, json);
        next := next + 1;
        items := items + [item];
        newItems := newItems + [item];
        assert Identities(newItems) == Identities(news) + [item.ident];
      } else {
        if items[k].connection.ssid != json.ssid {
          Regroup(Identities(changes), [items[k].ident], rest);
          infoChangeItems := infoChangeItems + [items[k]];
          assert Identities(infoChangeItems) == Identities(changes) + [items[k].ident];
        }
        items := items[k := items[k].(connection := json)];
      }
      allHotsItem := allHotsItem + [PathKey(hw, device, json)];
    }

    /** The inner loop: the connections of one device. */
    method PlaceOn(hw: Hardware, device: Device, hotspotJsons: seq<Conn>, ghost start: HotspotList,
                   ghost es: seq<Offer>, ghost done: seq<Offer>,
                   changes: seq<HotspotItem>, news: seq<HotspotItem>, keys: seq<string>)
        returns (infoChangeItems: seq<HotspotItem>, newItems: seq<HotspotItem>, allHotsItem: seq<string>)
      requires done + Offers(device, hotspotJsons) <= es
      requires Progress(hw, start, es, |done|, changes, news, keys)
      modifies this`items, this`next
      ensures Progress(hw, start, es, |done + Offers(device, hotspotJsons)|, infoChangeItems, newItems, allHotsItem)
    {
      infoChangeItems, newItems, allHotsItem := changes, news, keys;
      for j := 0 to |hotspotJsons|
        invariant Progress(hw, start, es, |done| + j, infoChangeItems, newItems, allHotsItem)
      {
        At(done, Offers(device, hotspotJsons), es, j);
        infoChangeItems, newItems, allHotsItem :=
          PlaceOne(hw, device, hotspotJsons[j], start, es, |done| + j, infoChangeItems, newItems, allHotsItem);
      }
    }

    /** The first n connections are sorted by address. */
    static ghost predicate Sorted(jsons: seq<Conn>, common: seq<Conn>, byAddress: map<string, seq<Conn>>, n: nat)
      requires n <= |jsons|
    {
      && common == Matching(jsons, "", n) && "" !in byAddress
      && forall a :: a != "" ==> Matching(jsons, a, n) == if a in byAddress then byAddress[a] else []
    }

    /** The connections for every device, and those filed under this device's address. */
    static method JsonsFor(hw: Hardware, device: Device, common: seq<Conn>, byAddress: map<string, seq<Conn>>,
                           ghost jsons: seq<Conn>)
        returns (hotspotJsons: seq<Conn>)
      requires Sorted(jsons, common, byAddress, |jsons|)
      ensures hotspotJsons == ForDevice(hw, jsons, device)
    {
      hotspotJsons := common;
      if hw.hwAddress(device) in byAddress {
        hotspotJsons := hotspotJsons + byAddress[hw.hwAddress(device)];
      }
    }

    /** The first loop: connections for every device, and those for one hardware address. */
    static method SortByAddress(jsons: seq<Conn>) returns (common: seq<Conn>, byAddress: map<string, seq<Conn>>)
      ensures Sorted(jsons, common, byAddress, |jsons|)
    {
      common, byAddress := [], map[];
      for i := 0 to |jsons|
        invariant Sorted(jsons, common, byAddress, i)
      {
        var json := jsons[i];
        if json.hwAddress == "" {
          common := common + [json];
        } else {
          var before := if json.hwAddress in byAddress then byAddress[json.hwAddress] else [];
          byAddress := byAddress[json.hwAddress := before + [json]];
        }
      }
    }

    /** The body of the outer loop: one device. */
    method PlaceDevice(hw: Hardware, i: nat, common: seq<Conn>, byAddress: map<string, seq<Conn>>,
                       ghost jsons: seq<Conn>, ghost start: HotspotList,
                       changes: seq<HotspotItem>, news: seq<HotspotItem>, keys: seq<string>)
        returns (infoChangeItems: seq<HotspotItem>, newItems: seq<HotspotItem>, allHotsItem: seq<string>)
      requires i < |devices| && Sorted(jsons, common, byAddress, |jsons|)
      requires Progress(hw, start, AllWanted(hw, devices, jsons), |Wanted(hw, devices, jsons, i)|, changes, news, keys)
      modifies this`items, this`next
      ensures Progress(hw, start, AllWanted(hw, devices, jsons), |Wanted(hw, devices, jsons, i + 1)|,
                       infoChangeItems, newItems, allHotsItem)
    {
      var hotspotJsons := JsonsFor(hw, devices[i], common, byAddress, jsons);
      WantedExtends(hw, devices, jsons, i);
      infoChangeItems, newItems, allHotsItem :=
        PlaceOn(hw, devices[i], hotspotJsons, start, AllWanted(hw, devices, jsons), Wanted(hw, devices, jsons, i),
                changes, news, keys);
    }

    /** The loop over devices and connections: items are updated, or created and appended. */
    method PlaceAll(hw: Hardware, jsons: seq<Conn>)
        returns (infoChangeItems: seq<HotspotItem>, newItems: seq<HotspotItem>, allHotsItem: seq<string>)
      modifies this`items, this`next
      ensures State().list == PlaceFrom(old(State()).list, AllWanted(hw, devices, jsons), 0)
      ensures Identities(infoChangeItems) == RenamedFrom(old(State()).list, AllWanted(hw, devices, jsons), 0)
      ensures Identities(newItems) == Range(old(next), next)
      ensures allHotsItem == PathKeys(hw, AllWanted(hw, devices, jsons))
    {
      var commonConnections, deviceConnections := SortByAddress(jsons);
      infoChangeItems, newItems, allHotsItem := [], [], [];
      ghost var es, start := AllWanted(hw, devices, jsons), State().list;
      for i := 0 to |devices|
        invariant Progress(hw, start, es, |Wanted(hw, devices, jsons, i)|, infoChangeItems, newItems, allHotsItem)
      {
        infoChangeItems, newItems, allHotsItem := PlaceDevice(hw, i, commonConnections, deviceConnections, jsons, start,
                                                              infoChangeItems, newItems, allHotsItem);
      }
      ProgressEnds(hw, start, es, infoChangeItems, newItems, allHotsItem);
    }

    /** A connection snapshot. The results are the items of itemChanged, itemAdded and
        itemRemoved, each emitted when there are any. */
    method UpdateConnections(hw: Hardware, jsons: seq<Conn>)
        returns (changed: seq<nat>, added: seq<nat>, removed: seq<nat>)
      requires Housed(HotspotList(items, next))
      modifies this`items, this`next
      ensures State() == HotspotStep(old(State()), Connections(hw, jsons))
      ensures Signals(changed, added, removed) == UpdateHotspots(hw, old(State()).list, devices, jsons).1
    {
      ghost var es := AllWanted(hw, devices, jsons);
      var infoChangeItems, newItems, allHotsItem := PlaceAll(hw, jsons);
      changed, added := Identities(infoChangeItems), Identities(newItems);
      assert allHotsItem == PathKeys(hw, es);
      WantedKeyed(hw, devices, jsons);
      PlacedHoused(old(State()).list, es);
      LackingDistinct(ItemKey(hw), items, allHotsItem, 0);
      var rmItems := CollectLacking(ItemKey(hw), items, allHotsItem);
      items := RemoveEach(items, rmItems);
      removed := Identities(rmItems);
    }
  }
}
