/** The hotspot items agree with a plain rebuild: device times connection. */
module HotspotProofs {
  import opened Sequences
  import opened KeyedList
  import opened ControllItems
  import opened HotspotItems

  // ----- one connection snapshot

  ghost predicate Present(items: seq<HotspotItem>, d: Device, uuid: string) {
    exists x :: x in items && x.device == d && x.connection.uuid == uuid
  }

  /** The items are exactly the suitable pairs of device and connection. */
  ghost predicate IsProduct(hw: Hardware, items: seq<HotspotItem>, devices: seq<Device>, snapshot: seq<Conn>) {
    && (forall x :: x in items ==> x.device in devices && x.connection in snapshot && Suits(hw, x.device, x.connection))
    && (forall d, c :: d in devices && c in snapshot && Suits(hw, d, c) ==> Present(items, d, c.uuid))
  }

  /** An old item that no offer updates, and whose path key an offer carries all the same. */
  predicate Mistaken(hw: Hardware, x: HotspotItem, es: seq<Offer>) {
    (x.device, x.connection.uuid) !in Keys(es) && PathKey(hw, x.device, x.connection) in PathKeys(hw, es)
  }

  lemma KeptIs(hw: Hardware, l: HotspotList, devices: seq<Device>, snapshot: seq<Conn>, x: HotspotItem)
    ensures var es := AllWanted(hw, devices, snapshot);
            x in UpdateHotspots(hw, l, devices, snapshot).0.items <==>
              x in PlaceFrom(l, es, 0).items && PathKey(hw, x.device, x.connection) in PathKeys(hw, es)
  {
    var es := AllWanted(hw, devices, snapshot);
    var all := PlaceFrom(l, es, 0);
    AllLacking(ItemKey(hw), all.items, PathKeys(hw, es));
  }

  lemma OfferKeys(hw: Hardware, es: seq<Offer>, e: Offer)
    requires e in es
    ensures e.key in Keys(es) && PathKey(hw, e.key.0, e.value) in PathKeys(hw, es)
  {
    var i :| 0 <= i < |es| && es[i] == e;
    assert Keys(es)[i] == e.key && PathKeys(hw, es)[i] == PathKey(hw, e.key.0, e.value);
  }

  /** An old entry whose key no offer has stays at its index. */
  lemma SameSlot(l: HotspotList, es: seq<Offer>, k: nat, i: nat)
    requires Housed(l) && (forall j :: 0 <= j < |es| ==> es[j].key.1 == es[j].value.uuid)
    requires k < |l.items| && i < |PlaceFrom(l, es, 0).items|
    requires Table(l.items)[k] == Table(PlaceFrom(l, es, 0).items)[i]
    ensures i == k && PlaceFrom(l, es, 0).items[i] == l.items[k]
  {
    var all := PlaceFrom(l, es, 0);
    PlaceFromIs(l, es, 0);
    UpsertFromKeys(Table(l.items), es, 0);
    assert Keys(Table(all.items))[k] == Keys(Table(l.items))[k] == Table(l.items)[k].key;
    assert Keys(Table(all.items))[i] == Table(all.items)[i].key;
    PlacedHoused(l, es);
  }

  /** A placed item either carries an offered connection or is an old item no offer updates. */
  lemma PlacedItem(hw: Hardware, l: HotspotList, devices: seq<Device>, snapshot: seq<Conn>, x: HotspotItem)
    requires Housed(l) && x in PlaceFrom(l, AllWanted(hw, devices, snapshot), 0).items
    ensures var es := AllWanted(hw, devices, snapshot);
            if (x.device, x.connection.uuid) in Keys(es) then Offered(x.device, x.connection) in es else x in l.items
  {
    var es := AllWanted(hw, devices, snapshot);
    var all := PlaceFrom(l, es, 0);
    var i :| 0 <= i < |all.items| && all.items[i] == x;
    var e := Table(all.items)[i];
    WantedKeyed(hw, devices, snapshot);
    PlaceFromIs(l, es, 0);
    assert e in Table(all.items) && e.key == (x.device, x.connection.uuid);
    UpsertFromValues(Table(l.items), es, 0, e);
    LastIsGiven(es, e.key, 0);
    assert forall j :: 0 <= j < |es| ==> es[j].key == Keys(es)[j];
    if e.key !in Keys(es) {
      var k :| 0 <= k < |l.items| && Table(l.items)[k] == e;
      SameSlot(l, es, k, i);
    }
  }

  /** Every offer has its item in the placed list. */
  lemma OfferPlaced(hw: Hardware, l: HotspotList, devices: seq<Device>, snapshot: seq<Conn>, e: Offer)
      returns (x: HotspotItem)
    requires Housed(l) && e in AllWanted(hw, devices, snapshot)
    ensures x in PlaceFrom(l, AllWanted(hw, devices, snapshot), 0).items && (x.device, x.connection.uuid) == e.key
  {
    var es := AllWanted(hw, devices, snapshot);
    var all := PlaceFrom(l, es, 0);
    WantedKeyed(hw, devices, snapshot);
    PlaceFromIs(l, es, 0);
    UpsertFromKeys(Table(l.items), es, 0);
    var j :| 0 <= j < |es| && es[j] == e;
    var i :| 0 <= i < |Keys(Table(all.items))| && Keys(Table(all.items))[i] == e.key;
    x := all.items[i];
  }

  /** Every suitable pair has its item after the update, whatever was there before. */
  lemma NothingMissing(hw: Hardware, l: HotspotList, devices: seq<Device>, snapshot: seq<Conn>, d: Device, c: Conn)
    requires Housed(l) && d in devices && c in snapshot && Suits(hw, d, c)
    ensures Present(UpdateHotspots(hw, l, devices, snapshot).0.items, d, c.uuid)
  {
    var es := AllWanted(hw, devices, snapshot);
    var e := Offered(d, c);
    assert devices[..|devices|] == devices;
    WantedIs(hw, devices, snapshot, |devices|, e);
    var x := OfferPlaced(hw, l, devices, snapshot, e);
    OfferKeys(hw, es, e);
    PlacedItem(hw, l, devices, snapshot, x);
    OfferKeys(hw, es, Offered(x.device, x.connection));
    KeptIs(hw, l, devices, snapshot, x);
  }

  lemma MistakenStays(hw: Hardware, l: HotspotList, devices: seq<Device>, snapshot: seq<Conn>, x: HotspotItem)
    requires Housed(l) && x in l.items && Mistaken(hw, x, AllWanted(hw, devices, snapshot))
    ensures x in UpdateHotspots(hw, l, devices, snapshot).0.items
  {
    var es := AllWanted(hw, devices, snapshot);
    var all := PlaceFrom(l, es, 0);
    var k :| 0 <= k < |l.items| && l.items[k] == x;
    WantedKeyed(hw, devices, snapshot);
    PlaceFromIs(l, es, 0);
    UpsertFromKeys(Table(l.items), es, 0);
    var y := all.items[k];
    assert Keys(Table(all.items))[k] == Keys(Table(l.items))[k];
    assert Table(all.items)[k].key == (y.device, y.connection.uuid)
        && Table(l.items)[k].key == (x.device, x.connection.uuid);
    PlacedItem(hw, l, devices, snapshot, y);
    SameKeySameItem(l, x, y);
    KeptIs(hw, l, devices, snapshot, x);
  }

  /** The items agree with the plain rebuild exactly when no old item is mistaken for an offered one. */
  lemma ProductExactly(hw: Hardware, l: HotspotList, devices: seq<Device>, snapshot: seq<Conn>)
    requires Housed(l)
    ensures IsProduct(hw, UpdateHotspots(hw, l, devices, snapshot).0.items, devices, snapshot) <==>
              forall x :: x in l.items ==> !Mistaken(hw, x, AllWanted(hw, devices, snapshot))
  {
    var es := AllWanted(hw, devices, snapshot);
    var items := UpdateHotspots(hw, l, devices, snapshot).0.items;
    assert devices[..|devices|] == devices;
    forall d, c | d in devices && c in snapshot && Suits(hw, d, c) ensures Present(items, d, c.uuid) {
      NothingMissing(hw, l, devices, snapshot, d, c);
    }
    forall x | x in items
      ensures Mistaken(hw, x, es) <==>
                !(x.device in devices && x.connection in snapshot && Suits(hw, x.device, x.connection))
      ensures Mistaken(hw, x, es) ==> x in l.items
    {
      KeptIs(hw, l, devices, snapshot, x);
      PlacedItem(hw, l, devices, snapshot, x);
      WantedIs(hw, devices, snapshot, |devices|, Offered(x.device, x.connection));
      if Offered(x.device, x.connection) in es {
        OfferKeys(hw, es, Offered(x.device, x.connection));
      }
    }
    forall x | x in l.items && Mistaken(hw, x, es) ensures x in items {
      MistakenStays(hw, l, devices, snapshot, x);
    }
  }

  // ----- when paths and uuids name the same connections

  predicate DistinctPaths(hw: Hardware, devices: seq<Device>) {
    forall d, e :: d in devices && e in devices && hw.path(d) == hw.path(e) ==> d == e
  }

  /** Object paths contain no '-' (D-Bus Specification, section "Valid Object Paths"). */
  predicate Dashless(hw: Hardware, devices: seq<Device>) {
    forall d :: d in devices ==> '-' !in hw.path(d)
  }

  ghost predicate SameNaming(a: Conn, b: Conn) {
    a.uuid == b.uuid <==> a.path == b.path
  }

  lemma DashSplits(p: string, q: string, a: string, b: string)
    requires '-' !in p && '-' !in q && p + "-" + a == q + "-" + b
    ensures p == q && a == b
  {
    var s, t := p + "-" + a, q + "-" + b;
    assert forall i :: 0 <= i < |p| ==> s[i] == p[i] && p[i] != '-';
    assert forall i :: 0 <= i < |q| ==> t[i] == q[i] && q[i] != '-';
    assert s[|p|] == '-' && t[|q|] == '-';
    assert |p| == |q|;
    assert p == s[..|p|] == t[..|q|] == q;
    assert a == s[|p| + 1..] == t[|q| + 1..] == b;
  }

  /** When device paths are distinct object paths and uuids and paths name the same
      connections, no item is mistaken for another. */
  lemma NobodyMistaken(hw: Hardware, l: HotspotList, devices: seq<Device>, snapshot: seq<Conn>, x: HotspotItem)
    requires DistinctPaths(hw, devices) && Dashless(hw, devices) && x.device in devices
    requires forall c :: c in snapshot ==> SameNaming(x.connection, c)
    ensures !Mistaken(hw, x, AllWanted(hw, devices, snapshot))
  {
    var es := AllWanted(hw, devices, snapshot);
    if PathKey(hw, x.device, x.connection) in PathKeys(hw, es) {
      var i :| 0 <= i < |es| && PathKeys(hw, es)[i] == PathKey(hw, x.device, x.connection);
      var e := es[i];
      assert e in es && devices[..|devices|] == devices;
      WantedIs(hw, devices, snapshot, |devices|, e);
      DashSplits(hw.path(x.device), hw.path(e.key.0), x.connection.path, e.value.path);
      assert SameNaming(x.connection, e.value);
      OfferKeys(hw, es, e);
    }
  }

  // ----- every run

  datatype HotspotEvent = Devices(infos: seq<DeviceInfo>) | Connections(hw: Hardware, snapshot: seq<Conn>)

  datatype HotspotState = HotspotState(devices: seq<Device>, list: HotspotList)

  function Eligible(infos: seq<DeviceInfo>, n: nat): seq<Device>
    requires n <= |infos|
  {
    if n == 0 then []
    else
      var i := infos[n - 1];
      Eligible(infos, n - 1) + (if i.wireless && i.supportHotspot && i.enabled then [i.device] else [])
  }

  function HotspotStep(s: HotspotState, e: HotspotEvent): HotspotState {
    match e
    case Devices(infos) =>
      var devices := Eligible(infos, |infos|);
      HotspotState(devices, s.list.(items := Without(s.list.items, Lacking(DeviceOf, s.list.items, devices, 0))))
    case Connections(hw, snapshot) =>
      s.(list := UpdateHotspots(hw, s.list, s.devices, snapshot).0)
  }

  function RunHotspots(events: seq<HotspotEvent>): HotspotState {
    if events == [] then HotspotState([], HotspotList([], 0))
    else HotspotStep(RunHotspots(events[..|events| - 1]), events[|events| - 1])
  }

  predicate Seen(events: seq<HotspotEvent>, c: Conn) {
    exists i :: 0 <= i < |events| && events[i].Connections? && c in events[i].snapshot
  }

  /** Items belong to current devices and carry connections of the run. */
  ghost predicate HotspotInv(events: seq<HotspotEvent>, s: HotspotState) {
    && Housed(s.list)
    && forall x :: x in s.list.items ==> x.device in s.devices && Seen(events, x.connection)
  }

  /** The items on listed devices, from the i-th item on. */
  function Sheltered(items: seq<HotspotItem>, devices: seq<Device>, i: nat): seq<HotspotItem>
    requires i <= |items|
    decreases |items| - i
  {
    if i == |items| then []
    else if items[i].device in devices then [items[i]] + Sheltered(items, devices, i + 1)
    else Sheltered(items, devices, i + 1)
  }

  /** One turn of the loop that erases the others: the items before the i-th are checked. */
  lemma ShelterTurn(items: seq<HotspotItem>, devices: seq<Device>, left: seq<HotspotItem>, i: nat, j: nat)
    requires i < |left| && j <= |items| && left[i..] == items[j..]
    ensures j < |items| && left[i] == items[j] && left[i + 1..] == items[j + 1..]
    ensures left[i].device in devices ==>
              left[..i + 1] + Sheltered(items, devices, j + 1) == left[..i] + Sheltered(items, devices, j)
    ensures left[i].device !in devices ==>
              var kept := left[..i] + left[i + 1..];
              kept[..i] == left[..i] && kept[i..] == left[i + 1..]
              && Sheltered(items, devices, j) == Sheltered(items, devices, j + 1)
  {
    assert |left[i..]| == |items[j..]|;
    assert left[i] == left[i..][0] == items[j..][0] == items[j];
    assert left[i + 1..] == left[i..][1..] == items[j..][1..] == items[j + 1..];
    assert left[..i + 1] == left[..i] + [left[i]];
    if left[i].device in devices {
      Regroup(left[..i], [left[i]], Sheltered(items, devices, j + 1));
    }
  }

  lemma {:induction false} ShelteredAre(items: seq<HotspotItem>, devices: seq<Device>, gone: seq<HotspotItem>, i: nat)
    requires i <= |items| && forall x :: x in items ==> (x in gone <==> x.device !in devices)
    ensures Sheltered(items, devices, i) == Without(items[i..], gone)
    decreases |items| - i
  {
    if i < |items| {
      var x, rest := items[i], items[i + 1..];
      assert x in items;
      ShelteredAre(items, devices, gone, i + 1);
      WithoutCons(x, rest, gone);
      assert items[i..] == [x] + rest;
      assert x.device !in devices ==> [] + Without(rest, gone) == Without(rest, gone);
    }
  }

  lemma ShelteredAreLeft(items: seq<HotspotItem>, devices: seq<Device>)
    ensures Sheltered(items, devices, 0) == Without(items, Lacking(DeviceOf, items, devices, 0))
  {
    assert items[0..] == items;
    AllLacking(DeviceOf, items, devices);
    ShelteredAre(items, devices, Lacking(DeviceOf, items, devices, 0), 0);
  }

  lemma UpdateHoused(hw: Hardware, l: HotspotList, devices: seq<Device>, snapshot: seq<Conn>)
    requires Housed(l)
    ensures Housed(UpdateHotspots(hw, l, devices, snapshot).0)
  {
    var es := AllWanted(hw, devices, snapshot);
    WantedKeyed(hw, devices, snapshot);
    PlacedHoused(l, es);
    AllLacking(ItemKey(hw), PlaceFrom(l, es, 0).items, PathKeys(hw, es));
    SelectionHoused(PlaceFrom(l, es, 0), Lacking(ItemKey(hw), PlaceFrom(l, es, 0).items, PathKeys(hw, es), 0));
  }

  /** An item after an update is an old one's, or carries a connection of the snapshot on a current device. */
  lemma UpdatedItem(hw: Hardware, l: HotspotList, devices: seq<Device>, snapshot: seq<Conn>, x: HotspotItem)
    requires Housed(l) && x in UpdateHotspots(hw, l, devices, snapshot).0.items
    ensures x in l.items || (x.device in devices && x.connection in snapshot)
  {
    KeptIs(hw, l, devices, snapshot, x);
    PlacedItem(hw, l, devices, snapshot, x);
    WantedIs(hw, devices, snapshot, |devices|, Offered(x.device, x.connection));
    assert devices[..|devices|] == devices;
  }

  lemma {:induction false} HotspotRun(events: seq<HotspotEvent>)
    ensures HotspotInv(events, RunHotspots(events))
  {
    if events != [] {
      var before, e := events[..|events| - 1], events[|events| - 1];
      var s := RunHotspots(before);
      HotspotRun(before);
      assert forall c :: Seen(before, c) ==> Seen(events, c) by {
        forall c | Seen(before, c) ensures Seen(events, c) {
          var i :| 0 <= i < |before| && before[i].Connections? && c in before[i].snapshot;
          assert events[i] == before[i];
        }
      }
      match e
      case Devices(infos) =>
        var devices := Eligible(infos, |infos|);
        AllLacking(DeviceOf, s.list.items, devices);
        SelectionHoused(s.list, Lacking(DeviceOf, s.list.items, devices, 0));
      case Connections(hw, snapshot) =>
        UpdateHoused(hw, s.list, s.devices, snapshot);
        assert forall c :: c in snapshot ==> Seen(events, c);
        forall x | x in UpdateHotspots(hw, s.list, s.devices, snapshot).0.items
          ensures x.device in s.devices && Seen(events, x.connection)
        {
          UpdatedItem(hw, s.list, s.devices, snapshot, x);
        }
    }
  }

  /** After every connection snapshot of every run, the items are exactly the suitable
      pairs of current device and listed connection, each once, provided that uuids and
      paths name the same connections throughout and device paths are distinct object paths. */
  lemma HotspotsAreTheProduct(hw: Hardware, events: seq<HotspotEvent>, snapshot: seq<Conn>)
    requires var all := events + [Connections(hw, snapshot)];
             forall a, b :: Seen(all, a) && Seen(all, b) ==> SameNaming(a, b)
    requires DistinctPaths(hw, RunHotspots(events).devices) && Dashless(hw, RunHotspots(events).devices)
    ensures var s := RunHotspots(events + [Connections(hw, snapshot)]);
            && s.devices == RunHotspots(events).devices
            && IsProduct(hw, s.list.items, s.devices, snapshot) && Housed(s.list)
  {
    var all := events + [Connections(hw, snapshot)];
    var s := RunHotspots(events);
    assert all[..|events|] == events && all[|events|] == Connections(hw, snapshot);
    HotspotRun(events);
    forall x | x in s.list.items ensures !Mistaken(hw, x, AllWanted(hw, s.devices, snapshot)) {
      var i :| 0 <= i < |events| && events[i].Connections? && x.connection in events[i].snapshot;
      assert all[i] == events[i];
      assert Seen(all, x.connection);
      NobodyMistaken(hw, s.list, s.devices, snapshot, x);
    }
    ProductExactly(hw, s.list, s.devices, snapshot);
    UpdateHoused(hw, s.list, s.devices, snapshot);
  }

  // ----- what a listener hears

  lemma PlacedIdentities(l: HotspotList, es: seq<Offer>)
    requires forall i :: 0 <= i < |es| ==> es[i].key.1 == es[i].value.uuid
    ensures Identities(PlaceFrom(l, es, 0).items) == Identities(l.items) + Range(l.next, PlaceFrom(l, es, 0).next)
  {
    var all := PlaceFrom(l, es, 0);
    PlaceFromIs(l, es, 0);
    RangeAppended(Identities(l.items), Identities(all.items), l.next, all.next);
  }

  /** A listener that held the items before an update holds them after it, in order. */
  lemma HotspotListener(hw: Hardware, l: HotspotList, devices: seq<Device>, snapshot: seq<Conn>)
    requires Housed(l)
    ensures var (m, signals) := UpdateHotspots(hw, l, devices, snapshot);
            Identities(m.items) == Hear(Identities(l.items), signals)
  {
    var es := AllWanted(hw, devices, snapshot);
    var all := PlaceFrom(l, es, 0);
    var stale := Lacking(ItemKey(hw), all.items, PathKeys(hw, es), 0);
    WantedKeyed(hw, devices, snapshot);
    PlacedHoused(l, es);
    PlacedIdentities(l, es);
    AllLacking(ItemKey(hw), all.items, PathKeys(hw, es));
    SelectionHoused(all, stale);
  }

  /** A removed item was there before the update, so none is both added and removed. */
  lemma RemovedHotspotWasThere(hw: Hardware, l: HotspotList, devices: seq<Device>, snapshot: seq<Conn>, k: nat)
    requires Housed(l) && k in UpdateHotspots(hw, l, devices, snapshot).1.removed
    ensures k in Identities(l.items) && k !in UpdateHotspots(hw, l, devices, snapshot).1.added
  {
    var es := AllWanted(hw, devices, snapshot);
    var all := PlaceFrom(l, es, 0);
    var stale := Lacking(ItemKey(hw), all.items, PathKeys(hw, es), 0);
    AllLacking(ItemKey(hw), all.items, PathKeys(hw, es));
    var g :| 0 <= g < |stale| && Identities(stale)[g] == k;
    var x := stale[g];
    PlacedItem(hw, l, devices, snapshot, x);
    if Offered(x.device, x.connection) in es {
      OfferKeys(hw, es, Offered(x.device, x.connection));
    }
    assert x in l.items;
    var i :| 0 <= i < |l.items| && l.items[i] == x;
    assert Identities(l.items)[i] == k;
    if k in Range(l.next, all.next) {
      RangeAbove(l.next, all.next, k);
    }
  }

  /** A listener that holds the items after one run and hears the connection snapshots of another. */
  function Mirror(before: seq<HotspotEvent>, more: seq<HotspotEvent>): seq<nat>
    requires forall e :: e in more ==> e.Connections?
  {
    if more == [] then Identities(RunHotspots(before).list.items)
    else
      var init, last := more[..|more| - 1], more[|more| - 1];
      var s := RunHotspots(before + init);
      Hear(Mirror(before, init), UpdateHotspots(last.hw, s.list, s.devices, last.snapshot).1)
  }

  lemma RunOneMore(events: seq<HotspotEvent>, e: HotspotEvent)
    ensures RunHotspots(events + [e]) == HotspotStep(RunHotspots(events), e)
  {
    assert (events + [e])[..|events|] == events;
  }

  /** After any run, and any connection snapshots after it, the listener holds exactly the items. */
  lemma {:induction false} MirrorAgrees(before: seq<HotspotEvent>, more: seq<HotspotEvent>)
    requires forall e :: e in more ==> e.Connections?
    ensures Mirror(before, more) == Identities(RunHotspots(before + more).list.items)
    ensures RunHotspots(before + more).devices == RunHotspots(before).devices
    decreases |more|
  {
    if more == [] {
      assert before + more == before;
    } else {
      var init, last := more[..|more| - 1], more[|more| - 1];
      assert before + more == before + init + [last];
      RunOneMore(before + init, last);
      MirrorAgrees(before, init);
      HotspotRun(before + init);
      var s := RunHotspots(before + init);
      HotspotListener(last.hw, s.list, s.devices, last.snapshot);
    }
  }

  // ----- an item that survives

  const FIRST := Conn("/s", "1", "", "", "")
  const SECOND := Conn("/s", "2", "", "", "")

  lemma OneDevice(e: HotspotEvent, info: DeviceInfo)
    requires e == Devices([info]) && info.wireless && info.supportHotspot && info.enabled
    ensures RunHotspots([e]) == HotspotState([info.device], HotspotList([], 0))
  {
    assert [e][..0] == [];
    assert Eligible([info], 1) == Eligible([info], 0) + [info.device] == [info.device];
  }

  lemma SurvivorIsMistaken(hw: Hardware, x: HotspotItem)
    requires x.device == 0 && x.connection == FIRST
    ensures Mistaken(hw, x, AllWanted(hw, [0], [SECOND]))
  {
    var es := AllWanted(hw, [0], [SECOND]);
    assert [0][..1] == [0];
    WantedIs(hw, [0], [SECOND], 1, Offered(0, SECOND));
    OfferKeys(hw, es, Offered(0, SECOND));
    if (0, "1") in Keys(es) {
      var i :| 0 <= i < |es| && Keys(es)[i] == (0, "1");
      WantedIs(hw, [0], [SECOND], 1, es[i]);
    }
  }

  /** A first snapshot with the one connection makes its item. */
  lemma FirstPlaced(hw: Hardware) returns (x: HotspotItem)
    ensures x in UpdateHotspots(hw, HotspotList([], 0), [0], [FIRST]).0.items && x.device == 0 && x.connection == FIRST
  {
    var none := HotspotList([], 0);
    var l := UpdateHotspots(hw, none, [0], [FIRST]).0;
    NothingMissing(hw, none, [0], [FIRST], 0, FIRST);
    x :| x in l.items && x.device == 0 && x.connection.uuid == "1";
    UpdatedItem(hw, none, [0], [FIRST], x);
  }

  lemma SecondLeavesIt(hw: Hardware, l: HotspotList, x: HotspotItem)
    requires Housed(l) && x in l.items && x.device == 0 && x.connection == FIRST
    ensures !IsProduct(hw, UpdateHotspots(hw, l, [0], [SECOND]).0.items, [0], [SECOND])
  {
    SurvivorIsMistaken(hw, x);
    ProductExactly(hw, l, [0], [SECOND]);
  }

  lemma ThreeEvents(hw: Hardware, e: HotspotEvent, a: seq<Conn>, b: seq<Conn>)
    requires RunHotspots([e]) == HotspotState([0], HotspotList([], 0))
    ensures var l := UpdateHotspots(hw, HotspotList([], 0), [0], a).0;
            RunHotspots([e, Connections(hw, a), Connections(hw, b)]) ==
            HotspotState([0], UpdateHotspots(hw, l, [0], b).0)
  {
    var f, g := Connections(hw, a), Connections(hw, b);
    RunOneMore([e], f);
    RunOneMore([e, f], g);
    assert [e] + [f] == [e, f] && [e, f] + [g] == [e, f, g];
  }

  /** A connection that comes back under a new uuid at the old path: the item of the old uuid
      stays, though the snapshot does not list it and the device has a distinct object path. */
  lemma RenewedUuidSurvives()
    ensures var hw := Hardware(_ => "/d", _ => "");
            var plugged := Devices([DeviceInfo(0, true, true, true)]);
            var s := RunHotspots([plugged, Connections(hw, [FIRST]), Connections(hw, [SECOND])]);
            && s.devices == [0] && DistinctPaths(hw, s.devices) && Dashless(hw, s.devices)
            && !IsProduct(hw, s.list.items, s.devices, [SECOND])
  {
    var hw := Hardware(_ => "/d", _ => "");
    var plugged := Devices([DeviceInfo(0, true, true, true)]);
    OneDevice(plugged, DeviceInfo(0, true, true, true));
    ThreeEvents(hw, plugged, [FIRST], [SECOND]);
    var x := FirstPlaced(hw);
    UpdateHoused(hw, HotspotList([], 0), [0], [FIRST]);
    SecondLeavesIt(hw, UpdateHotspots(hw, HotspotList([], 0), [0], [FIRST]).0, x);
  }
}
