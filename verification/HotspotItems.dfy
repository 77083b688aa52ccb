/** What device and connection snapshots do to the hotspot items (src-old/hotspotcontroller.cpp).
    An item is found by its device and uuid and dropped by its device path and connection path. */
module HotspotItems {
  import opened Sequences
  import opened KeyedList
  import opened ControllItems

  /** A wireless device, told apart from others by its address, as the pointer does in the source. */
  type Device = nat

  /** What the devices say of themselves while a snapshot is handled. */
  datatype Hardware = Hardware(path: Device -> string, hwAddress: Device -> string)

  /** What a device snapshot says of one device. */
  datatype DeviceInfo = DeviceInfo(device: Device, wireless: bool, supportHotspot: bool, enabled: bool)

  datatype HotspotItem = HotspotItem(ident: nat, device: Device, connection: Conn)

  datatype HotspotList = HotspotList(items: seq<HotspotItem>, next: nat)

  type Offer = Entry<(Device, string), Conn>

  function Offered(d: Device, c: Conn): Offer { Entry((d, c.uuid), c) }

  function Table(items: seq<HotspotItem>): (r: seq<Offer>)
    ensures |r| == |items| && forall i :: 0 <= i < |r| ==> r[i] == Offered(items[i].device, items[i].connection)
  {
    seq(|items|, i requires 0 <= i < |items| => Offered(items[i].device, items[i].connection))
  }

  function IdentityOf(x: HotspotItem): nat { x.ident }

  function DeviceOf(x: HotspotItem): Device { x.device }

  function Identities(items: seq<HotspotItem>): (r: seq<nat>)
    ensures |r| == |items| && forall i :: 0 <= i < |r| ==> r[i] == items[i].ident
  {
    Mapped(IdentityOf, items)
  }

  // ----- which connections are offered on which device

  /** The first n connections of the snapshot with this hardware address, in order. */
  function Matching(snapshot: seq<Conn>, address: string, n: nat): seq<Conn>
    requires n <= |snapshot|
  {
    if n == 0 then []
    else if snapshot[n - 1].hwAddress == address then Matching(snapshot, address, n - 1) + [snapshot[n - 1]]
    else Matching(snapshot, address, n - 1)
  }

  lemma {:induction false} MatchingIs(snapshot: seq<Conn>, address: string, n: nat, c: Conn)
    requires n <= |snapshot|
    ensures c in Matching(snapshot, address, n) <==> c in snapshot[..n] && c.hwAddress == address
  {
    if n > 0 {
      MatchingIs(snapshot, address, n - 1, c);
      assert snapshot[..n] == snapshot[..n - 1] + [snapshot[n - 1]];
    }
  }

  /** A connection without address is for every device, one with an address for its device. */
  function ForDevice(hw: Hardware, snapshot: seq<Conn>, d: Device): seq<Conn> {
    Matching(snapshot, "", |snapshot|)
    + (if hw.hwAddress(d) == "" then [] else Matching(snapshot, hw.hwAddress(d), |snapshot|))
  }

  function Offers(d: Device, conns: seq<Conn>): (r: seq<Offer>)
    ensures |r| == |conns| && forall i :: 0 <= i < |r| ==> r[i] == Offered(d, conns[i])
  {
    seq(|conns|, i requires 0 <= i < |conns| => Offered(d, conns[i]))
  }

  /** The offers of the first n devices, device by device. */
  function Wanted(hw: Hardware, devices: seq<Device>, snapshot: seq<Conn>, n: nat): seq<Offer>
    requires n <= |devices|
  {
    if n == 0 then []
    else Wanted(hw, devices, snapshot, n - 1) + Offers(devices[n - 1], ForDevice(hw, snapshot, devices[n - 1]))
  }

  function AllWanted(hw: Hardware, devices: seq<Device>, snapshot: seq<Conn>): seq<Offer> {
    Wanted(hw, devices, snapshot, |devices|)
  }

  /** Is this connection meant for this device? */
  predicate Suits(hw: Hardware, d: Device, c: Conn) {
    c.hwAddress == "" || c.hwAddress == hw.hwAddress(d)
  }

  lemma ForDeviceIs(hw: Hardware, snapshot: seq<Conn>, d: Device, c: Conn)
    ensures c in ForDevice(hw, snapshot, d) <==> c in snapshot && Suits(hw, d, c)
  {
    MatchingIs(snapshot, "", |snapshot|, c);
    MatchingIs(snapshot, hw.hwAddress(d), |snapshot|, c);
    assert snapshot[..|snapshot|] == snapshot;
  }

  lemma {:induction false} WantedIs(hw: Hardware, devices: seq<Device>, snapshot: seq<Conn>, n: nat, e: Offer)
    requires n <= |devices|
    ensures e in Wanted(hw, devices, snapshot, n) <==>
              e == Offered(e.key.0, e.value) && e.key.0 in devices[..n] && e.value in snapshot
              && Suits(hw, e.key.0, e.value)
  {
    if n > 0 {
      var d := devices[n - 1];
      WantedIs(hw, devices, snapshot, n - 1, e);
      ForDeviceIs(hw, snapshot, d, e.value);
      assert devices[..n] == devices[..n - 1] + [d];
      var offers := Offers(d, ForDevice(hw, snapshot, d));
      if e == Offered(d, e.value) && e.value in ForDevice(hw, snapshot, d) {
        var i :| 0 <= i < |offers| && ForDevice(hw, snapshot, d)[i] == e.value;
        assert offers[i] == e;
      }
    }
  }

  // ----- the update

  /** The "%1-%2" key an item is dropped by. */
  function PathKey(hw: Hardware, d: Device, c: Conn): string { hw.path(d) + "-" + c.path }

  function PathKeys(hw: Hardware, es: seq<Offer>): (r: seq<string>)
    ensures |r| == |es| && forall i :: 0 <= i < |r| ==> r[i] == PathKey(hw, es[i].key.0, es[i].value)
  {
    seq(|es|, i requires 0 <= i < |es| => PathKey(hw, es[i].key.0, es[i].value))
  }

  function Place(l: HotspotList, e: Offer): HotspotList {
    var k := Find(Table(l.items), e.key);
    if k < |l.items| then l.(items := l.items[k := l.items[k].(connection := e.value)])
    else HotspotList(l.items + [HotspotItem(l.next, e.key.0, e.value)], l.next + 1)
  }

  function PlaceFrom(l: HotspotList, es: seq<Offer>, j: nat): HotspotList
    requires j <= |es|
    decreases |es| - j
  {
    if j == |es| then l else PlaceFrom(Place(l, es[j]), es, j + 1)
  }

  /** The items the offers from j on find under another ssid, as they find them. */
  function RenamedFrom(l: HotspotList, es: seq<Offer>, j: nat): seq<nat>
    requires j <= |es|
    decreases |es| - j
  {
    if j == |es| then []
    else
      var k := Find(Table(l.items), es[j].key);
      var rest := RenamedFrom(Place(l, es[j]), es, j + 1);
      if k < |l.items| && l.items[k].connection.ssid != es[j].value.ssid then [l.items[k].ident] + rest else rest
  }

  /** The path key of an item. */
  function ItemKey(hw: Hardware): HotspotItem -> string {
    (x: HotspotItem) => PathKey(hw, x.device, x.connection)
  }

  /** The list after a connection snapshot, and the signals of the update. */
  function UpdateHotspots(hw: Hardware, l: HotspotList, devices: seq<Device>, snapshot: seq<Conn>)
      : (HotspotList, Signals)
  {
    var es := AllWanted(hw, devices, snapshot);
    var all := PlaceFrom(l, es, 0);
    var stale := Lacking(ItemKey(hw), all.items, PathKeys(hw, es), 0);
    (all.(items := Without(all.items, stale)),
     Signals(RenamedFrom(l, es, 0), Range(l.next, all.next), Identities(stale)))
  }

  /** Device and uuid tell items apart, and identities are handed out in list order. */
  ghost predicate Housed(l: HotspotList) {
    && Distinct(Keys(Table(l.items)))
    && Rising(Identities(l.items), 0, l.next)
  }

  lemma PlaceIs(l: HotspotList, e: Offer)
    requires e.key.1 == e.value.uuid
    ensures var m := Place(l, e);
            && Table(m.items) == Upsert(Table(l.items), e)
            && |l.items| <= |m.items| && l.next <= m.next && |m.items| - |l.items| == m.next - l.next
            && (forall i :: 0 <= i < |l.items| ==>
                  m.items[i].ident == l.items[i].ident && m.items[i].device == l.items[i].device)
            && (forall i :: |l.items| <= i < |m.items| ==> m.items[i].ident == l.next + (i - |l.items|))
  {
  }

  lemma {:induction false} PlaceFromIs(l: HotspotList, es: seq<Offer>, j: nat)
    requires j <= |es| && forall i :: 0 <= i < |es| ==> es[i].key.1 == es[i].value.uuid
    ensures var m := PlaceFrom(l, es, j);
            && Table(m.items) == UpsertFrom(Table(l.items), es, j)
            && |l.items| <= |m.items| && l.next <= m.next && |m.items| - |l.items| == m.next - l.next
            && (forall i :: 0 <= i < |l.items| ==>
                  m.items[i].ident == l.items[i].ident && m.items[i].device == l.items[i].device)
            && (forall i :: |l.items| <= i < |m.items| ==> m.items[i].ident == l.next + (i - |l.items|))
    decreases |es| - j
  {
    if j < |es| {
      PlaceIs(l, es[j]);
      PlaceFromIs(Place(l, es[j]), es, j + 1);
    }
  }

  lemma WantedKeyed(hw: Hardware, devices: seq<Device>, snapshot: seq<Conn>)
    ensures var es := AllWanted(hw, devices, snapshot); forall i :: 0 <= i < |es| ==> es[i].key.1 == es[i].value.uuid
  {
    var es := AllWanted(hw, devices, snapshot);
    forall i | 0 <= i < |es| ensures es[i].key.1 == es[i].value.uuid {
      assert es[i] in es;
      WantedIs(hw, devices, snapshot, |devices|, es[i]);
    }
  }

  /** In a list told apart by device and uuid, one key is one item. */
  lemma SameKeySameItem(l: HotspotList, x: HotspotItem, y: HotspotItem)
    requires Housed(l) && x in l.items && y in l.items
    requires x.ident == y.ident || (x.device == y.device && x.connection.uuid == y.connection.uuid)
    ensures x == y
  {
    var i :| 0 <= i < |l.items| && l.items[i] == x;
    var j :| 0 <= j < |l.items| && l.items[j] == y;
    assert Keys(Table(l.items))[i] == (x.device, x.connection.uuid);
    assert Keys(Table(l.items))[j] == (y.device, y.connection.uuid);
    if x.ident == y.ident {
      assert Identities(l.items)[i] == Identities(l.items)[j];
    }
    assert i == j;
  }

  lemma PlacedHoused(l: HotspotList, es: seq<Offer>)
    requires Housed(l) && forall i :: 0 <= i < |es| ==> es[i].key.1 == es[i].value.uuid
    ensures Housed(PlaceFrom(l, es, 0))
  {
    PlaceFromIs(l, es, 0);
    UpsertFromKeys(Table(l.items), es, 0);
  }

  lemma SelectionHoused(l: HotspotList, gone: seq<HotspotItem>)
    requires Housed(l) && forall x :: x in gone ==> x in l.items
    ensures Housed(l.(items := Without(l.items, gone)))
    ensures Identities(Without(l.items, gone)) == Without(Identities(l.items), Identities(gone))
  {
    var left := Without(l.items, gone);
    forall x, y | x in l.items && y in gone && x.ident == y.ident ensures x == y {
      SameKeySameItem(l, x, y);
    }
    WithoutMapped(IdentityOf, l.items, gone);
    WithoutRising(Identities(l.items), Identities(gone), 0, l.next);
    var keys := Keys(Table(left));
    forall i, j | 0 <= i < j < |keys| ensures keys[i] != keys[j] {
      if keys[i] == keys[j] {
        SameKeySameItem(l, left[i], left[j]);
        assert false;
      }
    }
  }
}
