/** Which hotspots a connection snapshot reports as changed, and which devices it makes offers for. */
module HotspotChanges {
  import opened Sequences
  import opened KeyedList
  import opened ControllItems
  import opened HotspotItems
  import opened HotspotProofs
  import TaggedSlots

  function SlotOf(x: HotspotItem): TaggedSlots.Slot<(Device, string), string> {
    TaggedSlots.Slot(x.ident, (x.device, x.connection.uuid), x.connection.ssid)
  }

  function TagOf(e: Offer): TaggedSlots.Entry<(Device, string), string> {
    TaggedSlots.Entry(e.key, e.value.ssid)
  }

  lemma PlaceIsPlaceTag(l: HotspotList, e: Offer)
    requires e.key.1 == e.value.uuid
    ensures var k := TaggedSlots.FindSlot(Mapped(SlotOf, l.items), e.key, 0);
            && k == Find(Table(l.items), e.key)
            && Place(l, e).next == (if k < |l.items| then l.next else l.next + 1)
            && Mapped(SlotOf, Place(l, e).items) == TaggedSlots.PlaceTag(Mapped(SlotOf, l.items), l.next, TagOf(e))
  {
    var k, m := TaggedSlots.FindSlot(Mapped(SlotOf, l.items), e.key, 0), Find(Table(l.items), e.key);
    assert forall i :: 0 <= i < |l.items| ==> Mapped(SlotOf, l.items)[i].key == Table(l.items)[i].key;
    assert k == m;
  }

  lemma {:induction false} RenamedIsRetagged(l: HotspotList, es: seq<Offer>, j: nat)
    requires j <= |es| && forall i :: 0 <= i < |es| ==> es[i].key.1 == es[i].value.uuid
    ensures RenamedFrom(l, es, j) == TaggedSlots.Retagged(Mapped(SlotOf, l.items), l.next, Mapped(TagOf, es), j)
    decreases |es| - j
  {
    if j < |es| {
      PlaceIsPlaceTag(l, es[j]);
      RenamedIsRetagged(Place(l, es[j]), es, j + 1);
    }
  }

  lemma HousedIsApart(l: HotspotList)
    requires Housed(l)
    ensures TaggedSlots.Apart(Mapped(SlotOf, l.items), l.next)
  {
    forall i, j | 0 <= i < j < |l.items|
      ensures l.items[i].ident != l.items[j].ident && SlotOf(l.items[i]).key != SlotOf(l.items[j]).key
    {
      assert Identities(l.items)[i] < Identities(l.items)[j];
      assert Keys(Table(l.items))[i] != Keys(Table(l.items))[j];
    }
    assert forall i :: 0 <= i < |l.items| ==> Identities(l.items)[i] == l.items[i].ident;
  }

  // ----- no offer twice

  ghost predicate DistinctUuids(conns: seq<Conn>) {
    forall m, n :: 0 <= m < n < |conns| ==> conns[m].uuid != conns[n].uuid
  }

  lemma {:induction false} MatchingDistinct(snapshot: seq<Conn>, address: string, n: nat)
    requires n <= |snapshot| && DistinctUuids(snapshot)
    ensures DistinctUuids(Matching(snapshot, address, n))
  {
    if n > 0 {
      MatchingDistinct(snapshot, address, n - 1);
      var before := Matching(snapshot, address, n - 1);
      forall i | 0 <= i < |before| ensures before[i].uuid != snapshot[n - 1].uuid {
        MatchingIs(snapshot, address, n - 1, before[i]);
        var m :| 0 <= m < n - 1 && snapshot[m] == before[i];
      }
    }
  }

  lemma ForDeviceDistinct(hw: Hardware, snapshot: seq<Conn>, d: Device)
    requires DistinctUuids(snapshot)
    ensures DistinctUuids(ForDevice(hw, snapshot, d))
  {
    var common, own := Matching(snapshot, "", |snapshot|), Matching(snapshot, hw.hwAddress(d), |snapshot|);
    MatchingDistinct(snapshot, "", |snapshot|);
    MatchingDistinct(snapshot, hw.hwAddress(d), |snapshot|);
    assert snapshot[..|snapshot|] == snapshot;
    forall i, j | 0 <= i < |common| && 0 <= j < |own| && hw.hwAddress(d) != ""
      ensures common[i].uuid != own[j].uuid
    {
      MatchingIs(snapshot, "", |snapshot|, common[i]);
      MatchingIs(snapshot, hw.hwAddress(d), |snapshot|, own[j]);
      var m :| 0 <= m < |snapshot| && snapshot[m] == common[i];
      var n :| 0 <= n < |snapshot| && snapshot[n] == own[j];
      assert m != n;
    }
  }

  lemma {:induction false} WantedDistinct(hw: Hardware, devices: seq<Device>, snapshot: seq<Conn>, n: nat)
    requires n <= |devices| && Distinct(devices) && DistinctUuids(snapshot)
    ensures Distinct(Keys(Wanted(hw, devices, snapshot, n)))
  {
    if n > 0 {
      var d := devices[n - 1];
      var before, mine := Wanted(hw, devices, snapshot, n - 1), Offers(d, ForDevice(hw, snapshot, d));
      WantedDistinct(hw, devices, snapshot, n - 1);
      ForDeviceDistinct(hw, snapshot, d);
      assert Keys(before + mine) == Keys(before) + Keys(mine);
      forall i | 0 <= i < |before| ensures before[i].key.0 != d {
        WantedIs(hw, devices, snapshot, n - 1, before[i]);
        assert before[i] in before;
        var m :| 0 <= m < n - 1 && devices[m] == before[i].key.0;
      }
    }
  }

  // ----- what is reported as changed

  /** The snapshot has a connection for the item's device with its uuid and another ssid. */
  predicate OffersRenamed(hw: Hardware, devices: seq<Device>, snapshot: seq<Conn>, x: HotspotItem) {
    x.device in devices
    && exists c :: c in snapshot && Suits(hw, x.device, c) && c.uuid == x.connection.uuid && c.ssid != x.connection.ssid
  }

  lemma RetagsIsRenamed(hw: Hardware, devices: seq<Device>, snapshot: seq<Conn>, x: HotspotItem)
    ensures TaggedSlots.Retags(Mapped(TagOf, AllWanted(hw, devices, snapshot)), 0, SlotOf(x)) <==>
              OffersRenamed(hw, devices, snapshot, x)
  {
    var es := AllWanted(hw, devices, snapshot);
    var tags := Mapped(TagOf, es);
    assert devices[..|devices|] == devices;
    if OffersRenamed(hw, devices, snapshot, x) {
      var c :| c in snapshot && Suits(hw, x.device, c) && c.uuid == x.connection.uuid && c.ssid != x.connection.ssid;
      WantedIs(hw, devices, snapshot, |devices|, Offered(x.device, c));
      var m :| 0 <= m < |es| && es[m] == Offered(x.device, c);
      assert tags[m].key == SlotOf(x).key && tags[m].tag != SlotOf(x).tag;
    }
    if TaggedSlots.Retags(tags, 0, SlotOf(x)) {
      var m :| 0 <= m < |tags| && tags[m].key == SlotOf(x).key && tags[m].tag != SlotOf(x).tag;
      assert es[m] in es;
      WantedIs(hw, devices, snapshot, |devices|, es[m]);
    }
  }

  /** itemChanged names, each once, exactly the old items that the snapshot offers under another ssid. */
  lemma HotspotChangedMeans(hw: Hardware, l: HotspotList, devices: seq<Device>, snapshot: seq<Conn>)
    requires Housed(l) && Distinct(devices) && DistinctUuids(snapshot)
    ensures var changed := UpdateHotspots(hw, l, devices, snapshot).1.changed;
            && Distinct(changed)
            && (forall x :: x in changed ==> x in Identities(l.items))
            && (forall i :: 0 <= i < |l.items| ==>
                  (l.items[i].ident in changed <==> OffersRenamed(hw, devices, snapshot, l.items[i])))
  {
    var es := AllWanted(hw, devices, snapshot);
    var slots, tags, changed := Mapped(SlotOf, l.items), Mapped(TagOf, es), RenamedFrom(l, es, 0);
    HousedIsApart(l);
    WantedKeyed(hw, devices, snapshot);
    RenamedIsRetagged(l, es, 0);
    WantedDistinct(hw, devices, snapshot, |devices|);
    forall m, n | 0 <= m < n < |tags| ensures tags[m].key != tags[n].key {
      assert Keys(es)[m] != Keys(es)[n];
    }
    TaggedSlots.RetaggedAre(slots, l.next, tags, 0);
    forall x | x in changed ensures x in Identities(l.items) {
      var i :| 0 <= i < |slots| && slots[i].ident == x;
      assert Identities(l.items)[i] == x;
    }
    forall i | 0 <= i < |l.items|
      ensures l.items[i].ident in changed <==> OffersRenamed(hw, devices, snapshot, l.items[i])
    {
      assert slots[i] == SlotOf(l.items[i]);
      RetagsIsRenamed(hw, devices, snapshot, l.items[i]);
    }
  }

  // ----- which devices

  /** A device is kept exactly when the snapshot calls it wireless, able to host and enabled. */
  lemma {:induction false} EligibleAre(infos: seq<DeviceInfo>, n: nat, d: Device)
    requires n <= |infos|
    ensures d in Eligible(infos, n) <==>
              exists i :: 0 <= i < n && infos[i] == DeviceInfo(d, true, true, true)
  {
    if n > 0 {
      EligibleAre(infos, n - 1, d);
      if infos[n - 1] == DeviceInfo(d, true, true, true) {
        assert 0 <= n - 1 < n;
      }
    }
  }
}
