/** The DSL controller (src-old/dslcontroller.cpp): the contract of the VPN
    controller reached by statements in another order, and the device of a connection. */
module DslControllers {
  import opened Sequences
  import opened KeyedList
  import opened ControllItems

  class DSLController {
    var items: seq<Item>
    var next: nat
    var deviceInfo: map<string, string>
    var activePath: string
    /** What a listener holds that applies every itemAdded and itemRemoved. */
    ghost var mirror: seq<nat>

    ghost function List(): ItemList
      reads this
    {
      ItemList(items, next)
    }

    ghost predicate Valid()
      reads this
    {
      Listed(List()) && mirror == Idents(items)
    }

    constructor ()
      ensures Valid() && List() == NO_ITEMS && activePath == ""
    {
      items, next, deviceInfo, activePath, mirror := [], 0, map[], "", [];
    }

    /** The hardware address of each device, and the path of the last device with it. */
    method UpdateDevice(devices: seq<(string, string)>)
      modifies this`deviceInfo
      ensures forall hw :: hw in deviceInfo <==> exists j :: 0 <= j < |devices| && devices[j].0 == hw
      ensures forall j :: 0 <= j < |devices| && (forall k :: j < k < |devices| ==> devices[k].0 != devices[j].0) ==>
                devices[j].0 in deviceInfo && deviceInfo[devices[j].0] == devices[j].1
    {
      deviceInfo := map[];
      for i := 0 to |devices|
        invariant forall hw :: hw in deviceInfo <==> exists j :: 0 <= j < i && devices[j].0 == hw
        invariant forall j :: 0 <= j < i && (forall k :: j < k < i ==> devices[k].0 != devices[j].0) ==>
                    devices[j].0 in deviceInfo && deviceInfo[devices[j].0] == devices[j].1
      {
        deviceInfo := deviceInfo[devices[i].0 := devices[i].1];
      }
    }

    /** The loop over the snapshot: items are updated, or created and appended. */
    method PutItems(snapshot: seq<Conn>) returns (changeItems: seq<Item>, newItems: seq<Item>, paths: seq<string>)
      modifies this`items, this`next
      ensures List() == PutFrom(old(List()), snapshot, 0)
      ensures Idents(changeItems) == ChangedFrom(old(List()), snapshot, 0)
      ensures Idents(newItems) == Range(old(next), next)
      ensures paths == Keys(ByPath(snapshot))
    {
      changeItems, newItems, paths := [], [], [];
      for j := 0 to |snapshot|
        invariant old(next) <= next && PutFrom(List(), snapshot, j) == PutFrom(old(List()), snapshot, 0)
        invariant Idents(changeItems) + ChangedFrom(List(), snapshot, j) == ChangedFrom(old(List()), snapshot, 0)
        invariant Idents(newItems) == Range(old(next), next)
        invariant paths == PathsUpTo(snapshot, j)
      {
        var dsl := snapshot[j];
        var k := FindItem(items, dsl.path);
        if k == |items| {
          var item := Item(next, NO_CONN, Unknown);
          IdentsOfAppend(newItems, item);
          next := next + 1;
          assert (items + [item])[k := item.(connection := dsl)] == items + [item.(connection := dsl)];
          items := items + [item];
          newItems := newItems + [item];
        } else if items[k].connection.id != dsl.id {
          IdentsGoOn(changeItems, items[k], ChangedFrom(Put(List(), dsl), snapshot, j + 1));
          changeItems := changeItems + [items[k]];
        }
        items := items[k := items[k].(connection := dsl)];
        paths := paths + [dsl.path];
      }
      PathsUpToAre(snapshot, |snapshot|);
    }

    method UpdateDSLItems(snapshot: seq<Conn>) returns (changed: seq<nat>, added: seq<nat>, removed: seq<nat>)
      requires Valid()
      modifies this
      ensures Valid() && activePath == old(activePath)
      ensures (List(), Signals(changed, added, removed)) == Update(old(List()), snapshot)
    {
      UpdateHalves(List(), snapshot);
      var changeItems, newItems, paths := PutItems(snapshot);
      changed, added := Idents(changeItems), Idents(newItems);
      mirror := mirror + added;
      items, removed := RemoveGone(items, paths, next);
      mirror := Without(mirror, removed);
    }

    method UpdateActiveConnections(actives: seq<Active>) returns (statusChanged: bool)
      requires Valid()
      modifies this`items, this`activePath
      ensures Valid() && HaveStatuses(items, old(items), actives, |actives|)
      ensures activePath == ActivePath(old(items), actives, |actives|)
      ensures statusChanged == AnyNews(old(items), actives, |actives|)
    {
      items, activePath, statusChanged := ShowActives(items, actives);
      StatusesKeepListed(items, old(items), actives, next);
    }
  }
}
