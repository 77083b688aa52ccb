/** The VPN controller (src-old/vpncontroller.cpp): the loops over a snapshot,
    proved against the functions of ControllItems. */
module VpnControllers {
  import opened Sequences
  import opened KeyedList
  import opened ControllItems

  class VPNController {
    var items: seq<Item>
    var next: nat
    var activePath: string
    /** What a listener holds that applies every itemAdded and itemRemoved. */
    ghost var mirror: seq<nat>

    ghost function List(): ItemList
      reads this
    {
      ItemList(items, next)
    }

    ghost predicate Valid()
      reads this
    {
      Listed(List()) && mirror == Idents(items)
    }

    constructor ()
      ensures Valid() && List() == NO_ITEMS && activePath == ""
    {
      items, next, activePath, mirror := [], 0, "", [];
    }

    /** The loop over the snapshot: items are updated, or created and appended. */
    method PutItems(snapshot: seq<Conn>) returns (changeVpns: seq<Item>, newVpns: seq<Item>, paths: seq<string>)
      modifies this`items, this`next
      ensures List() == PutFrom(old(List()), snapshot, 0)
      ensures Idents(changeVpns) == ChangedFrom(old(List()), snapshot, 0)
      ensures Idents(newVpns) == Range(old(next), next)
      ensures paths == Keys(ByPath(snapshot))
    {
      changeVpns, newVpns, paths := [], [], [];
      for j := 0 to |snapshot|
        invariant old(next) <= next && PutFrom(List(), snapshot, j) == PutFrom(old(List()), snapshot, 0)
        invariant Idents(changeVpns) + ChangedFrom(List(), snapshot, j) == ChangedFrom(old(List()), snapshot, 0)
        invariant Idents(newVpns) == Range(old(next), next)
        invariant paths == PathsUpTo(snapshot, j)
      {
        var vpn := snapshot[j];
        var k := FindItem(items, vpn.path);
        if k == |items| {
          var item := Item(next, vpn, Unknown);
          IdentsOfAppend(newVpns, item);
          next := next + 1;
          items := items + [item];
          newVpns := newVpns + [item];
        } else {
          if items[k].connection.id != vpn.id {
            IdentsGoOn(changeVpns, items[k], ChangedFrom(Put(List(), vpn), snapshot, j + 1));
            changeVpns := changeVpns + [items[k]];
          }
          items := items[k := items[k].(connection := vpn)];
        }
        paths := paths + [vpn.path];
      }
      PathsUpToAre(snapshot, |snapshot|);
    }

    method UpdateVPNItems(snapshot: seq<Conn>) returns (changed: seq<nat>, added: seq<nat>, removed: seq<nat>)
      requires Valid()
      modifies this
      ensures Valid() && activePath == old(activePath)
      ensures (List(), Signals(changed, added, removed)) == Update(old(List()), snapshot)
    {
      UpdateHalves(List(), snapshot);
      var changeVpns, newVpns, paths := PutItems(snapshot);
      changed, added := Idents(changeVpns), Idents(newVpns);
      mirror := mirror + added;
      items, removed := RemoveGone(items, paths, next);
      mirror := Without(mirror, removed);
    }

    method UpdateActiveConnection(actives: seq<Active>) returns (statusChanged: bool)
      requires Valid()
      modifies this`items, this`activePath
      ensures Valid() && HaveStatuses(items, old(items), actives, |actives|)
      ensures activePath == ActivePath(old(items), actives, |actives|)
      ensures statusChanged == AnyNews(old(items), actives, |actives|)
    {
      items, activePath, statusChanged := ShowActives(items, actives);
      StatusesKeepListed(items, old(items), actives, next);
    }
  }
}
