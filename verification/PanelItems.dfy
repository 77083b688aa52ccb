/** What the network panel shows (common-plugin/networkdialog/networkpanel.cpp): the list
    of items it rebuilds, and the rows of the model that must show the same items. */
module PanelItems {
  import opened Sequences

  /** What an item is found by. A wired item is found by its connection alone. */
  datatype Key =
    | DeviceControl(wireless: bool)
    | WirelessControl(device: nat)
    | AccessPoint(device: nat, ap: nat)
    | HiddenNetwork(device: nat)
    | WiredControl(device: nat)
    | WiredItem(connection: nat)

  /** The access points are in the order the sort of the source left them in. */
  datatype WirelessDevice = WirelessDevice(device: nat, enabled: bool, hotspotEnabled: bool, accessPoints: seq<nat>)

  datatype WiredDevice = WiredDevice(device: nat, enabled: bool, connections: seq<nat>)

  datatype World = World(wireless: seq<WirelessDevice>, wired: seq<WiredDevice>, airplaneMode: bool)

  /** An item; `ident` is its standard item, the object a row of the model holds. */
  datatype NetItem = NetItem(ident: nat, key: Key)

  /** The items, the sort role of every standard item, and the next new standard item. */
  datatype Items = Items(items: seq<NetItem>, sortRole: map<nat, nat>, next: nat)

  function Idents(items: seq<NetItem>): (r: seq<nat>)
    ensures |r| == |items| && forall i :: 0 <= i < |r| ==> r[i] == items[i].ident
  {
    seq(|items|, i requires 0 <= i < |items| => items[i].ident)
  }

  // ----- the layout

  function ApKeys(d: WirelessDevice, n: nat): seq<Key>
    requires n <= |d.accessPoints|
  {
    if n == 0 then [] else ApKeys(d, n - 1) + [AccessPoint(d.device, d.accessPoints[n - 1])]
  }

  function WirelessKeys(d: WirelessDevice, airplaneMode: bool): seq<Key> {
    if d.enabled && !d.hotspotEnabled then
      [WirelessControl(d.device)] + ApKeys(d, |d.accessPoints|)
      + (if airplaneMode then [] else [HiddenNetwork(d.device)])
    else [WirelessControl(d.device)]
  }

  function AllWireless(w: World, n: nat): seq<Key>
    requires n <= |w.wireless|
  {
    if n == 0 then [] else AllWireless(w, n - 1) + WirelessKeys(w.wireless[n - 1], w.airplaneMode)
  }

  function ConnectionKeys(d: WiredDevice, n: nat): seq<Key>
    requires n <= |d.connections|
  {
    if n == 0 then [] else ConnectionKeys(d, n - 1) + [WiredItem(d.connections[n - 1])]
  }

  function WiredKeys(d: WiredDevice): seq<Key> {
    [WiredControl(d.device)] + (if d.enabled then ConnectionKeys(d, |d.connections|) else [])
  }

  function AllWired(w: World, n: nat): seq<Key>
    requires n <= |w.wired|
  {
    if n == 0 then [] else AllWired(w, n - 1) + WiredKeys(w.wired[n - 1])
  }

  /** The keys of the panel, from top to bottom. */
  function Layout(w: World): seq<Key> {
    (if |w.wireless| > 1 then [DeviceControl(true)] else [])
      + AllWireless(w, |w.wireless|)
      + (if |w.wired| > 1 then [DeviceControl(false)] else [])
      + AllWired(w, |w.wired|)
  }

  // ----- the rebuild

  function KeyOf(x: NetItem): Key { x.key }

  /** The first old item with this key, or |items|. */
  function FindKey(items: seq<NetItem>, key: Key, from: nat): nat
    requires from <= |items|
  {
    FirstIndex(KeyOf, items, key, from)
  }

  /** The next item of the new list: the old one with this key, or a new one. */
  function Place(old_: seq<NetItem>, b: Items, key: Key): Items {
    var k := FindKey(old_, key, 0);
    var item := if k < |old_| then old_[k] else NetItem(b.next, key);
    Items(b.items + [item], b.sortRole[item.ident := |b.items|], if k < |old_| then b.next else b.next + 1)
  }

  function PlaceAll(old_: seq<NetItem>, b: Items, keys: seq<Key>): Items {
    if keys == [] then b
    else Place(old_, PlaceAll(old_, b, keys[..|keys| - 1]), keys[|keys| - 1])
  }

  /** The panel after updateItems. */
  function Rebuild(p: Items, w: World): Items {
    PlaceAll(p.items, Items([], p.sortRole, p.next), Layout(w))
  }

  // ----- the rebuild as its nested loops

  function PlaceAps(old_: seq<NetItem>, b: Items, d: WirelessDevice, n: nat): Items
    requires n <= |d.accessPoints|
  {
    if n == 0 then b else Place(old_, PlaceAps(old_, b, d, n - 1), AccessPoint(d.device, d.accessPoints[n - 1]))
  }

  function PlaceWireless(old_: seq<NetItem>, b: Items, d: WirelessDevice, airplaneMode: bool): Items {
    var c := Place(old_, b, WirelessControl(d.device));
    if d.enabled && !d.hotspotEnabled then
      var e := PlaceAps(old_, c, d, |d.accessPoints|);
      if airplaneMode then e else Place(old_, e, HiddenNetwork(d.device))
    else c
  }

  function PlaceAllWireless(old_: seq<NetItem>, b: Items, w: World, n: nat): Items
    requires n <= |w.wireless|
  {
    if n == 0 then b else PlaceWireless(old_, PlaceAllWireless(old_, b, w, n - 1), w.wireless[n - 1], w.airplaneMode)
  }

  function PlaceConnections(old_: seq<NetItem>, b: Items, d: WiredDevice, n: nat): Items
    requires n <= |d.connections|
  {
    if n == 0 then b else Place(old_, PlaceConnections(old_, b, d, n - 1), WiredItem(d.connections[n - 1]))
  }

  function PlaceWired(old_: seq<NetItem>, b: Items, d: WiredDevice): Items {
    var c := Place(old_, b, WiredControl(d.device));
    if d.enabled then PlaceConnections(old_, c, d, |d.connections|) else c
  }

  function PlaceAllWired(old_: seq<NetItem>, b: Items, w: World, n: nat): Items
    requires n <= |w.wired|
  {
    if n == 0 then b else PlaceWired(old_, PlaceAllWired(old_, b, w, n - 1), w.wired[n - 1])
  }

  lemma {:induction false} PlaceAllOfConcat(old_: seq<NetItem>, b: Items, x: seq<Key>, y: seq<Key>)
    ensures PlaceAll(old_, b, x + y) == PlaceAll(old_, PlaceAll(old_, b, x), y)
    decreases |y|
  {
    if y == [] {
      assert x + y == x;
    } else {
      assert (x + y)[..|x + y| - 1] == x + y[..|y| - 1];
      PlaceAllOfConcat(old_, b, x, y[..|y| - 1]);
    }
  }

  lemma PlaceOne(old_: seq<NetItem>, b: Items, key: Key)
    ensures PlaceAll(old_, b, [key]) == Place(old_, b, key)
  {
    assert PlaceAll(old_, b, [key][..0]) == b;
  }

  lemma {:induction false} ApsAreTheirKeys(old_: seq<NetItem>, b: Items, d: WirelessDevice, n: nat)
    requires n <= |d.accessPoints|
    ensures PlaceAps(old_, b, d, n) == PlaceAll(old_, b, ApKeys(d, n))
  {
    if n > 0 {
      var key := AccessPoint(d.device, d.accessPoints[n - 1]);
      ApsAreTheirKeys(old_, b, d, n - 1);
      PlaceAllOfConcat(old_, b, ApKeys(d, n - 1), [key]);
      PlaceOne(old_, PlaceAps(old_, b, d, n - 1), key);
    }
  }

  lemma WirelessIsItsKeys(old_: seq<NetItem>, b: Items, d: WirelessDevice, airplaneMode: bool)
    ensures PlaceWireless(old_, b, d, airplaneMode) == PlaceAll(old_, b, WirelessKeys(d, airplaneMode))
  {
    var control, aps, hidden := WirelessControl(d.device), ApKeys(d, |d.accessPoints|), HiddenNetwork(d.device);
    var c := Place(old_, b, control);
    PlaceOne(old_, b, control);
    if d.enabled && !d.hotspotEnabled {
      ApsAreTheirKeys(old_, c, d, |d.accessPoints|);
      PlaceAllOfConcat(old_, b, [control], aps);
      PlaceOne(old_, PlaceAll(old_, c, aps), hidden);
      PlaceAllOfConcat(old_, b, [control] + aps, [hidden]);
      assert [control] + aps + [] == [control] + aps;
    }
  }

  lemma {:induction false} AllWirelessAreTheirKeys(old_: seq<NetItem>, b: Items, w: World, n: nat)
    requires n <= |w.wireless|
    ensures PlaceAllWireless(old_, b, w, n) == PlaceAll(old_, b, AllWireless(w, n))
  {
    if n > 0 {
      AllWirelessAreTheirKeys(old_, b, w, n - 1);
      WirelessIsItsKeys(old_, PlaceAllWireless(old_, b, w, n - 1), w.wireless[n - 1], w.airplaneMode);
      PlaceAllOfConcat(old_, b, AllWireless(w, n - 1), WirelessKeys(w.wireless[n - 1], w.airplaneMode));
    }
  }

  lemma {:induction false} ConnectionsAreTheirKeys(old_: seq<NetItem>, b: Items, d: WiredDevice, n: nat)
    requires n <= |d.connections|
    ensures PlaceConnections(old_, b, d, n) == PlaceAll(old_, b, ConnectionKeys(d, n))
  {
    if n > 0 {
      var key := WiredItem(d.connections[n - 1]);
      ConnectionsAreTheirKeys(old_, b, d, n - 1);
      PlaceAllOfConcat(old_, b, ConnectionKeys(d, n - 1), [key]);
      PlaceOne(old_, PlaceConnections(old_, b, d, n - 1), key);
    }
  }

  lemma WiredIsItsKeys(old_: seq<NetItem>, b: Items, d: WiredDevice)
    ensures PlaceWired(old_, b, d) == PlaceAll(old_, b, WiredKeys(d))
  {
    var control, connections := WiredControl(d.device), ConnectionKeys(d, |d.connections|);
    PlaceOne(old_, b, control);
    if d.enabled {
      ConnectionsAreTheirKeys(old_, Place(old_, b, control), d, |d.connections|);
      PlaceAllOfConcat(old_, b, [control], connections);
    } else {
      assert [control] + [] == [control];
    }
  }

  lemma {:induction false} AllWiredAreTheirKeys(old_: seq<NetItem>, b: Items, w: World, n: nat)
    requires n <= |w.wired|
    ensures PlaceAllWired(old_, b, w, n) == PlaceAll(old_, b, AllWired(w, n))
  {
    if n > 0 {
      AllWiredAreTheirKeys(old_, b, w, n - 1);
      WiredIsItsKeys(old_, PlaceAllWired(old_, b, w, n - 1), w.wired[n - 1]);
      PlaceAllOfConcat(old_, b, AllWired(w, n - 1), WiredKeys(w.wired[n - 1]));
    }
  }

  function PlaceHead(old_: seq<NetItem>, b: Items, wireless: bool, devices: nat): Items {
    if devices > 1 then Place(old_, b, DeviceControl(wireless)) else b
  }

  lemma HeadIsItsKeys(old_: seq<NetItem>, b: Items, wireless: bool, devices: nat)
    ensures PlaceHead(old_, b, wireless, devices) ==
              PlaceAll(old_, b, if devices > 1 then [DeviceControl(wireless)] else [])
  {
    PlaceOne(old_, b, DeviceControl(wireless));
  }

  /** The nested loops of updateItems place the keys of the layout, in its order. */
  lemma LoopsPlaceTheLayout(p: Items, w: World)
    ensures var b := PlaceHead(p.items, Items([], p.sortRole, p.next), true, |w.wireless|);
            var c := PlaceAllWireless(p.items, b, w, |w.wireless|);
            var d := PlaceHead(p.items, c, false, |w.wired|);
            PlaceAllWired(p.items, d, w, |w.wired|) == Rebuild(p, w)
  {
    var a := Items([], p.sortRole, p.next);
    var b := PlaceHead(p.items, a, true, |w.wireless|);
    var c := PlaceAllWireless(p.items, b, w, |w.wireless|);
    var d := PlaceHead(p.items, c, false, |w.wired|);
    var k1 := if |w.wireless| > 1 then [DeviceControl(true)] else [];
    var k2, k4 := AllWireless(w, |w.wireless|), AllWired(w, |w.wired|);
    var k3 := if |w.wired| > 1 then [DeviceControl(false)] else [];
    HeadIsItsKeys(p.items, a, true, |w.wireless|);
    AllWirelessAreTheirKeys(p.items, b, w, |w.wireless|);
    HeadIsItsKeys(p.items, c, false, |w.wired|);
    AllWiredAreTheirKeys(p.items, d, w, |w.wired|);
    PlaceAllOfConcat(p.items, a, k1, k2);
    PlaceAllOfConcat(p.items, a, k1 + k2, k3);
    PlaceAllOfConcat(p.items, a, k1 + k2 + k3, k4);
  }

  // ----- the rows

  /** The rows below n whose item is gone, from the last to the first. */
  function StaleRows(rows: seq<nat>, kept: seq<nat>, n: nat): seq<nat>
    requires n <= |rows|
  {
    if n == 0 then []
    else if rows[n - 1] in kept then StaleRows(rows, kept, n - 1)
    else [n - 1] + StaleRows(rows, kept, n - 1)
  }

  /** The same rows as the loop collects them. */
  function StaleAscending(rows: seq<nat>, kept: seq<nat>, n: nat): seq<nat>
    requires n <= |rows|
  {
    if n == 0 then []
    else if rows[n - 1] in kept then StaleAscending(rows, kept, n - 1)
    else StaleAscending(rows, kept, n - 1) + [n - 1]
  }

  function InsertDescending(x: nat, s: seq<nat>): seq<nat> {
    if s == [] || x > s[0] then [x] + s else [s[0]] + InsertDescending(x, s[1..])
  }

  /** The sort of the rows to remove, from the highest to the lowest. */
  function Descending(s: seq<nat>): seq<nat> {
    if s == [] then [] else InsertDescending(s[|s| - 1], Descending(s[..|s| - 1]))
  }

  ghost predicate Falling(s: seq<nat>) {
    forall i, j :: 0 <= i < j < |s| ==> s[i] >= s[j]
  }

  lemma FallingCons(x: nat, s: seq<nat>)
    requires Falling(s) && forall y :: y in s ==> y <= x
    ensures Falling([x] + s)
  {
    assert forall i :: 0 <= i < |s| ==> s[i] in s;
  }

  lemma {:induction false} InsertDescendingIs(x: nat, s: seq<nat>)
    requires Falling(s)
    ensures Falling(InsertDescending(x, s))
    ensures multiset(InsertDescending(x, s)) == multiset(s) + multiset{x}
    ensures forall y :: y in InsertDescending(x, s) <==> y in s || y == x
  {
    if s == [] || x > s[0] {
      FallingCons(x, s);
    } else {
      InsertDescendingIs(x, s[1..]);
      assert s == [s[0]] + s[1..];
      FallingCons(s[0], InsertDescending(x, s[1..]));
    }
  }

  /** The sort permutes its argument, and leaves no row before a higher one. */
  lemma {:induction false} DescendingIs(s: seq<nat>)
    ensures multiset(Descending(s)) == multiset(s)
    ensures Falling(Descending(s))
  {
    if s != [] {
      DescendingIs(s[..|s| - 1]);
      InsertDescendingIs(s[|s| - 1], Descending(s[..|s| - 1]));
      assert s == s[..|s| - 1] + [s[|s| - 1]];
    }
  }

  lemma {:induction false} StaleBelow(rows: seq<nat>, kept: seq<nat>, n: nat)
    requires n <= |rows|
    ensures StaleRows(rows, kept, n) != [] ==> StaleRows(rows, kept, n)[0] < n
  {
    if n > 0 {
      StaleBelow(rows, kept, n - 1);
    }
  }

  lemma DescendingSnoc(s: seq<nat>, d: seq<nat>, x: nat)
    requires Descending(s) == d && (d == [] || x > d[0])
    ensures Descending(s + [x]) == [x] + d
  {
    assert (s + [x])[..|s|] == s;
  }

  /** The collected rows, sorted, are the stale rows from the last to the first. */
  lemma {:induction false} SortedStaleRows(rows: seq<nat>, kept: seq<nat>, n: nat)
    requires n <= |rows|
    ensures Descending(StaleAscending(rows, kept, n)) == StaleRows(rows, kept, n)
  {
    if n > 0 {
      SortedStaleRows(rows, kept, n - 1);
      if rows[n - 1] !in kept {
        StaleBelow(rows, kept, n - 1);
        DescendingSnoc(StaleAscending(rows, kept, n - 1), StaleRows(rows, kept, n - 1), n - 1);
      }
    }
  }

  function Keep(rows: seq<nat>, kept: seq<nat>, n: nat): seq<nat>
    requires n <= |rows|
  {
    if n == 0 then [] else Keep(rows, kept, n - 1) + (if rows[n - 1] in kept then [rows[n - 1]] else [])
  }

  /** r is the last stale row below n, and rest are those before it. */
  predicate Next(rows: seq<nat>, kept: seq<nat>, n: nat, r: nat, rest: seq<nat>)
    requires n <= |rows|
  {
    r < n && rest == StaleRows(rows, kept, r) && Keep(rows, kept, n) == Keep(rows, kept, r) + rows[r + 1..n]
  }

  lemma NextKept(rows: seq<nat>, kept: seq<nat>, n: nat, r: nat, rest: seq<nat>)
    requires 0 < n <= |rows| && rows[n - 1] in kept && Next(rows, kept, n - 1, r, rest)
    ensures Next(rows, kept, n, r, rest)
  {
    SliceSnoc(rows, r + 1, n);
    Regroup(Keep(rows, kept, r), rows[r + 1..n - 1], [rows[n - 1]]);
  }

  /** Between one stale row and the next everything is kept. */
  lemma {:induction false} NextStale(rows: seq<nat>, kept: seq<nat>, n: nat)
    requires n <= |rows|
    ensures var stale := StaleRows(rows, kept, n);
            if stale == [] then Keep(rows, kept, n) == rows[..n] else Next(rows, kept, n, stale[0], stale[1..])
  {
    if n > 0 {
      NextStale(rows, kept, n - 1);
      if rows[n - 1] !in kept {
        assert rows[n..n] == [];
      } else {
        var stale := StaleRows(rows, kept, n - 1);
        if stale == [] {
          SliceSnoc(rows, 0, n);
        } else {
          NextKept(rows, kept, n, stale[0], stale[1..]);
        }
      }
    }
  }

  /** One removal of the loop over the stale rows, the first of which is the highest below n. */
  lemma RemoveTurn(rows: seq<nat>, kept: seq<nat>, left: seq<nat>, n: nat, stale: seq<nat>)
    requires n <= |rows| && stale == StaleRows(rows, kept, n) && stale != []
    requires n <= |left| && left[..n] == rows[..n]
    ensures var r := stale[0];
            && r < n && stale[1..] == StaleRows(rows, kept, r)
            && RemoveAt(left, r)[..r] == rows[..r]
            && Keep(rows, kept, n) + left[n..] == Keep(rows, kept, r) + RemoveAt(left, r)[r..]
  {
    NextStale(rows, kept, n);
    var r, tail := stale[0], left[n..];
    assert left[..r] == left[..n][..r] == rows[..r];
    assert left[r + 1..] == rows[r + 1..n] + tail by {
      assert left[r + 1..n] == left[..n][r + 1..];
    }
    assert RemoveAt(left, r)[r..] == left[r + 1..];
    Regroup(Keep(rows, kept, r), rows[r + 1..n], tail);
  }

  function Missing(wanted: seq<nat>, rows: seq<nat>, n: nat): seq<nat>
    requires n <= |wanted|
  {
    if n == 0 then [] else Missing(wanted, rows, n - 1) + (if wanted[n - 1] in rows then [] else [wanted[n - 1]])
  }

  function Rank(sortRole: map<nat, nat>, ident: nat): nat {
    if ident in sortRole then sortRole[ident] else 0
  }

  /** The stable sort of the model by the sort role. */
  function Insert(sorted: seq<nat>, x: nat, sortRole: map<nat, nat>): seq<nat> {
    if sorted == [] || Rank(sortRole, sorted[|sorted| - 1]) <= Rank(sortRole, x) then sorted + [x]
    else Insert(sorted[..|sorted| - 1], x, sortRole) + [sorted[|sorted| - 1]]
  }

  function Sort(rows: seq<nat>, sortRole: map<nat, nat>): seq<nat> {
    if rows == [] then [] else Insert(Sort(rows[..|rows| - 1], sortRole), rows[|rows| - 1], sortRole)
  }

  /** The rows after refreshItems. */
  function Refresh(p: Items, rows: seq<nat>): seq<nat> {
    var wanted := Idents(p.items);
    var left := Keep(rows, wanted, |rows|);
    Sort(left + Missing(wanted, left, |wanted|), p.sortRole)
  }

  // ----- agreement

  /** Items are told apart, and each sorts at its own position. */
  ghost predicate InOrder(p: Items) {
    && (forall i :: 0 <= i < |p.items| ==> p.items[i].ident < p.next)
    && (forall i :: 0 <= i < |p.items| ==> p.items[i].ident in p.sortRole && p.sortRole[p.items[i].ident] == i)
  }

  /** b is the rebuilt list for these keys: the old items where there were any, and new ones. */
  ghost predicate Placed(p: Items, b: Items, keys: seq<Key>) {
    && InOrder(b) && p.next <= b.next && |b.items| == |keys|
    && (forall i :: 0 <= i < |keys| ==> b.items[i].key == keys[i])
    && (forall i :: 0 <= i < |keys| ==>
          var k := FindKey(p.items, keys[i], 0);
          if k < |p.items| then b.items[i] == p.items[k] else p.next <= b.items[i].ident)
  }

  lemma PlacedNext(p: Items, c: Items, keys: seq<Key>, key: Key)
    requires InOrder(p) && Placed(p, c, keys) && key !in keys
    ensures Placed(p, Place(p.items, c, key), keys + [key])
  {
    var b := Place(p.items, c, key);
    var k := FindKey(p.items, key, 0);
    forall i | 0 <= i < |keys| ensures c.items[i].ident != b.items[|keys|].ident {
      assert keys[i] != key;
      assert k < |p.items| ==> p.sortRole[p.items[k].ident] == k;
    }
  }

  lemma {:induction false} PlacedInOrder(p: Items, keys: seq<Key>)
    requires InOrder(p) && Distinct(keys)
    ensures Placed(p, PlaceAll(p.items, Items([], p.sortRole, p.next), keys), keys)
    decreases |keys|
  {
    if keys != [] {
      var before, key := keys[..|keys| - 1], keys[|keys| - 1];
      PlacedInOrder(p, before);
      assert key !in before;
      PlacedNext(p, PlaceAll(p.items, Items([], p.sortRole, p.next), before), before, key);
      assert keys == before + [key];
    }
  }

  /** Strictly rising ranks. */
  ghost predicate Rising(rows: seq<nat>, sortRole: map<nat, nat>) {
    forall i, j :: 0 <= i < j < |rows| ==> Rank(sortRole, rows[i]) < Rank(sortRole, rows[j])
  }

  lemma RisingAppend(rows: seq<nat>, x: nat, sortRole: map<nat, nat>)
    requires Rising(rows, sortRole) && forall y :: y in rows ==> Rank(sortRole, y) < Rank(sortRole, x)
    ensures Rising(rows + [x], sortRole)
  {
    assert forall i :: 0 <= i < |rows| ==> rows[i] in rows;
  }

  lemma RisingInit(rows: seq<nat>, sortRole: map<nat, nat>)
    requires Rising(rows, sortRole) && rows != []
    ensures var init, last := rows[..|rows| - 1], rows[|rows| - 1];
            && rows == init + [last] && Rising(init, sortRole)
            && forall y :: y in init ==> Rank(sortRole, y) < Rank(sortRole, last)
  {
  }

  lemma {:induction false} InsertIs(sorted: seq<nat>, x: nat, sortRole: map<nat, nat>)
    requires Rising(sorted, sortRole) && forall y :: y in sorted ==> Rank(sortRole, y) != Rank(sortRole, x)
    ensures var r := Insert(sorted, x, sortRole);
            Rising(r, sortRole) && forall y :: y in r <==> y in sorted || y == x
  {
    if sorted == [] {
    } else {
      RisingInit(sorted, sortRole);
      var init, last := sorted[..|sorted| - 1], sorted[|sorted| - 1];
      assert last in sorted;
      if Rank(sortRole, last) <= Rank(sortRole, x) {
        RisingAppend(sorted, x, sortRole);
      } else {
        InsertIs(init, x, sortRole);
        RisingAppend(Insert(init, x, sortRole), last, sortRole);
      }
    }
  }

  lemma {:induction false} SortIs(rows: seq<nat>, sortRole: map<nat, nat>)
    requires forall i, j :: 0 <= i < j < |rows| ==> Rank(sortRole, rows[i]) != Rank(sortRole, rows[j])
    ensures Rising(Sort(rows, sortRole), sortRole) && forall y :: y in Sort(rows, sortRole) <==> y in rows
  {
    if rows != [] {
      var init, last := rows[..|rows| - 1], rows[|rows| - 1];
      SortIs(init, sortRole);
      assert rows == init + [last];
      InsertIs(Sort(init, sortRole), last, sortRole);
    }
  }

  lemma {:induction false} KeepIs(rows: seq<nat>, kept: seq<nat>, n: nat)
    requires n <= |rows| && Distinct(rows)
    ensures Distinct(Keep(rows, kept, n)) && forall y :: y in Keep(rows, kept, n) <==> y in rows[..n] && y in kept
  {
    if n > 0 {
      KeepIs(rows, kept, n - 1);
      assert rows[..n] == rows[..n - 1] + [rows[n - 1]];
    }
  }

  lemma {:induction false} MissingIs(wanted: seq<nat>, rows: seq<nat>, n: nat)
    requires n <= |wanted| && Distinct(wanted)
    ensures Distinct(Missing(wanted, rows, n))
    ensures forall y :: y in Missing(wanted, rows, n) <==> y in wanted[..n] && y !in rows
  {
    if n > 0 {
      MissingIs(wanted, rows, n - 1);
      assert wanted[..n] == wanted[..n - 1] + [wanted[n - 1]];
    }
  }

  lemma {:induction false} RankAtLeast(rows: seq<nat>, sortRole: map<nat, nat>, n: nat)
    requires Rising(rows, sortRole) && n <= |rows|
    ensures forall i :: 0 <= i < n ==> i <= Rank(sortRole, rows[i])
  {
    if n > 1 {
      RankAtLeast(rows, sortRole, n - 1);
      assert Rank(sortRole, rows[n - 2]) < Rank(sortRole, rows[n - 1]);
    }
  }

  /** Rows that rise in rank and hold exactly the wanted items, each of which ranks at its
      own position, are the wanted items in order. */
  lemma {:induction false} RisingIsWanted(rows: seq<nat>, wanted: seq<nat>, sortRole: map<nat, nat>, i: nat)
    requires Rising(rows, sortRole) && i <= |wanted|
    requires forall y :: y in rows <==> y in wanted
    requires forall k :: 0 <= k < |wanted| ==> Rank(sortRole, wanted[k]) == k
    ensures i <= |rows| && forall k :: 0 <= k < i ==> rows[k] == wanted[k]
  {
    if i > 0 {
      RisingIsWanted(rows, wanted, sortRole, i - 1);
      RankAtLeast(rows, sortRole, |rows|);
      assert wanted[i - 1] in rows;
      var p :| 0 <= p < |rows| && rows[p] == wanted[i - 1];
      assert p <= i - 1;
    }
  }

  lemma NotLonger(rows: seq<nat>, sortRole: map<nat, nat>, n: nat)
    requires Rising(rows, sortRole) && forall y :: y in rows ==> Rank(sortRole, y) < n
    ensures |rows| <= n
  {
    RankAtLeast(rows, sortRole, |rows|);
    if rows != [] {
      assert rows[|rows| - 1] in rows;
    }
  }

  /** After refreshItems, row i holds the standard item of the i-th item. */
  lemma RowsAgree(p: Items, rows: seq<nat>)
    requires InOrder(p) && Distinct(rows)
    ensures Refresh(p, rows) == Idents(p.items)
  {
    var wanted := Idents(p.items);
    var left := Keep(rows, wanted, |rows|);
    var missing := Missing(wanted, left, |wanted|);
    assert Distinct(wanted);
    assert forall k :: 0 <= k < |wanted| ==> Rank(p.sortRole, wanted[k]) == k;
    KeepIs(rows, wanted, |rows|);
    MissingIs(wanted, left, |wanted|);
    assert rows[..|rows|] == rows && wanted[..|wanted|] == wanted;
    var all := left + missing;
    forall i, j | 0 <= i < j < |all| ensures Rank(p.sortRole, all[i]) != Rank(p.sortRole, all[j]) {
      assert all[i] in wanted && all[j] in wanted && all[i] != all[j];
    }
    SortIs(all, p.sortRole);
    var r := Sort(all, p.sortRole);
    RisingIsWanted(r, wanted, p.sortRole, |wanted|);
    NotLonger(r, p.sortRole, |wanted|);
  }

  // ----- when the layout has no key twice

  /** Devices are told apart, the access points of a device too, and all wired connections. */
  ghost predicate DistinctWorld(w: World) {
    && (forall i, j :: 0 <= i < j < |w.wireless| ==> w.wireless[i].device != w.wireless[j].device)
    && (forall i :: 0 <= i < |w.wireless| ==> Distinct(w.wireless[i].accessPoints))
    && (forall i, j :: 0 <= i < j < |w.wired| ==> w.wired[i].device != w.wired[j].device)
    && (forall i :: 0 <= i < |w.wired| ==> Distinct(w.wired[i].connections))
    && (forall i, j, c :: 0 <= i < j < |w.wired| && c in w.wired[i].connections ==> c !in w.wired[j].connections)
  }

  lemma DistinctConcat<T>(a: seq<T>, b: seq<T>)
    requires Distinct(a) && Distinct(b) && forall x :: x in a ==> x !in b
    ensures Distinct(a + b)
  {
    forall i, j | 0 <= i < j < |a + b| ensures (a + b)[i] != (a + b)[j] {
      if i < |a| {
        assert a[i] in a;
      }
    }
  }

  lemma {:induction false} ApKeysAre(d: WirelessDevice, n: nat)
    requires n <= |d.accessPoints| && Distinct(d.accessPoints)
    ensures Distinct(ApKeys(d, n))
    ensures forall x :: x in ApKeys(d, n) ==> x.AccessPoint? && x.device == d.device && x.ap in d.accessPoints[..n]
  {
    if n > 0 {
      ApKeysAre(d, n - 1);
      assert d.accessPoints[..n] == d.accessPoints[..n - 1] + [d.accessPoints[n - 1]];
    }
  }

  lemma WirelessKeysAre(d: WirelessDevice, airplaneMode: bool)
    requires Distinct(d.accessPoints)
    ensures Distinct(WirelessKeys(d, airplaneMode))
    ensures forall x :: x in WirelessKeys(d, airplaneMode) ==>
              (x.WirelessControl? || x.AccessPoint? || x.HiddenNetwork?) && x.device == d.device
  {
    var aps := ApKeys(d, |d.accessPoints|);
    ApKeysAre(d, |d.accessPoints|);
    DistinctConcat([WirelessControl(d.device)], aps);
    if !airplaneMode {
      DistinctConcat([WirelessControl(d.device)] + aps, [HiddenNetwork(d.device)]);
    }
  }

  lemma {:induction false} AllWirelessAre(w: World, n: nat)
    requires DistinctWorld(w) && n <= |w.wireless|
    ensures Distinct(AllWireless(w, n))
    ensures forall x :: x in AllWireless(w, n) ==>
              (x.WirelessControl? || x.AccessPoint? || x.HiddenNetwork?)
              && exists i :: 0 <= i < n && w.wireless[i].device == x.device
  {
    if n > 0 {
      AllWirelessAre(w, n - 1);
      WirelessKeysAre(w.wireless[n - 1], w.airplaneMode);
      DistinctConcat(AllWireless(w, n - 1), WirelessKeys(w.wireless[n - 1], w.airplaneMode));
    }
  }

  lemma {:induction false} ConnectionKeysAre(d: WiredDevice, n: nat)
    requires n <= |d.connections| && Distinct(d.connections)
    ensures Distinct(ConnectionKeys(d, n))
    ensures forall x :: x in ConnectionKeys(d, n) ==> x.WiredItem? && x.connection in d.connections[..n]
  {
    if n > 0 {
      ConnectionKeysAre(d, n - 1);
      assert d.connections[..n] == d.connections[..n - 1] + [d.connections[n - 1]];
    }
  }

  /** The key belongs to this wired device. */
  predicate OfWired(x: Key, d: WiredDevice) {
    (x.WiredControl? && x.device == d.device) || (x.WiredItem? && x.connection in d.connections)
  }

  lemma WiredKeysAre(d: WiredDevice)
    requires Distinct(d.connections)
    ensures Distinct(WiredKeys(d)) && forall x :: x in WiredKeys(d) ==> OfWired(x, d)
  {
    ConnectionKeysAre(d, |d.connections|);
    assert d.connections[..|d.connections|] == d.connections;
    if d.enabled {
      DistinctConcat([WiredControl(d.device)], ConnectionKeys(d, |d.connections|));
    }
  }

  lemma {:induction false} AllWiredAre(w: World, n: nat)
    requires DistinctWorld(w) && n <= |w.wired|
    ensures Distinct(AllWired(w, n))
    ensures forall x :: x in AllWired(w, n) ==> exists i :: 0 <= i < n && OfWired(x, w.wired[i])
  {
    if n > 0 {
      AllWiredAre(w, n - 1);
      WiredKeysAre(w.wired[n - 1]);
      DistinctConcat(AllWired(w, n - 1), WiredKeys(w.wired[n - 1]));
    }
  }

  lemma LayoutIsDistinct(w: World)
    requires DistinctWorld(w)
    ensures Distinct(Layout(w))
  {
    var a := if |w.wireless| > 1 then [DeviceControl(true)] else [];
    var c := if |w.wired| > 1 then [DeviceControl(false)] else [];
    AllWirelessAre(w, |w.wireless|);
    AllWiredAre(w, |w.wired|);
    DistinctConcat(a, AllWireless(w, |w.wireless|));
    DistinctConcat(a + AllWireless(w, |w.wireless|), c);
    DistinctConcat(a + AllWireless(w, |w.wireless|) + c, AllWired(w, |w.wired|));
  }

  /** After an update each row holds the item of its position, and an item whose key stays in
      the panel keeps its standard item. */
  lemma UpdateAgrees(p: Items, rows: seq<nat>, w: World)
    requires InOrder(p) && rows == Idents(p.items) && DistinctWorld(w)
    ensures var q := Rebuild(p, w);
            && InOrder(q) && Refresh(q, rows) == Idents(q.items)
            && |q.items| == |Layout(w)|
            && (forall i :: 0 <= i < |q.items| ==> q.items[i].key == Layout(w)[i])
            && (forall i :: 0 <= i < |q.items| ==>
                  var k := FindKey(p.items, q.items[i].key, 0);
                  if k < |p.items| then q.items[i] == p.items[k] else p.next <= q.items[i].ident)
  {
    LayoutIsDistinct(w);
    PlacedInOrder(p, Layout(w));
    assert Distinct(rows);
    RowsAgree(Rebuild(p, w), rows);
  }

  /** The panel's items and rows after a run of updates. */
  function Updates(worlds: seq<World>): (Items, seq<nat>) {
    if worlds == [] then (Items([], map[], 0), [])
    else
      var (p, rows) := Updates(worlds[..|worlds| - 1]);
      var q := Rebuild(p, worlds[|worlds| - 1]);
      (q, Refresh(q, rows))
  }

  /** In every run of updates each row holds the item of its position, and the items are those
      of the last layout. */
  lemma {:induction false} EveryUpdateAgrees(worlds: seq<World>)
    requires forall w :: w in worlds ==> DistinctWorld(w)
    ensures var (p, rows) := Updates(worlds);
            && InOrder(p) && rows == Idents(p.items)
            && (worlds != [] ==>
                  var keys := Layout(worlds[|worlds| - 1]);
                  |p.items| == |keys| && forall i :: 0 <= i < |keys| ==> p.items[i].key == keys[i])
  {
    if worlds != [] {
      var (p, rows) := Updates(worlds[..|worlds| - 1]);
      EveryUpdateAgrees(worlds[..|worlds| - 1]);
      UpdateAgrees(p, rows, worlds[|worlds| - 1]);
    }
  }
}
