/** What an active-connection snapshot shows on the hotspot items, and whom it tells
    (HotspotController::updateActiveConnection in src-old/hotspotcontroller.cpp). */
module HotspotStatuses {
  import opened Sequences
  import opened KeyedList
  import opened ControllItems
  import opened HotspotItems
  import opened HotspotProofs

  /** An entry of the snapshot: its key, the connection, the state, and the device paths. */
  datatype ActiveHotspot = ActiveHotspot(path: string, uuid: string, state: int, devices: seq<string>)

  /** What is shown on an item. */
  datatype Shown = Shown(status: ConnectionStatus, activeConnection: string)

  /** What the controller looks its items up in. */
  datatype Board = Board(hw: Hardware, devices: seq<Device>, items: seq<HotspotItem>)

  const IDLE := Shown(Deactivated, "")

  function ShownOf(a: ActiveHotspot): Shown {
    Shown(ConvertStatus(a.state), a.path)
  }

  /** The first device with the path, or |devices|. */
  function FindDevice(hw: Hardware, devices: seq<Device>, path: string, from: nat): nat
    requires from <= |devices|
  {
    FirstIndex(hw.path, devices, path, from)
  }

  /** The item of a connection on the device with the path, or |items|. */
  function Target(b: Board, uuid: string, path: string): (k: nat)
    ensures k <= |b.items|
    ensures k < |b.items| ==> FindDevice(b.hw, b.devices, path, 0) < |b.devices|
  {
    var d := FindDevice(b.hw, b.devices, path, 0);
    if d == |b.devices| then |b.items| else Find(Table(b.items), (b.devices[d], uuid))
  }

  /** Does one of the first n device paths of the entry lead to item k? */
  predicate Hits(b: Board, a: ActiveHotspot, k: nat, n: nat)
    requires n <= |a.devices|
  {
    n > 0 && (Hits(b, a, k, n - 1) || Target(b, a.uuid, a.devices[n - 1]) == k)
  }

  /** What item k shows after the first n entries. */
  function ShownAfter(b: Board, actives: seq<ActiveHotspot>, k: nat, n: nat): Shown
    requires n <= |actives|
  {
    if n == 0 then IDLE
    else if Hits(b, actives[n - 1], k, |actives[n - 1].devices|) then ShownOf(actives[n - 1])
    else ShownAfter(b, actives, k, n - 1)
  }

  // ----- the declarative reading

  /** The entry is about this item: its connection, active on its device. */
  predicate Concerns(hw: Hardware, x: HotspotItem, a: ActiveHotspot) {
    x.connection.uuid == a.uuid && hw.path(x.device) in a.devices
  }

  /** Device paths are distinct, every item is on a current device, and no pair has two items. */
  ghost predicate Orderly(b: Board) {
    && DistinctPaths(b.hw, b.devices) && Distinct(Keys(Table(b.items)))
    && forall k :: 0 <= k < |b.items| ==> b.items[k].device in b.devices
  }

  lemma TargetMeans(b: Board, uuid: string, path: string, k: nat)
    requires Orderly(b) && k < |b.items|
    ensures Target(b, uuid, path) == k <==>
              b.items[k].connection.uuid == uuid && b.hw.path(b.items[k].device) == path
  {
    var d := FindDevice(b.hw, b.devices, path, 0);
    if b.items[k].connection.uuid == uuid && b.hw.path(b.items[k].device) == path {
      var i :| 0 <= i < |b.devices| && b.devices[i] == b.items[k].device;
      assert d < |b.devices|;
      assert b.devices[d] in b.devices && b.devices[d] == b.items[k].device;
      var t := Find(Table(b.items), (b.devices[d], uuid));
      assert Table(b.items)[k].key == (b.devices[d], uuid);
      assert Keys(Table(b.items))[t] == Keys(Table(b.items))[k];
    }
  }

  lemma {:induction false} HitsMeans(b: Board, a: ActiveHotspot, k: nat, n: nat)
    requires Orderly(b) && k < |b.items| && n <= |a.devices|
    ensures Hits(b, a, k, n) <==>
              b.items[k].connection.uuid == a.uuid && b.hw.path(b.items[k].device) in a.devices[..n]
  {
    if n > 0 {
      HitsMeans(b, a, k, n - 1);
      TargetMeans(b, a.uuid, a.devices[n - 1], k);
      assert a.devices[..n] == a.devices[..n - 1] + [a.devices[n - 1]];
    }
  }

  /** What is shown is the state and path of the last of the first n entries about the item, or
      that there is none. */
  ghost predicate ShowsLast(hw: Hardware, x: HotspotItem, actives: seq<ActiveHotspot>, n: nat, s: Shown)
    requires n <= |actives|
  {
    || (s == Shown(Deactivated, "") && forall j :: 0 <= j < n ==> !Concerns(hw, x, actives[j]))
    || exists j :: (0 <= j < n && Concerns(hw, x, actives[j])
                    && s == Shown(ConvertStatus(actives[j].state), actives[j].path)
                    && forall l :: j < l < n ==> !Concerns(hw, x, actives[l]))
  }

  /** After the snapshot every item shows the last entry about it, and is idle without one. */
  lemma {:induction false} ShowsLastConcerning(b: Board, actives: seq<ActiveHotspot>, k: nat, n: nat)
    requires Orderly(b) && k < |b.items| && n <= |actives|
    ensures ShowsLast(b.hw, b.items[k], actives, n, ShownAfter(b, actives, k, n))
  {
    if n > 0 {
      var a := actives[n - 1];
      ShowsLastConcerning(b, actives, k, n - 1);
      HitsMeans(b, a, k, |a.devices|);
      assert a.devices[..|a.devices|] == a.devices;
      if Concerns(b.hw, b.items[k], a) {
        assert ShownAfter(b, actives, k, n) == ShownOf(actives[n - 1]);
      }
    }
  }

  /** So in every run of device and connection snapshots with distinct device paths. */
  lemma RunShowsLastConcerning(hw: Hardware, events: seq<HotspotEvent>, actives: seq<ActiveHotspot>, k: nat)
    requires DistinctPaths(hw, RunHotspots(events).devices) && k < |RunHotspots(events).list.items|
    ensures var s := RunHotspots(events);
            var b := Board(hw, s.devices, s.list.items);
            ShowsLast(hw, s.list.items[k], actives, |actives|, ShownAfter(b, actives, k, |actives|))
  {
    var s := RunHotspots(events);
    HotspotRun(events);
    assert forall i :: 0 <= i < |s.list.items| ==> s.list.items[i] in s.list.items;
    ShowsLastConcerning(Board(hw, s.devices, s.list.items), actives, k, |actives|);
  }

  // ----- whom the update tells

  /** The status kept under a uuid: that of the last item with it. */
  function OldStatus(items: seq<HotspotItem>, before: seq<Shown>, uuid: string, n: nat): Option<ConnectionStatus>
    requires n <= |items| == |before|
  {
    if n == 0 then None
    else if items[n - 1].connection.uuid == uuid then Some(before[n - 1].status)
    else OldStatus(items, before, uuid, n - 1)
  }

  /** The signals of an update: whether activeConnectionChanged is emitted and with which
      devices, and how often enableHotspotSwitch is. */
  datatype Tidings = Tidings(changed: bool, devices: seq<Device>, switches: nat)

  const QUIET := Tidings(false, [], 0)

  /** The connection finished activating or deactivating. */
  predicate Completes(was: Option<ConnectionStatus>, state: ConnectionStatus) {
    (was == Some(Activating) && state == Activated) || (was == Some(Deactivating) && state == Deactivated)
  }

  predicate Differs(was: Option<ConnectionStatus>, state: ConnectionStatus) {
    was.Some? && was.value != state
  }

  /** What one device path of an entry adds, `was` being the status kept under its uuid. */
  function TellPath(b: Board, was: Option<ConnectionStatus>, t: Tidings, a: ActiveHotspot, path: string): Tidings {
    var state := ConvertStatus(a.state);
    if Target(b, a.uuid, path) == |b.items| || was.None? then t
    else
      var d := b.devices[FindDevice(b.hw, b.devices, path, 0)];
      var u := if Completes(was, state) then t.(switches := t.switches + 1) else t;
      if was.value == state then u
      else u.(changed := true, devices := if d in u.devices then u.devices else u.devices + [d])
  }

  /** What the first n device paths of an entry add. */
  function Tell(b: Board, was: Option<ConnectionStatus>, t: Tidings, a: ActiveHotspot, n: nat): Tidings
    requires n <= |a.devices|
  {
    if n == 0 then t else TellPath(b, was, Tell(b, was, t, a, n - 1), a, a.devices[n - 1])
  }

  /** What the first n entries tell. */
  function TellAll(b: Board, before: seq<Shown>, actives: seq<ActiveHotspot>, n: nat): Tidings
    requires n <= |actives| && |before| == |b.items|
  {
    if n == 0 then QUIET
    else
      var a := actives[n - 1];
      Tell(b, OldStatus(b.items, before, a.uuid, |b.items|), TellAll(b, before, actives, n - 1), a, |a.devices|)
  }

  /** The path leads to an item of the connection on the device. */
  predicate Leads(b: Board, uuid: string, path: string, d: Device) {
    Target(b, uuid, path) < |b.items| && b.devices[FindDevice(b.hw, b.devices, path, 0)] == d
  }

  /** One of the first n device paths of the entry leads to an item on the device. */
  ghost predicate Reaches(b: Board, a: ActiveHotspot, d: Device, n: nat)
    requires n <= |a.devices|
  {
    exists i :: 0 <= i < n && Leads(b, a.uuid, a.devices[i], d)
  }

  ghost predicate ReachesSome(b: Board, a: ActiveHotspot, n: nat)
    requires n <= |a.devices|
  {
    exists d :: Reaches(b, a, d, n)
  }

  lemma ReachesMore(b: Board, a: ActiveHotspot, d: Device, n: nat)
    requires 0 < n <= |a.devices|
    ensures var path := a.devices[n - 1];
            Reaches(b, a, d, n) <==> (Reaches(b, a, d, n - 1) || Leads(b, a.uuid, path, d))
  {
    var m := n - 1;
    if Reaches(b, a, d, m) {
      var i :| 0 <= i < m && Leads(b, a.uuid, a.devices[i], d);
      assert i < n;
    }
  }

  lemma ReachesSomeMore(b: Board, a: ActiveHotspot, n: nat)
    requires 0 < n <= |a.devices|
    ensures ReachesSome(b, a, n) <==> (ReachesSome(b, a, n - 1) || Target(b, a.uuid, a.devices[n - 1]) < |b.items|)
  {
    var m := n - 1;
    if ReachesSome(b, a, n) {
      var d :| Reaches(b, a, d, n);
      ReachesMore(b, a, d, n);
      assert Reaches(b, a, d, m) || Leads(b, a.uuid, a.devices[m], d);
    }
    if ReachesSome(b, a, m) {
      var d :| Reaches(b, a, d, m);
      ReachesMore(b, a, d, n);
    }
    if Target(b, a.uuid, a.devices[m]) < |b.items| {
      ReachesMore(b, a, b.devices[FindDevice(b.hw, b.devices, a.devices[m], 0)], n);
    }
  }

  /** Each device is named once, and there is one when the signal is due. */
  ghost predicate Sound(t: Tidings) {
    Distinct(t.devices) && (t.changed <==> t.devices != [])
  }

  lemma TellPathIs(b: Board, was: Option<ConnectionStatus>, t: Tidings, a: ActiveHotspot, path: string)
    requires Sound(t)
    ensures var state, u := ConvertStatus(a.state), TellPath(b, was, t, a, path);
            && Sound(u)
            && (forall d :: d in u.devices <==> d in t.devices || (Differs(was, state) && Leads(b, a.uuid, path, d)))
            && u.switches ==
                 t.switches + if Completes(was, state) && Target(b, a.uuid, path) < |b.items| then 1 else 0
  {
  }

  /** An entry adds exactly the devices it reaches while its state is news, each once, and
      emits the switch exactly when it reaches a device and completes the change. */
  lemma {:induction false} TellIs(b: Board, was: Option<ConnectionStatus>, t: Tidings, a: ActiveHotspot, n: nat)
    requires n <= |a.devices| && Sound(t)
    ensures var state, u := ConvertStatus(a.state), Tell(b, was, t, a, n);
            && Sound(u) && t.switches <= u.switches
            && (forall d :: d in u.devices <==> d in t.devices || (Differs(was, state) && Reaches(b, a, d, n)))
            && (u.switches > t.switches <==> Completes(was, state) && ReachesSome(b, a, n))
  {
    if n > 0 {
      var path := a.devices[n - 1];
      TellIs(b, was, t, a, n - 1);
      TellPathIs(b, was, Tell(b, was, t, a, n - 1), a, path);
      forall d
        ensures Reaches(b, a, d, n) <==> (Reaches(b, a, d, n - 1) || Leads(b, a.uuid, path, d))
      {
        ReachesMore(b, a, d, n);
      }
      ReachesSomeMore(b, a, n);
    }
  }

  /** The entry reaches the device, and its state is not the status kept under its uuid. */
  ghost predicate IsNews(b: Board, before: seq<Shown>, a: ActiveHotspot, d: Device)
    requires |before| == |b.items|
  {
    Differs(OldStatus(b.items, before, a.uuid, |b.items|), ConvertStatus(a.state)) && Reaches(b, a, d, |a.devices|)
  }

  /** The entry reaches a device, and what was activating is activated, or what was deactivating
      is deactivated. */
  ghost predicate IsCompletion(b: Board, before: seq<Shown>, a: ActiveHotspot)
    requires |before| == |b.items|
  {
    var was := OldStatus(b.items, before, a.uuid, |b.items|);
    ((was == Some(Activating) && a.state == 2) || (was == Some(Deactivating) && a.state == 4))
    && ReachesSome(b, a, |a.devices|)
  }

  /** Some of the first n entries brings news to the device. */
  ghost predicate SomeNews(b: Board, before: seq<Shown>, actives: seq<ActiveHotspot>, n: nat, d: Device)
    requires n <= |actives| && |before| == |b.items|
  {
    exists j :: 0 <= j < n && IsNews(b, before, actives[j], d)
  }

  /** Some of the first n entries completes a change. */
  ghost predicate SomeCompletion(b: Board, before: seq<Shown>, actives: seq<ActiveHotspot>, n: nat)
    requires n <= |actives| && |before| == |b.items|
  {
    exists j :: 0 <= j < n && IsCompletion(b, before, actives[j])
  }

  /** What one more entry adds to the signals. */
  lemma EntryTells(b: Board, before: seq<Shown>, actives: seq<ActiveHotspot>, n: nat)
    requires n < |actives| && |before| == |b.items| && Sound(TellAll(b, before, actives, n))
    ensures var t, u := TellAll(b, before, actives, n), TellAll(b, before, actives, n + 1);
            && Sound(u) && t.switches <= u.switches
            && (forall d :: d in u.devices <==> d in t.devices || IsNews(b, before, actives[n], d))
            && (u.switches > t.switches <==> IsCompletion(b, before, actives[n]))
  {
    var a := actives[n];
    StatusNumbers(a.state);
    TellIs(b, OldStatus(b.items, before, a.uuid, |b.items|), TellAll(b, before, actives, n), a, |a.devices|);
  }

  lemma OneMoreEntry(b: Board, before: seq<Shown>, actives: seq<ActiveHotspot>, n: nat)
    requires n < |actives| && |before| == |b.items|
    ensures forall d :: SomeNews(b, before, actives, n + 1, d) <==>
              (SomeNews(b, before, actives, n, d) || IsNews(b, before, actives[n], d))
    ensures SomeCompletion(b, before, actives, n + 1) <==>
              (SomeCompletion(b, before, actives, n) || IsCompletion(b, before, actives[n]))
  {
    forall d | SomeNews(b, before, actives, n, d) ensures SomeNews(b, before, actives, n + 1, d) {
      var j :| 0 <= j < n && IsNews(b, before, actives[j], d);
      assert j < n + 1;
    }
    if SomeCompletion(b, before, actives, n) {
      var j :| 0 <= j < n && IsCompletion(b, before, actives[j]);
      assert j < n + 1;
    }
  }

  /** activeConnectionChanged names each device once that some entry brings news to, and is emitted
      when there is one; enableHotspotSwitch is emitted when some entry completes a change. */
  lemma {:induction false} TidingsMean(b: Board, before: seq<Shown>, actives: seq<ActiveHotspot>, n: nat)
    requires n <= |actives| && |before| == |b.items|
    ensures var t := TellAll(b, before, actives, n);
            && Sound(t)
            && (forall d :: d in t.devices <==> SomeNews(b, before, actives, n, d))
            && (t.switches > 0 <==> SomeCompletion(b, before, actives, n))
  {
    if n > 0 {
      TidingsMean(b, before, actives, n - 1);
      EntryTells(b, before, actives, n - 1);
      OneMoreEntry(b, before, actives, n - 1);
    }
  }

  // ----- when each uuid is on one item

  ghost predicate OneItemEach(items: seq<HotspotItem>) {
    forall i, j :: 0 <= i < j < |items| ==> items[i].connection.uuid != items[j].connection.uuid
  }

  lemma {:induction false} OldStatusOfOnly(items: seq<HotspotItem>, before: seq<Shown>, k: nat, n: nat)
    requires k < n <= |items| == |before| && OneItemEach(items)
    ensures OldStatus(items, before, items[k].connection.uuid, n) == Some(before[k].status)
  {
    if k < n - 1 {
      OldStatusOfOnly(items, before, k, n - 1);
    }
  }

  /** Where each uuid is on one item only, an entry is news to a device exactly when it is about
      an item of that device and differs from what the item showed before. */
  lemma NewsMeans(b: Board, before: seq<Shown>, a: ActiveHotspot, d: Device)
    requires Orderly(b) && OneItemEach(b.items) && |before| == |b.items|
    ensures IsNews(b, before, a, d) <==>
              exists k :: 0 <= k < |b.items| && b.items[k].device == d && Concerns(b.hw, b.items[k], a)
                          && before[k].status != ConvertStatus(a.state)
  {
    if IsNews(b, before, a, d) {
      var i :| 0 <= i < |a.devices| && Leads(b, a.uuid, a.devices[i], d);
      var k := Target(b, a.uuid, a.devices[i]);
      TargetMeans(b, a.uuid, a.devices[i], k);
      OldStatusOfOnly(b.items, before, k, |b.items|);
      assert Table(b.items)[k].key == (d, a.uuid);
    }
    if k :| 0 <= k < |b.items| && b.items[k].device == d && Concerns(b.hw, b.items[k], a)
            && before[k].status != ConvertStatus(a.state) {
      var i :| 0 <= i < |a.devices| && a.devices[i] == b.hw.path(d);
      TargetMeans(b, a.uuid, a.devices[i], k);
      OldStatusOfOnly(b.items, before, k, |b.items|);
      assert Table(b.items)[k].key == (d, a.uuid);
    }
  }

  // ----- what the loops keep

  /** What the items show, by their identities; a new item shows an unknown status. */
  function Showing(items: seq<HotspotItem>, status: map<nat, Shown>): (r: seq<Shown>)
    ensures |r| == |items|
    ensures forall k :: 0 <= k < |items| ==>
              r[k] == if items[k].ident in status then status[items[k].ident] else Shown(Unknown, "")
  {
    seq(|items|, k requires 0 <= k < |items| =>
      if items[k].ident in status then status[items[k].ident] else Shown(Unknown, ""))
  }

  lemma ShowingOne(items: seq<HotspotItem>, status: map<nat, Shown>, k: nat, shown: Shown, high: nat)
    requires k < |items| && Rising(Identities(items), 0, high)
    ensures Showing(items, status[items[k].ident := shown]) == Showing(items, status)[k := shown]
  {
    assert forall i :: 0 <= i < |items| ==> Identities(items)[i] == items[i].ident;
  }

  ghost predicate Kept(statuses: map<string, ConnectionStatus>, items: seq<HotspotItem>, before: seq<Shown>, n: nat)
    requires n <= |items| == |before|
  {
    forall uuid: string :: OldStatus(items, before, uuid, n) == if uuid in statuses then Some(statuses[uuid]) else None
  }

  /** Each item shows what the first n entries made of it. */
  ghost predicate ShowAfter(b: Board, shown: seq<Shown>, actives: seq<ActiveHotspot>, n: nat)
    requires |shown| == |b.items| && n <= |actives|
  {
    forall k :: 0 <= k < |b.items| ==> shown[k] == ShownAfter(b, actives, k, n)
  }

  /** Each item one of the first n paths leads to shows the entry, any other what it did. */
  ghost predicate ShowHits(b: Board, was: seq<Shown>, shown: seq<Shown>, a: ActiveHotspot, n: nat)
    requires |was| == |shown| == |b.items| && n <= |a.devices|
  {
    forall k :: 0 <= k < |b.items| ==> shown[k] == if Hits(b, a, k, n) then ShownOf(a) else was[k]
  }

  lemma FoundHasUuid(items: seq<HotspotItem>, d: Device, uuid: string)
    ensures var k := Find(Table(items), (d, uuid)); k < |items| ==> items[k].connection.uuid == uuid
  {
  }

  lemma {:induction false} UnknownHitsNothing(b: Board, was: Option<ConnectionStatus>, t: Tidings, shown: seq<Shown>,
                                              a: ActiveHotspot, n: nat)
    requires n <= |a.devices| && |shown| == |b.items|
    requires forall k :: 0 <= k < |b.items| ==> b.items[k].connection.uuid != a.uuid
    ensures ShowHits(b, shown, shown, a, n) && Tell(b, was, t, a, n) == t
  {
    if n > 0 {
      UnknownHitsNothing(b, was, t, shown, a, n - 1);
      var d := FindDevice(b.hw, b.devices, a.devices[n - 1], 0);
      if d < |b.devices| {
        FoundHasUuid(b.items, b.devices[d], a.uuid);
      }
      assert Target(b, a.uuid, a.devices[n - 1]) == |b.items|;
    }
  }

  /** One turn of the loop over the device paths of an entry. */
  lemma HitTurn(b: Board, was: seq<Shown>, shown: seq<Shown>, after: seq<Shown>, a: ActiveHotspot, n: nat)
    requires |was| == |shown| == |b.items| && n < |a.devices| && ShowHits(b, was, shown, a, n)
    requires var k := Target(b, a.uuid, a.devices[n]); after == if k < |b.items| then shown[k := ShownOf(a)] else shown
    ensures ShowHits(b, was, after, a, n + 1)
  {
  }

  /** One turn of the loop over the entries. */
  lemma ShowTurn(b: Board, was: seq<Shown>, shown: seq<Shown>, actives: seq<ActiveHotspot>, n: nat)
    requires |was| == |shown| == |b.items| && n < |actives|
    requires ShowAfter(b, was, actives, n) && ShowHits(b, was, shown, actives[n], |actives[n].devices|)
    ensures ShowAfter(b, shown, actives, n + 1)
  {
  }
}
