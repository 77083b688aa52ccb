/** The connection items a controller keeps (src-old/networkconst.h and .cpp) and
    what one snapshot does to a list of them. An item is known to listeners by its
    identity, the object's address in the source. */
module ControllItems {
  import opened Sequences
  import opened KeyedList
  import TaggedSlots

  /** The connection record of a snapshot. */
  datatype Conn = Conn(path: string, uuid: string, id: string, ssid: string, hwAddress: string)

  const NO_CONN := Conn("", "", "", "", "")

  datatype ConnectionStatus = Unknown | Activating | Activated | Deactivating | Deactivated

  function ConvertStatus(state: int): ConnectionStatus {
    match state
    case 1 => Activating
    case 2 => Activated
    case 3 => Deactivating
    case 4 => Deactivated
    case _ => Unknown
  }

  datatype Item = Item(ident: nat, connection: Conn, status: ConnectionStatus)

  /** A list of items, and the identity the next new item gets. */
  datatype ItemList = ItemList(items: seq<Item>, next: nat)

  const NO_ITEMS := ItemList([], 0)

  /** An entry of an active-connection snapshot, under its object path. */
  datatype Active = Active(key: string, uuid: string, state: int)

  /** What a listener is told: the items of itemChanged, itemAdded and itemRemoved,
      each signal emitted when its list is nonempty. */
  datatype Signals = Signals(changed: seq<nat>, added: seq<nat>, removed: seq<nat>)

  function EntryOf(x: Item): Entry<string, Conn> { Entry(x.connection.path, x.connection) }

  function View(items: seq<Item>): (r: seq<Entry<string, Conn>>)
    ensures |r| == |items| && forall i :: 0 <= i < |r| ==> r[i] == Entry(items[i].connection.path, items[i].connection)
  {
    Mapped(EntryOf, items)
  }

  function ByPath(snapshot: seq<Conn>): (r: seq<Entry<string, Conn>>)
    ensures |r| == |snapshot| && forall i :: 0 <= i < |r| ==> r[i] == Entry(snapshot[i].path, snapshot[i])
  {
    seq(|snapshot|, i requires 0 <= i < |snapshot| => Entry(snapshot[i].path, snapshot[i]))
  }

  function IdentOf(x: Item): nat { x.ident }

  function PathOf(x: Item): string { x.connection.path }

  function Idents(items: seq<Item>): (r: seq<nat>)
    ensures |r| == |items| && forall i :: 0 <= i < |r| ==> r[i] == items[i].ident
  {
    Mapped(IdentOf, items)
  }

  // ----- one snapshot

  /** The item with this path is updated, or a new one is appended. */
  function Put(l: ItemList, c: Conn): ItemList {
    var k := Find(View(l.items), c.path);
    if k < |l.items| then l.(items := l.items[k := l.items[k].(connection := c)])
    else ItemList(l.items + [Item(l.next, c, Unknown)], l.next + 1)
  }

  function PutFrom(l: ItemList, snapshot: seq<Conn>, j: nat): ItemList
    requires j <= |snapshot|
    decreases |snapshot| - j
  {
    if j == |snapshot| then l else PutFrom(Put(l, snapshot[j]), snapshot, j + 1)
  }

  /** The items the entries from j on find under another id, as they find them. */
  function ChangedFrom(l: ItemList, snapshot: seq<Conn>, j: nat): seq<nat>
    requires j <= |snapshot|
    decreases |snapshot| - j
  {
    if j == |snapshot| then []
    else
      var k := Find(View(l.items), snapshot[j].path);
      var rest := ChangedFrom(Put(l, snapshot[j]), snapshot, j + 1);
      if k < |l.items| && l.items[k].connection.id != snapshot[j].id then [l.items[k].ident] + rest else rest
  }

  function PathsUpTo(snapshot: seq<Conn>, j: nat): seq<string>
    requires j <= |snapshot|
  {
    if j == 0 then [] else PathsUpTo(snapshot, j - 1) + [snapshot[j - 1].path]
  }

  lemma {:induction false} PathsUpToAre(snapshot: seq<Conn>, j: nat)
    requires j <= |snapshot|
    ensures PathsUpTo(snapshot, j) == Keys(ByPath(snapshot))[..j]
  {
    if j > 0 {
      PathsUpToAre(snapshot, j - 1);
    }
  }

  /** The list after a snapshot, and the signals of the update. */
  function Update(l: ItemList, snapshot: seq<Conn>): (ItemList, Signals) {
    var all := PutFrom(l, snapshot, 0);
    var gone := Lacking(PathOf, all.items, Keys(ByPath(snapshot)), 0);
    (all.(items := Without(all.items, gone)),
     Signals(ChangedFrom(l, snapshot, 0), Range(l.next, all.next), Idents(gone)))
  }

  lemma IdentsOfAppend(items: seq<Item>, x: Item)
    ensures Idents(items + [x]) == Idents(items) + [x.ident]
  {
    MappedOfConcat(IdentOf, items, [x]);
    MappedOfOne(IdentOf, x);
  }

  lemma IdentsGoOn(items: seq<Item>, x: Item, rest: seq<nat>)
    ensures Idents(items + [x]) + rest == Idents(items) + ([x.ident] + rest)
  {
    IdentsOfAppend(items, x);
    Regroup(Idents(items), [x.ident], rest);
  }

  /** The index of the first item with this path, or |items|. */
  method FindItem(items: seq<Item>, path: string) returns (k: nat)
    ensures k == Find(View(items), path)
  {
    k := 0;
    while k < |items|
      invariant k <= |items| && forall j :: 0 <= j < k ==> items[j].connection.path != path
    {
      if items[k].connection.path == path {
        return;
      }
      k := k + 1;
    }
  }

  /** A controller's list and a listener that holds the items it was told of. */
  datatype Heard = Heard(list: ItemList, mirror: seq<nat>)

  function Hear(mirror: seq<nat>, signals: Signals): seq<nat> {
    Without(mirror + signals.added, signals.removed)
  }

  function Run(snapshots: seq<seq<Conn>>): Heard {
    if snapshots == [] then Heard(NO_ITEMS, [])
    else
      var h := Run(snapshots[..|snapshots| - 1]);
      var (l, signals) := Update(h.list, snapshots[|snapshots| - 1]);
      Heard(l, Hear(h.mirror, signals))
  }

  /** Paths are distinct, and identities are handed out in list order. */
  ghost predicate Listed(l: ItemList) {
    && Distinct(Keys(View(l.items)))
    && Rising(Idents(l.items), 0, l.next)
  }

  lemma PutIs(l: ItemList, c: Conn)
    ensures var m := Put(l, c);
            && View(m.items) == Upsert(View(l.items), Entry(c.path, c))
            && |l.items| <= |m.items| && l.next <= m.next && |m.items| - |l.items| == m.next - l.next
            && (forall i :: 0 <= i < |l.items| ==>
                  m.items[i].ident == l.items[i].ident && m.items[i].status == l.items[i].status
                  && m.items[i].connection.path == l.items[i].connection.path)
            && (forall i :: |l.items| <= i < |m.items| ==>
                  m.items[i].ident == l.next + (i - |l.items|) && m.items[i].status == Unknown)
  {
  }

  lemma {:induction false} PutFromIs(l: ItemList, snapshot: seq<Conn>, j: nat)
    requires j <= |snapshot|
    ensures var m := PutFrom(l, snapshot, j);
            && View(m.items) == UpsertFrom(View(l.items), ByPath(snapshot), j)
            && |l.items| <= |m.items| && l.next <= m.next && |m.items| - |l.items| == m.next - l.next
            && (forall i :: 0 <= i < |l.items| ==>
                  m.items[i].ident == l.items[i].ident && m.items[i].status == l.items[i].status
                  && m.items[i].connection.path == l.items[i].connection.path)
            && (forall i :: |l.items| <= i < |m.items| ==>
                  m.items[i].ident == l.next + (i - |l.items|) && m.items[i].status == Unknown)
    decreases |snapshot| - j
  {
    if j < |snapshot| {
      PutIs(l, snapshot[j]);
      PutFromIs(Put(l, snapshot[j]), snapshot, j + 1);
    }
  }

  lemma LeftViewStep(items: seq<Item>, gone: seq<Item>, paths: seq<string>)
    requires items != [] && (items[0] in gone <==> items[0].connection.path !in paths)
    requires View(Without(items[1..], gone)) == KeepKeys(View(items[1..]), paths)
    ensures View(Without(items, gone)) == KeepKeys(View(items), paths)
  {
    var head, tail := items[0], items[1..];
    assert items == [head] + tail;
    MappedOfOne(EntryOf, head);
    MappedOfConcat(EntryOf, [head], tail);
    MappedOfConcat(EntryOf, if head in gone then [] else [head], Without(tail, gone));
    WithoutCons(head, tail, gone);
    KeepKeysCons(EntryOf(head), View(tail), paths);
  }

  /** What is left when exactly the items with other paths are gone. */
  lemma {:induction false} LeftView(items: seq<Item>, gone: seq<Item>, paths: seq<string>)
    requires forall x :: x in items ==> (x in gone <==> x.connection.path !in paths)
    ensures View(Without(items, gone)) == KeepKeys(View(items), paths)
  {
    if items != [] {
      assert items[0] in items;
      LeftView(items[1..], gone, paths);
      LeftViewStep(items, gone, paths);
    }
  }

  /** The items after the first half of an update are told apart by their identities. */
  lemma PutFromListed(l: ItemList, snapshot: seq<Conn>)
    requires Listed(l)
    ensures Listed(PutFrom(l, snapshot, 0))
  {
    PutFromIs(l, snapshot, 0);
    UpsertFromKeys(View(l.items), ByPath(snapshot), 0);
  }

  /** The last loops of a snapshot: the items whose path is gone are collected and removed. */
  method RemoveGone(items: seq<Item>, paths: seq<string>, ghost next: nat) returns (left: seq<Item>, removed: seq<nat>)
    requires Listed(ItemList(items, next))
    ensures left == Without(items, Lacking(PathOf, items, paths, 0))
    ensures removed == Idents(Lacking(PathOf, items, paths, 0))
  {
    assert forall i :: 0 <= i < |items| ==> Idents(items)[i] == items[i].ident;
    var gone := CollectLacking(PathOf, items, paths);
    LackingDistinct(PathOf, items, paths, 0);
    left := RemoveEach(items, gone);
    removed := Idents(gone);
  }

  lemma PutFromIdents(l: ItemList, snapshot: seq<Conn>)
    ensures Idents(PutFrom(l, snapshot, 0).items) == Idents(l.items) + Range(l.next, PutFrom(l, snapshot, 0).next)
  {
    var m := PutFrom(l, snapshot, 0);
    PutFromIs(l, snapshot, 0);
    RangeAppended(Idents(l.items), Idents(m.items), l.next, m.next);
  }

  lemma SameIdent(l: ItemList, x: Item, y: Item)
    requires Listed(l) && x in l.items && y in l.items && x.ident == y.ident
    ensures x == y
  {
    var i :| 0 <= i < |l.items| && l.items[i] == x;
    var j :| 0 <= j < |l.items| && l.items[j] == y;
    assert Idents(l.items)[i] == Idents(l.items)[j];
  }

  /** The list after a snapshot: it shows the reconciled table; survivors keep their
      identity, place and status and come first; then the new items, with new identities. */
  lemma UpdateIs(l: ItemList, snapshot: seq<Conn>)
    requires Listed(l)
    ensures var (m, signals) := Update(l, snapshot);
            && Listed(m) && l.next <= m.next
            && View(m.items) == Reconcile(View(l.items), ByPath(snapshot))
            && Idents(m.items) == Without(Idents(l.items) + signals.added, signals.removed)
            && signals.added == Range(l.next, m.next)
  {
    var all := PutFrom(l, snapshot, 0);
    var paths := Keys(ByPath(snapshot));
    var gone := Lacking(PathOf, all.items, paths, 0);
    var (m, signals) := Update(l, snapshot);
    PutFromIs(l, snapshot, 0);
    PutFromListed(l, snapshot);
    PutFromIdents(l, snapshot);
    AllLacking(PathOf, all.items, paths);
    forall x, y | x in all.items && y in gone && x.ident == y.ident ensures x == y {
      SameIdent(all, x, y);
    }
    WithoutMapped(IdentOf, all.items, gone);
    LeftView(all.items, gone, paths);
    WithoutRising(Idents(all.items), Idents(gone), 0, all.next);
    KeepKeysIs(View(all.items), paths);
    CommonIs(Keys(View(all.items)), paths);
  }

  /** The two halves of an update: items put in place, then those whose path is gone removed. */
  lemma UpdateHalves(l: ItemList, snapshot: seq<Conn>)
    requires Listed(l)
    ensures var all := PutFrom(l, snapshot, 0);
            var gone := Lacking(PathOf, all.items, Keys(ByPath(snapshot)), 0);
            var left := Without(all.items, gone);
            && Listed(all) && Listed(ItemList(left, all.next))
            && Idents(left) == Without(Idents(l.items) + Range(l.next, all.next), Idents(gone))
            && Update(l, snapshot) ==
                 (ItemList(left, all.next), Signals(ChangedFrom(l, snapshot, 0), Range(l.next, all.next), Idents(gone)))
  {
    PutFromListed(l, snapshot);
    UpdateIs(l, snapshot);
  }

  /** Exactly the items whose path the snapshot lacks are reported as removed. */
  lemma RemovedAre(l: ItemList, snapshot: seq<Conn>, i: nat)
    requires Listed(l) && i < |l.items|
    ensures l.items[i].ident in Update(l, snapshot).1.removed <==> l.items[i].connection.path !in Keys(ByPath(snapshot))
  {
    var all := PutFrom(l, snapshot, 0);
    var gone := Lacking(PathOf, all.items, Keys(ByPath(snapshot)), 0);
    PutFromIs(l, snapshot, 0);
    PutFromListed(l, snapshot);
    AllLacking(PathOf, all.items, Keys(ByPath(snapshot)));
    forall y | y in gone && all.items[i].ident == y.ident ensures all.items[i] == y {
      SameIdent(all, all.items[i], y);
    }
    MappedIn(IdentOf, all.items[i], gone);
  }

  /** An item added by an update has a path of the snapshot. */
  lemma NewStays(l: ItemList, snapshot: seq<Conn>, i: nat)
    requires |l.items| <= i < |PutFrom(l, snapshot, 0).items|
    ensures PutFrom(l, snapshot, 0).items[i].connection.path in Keys(ByPath(snapshot))
  {
    PutFromIs(l, snapshot, 0);
    NewEntryIsGiven(View(l.items), ByPath(snapshot), i);
  }

  /** An item whose path is gone was there before the update. */
  lemma GoneAreOld(l: ItemList, snapshot: seq<Conn>, x: Item)
    requires x in Lacking(PathOf, PutFrom(l, snapshot, 0).items, Keys(ByPath(snapshot)), 0)
    ensures x.ident in Idents(l.items)
  {
    var all := PutFrom(l, snapshot, 0);
    AllLacking(PathOf, all.items, Keys(ByPath(snapshot)));
    PutFromIs(l, snapshot, 0);
    var i :| 0 <= i < |all.items| && all.items[i] == x;
    if i >= |l.items| {
      NewStays(l, snapshot, i);
    }
    assert Idents(l.items)[i] == x.ident;
  }

  /** What is reported as removed was in the list, so no item is both added and removed. */
  lemma RemovedWereThere(l: ItemList, snapshot: seq<Conn>, k: nat)
    requires Listed(l) && k in Update(l, snapshot).1.removed
    ensures k in Idents(l.items) && k !in Update(l, snapshot).1.added
  {
    var all := PutFrom(l, snapshot, 0);
    var gone := Lacking(PathOf, all.items, Keys(ByPath(snapshot)), 0);
    var g :| 0 <= g < |gone| && Idents(gone)[g] == k;
    GoneAreOld(l, snapshot, gone[g]);
    if k in Range(l.next, all.next) {
      RangeAbove(l.next, all.next, k);
    }
  }

  // ----- who is reported as changed

  function SlotOf(x: Item): TaggedSlots.Slot<string, string> {
    TaggedSlots.Slot(x.ident, x.connection.path, x.connection.id)
  }

  function TagOf(c: Conn): TaggedSlots.Entry<string, string> { TaggedSlots.Entry(c.path, c.id) }

  lemma PutIsPlaceTag(l: ItemList, c: Conn)
    ensures var k := TaggedSlots.FindSlot(Mapped(SlotOf, l.items), c.path, 0);
            && k == Find(View(l.items), c.path)
            && Put(l, c).next == (if k < |l.items| then l.next else l.next + 1)
            && Mapped(SlotOf, Put(l, c).items) == TaggedSlots.PlaceTag(Mapped(SlotOf, l.items), l.next, TagOf(c))
  {
    var k, m := TaggedSlots.FindSlot(Mapped(SlotOf, l.items), c.path, 0), Find(View(l.items), c.path);
    assert forall i :: 0 <= i < |l.items| ==> Mapped(SlotOf, l.items)[i].key == View(l.items)[i].key;
    assert k == m;
  }

  lemma {:induction false} ChangedIsRetagged(l: ItemList, snapshot: seq<Conn>, j: nat)
    requires j <= |snapshot|
    ensures ChangedFrom(l, snapshot, j) ==
            TaggedSlots.Retagged(Mapped(SlotOf, l.items), l.next, Mapped(TagOf, snapshot), j)
    decreases |snapshot| - j
  {
    if j < |snapshot| {
      PutIsPlaceTag(l, snapshot[j]);
      ChangedIsRetagged(Put(l, snapshot[j]), snapshot, j + 1);
    }
  }

  lemma ListedIsApart(l: ItemList)
    requires Listed(l)
    ensures TaggedSlots.Apart(Mapped(SlotOf, l.items), l.next)
  {
    forall i, j | 0 <= i < j < |l.items|
      ensures l.items[i].ident != l.items[j].ident && l.items[i].connection.path != l.items[j].connection.path
    {
      assert Idents(l.items)[i] < Idents(l.items)[j];
      assert Keys(View(l.items))[i] != Keys(View(l.items))[j];
    }
    assert forall i :: 0 <= i < |l.items| ==> Idents(l.items)[i] == l.items[i].ident;
  }

  /** The snapshot lists the path of the connection under another id. */
  predicate ListsRenamed(snapshot: seq<Conn>, old_: Conn) {
    exists c :: c in snapshot && c.path == old_.path && c.id != old_.id
  }

  lemma RetagsIsRenamed(x: Item, snapshot: seq<Conn>)
    ensures TaggedSlots.Retags(Mapped(TagOf, snapshot), 0, SlotOf(x)) <==> ListsRenamed(snapshot, x.connection)
  {
    var es, s := Mapped(TagOf, snapshot), SlotOf(x);
    if ListsRenamed(snapshot, x.connection) {
      var c :| c in snapshot && c.path == x.connection.path && c.id != x.connection.id;
      var m :| 0 <= m < |snapshot| && snapshot[m] == c;
      assert es[m].key == s.key && es[m].tag != s.tag;
    }
    if TaggedSlots.Retags(es, 0, s) {
      var m :| 0 <= m < |es| && es[m].key == s.key && es[m].tag != s.tag;
      assert snapshot[m] in snapshot;
    }
  }

  /** itemChanged names, each once, exactly the old items the snapshot lists under another id. */
  lemma ChangedMeans(l: ItemList, snapshot: seq<Conn>)
    requires Listed(l)
    requires forall m, n :: 0 <= m < n < |snapshot| ==> snapshot[m].path != snapshot[n].path
    ensures var changed := Update(l, snapshot).1.changed;
            && Distinct(changed)
            && (forall x :: x in changed ==> x in Idents(l.items))
            && (forall i :: 0 <= i < |l.items| ==>
                  (l.items[i].ident in changed <==> ListsRenamed(snapshot, l.items[i].connection)))
  {
    var slots, es, changed := Mapped(SlotOf, l.items), Mapped(TagOf, snapshot), ChangedFrom(l, snapshot, 0);
    ListedIsApart(l);
    ChangedIsRetagged(l, snapshot, 0);
    TaggedSlots.RetaggedAre(slots, l.next, es, 0);
    forall x | x in changed ensures x in Idents(l.items) {
      var i :| 0 <= i < |slots| && slots[i].ident == x;
      assert Idents(l.items)[i] == x;
    }
    forall i | 0 <= i < |l.items|
      ensures l.items[i].ident in changed <==> ListsRenamed(snapshot, l.items[i].connection)
    {
      assert slots[i] == SlotOf(l.items[i]);
      RetagsIsRenamed(l.items[i], snapshot);
    }
  }

  /** A survivor keeps its identity, path and status. */
  lemma SurvivorKeeps(l: ItemList, snapshot: seq<Conn>, x: Item, y: Item)
    requires Listed(l) && x in l.items && y in Update(l, snapshot).0.items && x.ident == y.ident
    ensures y.status == x.status && y.connection.path == x.connection.path
  {
    var all := PutFrom(l, snapshot, 0);
    PutFromIs(l, snapshot, 0);
    PutFromListed(l, snapshot);
    var i :| 0 <= i < |l.items| && l.items[i] == x;
    assert y in all.items;
    SameIdent(all, all.items[i], y);
  }

  /** In every run a listener holds exactly the items of the list, in its order, and
      the list shows what the last snapshot says, whatever came before. */
  lemma {:induction false} ListenerAgrees(snapshots: seq<seq<Conn>>)
    ensures var h := Run(snapshots);
            && Listed(h.list) && h.mirror == Idents(h.list.items)
            && (snapshots != [] ==> Agrees(View(h.list.items), ByPath(snapshots[|snapshots| - 1])))
  {
    if snapshots != [] {
      var before, last := Run(snapshots[..|snapshots| - 1]), snapshots[|snapshots| - 1];
      ListenerAgrees(snapshots[..|snapshots| - 1]);
      UpdateIs(before.list, last);
      ReconcileAgrees(View(before.list.items), ByPath(last));
    }
  }

  /** Incremental equals rebuild: whatever snapshots came before, the items show exactly the
      entries that a controller shows which has seen the last snapshot alone. */
  lemma ItemsAreRebuilt(history: seq<seq<Conn>>, es: seq<Conn>)
    ensures var l, scratch := Run(history + [es]).list, Run([es]).list;
            && Agrees(View(l.items), ByPath(es))
            && forall e :: e in View(l.items) <==> e in View(scratch.items)
  {
    ListenerAgrees(history + [es]);
    ListenerAgrees([es]);
    var a, b := View(Run(history + [es]).list.items), View(Run([es]).list.items);
    forall e ensures e in a <==> e in b {
      if e in a {
        AgreementIsUnique(a, b, ByPath(es), e);
      }
      if e in b {
        AgreementIsUnique(b, a, ByPath(es), e);
      }
    }
  }

  // ----- active connections

  /** The last state the first n entries of an active-connection snapshot give a uuid. */
  function LastState(actives: seq<Active>, uuid: string, n: nat): Option<int>
    requires n <= |actives|
  {
    if n == 0 then None
    else if actives[n - 1].uuid == uuid then Some(actives[n - 1].state)
    else LastState(actives, uuid, n - 1)
  }

  function UuidOf(x: Item): string { x.connection.uuid }

  /** The index of the first item with this uuid, or |items|. */
  function FirstWithUuid(items: seq<Item>, uuid: string): nat {
    FirstIndex(UuidOf, items, uuid, 0)
  }

  /** The index of the first item with this uuid, or |items|. */
  method FindItemByUuid(items: seq<Item>, uuid: string) returns (k: nat)
    ensures k == FirstWithUuid(items, uuid)
  {
    k := 0;
    while k < |items|
      invariant k <= |items| && forall j :: 0 <= j < k ==> items[j].connection.uuid != uuid
    {
      if items[k].connection.uuid == uuid {
        return;
      }
      k := k + 1;
    }
  }

  predicate Known(items: seq<Item>, uuid: string) {
    FirstWithUuid(items, uuid) < |items|
  }

  /** The status an item ends with: the snapshot speaks to the first item with the uuid. */
  function StatusAfter(items: seq<Item>, actives: seq<Active>, n: nat, k: nat): ConnectionStatus
    requires k < |items| && n <= |actives|
  {
    var uuid := items[k].connection.uuid;
    var state := LastState(actives, uuid, n);
    if FirstWithUuid(items, uuid) == k && state.Some? then ConvertStatus(state.value) else Deactivated
  }

  predicate Activates(items: seq<Item>, active: Active) {
    Known(items, active.uuid) && ConvertStatus(active.state) == Activated
  }

  /** The last key among the first n whose known item is activated. */
  function ActivePath(items: seq<Item>, actives: seq<Active>, n: nat): string
    requires n <= |actives|
  {
    if n == 0 then ""
    else if Activates(items, actives[n - 1]) then actives[n - 1].key
    else ActivePath(items, actives, n - 1)
  }

  /** The status recorded for a uuid before the update: that of the last
      of the first n items with it. */
  function OldStatus(items: seq<Item>, uuid: string, n: nat): Option<ConnectionStatus>
    requires n <= |items|
  {
    if n == 0 then None
    else if items[n - 1].connection.uuid == uuid then Some(items[n - 1].status)
    else OldStatus(items, uuid, n - 1)
  }

  /** The entry names a known connection and brings a status it was not recorded with. */
  predicate News(items: seq<Item>, active: Active) {
    Known(items, active.uuid) && OldStatus(items, active.uuid, |items|) != Some(ConvertStatus(active.state))
  }

  /** The items hold the statuses the first n entries of the snapshot leave them with, and are otherwise as before. */
  ghost predicate HaveStatuses(items: seq<Item>, before: seq<Item>, actives: seq<Active>, n: nat)
    requires n <= |actives|
  {
    && |items| == |before|
    && forall k :: 0 <= k < |items| ==> items[k] == before[k].(status := StatusAfter(before, actives, n, k))
  }

  /** Statuses are no part of what the list shows or of its items' identities. */
  lemma StatusesShowNothing(items: seq<Item>, before: seq<Item>, actives: seq<Active>)
    requires HaveStatuses(items, before, actives, |actives|)
    ensures View(items) == View(before) && Idents(items) == Idents(before)
  {
  }

  lemma StatusesKeepListed(items: seq<Item>, before: seq<Item>, actives: seq<Active>, next: nat)
    requires HaveStatuses(items, before, actives, |actives|) && Listed(ItemList(before, next))
    ensures Listed(ItemList(items, next)) && Idents(items) == Idents(before)
  {
    StatusesShowNothing(items, before, actives);
    assert forall i :: 0 <= i < |items| ==> items[i].ident == before[i].ident;
  }

  lemma SameUuids(items: seq<Item>, before: seq<Item>, actives: seq<Active>, n: nat, uuid: string)
    requires n <= |actives| && HaveStatuses(items, before, actives, n)
    ensures FirstWithUuid(items, uuid) == FirstWithUuid(before, uuid)
  {
    var i, j := FirstWithUuid(items, uuid), FirstWithUuid(before, uuid);
    if i < |items| {
      assert before[i].connection.uuid == uuid;
    }
    if j < |items| {
      assert items[j].connection.uuid == uuid;
    }
  }

  /** One turn of the loop over the active connections. */
  lemma StatusTurn(items: seq<Item>, before: seq<Item>, actives: seq<Active>, j: nat)
    requires j < |actives| && HaveStatuses(items, before, actives, j)
    ensures var k := FirstWithUuid(before, actives[j].uuid);
            var state := ConvertStatus(actives[j].state);
            var turned := if k < |items| then items[k := items[k].(status := state)] else items;
            HaveStatuses(turned, before, actives, j + 1)
  {
    var k := FirstWithUuid(before, actives[j].uuid);
    forall i | 0 <= i < |items| && i != k
      ensures StatusAfter(before, actives, j + 1, i) == StatusAfter(before, actives, j, i)
    {
    }
  }

  /** The statuses recorded under each uuid before the update. */
  ghost predicate Records(statuses: map<string, ConnectionStatus>, items: seq<Item>, n: nat)
    requires n <= |items|
  {
    forall u :: if u in statuses then OldStatus(items, u, n) == Some(statuses[u]) else OldStatus(items, u, n) == None
  }

  /** The loop that records every status under its uuid and clears it. */
  method Deactivate(items: seq<Item>) returns (after: seq<Item>, allStatus: map<string, ConnectionStatus>)
    ensures HaveStatuses(after, items, [], 0)
    ensures Records(allStatus, items, |items|)
  {
    after, allStatus := items, map[];
    for i := 0 to |items|
      invariant |after| == |items| && Records(allStatus, items, i)
      invariant forall k :: 0 <= k < |items| ==>
                  after[k] == if k < i then items[k].(status := Deactivated) else items[k]
    {
      allStatus := allStatus[after[i].connection.uuid := after[i].status];
      after := after[i := after[i].(status := Deactivated)];
    }
  }

  lemma {:induction false} OldStatusOfSome(items: seq<Item>, k: nat, n: nat)
    requires k < n <= |items|
    ensures OldStatus(items, items[k].connection.uuid, n).Some?
  {
    if k < n - 1 {
      OldStatusOfSome(items, k, n - 1);
    }
  }

  lemma NewsIs(items: seq<Item>, active: Active)
    ensures News(items, active) <==>
              var was := OldStatus(items, active.uuid, |items|);
              Known(items, active.uuid) && was.Some? && was.value != ConvertStatus(active.state)
  {
    if Known(items, active.uuid) {
      OldStatusOfSome(items, FirstWithUuid(items, active.uuid), |items|);
    }
  }

  /** Some of the first n entries is news. */
  predicate AnyNews(items: seq<Item>, actives: seq<Active>, n: nat)
    requires n <= |actives|
  {
    n > 0 && (AnyNews(items, actives, n - 1) || News(items, actives[n - 1]))
  }

  /** One turn of the loop over the active connections, the same in both controllers. */
  method ShowActive(items: seq<Item>, path: string, changed: bool, allStatus: map<string, ConnectionStatus>,
                    ghost before: seq<Item>, actives: seq<Active>, j: nat)
      returns (shown: seq<Item>, activePath: string, statusChanged: bool)
    requires j < |actives| && HaveStatuses(items, before, actives, j)
    requires var uuid := actives[j].uuid;
             OldStatus(before, uuid, |before|) == if uuid in allStatus then Some(allStatus[uuid]) else None
    ensures HaveStatuses(shown, before, actives, j + 1)
    ensures activePath == if Activates(before, actives[j]) then actives[j].key else path
    ensures statusChanged == (changed || News(before, actives[j]))
  {
    shown, activePath, statusChanged := items, path, changed;
    SameUuids(items, before, actives, j, actives[j].uuid);
    NewsIs(before, actives[j]);
    StatusTurn(items, before, actives, j);
    var k := FindItemByUuid(items, actives[j].uuid);
    if k < |items| {
      var state := ConvertStatus(actives[j].state);
      shown := items[k := items[k].(status := state)];
      if state == Activated {
        activePath := actives[j].key;
      }
      var uuid := shown[k].connection.uuid;
      if uuid in allStatus {
        if !statusChanged && allStatus[uuid] != state {
          statusChanged := true;
        }
      }
    }
  }

  /** The loops of an active-connection update. */
  method ShowActives(items: seq<Item>, actives: seq<Active>)
      returns (shown: seq<Item>, activePath: string, statusChanged: bool)
    ensures HaveStatuses(shown, items, actives, |actives|)
    ensures activePath == ActivePath(items, actives, |actives|)
    ensures statusChanged == AnyNews(items, actives, |actives|)
  {
    var allStatus;
    shown, allStatus := Deactivate(items);
    activePath, statusChanged := "", false;
    for j := 0 to |actives|
      invariant HaveStatuses(shown, items, actives, j)
      invariant activePath == ActivePath(items, actives, j)
      invariant statusChanged == AnyNews(items, actives, j)
    {
      shown, activePath, statusChanged := ShowActive(shown, activePath, statusChanged, allStatus, items, actives, j);
    }
  }

  lemma {:induction false} AnyNewsIs(items: seq<Item>, actives: seq<Active>, n: nat)
    requires n <= |actives|
    ensures AnyNews(items, actives, n) <==> exists j :: 0 <= j < n && News(items, actives[j])
  {
    if n > 0 {
      AnyNewsIs(items, actives, n - 1);
    }
  }

  ghost predicate DistinctUuids(items: seq<Item>) {
    forall i, j :: 0 <= i < j < |items| ==> items[i].connection.uuid != items[j].connection.uuid
  }

  lemma {:induction false} OldStatusIs(items: seq<Item>, k: nat, n: nat)
    requires k < n <= |items| && DistinctUuids(items)
    ensures OldStatus(items, items[k].connection.uuid, n) == Some(items[k].status)
  {
    if k < n - 1 {
      OldStatusIs(items, k, n - 1);
    }
  }

  lemma {:induction false} LastStateOfOnly(actives: seq<Active>, j: nat, n: nat)
    requires j < n <= |actives|
    requires forall i, k :: 0 <= i < k < |actives| ==> actives[i].uuid != actives[k].uuid
    ensures LastState(actives, actives[j].uuid, n) == Some(actives[j].state)
  {
    if j < n - 1 {
      LastStateOfOnly(actives, j, n - 1);
    }
  }

  lemma {:induction false} LastStateAbsent(actives: seq<Active>, uuid: string, n: nat)
    requires n <= |actives| && forall i :: 0 <= i < n ==> actives[i].uuid != uuid
    ensures LastState(actives, uuid, n) == None
  {
    if n > 0 {
      LastStateAbsent(actives, uuid, n - 1);
    }
  }

  /** The numbers NetworkManager gives the states. */
  lemma StatusNumbers(state: int)
    ensures ConvertStatus(state) == Activating <==> state == 1
    ensures ConvertStatus(state) == Activated <==> state == 2
    ensures ConvertStatus(state) == Deactivating <==> state == 3
    ensures ConvertStatus(state) == Deactivated <==> state == 4
  {
  }

  /** The entry says that the connection of some item is activated. */
  predicate SaysActivated(items: seq<Item>, a: Active) {
    a.state == 2 && exists k :: 0 <= k < |items| && items[k].connection.uuid == a.uuid
  }

  lemma ActivatesIs(items: seq<Item>, a: Active)
    ensures Activates(items, a) <==> SaysActivated(items, a)
  {
    var k := FirstWithUuid(items, a.uuid);
    assert k < |items| ==> items[k].connection.uuid == a.uuid;
  }

  /** The active path is that of the last known item to be activated. */
  lemma {:induction false} ActivePathIsLast(items: seq<Item>, actives: seq<Active>, j: nat, n: nat)
    requires j < n <= |actives| && SaysActivated(items, actives[j])
    requires forall k :: j < k < n ==> !SaysActivated(items, actives[k])
    ensures ActivePath(items, actives, n) == actives[j].key
  {
    ActivatesIs(items, actives[n - 1]);
    if j < n - 1 {
      assert !SaysActivated(items, actives[n - 1]);
      ActivePathIsLast(items, actives, j, n - 1);
    }
  }

  /** There is no active path when no known item is activated. */
  lemma {:induction false} NoActivePath(items: seq<Item>, actives: seq<Active>, n: nat)
    requires n <= |actives| && forall k :: 0 <= k < n ==> !SaysActivated(items, actives[k])
    ensures ActivePath(items, actives, n) == ""
  {
    if n > 0 {
      ActivatesIs(items, actives[n - 1]);
      assert !SaysActivated(items, actives[n - 1]);
      NoActivePath(items, actives, n - 1);
    }
  }

  /** With distinct uuids on both sides the update says what one expects: an item
      listed takes its entry's status, an item not listed becomes deactivated, and an
      entry is news exactly when it changes its item's status. */
  lemma ActiveUpdateMeans(items: seq<Item>, actives: seq<Active>, k: nat)
    requires k < |items| && DistinctUuids(items)
    requires forall i, j :: 0 <= i < j < |actives| ==> actives[i].uuid != actives[j].uuid
    ensures forall j :: 0 <= j < |actives| && actives[j].uuid == items[k].connection.uuid ==>
              && StatusAfter(items, actives, |actives|, k) == ConvertStatus(actives[j].state)
              && (News(items, actives[j]) <==> items[k].status != ConvertStatus(actives[j].state))
    ensures (forall j :: 0 <= j < |actives| ==> actives[j].uuid != items[k].connection.uuid) ==>
              StatusAfter(items, actives, |actives|, k) == Deactivated
  {
    var uuid := items[k].connection.uuid;
    assert FirstWithUuid(items, uuid) == k;
    OldStatusIs(items, k, |items|);
    if j :| 0 <= j < |actives| && actives[j].uuid == uuid {
      LastStateOfOnly(actives, j, |actives|);
    } else {
      LastStateAbsent(actives, uuid, |actives|);
    }
  }

  /** With distinct uuids on both sides the change signal fires exactly when some
      listed known connection changes status. */
  lemma ChangeSignalMeans(items: seq<Item>, actives: seq<Active>)
    requires DistinctUuids(items)
    requires forall i, j :: 0 <= i < j < |actives| ==> actives[i].uuid != actives[j].uuid
    ensures AnyNews(items, actives, |actives|) <==>
              exists k, j :: 0 <= k < |items| && 0 <= j < |actives| && actives[j].uuid == items[k].connection.uuid
                && items[k].status != ConvertStatus(actives[j].state)
  {
    AnyNewsIs(items, actives, |actives|);
    forall k | 0 <= k < |items|
      ensures forall j :: 0 <= j < |actives| && actives[j].uuid == items[k].connection.uuid ==>
                (News(items, actives[j]) <==> items[k].status != ConvertStatus(actives[j].state))
    {
      ActiveUpdateMeans(items, actives, k);
    }
    if j :| 0 <= j < |actives| && News(items, actives[j]) {
      assert actives[j].uuid == items[FirstWithUuid(items, actives[j].uuid)].connection.uuid;
    }
  }
}
