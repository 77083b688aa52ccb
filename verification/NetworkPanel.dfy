/** The panel object (common-plugin/networkdialog/networkpanel.cpp): its item list and its
    model rows, rebuilt and edited in place. */
module NetworkPanels {
  import opened Sequences
  import opened PanelItems

  class NetworkPanel {
    var items: seq<NetItem>
    var sortRole: map<nat, nat>
    var next: nat
    /** The standard items the model's rows hold. */
    var rows: seq<nat>

    ghost function State(): Items
      reads this
    {
      Items(items, sortRole, next)
    }

    /** Row i of the model holds the standard item of the i-th item. */
    ghost predicate Valid()
      reads this
    {
      InOrder(State()) && rows == Idents(items)
    }

    constructor ()
      ensures Valid() && items == []
    {
      items, sortRole, next, rows := [], map[], 0, [];
    }

    /** The new list so far. */
    ghost function With(built: seq<NetItem>): Items
      reads this
    {
      Items(built, sortRole, next)
    }

    /** Find or create the item of a key, give it the next sort index, append it. */
    method Add(built: seq<NetItem>, key: Key) returns (more: seq<NetItem>)
      modifies this`sortRole, this`next
      ensures With(more) == Place(items, old(With(built)), key)
    {
      var k := 0;
      while k < |items| && items[k].key != key
        invariant k <= |items| && FindKey(items, key, 0) == FindKey(items, key, k)
      {
        k := k + 1;
      }
      var item;
      if k < |items| {
        item := items[k];
      } else {
        item := NetItem(next, key);
        next := next + 1;
      }
      sortRole := sortRole[item.ident := |built|];
      more := built + [item];
    }

    method AddWireless(built: seq<NetItem>, d: WirelessDevice, airplaneMode: bool) returns (more: seq<NetItem>)
      modifies this`sortRole, this`next
      ensures With(more) == PlaceWireless(items, old(With(built)), d, airplaneMode)
    {
      more := Add(built, WirelessControl(d.device));
      if d.enabled && !d.hotspotEnabled {
        ghost var start := With(more);
        for i := 0 to |d.accessPoints|
          invariant With(more) == PlaceAps(items, start, d, i)
        {
          more := Add(more, AccessPoint(d.device, d.accessPoints[i]));
        }
        if !airplaneMode {
          more := Add(more, HiddenNetwork(d.device));
        }
      }
    }

    method AddAllWireless(built: seq<NetItem>, w: World) returns (more: seq<NetItem>)
      modifies this`sortRole, this`next
      ensures With(more) == PlaceAllWireless(items, old(With(built)), w, |w.wireless|)
    {
      more := built;
      for i := 0 to |w.wireless|
        invariant With(more) == PlaceAllWireless(items, old(With(built)), w, i)
      {
        more := AddWireless(more, w.wireless[i], w.airplaneMode);
      }
    }

    method AddWired(built: seq<NetItem>, d: WiredDevice) returns (more: seq<NetItem>)
      modifies this`sortRole, this`next
      ensures With(more) == PlaceWired(items, old(With(built)), d)
    {
      more := Add(built, WiredControl(d.device));
      if d.enabled {
        ghost var start := With(more);
        for i := 0 to |d.connections|
          invariant With(more) == PlaceConnections(items, start, d, i)
        {
          more := Add(more, WiredItem(d.connections[i]));
        }
      }
    }

    method AddAllWired(built: seq<NetItem>, w: World) returns (more: seq<NetItem>)
      modifies this`sortRole, this`next
      ensures With(more) == PlaceAllWired(items, old(With(built)), w, |w.wired|)
    {
      more := built;
      for i := 0 to |w.wired|
        invariant With(more) == PlaceAllWired(items, old(With(built)), w, i)
      {
        more := AddWired(more, w.wired[i]);
      }
    }

    method UpdateItems(w: World)
      modifies this`items, this`sortRole, this`next
      ensures State() == Rebuild(old(State()), w)
    {
      LoopsPlaceTheLayout(State(), w);
      var built: seq<NetItem> := [];
      if |w.wireless| > 1 {
        built := Add(built, DeviceControl(true));
      }
      built := AddAllWireless(built, w);
      if |w.wired| > 1 {
        built := Add(built, DeviceControl(false));
      }
      built := AddAllWired(built, w);
      items := built;
    }

    static method RemoveRows(rows: seq<nat>, rmRows: seq<nat>, ghost wanted: seq<nat>) returns (left: seq<nat>)
      requires rmRows == StaleRows(rows, wanted, |rows|)
      ensures left == Keep(rows, wanted, |rows|)
    {
      left := rows;
      ghost var n: nat := |rows|;
      assert rows[..n] == rows && rows[n..] == [];
      for i := 0 to |rmRows|
        invariant n <= |rows| && rmRows[i..] == StaleRows(rows, wanted, n)
        invariant n <= |left| && left[..n] == rows[..n]
        invariant Keep(rows, wanted, |rows|) == Keep(rows, wanted, n) + left[n..]
      {
        RemoveTurn(rows, wanted, left, n, rmRows[i..]);
        left := RemoveAt(left, rmRows[i]);
        n := rmRows[i];
      }
      NextStale(rows, wanted, n);
      assert left == left[..n] + left[n..];
    }

    /** The stale rows are collected, sorted from the last to the first, and removed. */
    static method RemoveStale(rows: seq<nat>, wanted: seq<nat>) returns (left: seq<nat>)
      ensures left == Keep(rows, wanted, |rows|)
    {
      var rmRows: seq<nat> := [];
      for i := 0 to |rows|
        invariant rmRows == StaleAscending(rows, wanted, i)
      {
        if rows[i] !in wanted {
          rmRows := rmRows + [i];
        }
      }
      SortedStaleRows(rows, wanted, |rows|);
      rmRows := Descending(rmRows);
      left := RemoveRows(rows, rmRows, wanted);
    }

    method RefreshItems()
      modifies this`rows
      ensures rows == Refresh(State(), old(rows))
      ensures old(Valid()) ==> Valid()
    {
      ghost var valid := Valid();
      var wanted := Idents(items);
      rows := RemoveStale(rows, wanted);
      var newItems := [];
      for i := 0 to |wanted|
        invariant newItems == Missing(wanted, rows, i) && rows == Keep(old(rows), wanted, |old(rows)|)
      {
        if wanted[i] !in rows {
          newItems := newItems + [wanted[i]];
        }
      }
      rows := rows + newItems;
      rows := Sort(rows, sortRole);
      if valid {
        assert Distinct(old(rows));
        RowsAgree(State(), old(rows));
      }
    }

    method UpdateView(w: World)
      requires Valid() && DistinctWorld(w)
      modifies this
      ensures Valid() && State() == Rebuild(old(State()), w)
    {
      UpdateAgrees(State(), rows, w);
      UpdateItems(w);
      RefreshItems();
    }

    /** The clicked row's item. */
    method OnClickListView(row: nat) returns (item: NetItem)
      requires Valid() && row < |rows|
      ensures item in items && item.ident == rows[row]
    {
      item := items[row];
    }
  }
}
