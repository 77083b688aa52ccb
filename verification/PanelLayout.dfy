/** What the network panel lists and in which order, stated without the functions that build
    the list (NetworkPanel::updateItems in common-plugin/networkdialog/networkpanel.cpp). */
module PanelLayout {
  import opened Sequences
  import opened PanelItems

  /** The access points of the device are shown. */
  predicate Searches(d: WirelessDevice) { d.enabled && !d.hotspotEnabled }

  /** Where a key stands: the head of the wireless devices, each of them with its control, its
      access points and the hidden network, the head of the wired devices, each of them with
      its control and its connections. The heads stand for more than one device only. */
  predicate Stands(w: World, x: Key, at: Spot) {
    var wired := |w.wireless| + 2;
    match x
    case DeviceControl(wireless) =>
      if wireless then |w.wireless| > 1 && at == Spot(0, 0) else |w.wired| > 1 && at == Spot(|w.wireless| + 1, 0)
    case WirelessControl(device) =>
      1 <= at.outer <= |w.wireless| && w.wireless[at.outer - 1].device == device && at.inner == 0
    case AccessPoint(device, ap) =>
      && 1 <= at.outer <= |w.wireless|
      && var d := w.wireless[at.outer - 1];
         d.device == device && Searches(d) && 1 <= at.inner <= |d.accessPoints| && d.accessPoints[at.inner - 1] == ap
    case HiddenNetwork(device) =>
      && 1 <= at.outer <= |w.wireless|
      && var d := w.wireless[at.outer - 1];
         d.device == device && Searches(d) && !w.airplaneMode && at.inner == |d.accessPoints| + 1
    case WiredControl(device) =>
      wired <= at.outer < wired + |w.wired| && w.wired[at.outer - wired].device == device && at.inner == 0
    case WiredItem(connection) =>
      && wired <= at.outer < wired + |w.wired|
      && var d := w.wired[at.outer - wired];
         d.enabled && 1 <= at.inner <= |d.connections| && d.connections[at.inner - 1] == connection
  }

  /** Each key stands at its place, in a group from lo to hi. */
  ghost predicate Placed(w: World, keys: seq<Key>, places: seq<Spot>, lo: nat, hi: nat) {
    && |keys| == |places|
    && forall i :: 0 <= i < |keys| ==> Stands(w, keys[i], places[i]) && lo <= places[i].outer < hi
  }

  ghost predicate Among(keys: seq<Key>, places: seq<Spot>, x: Key, at: Spot)
    requires |keys| == |places|
  {
    exists i :: 0 <= i < |keys| && keys[i] == x && places[i] == at
  }

  /** What stands in these groups is among the keys. */
  ghost predicate Complete(w: World, keys: seq<Key>, places: seq<Spot>, lo: nat, hi: nat)
    requires |keys| == |places|
  {
    forall x, at :: Stands(w, x, at) && lo <= at.outer < hi ==> Among(keys, places, x, at)
  }

  /** The keys are all that stand in the groups from lo to hi, in the order of their places. */
  ghost predicate Enumerates(w: World, keys: seq<Key>, places: seq<Spot>, lo: nat, hi: nat) {
    Placed(w, keys, places, lo, hi) && InTurn(places) && Complete(w, keys, places, lo, hi)
  }

  lemma AmongConcat(a: seq<Key>, p: seq<Spot>, b: seq<Key>, q: seq<Spot>, x: Key, at: Spot)
    requires |a| == |p| && |b| == |q| && (Among(a, p, x, at) || Among(b, q, x, at))
    ensures Among(a + b, p + q, x, at)
  {
    if Among(a, p, x, at) {
      var i :| 0 <= i < |a| && a[i] == x && p[i] == at;
      assert (a + b)[i] == x && (p + q)[i] == at;
    } else {
      var i :| 0 <= i < |b| && b[i] == x && q[i] == at;
      assert (a + b)[|a| + i] == x && (p + q)[|a| + i] == at;
    }
  }

  lemma PlacedConcat(w: World, a: seq<Key>, p: seq<Spot>, lo: nat, mid: nat, b: seq<Key>, q: seq<Spot>, hi: nat)
    requires lo <= mid <= hi && Placed(w, a, p, lo, mid) && Placed(w, b, q, mid, hi)
    ensures Placed(w, a + b, p + q, lo, hi)
  {
    forall i | 0 <= i < |a + b|
      ensures Stands(w, (a + b)[i], (p + q)[i]) && lo <= (p + q)[i].outer < hi
    {
      if i < |a| {
        assert (a + b)[i] == a[i] && (p + q)[i] == p[i];
      } else {
        assert (a + b)[i] == b[i - |a|] && (p + q)[i] == q[i - |a|];
      }
    }
  }

  lemma CompleteConcat(w: World, a: seq<Key>, p: seq<Spot>, lo: nat, mid: nat, b: seq<Key>, q: seq<Spot>, hi: nat)
    requires |a| == |p| && |b| == |q| && Complete(w, a, p, lo, mid) && Complete(w, b, q, mid, hi)
    ensures Complete(w, a + b, p + q, lo, hi)
  {
    forall x, at | Stands(w, x, at) && lo <= at.outer < hi
      ensures Among(a + b, p + q, x, at)
    {
      if at.outer < mid {
        assert Among(a, p, x, at);
      } else {
        assert Among(b, q, x, at);
      }
      AmongConcat(a, p, b, q, x, at);
    }
  }

  lemma EnumeratesConcat(w: World, a: seq<Key>, p: seq<Spot>, lo: nat, mid: nat, b: seq<Key>, q: seq<Spot>, hi: nat)
    requires lo <= mid <= hi && Enumerates(w, a, p, lo, mid) && Enumerates(w, b, q, mid, hi)
    ensures Enumerates(w, a + b, p + q, lo, hi)
  {
    InTurnConcat(p, q, mid);
    PlacedConcat(w, a, p, lo, mid, b, q, hi);
    assert Complete(w, a + b, p + q, lo, hi) by {
      CompleteConcat(w, a, p, lo, mid, b, q, hi);
    }
  }

  /** A group is enumerated when each of its keys stands at its index and no other key stands in it. */
  lemma RowEnumerates(w: World, keys: seq<Key>, g: nat)
    requires forall k :: 0 <= k < |keys| ==> Stands(w, keys[k], Spot(g, k))
    requires forall x, at :: Stands(w, x, at) && at.outer == g ==> at.inner < |keys| && keys[at.inner] == x
    ensures Enumerates(w, keys, Row(g, |keys|), g, g + 1)
  {
    forall x, at | Stands(w, x, at) && g <= at.outer < g + 1
      ensures Among(keys, Row(g, |keys|), x, at)
    {
      assert keys[at.inner] == x && Row(g, |keys|)[at.inner] == at;
    }
  }

  lemma {:induction false} ApKeysAt(d: WirelessDevice, n: nat)
    requires n <= |d.accessPoints|
    ensures |ApKeys(d, n)| == n
    ensures forall k :: 0 <= k < n ==> ApKeys(d, n)[k] == AccessPoint(d.device, d.accessPoints[k])
  {
    if n > 0 {
      ApKeysAt(d, n - 1);
    }
  }

  lemma {:induction false} ConnectionKeysAt(d: WiredDevice, n: nat)
    requires n <= |d.connections|
    ensures |ConnectionKeys(d, n)| == n
    ensures forall k :: 0 <= k < n ==> ConnectionKeys(d, n)[k] == WiredItem(d.connections[k])
  {
    if n > 0 {
      ConnectionKeysAt(d, n - 1);
    }
  }

  lemma WirelessRow(w: World, n: nat)
    requires n < |w.wireless|
    ensures var keys := WirelessKeys(w.wireless[n], w.airplaneMode);
            Enumerates(w, keys, Row(n + 1, |keys|), n + 1, n + 2)
  {
    var d := w.wireless[n];
    var keys := WirelessKeys(d, w.airplaneMode);
    ApKeysAt(d, |d.accessPoints|);
    forall x, at | Stands(w, x, at) && at.outer == n + 1 ensures at.inner < |keys| && keys[at.inner] == x {
    }
    RowEnumerates(w, keys, n + 1);
  }

  lemma WiredRow(w: World, n: nat)
    requires n < |w.wired|
    ensures var keys, g := WiredKeys(w.wired[n]), |w.wireless| + 2 + n;
            Enumerates(w, keys, Row(g, |keys|), g, g + 1)
  {
    var d := w.wired[n];
    var keys, g := WiredKeys(d), |w.wireless| + 2 + n;
    ConnectionKeysAt(d, |d.connections|);
    forall x, at | Stands(w, x, at) && at.outer == g ensures at.inner < |keys| && keys[at.inner] == x {
    }
    RowEnumerates(w, keys, g);
  }

  lemma {:induction false} AllWirelessRows(w: World, n: nat) returns (places: seq<Spot>)
    requires n <= |w.wireless|
    ensures Enumerates(w, AllWireless(w, n), places, 1, n + 1)
  {
    if n == 0 {
      places := [];
    } else {
      var keys := WirelessKeys(w.wireless[n - 1], w.airplaneMode);
      var before := AllWirelessRows(w, n - 1);
      WirelessRow(w, n - 1);
      EnumeratesConcat(w, AllWireless(w, n - 1), before, 1, n, keys, Row(n, |keys|), n + 1);
      places := before + Row(n, |keys|);
    }
  }

  lemma {:induction false} AllWiredRows(w: World, n: nat) returns (places: seq<Spot>)
    requires n <= |w.wired|
    ensures Enumerates(w, AllWired(w, n), places, |w.wireless| + 2, |w.wireless| + 2 + n)
  {
    var g := |w.wireless| + 2;
    if n == 0 {
      places := [];
    } else {
      var keys := WiredKeys(w.wired[n - 1]);
      var before := AllWiredRows(w, n - 1);
      WiredRow(w, n - 1);
      EnumeratesConcat(w, AllWired(w, n - 1), before, g, g + n - 1, keys, Row(g + n - 1, |keys|), g + n);
      places := before + Row(g + n - 1, |keys|);
    }
  }

  lemma HeadRow(w: World, wireless: bool)
    ensures var devices := if wireless then |w.wireless| else |w.wired|;
            var g := if wireless then 0 else |w.wireless| + 1;
            var keys := if devices > 1 then [DeviceControl(wireless)] else [];
            Enumerates(w, keys, Row(g, |keys|), g, g + 1)
  {
    var devices := if wireless then |w.wireless| else |w.wired|;
    var g := if wireless then 0 else |w.wireless| + 1;
    RowEnumerates(w, if devices > 1 then [DeviceControl(wireless)] else [], g);
  }

  /** The panel lists exactly the keys that stand somewhere, in the order of their places. */
  lemma LayoutEnumerates(w: World) returns (places: seq<Spot>)
    ensures Enumerates(w, Layout(w), places, 0, |w.wireless| + 2 + |w.wired|)
  {
    var W := |w.wireless|;
    var head := if W > 1 then [DeviceControl(true)] else [];
    var middle := if |w.wired| > 1 then [DeviceControl(false)] else [];
    var a, b := AllWireless(w, W), AllWired(w, |w.wired|);
    var p := AllWirelessRows(w, W);
    var q := AllWiredRows(w, |w.wired|);
    HeadRow(w, true);
    HeadRow(w, false);
    assert Enumerates(w, head + a, Row(0, |head|) + p, 0, W + 1) by {
      EnumeratesConcat(w, head, Row(0, |head|), 0, 1, a, p, W + 1);
    }
    var above := Row(0, |head|) + p + Row(W + 1, |middle|);
    assert Enumerates(w, head + a + middle, above, 0, W + 2) by {
      EnumeratesConcat(w, head + a, Row(0, |head|) + p, 0, W + 1, middle, Row(W + 1, |middle|), W + 2);
    }
    places := above + q;
    EnumeratesConcat(w, head + a + middle, above, 0, W + 2, b, q, W + 2 + |w.wired|);
  }

  /** A key is listed exactly when it stands somewhere. */
  lemma ListedIsStanding(w: World, x: Key)
    ensures x in Layout(w) <==> exists at :: Stands(w, x, at)
  {
    var places := LayoutEnumerates(w);
    if x in Layout(w) {
      var i :| 0 <= i < |Layout(w)| && Layout(w)[i] == x;
      assert Stands(w, x, places[i]);
    }
    if at :| Stands(w, x, at) {
      assert 0 <= at.outer < |w.wireless| + 2 + |w.wired|;
    }
  }

  /** The i-th wireless device is this one, shows its access points, and has this one among them. */
  predicate Offers(w: World, i: nat, device: nat, ap: nat) {
    && i < |w.wireless| && w.wireless[i].device == device
    && w.wireless[i].enabled && !w.wireless[i].hotspotEnabled && ap in w.wireless[i].accessPoints
  }

  predicate OffersHidden(w: World, i: nat, device: nat) {
    && i < |w.wireless| && w.wireless[i].device == device
    && w.wireless[i].enabled && !w.wireless[i].hotspotEnabled && !w.airplaneMode
  }

  predicate Carries(w: World, i: nat, connection: nat) {
    i < |w.wired| && w.wired[i].enabled && connection in w.wired[i].connections
  }

  lemma AccessPointShown(w: World, d: nat, x: nat)
    ensures AccessPoint(d, x) in Layout(w) <==> exists i: nat :: Offers(w, i, d, x)
  {
    ListedIsStanding(w, AccessPoint(d, x));
    if i: nat :| Offers(w, i, d, x) {
      var k :| 0 <= k < |w.wireless[i].accessPoints| && w.wireless[i].accessPoints[k] == x;
      assert Stands(w, AccessPoint(d, x), Spot(i + 1, k + 1));
    }
    if at :| Stands(w, AccessPoint(d, x), at) {
      assert Offers(w, at.outer - 1, d, x);
    }
  }

  lemma HiddenShown(w: World, d: nat)
    ensures HiddenNetwork(d) in Layout(w) <==> exists i: nat :: OffersHidden(w, i, d)
  {
    ListedIsStanding(w, HiddenNetwork(d));
    if i: nat :| OffersHidden(w, i, d) {
      assert Stands(w, HiddenNetwork(d), Spot(i + 1, |w.wireless[i].accessPoints| + 1));
    }
    if at :| Stands(w, HiddenNetwork(d), at) {
      assert OffersHidden(w, at.outer - 1, d);
    }
  }

  lemma ControlsShown(w: World, d: nat)
    ensures WirelessControl(d) in Layout(w) <==> exists i :: 0 <= i < |w.wireless| && w.wireless[i].device == d
    ensures WiredControl(d) in Layout(w) <==> exists i :: 0 <= i < |w.wired| && w.wired[i].device == d
  {
    ListedIsStanding(w, WirelessControl(d));
    ListedIsStanding(w, WiredControl(d));
    if i :| 0 <= i < |w.wireless| && w.wireless[i].device == d {
      assert Stands(w, WirelessControl(d), Spot(i + 1, 0));
    }
    if i :| 0 <= i < |w.wired| && w.wired[i].device == d {
      assert Stands(w, WiredControl(d), Spot(|w.wireless| + 2 + i, 0));
    }
  }

  lemma WiredShown(w: World, x: nat)
    ensures WiredItem(x) in Layout(w) <==> exists i: nat :: Carries(w, i, x)
  {
    var g := |w.wireless| + 2;
    ListedIsStanding(w, WiredItem(x));
    if i: nat :| Carries(w, i, x) {
      var k :| 0 <= k < |w.wired[i].connections| && w.wired[i].connections[k] == x;
      assert Stands(w, WiredItem(x), Spot(g + i, k + 1));
    }
    if at :| Stands(w, WiredItem(x), at) {
      assert Carries(w, at.outer - g, x);
    }
  }

  /** The panel shows a wired connection exactly when an enabled wired device has it, an access
      point when its device is enabled and no hotspot, the hidden network of such a device
      outside airplane mode, the control of every device, and a head for several devices. */
  lemma PanelShows(w: World, d: nat, x: nat)
    ensures WiredItem(x) in Layout(w) <==> exists i: nat :: Carries(w, i, x)
    ensures AccessPoint(d, x) in Layout(w) <==> exists i: nat :: Offers(w, i, d, x)
    ensures HiddenNetwork(d) in Layout(w) <==> exists i: nat :: OffersHidden(w, i, d)
    ensures WirelessControl(d) in Layout(w) <==> exists i :: 0 <= i < |w.wireless| && w.wireless[i].device == d
    ensures WiredControl(d) in Layout(w) <==> exists i :: 0 <= i < |w.wired| && w.wired[i].device == d
    ensures DeviceControl(true) in Layout(w) <==> |w.wireless| > 1
    ensures DeviceControl(false) in Layout(w) <==> |w.wired| > 1
  {
    AccessPointShown(w, d, x);
    HiddenShown(w, d);
    ControlsShown(w, d);
    WiredShown(w, x);
    ListedIsStanding(w, DeviceControl(true));
    ListedIsStanding(w, DeviceControl(false));
    assert |w.wireless| > 1 ==> Stands(w, DeviceControl(true), Spot(0, 0));
    assert |w.wired| > 1 ==> Stands(w, DeviceControl(false), Spot(|w.wireless| + 1, 0));
  }
}
