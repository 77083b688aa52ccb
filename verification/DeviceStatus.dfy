/** The status the dock shows for all network devices together
    (common-plugin/item/devicestatushandler.cpp). */
module DeviceStatuses {
  import opened Sequences

  datatype Kind = Wired | Wireless | Other

  datatype DeviceStatus =
    | UnknownStatus | Unmanaged | Unavailable | Idle | Prepare | Config | Needauth | IpConfig | IpCheck
    | Secondaries | Activated | Deactivation | ActivationFailed | IpConflict

  datatype Device = Device(kind: Kind, enabled: bool, ipValid: bool, status: DeviceStatus)

  datatype NetDeviceStatus =
    | Unknown | Enabled | Disabled | Connected | Disconnected | Connecting | Authenticating | ObtainingIP
    | ObtainIpFailed | ConnectNoInternet | IpConflicted | Nocable | ConnectFailed

  datatype PluginState =
    | UnknownState | AllDisabled | AllConnected | AllDisconnected | AllConnecting | Failed | NoInternet
    | WirelessDisabled | WiredDisabled | WirelessConnected | WiredConnected
    | WirelessDisconnected | WiredDisconnected | WirelessConnecting | WiredConnecting
    | WirelessConnectNoInternet | WiredConnectNoInternet | WirelessFailed | WiredFailed
    | WiredIpConflicted | WirelessIpConflicted | NocableState

  // ----- one device

  /** `full` says that NetworkManager reports full connectivity. */
  function WiredDeviceStatus(d: Device, full: bool): NetDeviceStatus {
    if !d.enabled then Disabled
    else if d.status == Activated && !full then ConnectNoInternet
    else if !d.ipValid then ObtainIpFailed
    else match d.status
         case Unmanaged | Unavailable => Nocable
         case Idle => Disconnected
         case Prepare | Config => Connecting
         case Needauth => Authenticating
         case IpConfig | IpCheck | Secondaries => ObtainingIP
         case Activated => Connected
         case Deactivation | ActivationFailed => ConnectFailed
         case IpConflict => IpConflicted
         case UnknownStatus => Unknown
  }

  function WirelessDeviceStatus(d: Device): NetDeviceStatus {
    if !d.enabled then Disabled
    else if !d.ipValid then ObtainIpFailed
    else match d.status
         case Unmanaged | Unavailable | Idle => Disconnected
         case Prepare | Config => Connecting
         case Needauth => Authenticating
         case IpConfig | IpCheck | Secondaries => ObtainingIP
         case Activated => Connected
         case Deactivation | ActivationFailed => ConnectFailed
         case IpConflict => IpConflicted
         case UnknownStatus => Unknown
  }

  /** When each status is shown for a wired device. */
  lemma WiredDeviceMeans(d: Device, full: bool)
    ensures var s, up := WiredDeviceStatus(d, full), d.enabled && d.ipValid && (d.status == Activated ==> full);
            && (s == Disabled <==> !d.enabled)
            && (s == ConnectNoInternet <==> d.enabled && d.status == Activated && !full)
            && (s == ObtainIpFailed <==> d.enabled && !d.ipValid && (d.status == Activated ==> full))
            && (s == Nocable <==> up && (d.status == Unmanaged || d.status == Unavailable))
            && (s == Disconnected <==> up && d.status == Idle)
            && (s == Connecting <==> up && (d.status == Prepare || d.status == Config))
            && (s == Authenticating <==> up && d.status == Needauth)
            && (s == ObtainingIP <==> up && (d.status == IpConfig || d.status == IpCheck || d.status == Secondaries))
            && (s == Connected <==> up && d.status == Activated)
            && (s == ConnectFailed <==> up && (d.status == Deactivation || d.status == ActivationFailed))
            && (s == IpConflicted <==> up && d.status == IpConflict)
            && (s == Unknown <==> up && d.status == UnknownStatus)
  {
  }

  /** A wireless device shows what a wired one would under full connectivity, but knows no cable. */
  lemma WirelessDeviceMeans(d: Device)
    ensures WirelessDeviceStatus(d) ==
            if WiredDeviceStatus(d, true) == Nocable then Disconnected else WiredDeviceStatus(d, true)
  {
  }

  // ----- a list of devices: the first status of the order that some device has

  const WIRED_ORDER: seq<NetDeviceStatus> :=
    [Authenticating, ObtainingIP, IpConflicted, Connected, ConnectNoInternet, Connecting, Disconnected, Disabled,
     Nocable, Unknown]

  const WIRELESS_ORDER: seq<NetDeviceStatus> :=
    [Authenticating, ObtainingIP, IpConflicted, Connected, ConnectNoInternet, Connecting, Disconnected, Disabled,
     Unknown]

  function PickFrom(order: seq<NetDeviceStatus>, statuses: seq<NetDeviceStatus>, i: nat): NetDeviceStatus
    requires i <= |order|
    decreases |order| - i
  {
    if i == |order| then Unknown
    else if order[i] in statuses then order[i]
    else PickFrom(order, statuses, i + 1)
  }

  /** Where a status stands in the order; last when it is not in it. */
  function Rank(order: seq<NetDeviceStatus>, s: NetDeviceStatus, i: nat): (r: nat)
    requires i <= |order|
    ensures i <= r <= |order|
    ensures r < |order| ==> order[r] == s
    ensures forall j :: i <= j < r ==> order[j] != s
    decreases |order| - i
  {
    if i == |order| || order[i] == s then i else Rank(order, s, i + 1)
  }

  function Higher(order: seq<NetDeviceStatus>, a: NetDeviceStatus, b: NetDeviceStatus): NetDeviceStatus {
    if Rank(order, a, 0) <= Rank(order, b, 0) then a else b
  }

  /** The orders end with Unknown, which is also the answer when nothing is found. */
  predicate Ends(order: seq<NetDeviceStatus>) {
    |order| > 0 && order[|order| - 1] == Unknown && Unknown !in order[..|order| - 1]
  }

  /** No device has a status standing before the one picked, and some device has that one
      unless it is the last of the order. */
  lemma {:induction false} PickIs(order: seq<NetDeviceStatus>, statuses: seq<NetDeviceStatus>, i: nat)
    requires Ends(order) && i < |order|
    requires forall j :: 0 <= j < i ==> order[j] !in statuses
    ensures var s := PickFrom(order, statuses, i);
            && s in order && (s in statuses || s == Unknown)
            && forall x :: x in statuses ==> Rank(order, s, 0) <= Rank(order, x, 0)
    decreases |order| - i
  {
    if order[i] in statuses {
    } else if i < |order| - 1 {
      PickIs(order, statuses, i + 1);
    } else {
      assert PickFrom(order, statuses, i) == Unknown;
      assert Rank(order, Unknown, 0) == |order| - 1;
    }
  }

  lemma SameRank(order: seq<NetDeviceStatus>, a: NetDeviceStatus, b: NetDeviceStatus)
    requires a in order && b in order && Rank(order, a, 0) == Rank(order, b, 0)
    ensures a == b
  {
    var k :| 0 <= k < |order| && order[k] == a;
    assert Rank(order, a, 0) <= k;
  }

  /** The status of two lists together is the higher of theirs. */
  lemma PickOfConcat(order: seq<NetDeviceStatus>, a: seq<NetDeviceStatus>, b: seq<NetDeviceStatus>)
    requires Ends(order)
    ensures PickFrom(order, a + b, 0) == Higher(order, PickFrom(order, a, 0), PickFrom(order, b, 0))
  {
    var x, y, z := PickFrom(order, a, 0), PickFrom(order, b, 0), PickFrom(order, a + b, 0);
    PickIs(order, a, 0);
    PickIs(order, b, 0);
    PickIs(order, a + b, 0);
    var best := Higher(order, x, y);
    assert Rank(order, Unknown, 0) == |order| - 1;
    assert forall s :: s in order ==> Rank(order, s, 0) <= |order| - 1 by {
      forall s | s in order
        ensures Rank(order, s, 0) <= |order| - 1
      {
        var k :| 0 <= k < |order| && order[k] == s;
        assert Rank(order, s, 0) <= k;
      }
    }
    assert Rank(order, z, 0) <= Rank(order, best, 0) by {
      if best != Unknown {
        assert best in a + b;
      }
    }
    assert Rank(order, best, 0) <= Rank(order, z, 0) by {
      if z != Unknown {
        assert z in a || z in b;
      }
    }
    SameRank(order, z, best);
  }

  /** Only which statuses occur matters, not where or how often. */
  lemma {:induction false} PickOfSame(order: seq<NetDeviceStatus>, a: seq<NetDeviceStatus>, b: seq<NetDeviceStatus>,
                                      i: nat)
    requires i <= |order| && forall s :: s in a <==> s in b
    ensures PickFrom(order, a, i) == PickFrom(order, b, i)
    decreases |order| - i
  {
    if i < |order| && order[i] !in a {
      PickOfSame(order, a, b, i + 1);
    }
  }

  function WiredStatuses(devices: seq<Device>, full: bool): seq<NetDeviceStatus> {
    seq(|devices|, i requires 0 <= i < |devices| => WiredDeviceStatus(devices[i], full))
  }

  function WirelessStatuses(devices: seq<Device>): seq<NetDeviceStatus> {
    seq(|devices|, i requires 0 <= i < |devices| => WirelessDeviceStatus(devices[i]))
  }

  function WiredStatus(devices: seq<Device>, full: bool): NetDeviceStatus {
    PickFrom(WIRED_ORDER, WiredStatuses(devices, full), 0)
  }

  function WirelessStatus(devices: seq<Device>): NetDeviceStatus {
    PickFrom(WIRELESS_ORDER, WirelessStatuses(devices), 0)
  }

  // ----- what the orders say

  /** The status that counts more is shown: one that waits for the user or for an address
      before a conflict, that before a connection, and so on down to no device at all. A failed
      device counts for nothing. */
  function Priority(s: NetDeviceStatus): nat {
    match s
    case Authenticating => 0
    case ObtainingIP => 1
    case IpConflicted => 2
    case Connected => 3
    case ConnectNoInternet => 4
    case Connecting => 5
    case Disconnected => 6
    case Disabled => 7
    case Nocable => 8
    case Unknown => 9
    case Enabled => 10
    case ObtainIpFailed => 10
    case ConnectFailed => 10
  }

  /** The shown status is some device's and none counts more; it is Unknown when none counts at all. */
  ghost predicate CountsMost(statuses: seq<NetDeviceStatus>, s: NetDeviceStatus) {
    && (forall t :: t in statuses ==> Priority(s) <= Priority(t))
    && (s == Unknown || (Priority(s) < 9 && s in statuses))
  }

  /** The statuses the orders leave out. */
  predicate Skipped(s: NetDeviceStatus) {
    s.Enabled? || s.ObtainIpFailed? || s.ConnectFailed?
  }

  lemma OrdersSkip(s: NetDeviceStatus)
    ensures s in WIRED_ORDER <==> !Skipped(s)
    ensures s in WIRELESS_ORDER <==> !Skipped(s) && s != Nocable
  {
    if s in WIRED_ORDER {
      var i :| 0 <= i < 10 && WIRED_ORDER[i] == s;
    }
    if s in WIRELESS_ORDER {
      var i :| 0 <= i < 9 && WIRELESS_ORDER[i] == s;
    }
    assert WIRED_ORDER[0] == WIRELESS_ORDER[0] == Authenticating;
    assert WIRED_ORDER[1] == WIRELESS_ORDER[1] == ObtainingIP;
    assert WIRED_ORDER[2] == WIRELESS_ORDER[2] == IpConflicted;
    assert WIRED_ORDER[3] == WIRELESS_ORDER[3] == Connected;
    assert WIRED_ORDER[4] == WIRELESS_ORDER[4] == ConnectNoInternet;
    assert WIRED_ORDER[5] == WIRELESS_ORDER[5] == Connecting;
    assert WIRED_ORDER[6] == WIRELESS_ORDER[6] == Disconnected;
    assert WIRED_ORDER[7] == WIRELESS_ORDER[7] == Disabled;
    assert WIRED_ORDER[8] == Nocable && WIRED_ORDER[9] == WIRELESS_ORDER[8] == Unknown;
  }

  lemma WiredIndex(i: nat)
    requires i < 10
    ensures Priority(WIRED_ORDER[i]) == i
  {
    var o := WIRED_ORDER;
    if i < 5 {
      assert o[0] == Authenticating && o[1] == ObtainingIP && o[2] == IpConflicted && o[3] == Connected;
      assert o[4] == ConnectNoInternet;
    } else {
      assert o[5] == Connecting && o[6] == Disconnected && o[7] == Disabled && o[8] == Nocable && o[9] == Unknown;
    }
  }

  lemma WirelessIndex(i: nat)
    requires i < 9
    ensures Priority(WIRELESS_ORDER[i]) == if i < 8 then i else 9
  {
    var o := WIRELESS_ORDER;
    if i < 5 {
      assert o[0] == Authenticating && o[1] == ObtainingIP && o[2] == IpConflicted && o[3] == Connected;
      assert o[4] == ConnectNoInternet;
    } else {
      assert o[5] == Connecting && o[6] == Disconnected && o[7] == Disabled && o[8] == Unknown;
    }
  }

  lemma WiredRank(s: NetDeviceStatus)
    ensures Rank(WIRED_ORDER, s, 0) == Priority(s)
  {
    var r := Rank(WIRED_ORDER, s, 0);
    OrdersSkip(s);
    if s in WIRED_ORDER {
      var k :| 0 <= k < |WIRED_ORDER| && WIRED_ORDER[k] == s;
      assert r <= k;
      WiredIndex(r);
    }
  }

  lemma WirelessRank(s: NetDeviceStatus)
    requires s != Nocable
    ensures Rank(WIRELESS_ORDER, s, 0) == if Priority(s) < 8 then Priority(s) else Priority(s) - 1
  {
    var r := Rank(WIRELESS_ORDER, s, 0);
    OrdersSkip(s);
    if s in WIRELESS_ORDER {
      var k :| 0 <= k < |WIRELESS_ORDER| && WIRELESS_ORDER[k] == s;
      assert r <= k;
      WirelessIndex(r);
    }
  }

  lemma {:induction false} PickIsListed(order: seq<NetDeviceStatus>, statuses: seq<NetDeviceStatus>, i: nat)
    requires i <= |order|
    ensures var s := PickFrom(order, statuses, i); s == Unknown || (s in order && s in statuses)
    decreases |order| - i
  {
    if i < |order| && order[i] !in statuses {
      PickIsListed(order, statuses, i + 1);
    }
  }

  lemma OneCountsMost(statuses: seq<NetDeviceStatus>, s: NetDeviceStatus, t: NetDeviceStatus)
    requires CountsMost(statuses, s) && CountsMost(statuses, t)
    ensures s == t
  {
    assert s != Unknown ==> Priority(t) <= Priority(s);
    assert t != Unknown ==> Priority(s) <= Priority(t);
  }

  lemma WiredCountsMost(statuses: seq<NetDeviceStatus>)
    ensures CountsMost(statuses, PickFrom(WIRED_ORDER, statuses, 0))
  {
    var s := PickFrom(WIRED_ORDER, statuses, 0);
    PickIs(WIRED_ORDER, statuses, 0);
    PickIsListed(WIRED_ORDER, statuses, 0);
    OrdersSkip(s);
    WiredRank(s);
    forall t | t in statuses ensures Priority(s) <= Priority(t) {
      WiredRank(t);
    }
  }

  lemma WirelessCountsMost(statuses: seq<NetDeviceStatus>)
    requires Nocable !in statuses
    ensures CountsMost(statuses, PickFrom(WIRELESS_ORDER, statuses, 0))
  {
    var s := PickFrom(WIRELESS_ORDER, statuses, 0);
    PickIs(WIRELESS_ORDER, statuses, 0);
    PickIsListed(WIRELESS_ORDER, statuses, 0);
    OrdersSkip(s);
    WirelessRank(s);
    forall t | t in statuses ensures Priority(s) <= Priority(t) {
      WirelessRank(t);
    }
  }

  /** The status of a list of wired devices is the one that counts most among theirs. */
  lemma WiredStatusMeans(devices: seq<Device>, full: bool, s: NetDeviceStatus)
    ensures WiredStatus(devices, full) == s <==> CountsMost(WiredStatuses(devices, full), s)
  {
    WiredCountsMost(WiredStatuses(devices, full));
    if CountsMost(WiredStatuses(devices, full), s) {
      OneCountsMost(WiredStatuses(devices, full), s, WiredStatus(devices, full));
    }
  }

  /** So is the status of a list of wireless devices. */
  lemma WirelessStatusMeans(devices: seq<Device>, s: NetDeviceStatus)
    ensures WirelessStatus(devices) == s <==> CountsMost(WirelessStatuses(devices), s)
  {
    assert forall i :: 0 <= i < |devices| ==> WirelessDeviceStatus(devices[i]) != Nocable;
    WirelessCountsMost(WirelessStatuses(devices));
    if CountsMost(WirelessStatuses(devices), s) {
      OneCountsMost(WirelessStatuses(devices), s, WirelessStatus(devices));
    }
  }

  /** Each list-level status of a concatenation is the higher of the two parts' statuses. */
  lemma StatusOfConcat(a: seq<Device>, b: seq<Device>, full: bool)
    ensures WiredStatus(a + b, full) == Higher(WIRED_ORDER, WiredStatus(a, full), WiredStatus(b, full))
    ensures WirelessStatus(a + b) == Higher(WIRELESS_ORDER, WirelessStatus(a), WirelessStatus(b))
  {
    assert WiredStatuses(a + b, full) == WiredStatuses(a, full) + WiredStatuses(b, full);
    assert WirelessStatuses(a + b) == WirelessStatuses(a) + WirelessStatuses(b);
    PickOfConcat(WIRED_ORDER, WiredStatuses(a, full), WiredStatuses(b, full));
    PickOfConcat(WIRELESS_ORDER, WirelessStatuses(a), WirelessStatuses(b));
  }

  // ----- wired and wireless together

  function PlugState(wired: NetDeviceStatus, wireless: NetDeviceStatus): PluginState {
    if wired == Unknown && wireless == Unknown then UnknownState
    else if wired == Disabled && wireless == Disabled then AllDisabled
    else if wireless in {Unknown, Disabled} && wired in {Enabled, Disconnected, ObtainIpFailed} then WiredDisconnected
    else if wired == Disabled && wireless == Unknown then WiredDisabled
    else if wired == Connected
            && wireless in {Unknown, Enabled, Disabled, Disconnected, ObtainIpFailed, ConnectNoInternet, ConnectFailed}
            then WiredConnected
    else if wired in {Connecting, Authenticating, ObtainingIP}
            && wireless in {Unknown, Enabled, Disabled, Connected, Disconnected, ObtainIpFailed, ConnectNoInternet,
                             ConnectFailed} then WiredConnecting
    else if wired == ConnectNoInternet
            && wireless in {Unknown, Enabled, Disabled, Disconnected, ObtainIpFailed, ConnectFailed}
            then WiredConnectNoInternet
    else if wired == Nocable && wireless in {Unknown, Disabled} then NocableState
    else if wired == ConnectFailed && wireless in {Unknown, Disabled} then WiredFailed
    else if (wireless in {Enabled, Disconnected, ObtainIpFailed}
             && wired in {Unknown, Disabled, Nocable, ConnectFailed})
            || (wireless == ConnectFailed && wired == Nocable) then WirelessDisconnected
    else if wireless == Disabled && wired == Unknown then WirelessDisabled
    else if wired in {Unknown, Enabled, Disabled, Disconnected, ObtainIpFailed, ConnectNoInternet, Nocable,
                      ConnectFailed}
            && wireless == Connected then WirelessConnected
    else if wireless in {Connecting, Authenticating, ObtainingIP}
            && wired in {Unknown, Enabled, Disabled, Connected, Disconnected, ObtainIpFailed, ConnectNoInternet,
                          Nocable, ConnectFailed} then WirelessConnecting
    else if wired in {Unknown, Enabled, Disabled, Disconnected, ObtainIpFailed, Nocable, ConnectFailed}
            && wireless == ConnectNoInternet then WirelessConnectNoInternet
    else if wireless == ConnectFailed && wired in {Unknown, Disabled} then WirelessFailed
    else if wireless in {Enabled, Disconnected, ObtainIpFailed, ConnectFailed}
            && wired in {Enabled, Disconnected, ObtainIpFailed} then AllDisconnected
    else if wireless == IpConflicted then WirelessIpConflicted
    else if wired == IpConflicted then WiredIpConflicted
    else if wireless == Connected && wired == Connected then AllConnected
    else if wired in {Connecting, Authenticating, ObtainingIP} && wireless in {Connecting, Authenticating, ObtainingIP}
         then AllConnecting
    else if wireless == ConnectNoInternet && wired == ConnectNoInternet then NoInternet
    else Failed
  }

  function Wireds(devices: seq<Device>): seq<Device> {
    Filter((d: Device) => d.kind == Wired, devices)
  }

  function Wirelesses(devices: seq<Device>): seq<Device> {
    Filter((d: Device) => d.kind == Wireless, devices)
  }

  function StateOf(devices: seq<Device>, full: bool): PluginState {
    PlugState(WiredStatus(Wireds(devices), full), WirelessStatus(Wirelesses(devices)))
  }

  lemma SameStatuses(a: seq<Device>, b: seq<Device>, full: bool)
    requires forall d :: d in a ==> d in b
    ensures forall s :: s in WiredStatuses(Wireds(a), full) ==> s in WiredStatuses(Wireds(b), full)
    ensures forall s :: s in WirelessStatuses(Wirelesses(a)) ==> s in WirelessStatuses(Wirelesses(b))
  {
    forall s | s in WiredStatuses(Wireds(a), full)
      ensures s in WiredStatuses(Wireds(b), full)
    {
      var i :| 0 <= i < |Wireds(a)| && WiredStatuses(Wireds(a), full)[i] == s;
      var d := Wireds(a)[i];
      assert d in a && d in Wireds(b);
      var k :| 0 <= k < |Wireds(b)| && Wireds(b)[k] == d;
      assert WiredStatuses(Wireds(b), full)[k] == s;
    }
    forall s | s in WirelessStatuses(Wirelesses(a))
      ensures s in WirelessStatuses(Wirelesses(b))
    {
      var i :| 0 <= i < |Wirelesses(a)| && WirelessStatuses(Wirelesses(a))[i] == s;
      var d := Wirelesses(a)[i];
      assert d in a && d in Wirelesses(b);
      var k :| 0 <= k < |Wirelesses(b)| && Wirelesses(b)[k] == d;
      assert WirelessStatuses(Wirelesses(b))[k] == s;
    }
  }

  /** The state depends on which devices there are only: not on their order, nor on repetition. */
  lemma StateOfSameDevices(a: seq<Device>, b: seq<Device>, full: bool)
    requires forall d :: d in a <==> d in b
    ensures StateOf(a, full) == StateOf(b, full)
  {
    SameStatuses(a, b, full);
    SameStatuses(b, a, full);
    PickOfSame(WIRED_ORDER, WiredStatuses(Wireds(a), full), WiredStatuses(Wireds(b), full), 0);
    PickOfSame(WIRELESS_ORDER, WirelessStatuses(Wirelesses(a)), WirelessStatuses(Wirelesses(b)), 0);
  }

  lemma StateOfPermutation(a: seq<Device>, b: seq<Device>, full: bool)
    requires multiset(a) == multiset(b)
    ensures StateOf(a, full) == StateOf(b, full)
  {
    assert forall d :: d in a <==> d in multiset(a);
    assert forall d :: d in b <==> d in multiset(b);
    StateOfSameDevices(a, b, full);
  }

  // ----- what the state means

  predicate Busy(s: NetDeviceStatus) {
    s in {Connecting, Authenticating, ObtainingIP}
  }

  /** The state read as an order of importance between the two halves: a conflict before a
      connection under way, that before a connection, then a limited one, then a device that
      could connect, then a missing cable, and at last whether the devices are disabled. */
  function Summary(wired: NetDeviceStatus, wireless: NetDeviceStatus): PluginState {
    if wireless == IpConflicted then WirelessIpConflicted
    else if wired == IpConflicted then WiredIpConflicted
    else if Busy(wired) || Busy(wireless) then
      if !Busy(wireless) then WiredConnecting else if !Busy(wired) then WirelessConnecting else AllConnecting
    else if wired == Connected || wireless == Connected then
      if wireless != Connected then WiredConnected else if wired != Connected then WirelessConnected else AllConnected
    else if wired == ConnectNoInternet then WiredConnectNoInternet
    else if wired == Disconnected || wireless == Disconnected then
      if wireless != Disconnected then WiredDisconnected
      else if wired != Disconnected then WirelessDisconnected
      else AllDisconnected
    else if wired == Nocable then NocableState
    else if wired == Disabled then if wireless == Disabled then AllDisabled else WiredDisabled
    else if wireless == Disabled then WirelessDisabled
    else UnknownState
  }

  lemma PlugStateIsSummary(wired: NetDeviceStatus, wireless: NetDeviceStatus)
    requires !Skipped(wired) && !Skipped(wireless) && wireless != ConnectNoInternet && wireless != Nocable
    ensures PlugState(wired, wireless) == Summary(wired, wireless)
  {
  }

  /** What a list of devices can come to. */
  lemma ListStatuses(devices: seq<Device>, full: bool)
    ensures !Skipped(WiredStatus(devices, full))
    ensures var s := WirelessStatus(devices); !Skipped(s) && s != ConnectNoInternet && s != Nocable
  {
    PickIsListed(WIRED_ORDER, WiredStatuses(devices, full), 0);
    PickIsListed(WIRELESS_ORDER, WirelessStatuses(devices), 0);
    OrdersSkip(WiredStatus(devices, full));
    OrdersSkip(WirelessStatus(devices));
  }

  lemma StateIsSummary(devices: seq<Device>, full: bool)
    ensures StateOf(devices, full) == Summary(WiredStatus(Wireds(devices), full), WirelessStatus(Wirelesses(devices)))
  {
    ListStatuses(Wireds(devices), full);
    ListStatuses(Wirelesses(devices), full);
    PlugStateIsSummary(WiredStatus(Wireds(devices), full), WirelessStatus(Wirelesses(devices)));
  }

  predicate Never(s: PluginState) {
    s.Failed? || s.WiredFailed? || s.WirelessFailed? || s.NoInternet? || s.WirelessConnectNoInternet?
  }

  datatype Pair = Pair(wired: Option<Device>, wireless: Option<Device>, full: bool)

  function Listed(p: Pair): seq<Device> {
    (if p.wired.Some? then [p.wired.value] else []) + (if p.wireless.Some? then [p.wireless.value] else [])
  }

  function On(kind: Kind, status: DeviceStatus): Option<Device> {
    Some(Device(kind, true, true, status))
  }

  function Off(kind: Kind): Option<Device> {
    Some(Device(kind, false, true, Idle))
  }

  /** For each other state, at most two devices that show it. */
  function Example(s: PluginState): Pair
    requires !Never(s)
  {
    match s
    case UnknownState => Pair(None, None, true)
    case AllDisabled => Pair(Off(Wired), Off(Wireless), true)
    case AllConnected => Pair(On(Wired, Activated), On(Wireless, Activated), true)
    case AllDisconnected => Pair(On(Wired, Idle), On(Wireless, Idle), true)
    case AllConnecting => Pair(On(Wired, Prepare), On(Wireless, Prepare), true)
    case WirelessDisabled => Pair(None, Off(Wireless), true)
    case WiredDisabled => Pair(Off(Wired), None, true)
    case WirelessConnected => Pair(None, On(Wireless, Activated), true)
    case WiredConnected => Pair(On(Wired, Activated), None, true)
    case WirelessDisconnected => Pair(None, On(Wireless, Idle), true)
    case WiredDisconnected => Pair(On(Wired, Idle), None, true)
    case WirelessConnecting => Pair(None, On(Wireless, Prepare), true)
    case WiredConnecting => Pair(On(Wired, Prepare), None, true)
    case WiredConnectNoInternet => Pair(On(Wired, Activated), None, false)
    case WiredIpConflicted => Pair(On(Wired, IpConflict), None, true)
    case WirelessIpConflicted => Pair(None, On(Wireless, IpConflict), true)
    case NocableState => Pair(On(Wired, Unavailable), None, true)
  }

  lemma {:induction false} PickOfOne(order: seq<NetDeviceStatus>, s: NetDeviceStatus, i: nat)
    requires i <= |order| && s in order[i..]
    ensures PickFrom(order, [s], i) == s
    decreases |order| - i
  {
    if order[i] != s {
      PickOfOne(order, s, i + 1);
    }
  }

  lemma {:induction false} PickOfNone(order: seq<NetDeviceStatus>, i: nat)
    requires i <= |order|
    ensures PickFrom(order, [], i) == Unknown
    decreases |order| - i
  {
    if i < |order| {
      PickOfNone(order, i + 1);
    }
  }

  lemma StatusOfOne(d: Device, full: bool)
    ensures !Skipped(WiredDeviceStatus(d, full)) ==> WiredStatus([d], full) == WiredDeviceStatus(d, full)
    ensures !Skipped(WirelessDeviceStatus(d)) ==> WirelessStatus([d]) == WirelessDeviceStatus(d)
    ensures WiredStatus([], full) == WirelessStatus([]) == Unknown
  {
    var w, l := WiredDeviceStatus(d, full), WirelessDeviceStatus(d);
    OrdersSkip(w);
    OrdersSkip(l);
    assert WiredStatuses([d], full) == [w] && WirelessStatuses([d]) == [l];
    assert WIRED_ORDER[0..] == WIRED_ORDER && WIRELESS_ORDER[0..] == WIRELESS_ORDER;
    if !Skipped(w) { PickOfOne(WIRED_ORDER, w, 0); }
    if !Skipped(l) { PickOfOne(WIRELESS_ORDER, l, 0); }
    PickOfNone(WIRED_ORDER, 0);
    PickOfNone(WIRELESS_ORDER, 0);
  }

  lemma KindsOfPair(p: Pair)
    requires p.wired.Some? ==> p.wired.value.kind == Wired
    requires p.wireless.Some? ==> p.wireless.value.kind == Wireless
    ensures Wireds(Listed(p)) == if p.wired.Some? then [p.wired.value] else []
    ensures Wirelesses(Listed(p)) == if p.wireless.Some? then [p.wireless.value] else []
  {
    var w, l := if p.wired.Some? then [p.wired.value] else [], if p.wireless.Some? then [p.wireless.value] else [];
    FilterOfConcat((d: Device) => d.kind == Wired, w, l);
    FilterOfConcat((d: Device) => d.kind == Wireless, w, l);
  }

  predicate Plain(p: Pair) {
    && (p.wired.Some? ==> p.wired.value.kind == Wired && !Skipped(WiredDeviceStatus(p.wired.value, p.full)))
    && (p.wireless.Some? ==> p.wireless.value.kind == Wireless && !Skipped(WirelessDeviceStatus(p.wireless.value)))
  }

  function PairSummary(p: Pair): PluginState {
    Summary(if p.wired.Some? then WiredDeviceStatus(p.wired.value, p.full) else Unknown,
            if p.wireless.Some? then WirelessDeviceStatus(p.wireless.value) else Unknown)
  }

  /** The state of at most one device of each kind. */
  lemma StateOfPair(p: Pair)
    requires Plain(p)
    ensures StateOf(Listed(p), p.full) == PairSummary(p)
  {
    KindsOfPair(p);
    StateIsSummary(Listed(p), p.full);
    StatusOfOne(if p.wired.Some? then p.wired.value else Device(Other, true, true, Idle), p.full);
    StatusOfOne(if p.wireless.Some? then p.wireless.value else Device(Other, true, true, Idle), p.full);
  }

  lemma ExampleShows(s: PluginState)
    requires !Never(s)
    ensures Plain(Example(s)) && PairSummary(Example(s)) == s
  {
  }

  lemma NeverShown(devices: seq<Device>, full: bool)
    ensures !Never(StateOf(devices, full))
  {
    StateIsSummary(devices, full);
  }

  /** Exactly the five states of Never are never shown, whatever the devices. */
  lemma ShownExactly(s: PluginState)
    ensures (exists devices, full :: StateOf(devices, full) == s) <==> !Never(s)
  {
    if devices, full :| StateOf(devices, full) == s {
      NeverShown(devices, full);
    }
    if !Never(s) {
      ExampleShows(s);
      StateOfPair(Example(s));
      assert StateOf(Listed(Example(s)), Example(s).full) == s;
    }
  }

  // ----- the loops

  method PickStatus(order: seq<NetDeviceStatus>, statuses: seq<NetDeviceStatus>) returns (status: NetDeviceStatus)
    ensures status == PickFrom(order, statuses, 0)
  {
    for i := 0 to |order|
      invariant PickFrom(order, statuses, i) == PickFrom(order, statuses, 0)
    {
      if order[i] in statuses {
        return order[i];
      }
    }
    return Unknown;
  }

  method ListWiredStatus(devices: seq<Device>, full: bool) returns (status: NetDeviceStatus)
    ensures status == WiredStatus(devices, full)
  {
    var deviceStatus := [];
    for i := 0 to |devices|
      invariant deviceStatus == WiredStatuses(devices[..i], full)
    {
      deviceStatus := deviceStatus + [WiredDeviceStatus(devices[i], full)];
    }
    assert devices[..|devices|] == devices;
    status := PickStatus(WIRED_ORDER, deviceStatus);
  }

  method ListWirelessStatus(devices: seq<Device>) returns (status: NetDeviceStatus)
    ensures status == WirelessStatus(devices)
  {
    var devStatus := [];
    for i := 0 to |devices|
      invariant devStatus == WirelessStatuses(devices[..i])
    {
      devStatus := devStatus + [WirelessDeviceStatus(devices[i])];
    }
    assert devices[..|devices|] == devices;
    status := PickStatus(WIRELESS_ORDER, devStatus);
  }

  method ShownState(devices: seq<Device>, full: bool) returns (state: PluginState)
    ensures state == StateOf(devices, full)
  {
    var wiredDevices, wirelessDevices := [], [];
    for i := 0 to |devices|
      invariant wiredDevices == Wireds(devices[..i]) && wirelessDevices == Wirelesses(devices[..i])
    {
      var d := devices[i];
      FilterOfConcat((x: Device) => x.kind == Wired, devices[..i], [d]);
      FilterOfConcat((x: Device) => x.kind == Wireless, devices[..i], [d]);
      assert devices[..i + 1] == devices[..i] + [d];
      if d.kind == Wired {
        wiredDevices := wiredDevices + [d];
      } else if d.kind == Wireless {
        wirelessDevices := wirelessDevices + [d];
      }
    }
    assert devices[..|devices|] == devices;
    var wiredStat := ListWiredStatus(wiredDevices, full);
    var wirelessStat := ListWirelessStatus(wirelessDevices);
    state := PlugState(wiredStat, wirelessStat);
  }
}
