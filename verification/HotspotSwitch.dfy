/** What the events of the dock plugin do, stated without the functions of HotspotTracker:
    which connection is chosen, when the hotspot is on, and what replaces a lost one. */
module HotspotSwitch {
  import opened Sequences
  import opened HotspotTracker

  // ----- the choice

  /** The candidate is what the nested loop looks at there, and may be chosen. */
  predicate CandidateAt(devices: seq<string>, facts: Facts, c: Candidate, at: Spot) {
    && at.outer < |devices| && c.device == devices[at.outer]
    && at.inner < |facts.connections(c.device)| && c.connection == facts.connections(c.device)[at.inner]
    && c.connection.mode != "infrastructure"
  }

  ghost predicate Among(cs: seq<Candidate>, spots: seq<Spot>, c: Candidate, at: Spot)
    requires |cs| == |spots|
  {
    exists i :: 0 <= i < |cs| && cs[i] == c && spots[i] == at
  }

  /** The candidates are all those before the bound, in the order of their places. */
  ghost predicate Enumerates(devices: seq<string>, facts: Facts, cs: seq<Candidate>, spots: seq<Spot>, bound: Spot) {
    && |cs| == |spots| && InTurn(spots)
    && (forall i :: 0 <= i < |cs| ==> CandidateAt(devices, facts, cs[i], spots[i]) && Before(spots[i], bound))
    && (forall c, at :: CandidateAt(devices, facts, c, at) && Before(at, bound) ==> Among(cs, spots, c, at))
  }

  lemma EnumeratesMore(devices: seq<string>, facts: Facts, cs: seq<Candidate>, spots: seq<Spot>, bound: Spot,
                       c: Candidate)
    requires Enumerates(devices, facts, cs, spots, bound) && CandidateAt(devices, facts, c, bound)
    ensures Enumerates(devices, facts, cs + [c], spots + [bound], Spot(bound.outer, bound.inner + 1))
  {
    forall d, at | CandidateAt(devices, facts, d, at) && Before(at, Spot(bound.outer, bound.inner + 1))
      ensures Among(cs + [c], spots + [bound], d, at)
    {
      if at == bound {
        assert (cs + [c])[|cs|] == d && (spots + [bound])[|cs|] == at;
      } else {
        assert Among(cs, spots, d, at);
        var i :| 0 <= i < |cs| && cs[i] == d && spots[i] == at;
        assert (cs + [c])[i] == d && (spots + [bound])[i] == at;
      }
    }
  }

  /** The candidates the nested loop has seen when it stands at connection n of device g. */
  function Seen(devices: seq<string>, facts: Facts, g: nat, n: nat): seq<Candidate>
    requires g <= |devices| && n <= if g < |devices| then |facts.connections(devices[g])| else 0
  {
    Candidates(devices, facts, g) + if n == 0 then [] else Usable(devices[g], facts.connections(devices[g]), n)
  }

  lemma {:induction false} SeenEnumerates(devices: seq<string>, facts: Facts, g: nat, n: nat) returns (spots: seq<Spot>)
    requires g <= |devices| && n <= if g < |devices| then |facts.connections(devices[g])| else 0
    ensures Enumerates(devices, facts, Seen(devices, facts, g, n), spots, Spot(g, n))
    decreases g, n
  {
    if n > 0 {
      var c := Candidate(devices[g], facts.connections(devices[g])[n - 1]);
      var before := Seen(devices, facts, g, n - 1);
      spots := SeenEnumerates(devices, facts, g, n - 1);
      if c.connection.mode != "infrastructure" {
        EnumeratesMore(devices, facts, before, spots, Spot(g, n - 1), c);
        spots := spots + [Spot(g, n - 1)];
        assert Seen(devices, facts, g, n) == before + [c];
      } else {
        assert Seen(devices, facts, g, n) == before;
      }
    } else if g > 0 {
      var m := |facts.connections(devices[g - 1])|;
      spots := SeenEnumerates(devices, facts, g - 1, m);
      assert Seen(devices, facts, g, 0) == Seen(devices, facts, g - 1, m);
    } else {
      spots := [];
    }
  }

  /** c stands at `at`, none that may be chosen is newer, and all that stand later are older. */
  ghost predicate LastOfNewest(devices: seq<string>, facts: Facts, c: Candidate, at: Spot) {
    && CandidateAt(devices, facts, c, at)
    && forall d, other :: CandidateAt(devices, facts, d, other) ==>
         && d.connection.timestamp <= c.connection.timestamp
         && (Before(at, other) ==> d.connection.timestamp < c.connection.timestamp)
  }

  lemma ChosenIsLast(devices: seq<string>, facts: Facts, cs: seq<Candidate>, spots: seq<Spot>, k: nat)
    requires |cs| == |spots| && InTurn(spots) && LastNewest(cs, k)
    requires forall i :: 0 <= i < |cs| ==> CandidateAt(devices, facts, cs[i], spots[i])
    requires forall c, at :: CandidateAt(devices, facts, c, at) ==> Among(cs, spots, c, at)
    ensures LastOfNewest(devices, facts, cs[k], spots[k])
  {
    forall d, other | CandidateAt(devices, facts, d, other)
      ensures d.connection.timestamp <= cs[k].connection.timestamp
      ensures Before(spots[k], other) ==> d.connection.timestamp < cs[k].connection.timestamp
    {
      assert Among(cs, spots, d, other);
      var i :| 0 <= i < |cs| && cs[i] == d && spots[i] == other;
    }
  }

  lemma AllOld(devices: seq<string>, facts: Facts, cs: seq<Candidate>, spots: seq<Spot>)
    requires |cs| == |spots|
    requires forall i :: 0 <= i < |cs| ==> CandidateAt(devices, facts, cs[i], spots[i])
    requires forall c, at :: CandidateAt(devices, facts, c, at) ==> Among(cs, spots, c, at)
    ensures Undated(cs) <==>
              forall c, at :: CandidateAt(devices, facts, c, at) ==> c.connection.timestamp == 0
  {
    if Undated(cs) {
      forall c, at | CandidateAt(devices, facts, c, at) ensures c.connection.timestamp == 0 {
        assert Among(cs, spots, c, at);
        var i :| 0 <= i < |cs| && cs[i] == c && spots[i] == at;
      }
    } else {
      var j :| 0 <= j < |cs| && cs[j].connection.timestamp != 0;
      assert CandidateAt(devices, facts, cs[j], spots[j]);
    }
  }

  /** The chosen connection and device, if there are any. */
  function Choice(q: Plugin): Option<Candidate> {
    if q.latestDevice.Some? && q.latestHotSpot.Some? then Some(Candidate(q.latestDevice.value, q.latestHotSpot.value))
    else None
  }

  /** The choice is the last of the newest connections that are not "infrastructure", over the
      devices and each one's connections in order; there is none exactly when none of them has
      a positive timestamp. */
  lemma ChoiceMeans(p: Plugin, facts: Facts)
    ensures var q := UpdateLatestHotSpot(p, facts);
            && q.devices == p.devices && (q.latestDevice.None? <==> q.latestHotSpot.None?)
            && (Choice(q) == None <==>
                  forall c, at :: CandidateAt(p.devices, facts, c, at) ==> c.connection.timestamp == 0)
            && (Choice(q).Some? ==> exists at :: LastOfNewest(p.devices, facts, Choice(q).value, at))
  {
    var q := UpdateLatestHotSpot(p, facts);
    var cs := Candidates(p.devices, facts, |p.devices|);
    var spots := SeenEnumerates(p.devices, facts, |p.devices|, 0);
    assert Seen(p.devices, facts, |p.devices|, 0) == cs;
    assert Enumerates(p.devices, facts, cs, spots, Spot(|p.devices|, 0));
    forall c, at | CandidateAt(p.devices, facts, c, at) ensures Among(cs, spots, c, at) {
      assert Before(at, Spot(|p.devices|, 0));
    }
    AllOld(p.devices, facts, cs, spots);
    ChoiceIsLastNewest(p, p, facts);
    if q.latestDevice.Some? {
      var k: nat :| LastNewest(cs, k) && Choice(q) == Some(cs[k]);
      ChosenIsLast(p.devices, facts, cs, spots, k);
    }
  }

  // ----- the switch

  /** The hotspot is on after a new choice. */
  predicate StaysOn(p: Plugin, q: Plugin, facts: Facts) {
    p.hotspotEnabled && q.latestDevice.Some? && facts.available(q.latestDevice.value)
  }

  /** A new choice keeps the hotspot on exactly when it was on and the chosen device is available. */
  lemma ChoiceSwitches(p: Plugin, facts: Facts)
    requires Tracked(p)
    ensures var q := UpdateLatestHotSpot(p, facts);
            q.hotspotEnabled <==> StaysOn(p, q, facts)
  {
  }

  /** The active connection is a hotspot of the device, which is available. */
  predicate Hosts(uni: string, active: Option<Connection>, facts: Facts) {
    facts.available(uni) && active.Some? && (active.value.mode == "ap" || active.value.mode == "adhoc")
  }

  /** What each event does: a device comes; the hotspot of an available device becomes the latest
      and is on where there are devices; the latest device without one, or any change of flags
      but on the latest device without an activated connection, turns it off. */
  lemma EventMeans(p: Plugin, e: Event, facts: Facts)
    requires Tracked(p) && (e.DeviceAdded? || e.ActiveChanged? || e.FlagsChanged?)
    ensures Step(p, e, facts) ==
            match e
            case DeviceAdded(uni) => p.(devices := p.devices + [uni])
            case ActiveChanged(uni, active) =>
              if Hosts(uni, active, facts) then
                p.(latestDevice := Some(uni), latestHotSpot := active, hotspotEnabled := p.devices != [])
              else if p.latestDevice.None? || p.latestDevice == Some(uni) then p.(hotspotEnabled := false)
              else p
            case FlagsChanged(uni, activated) =>
              p.(hotspotEnabled := p.hotspotEnabled && p.latestDevice == Some(uni) && activated.None?)
            case _ => p
  {
  }

  /** With distinct devices the deviceRemoved loop has one turn at most. */
  lemma {:induction false} RemovesOnce(p: Plugin, devices: seq<string>, uni: string, facts: Facts, i: nat)
    requires i <= |devices| && Distinct(devices)
    ensures uni in devices[i..] ==>
              && RemoveFrom(p, devices, uni, facts, i) == RemoveDevice(p, uni, facts)
              && Replacements(p, devices, uni, facts, i) == Replacement(p, uni, facts)
    ensures uni !in devices[i..] ==>
              RemoveFrom(p, devices, uni, facts, i) == p && Replacements(p, devices, uni, facts, i) == []
    decreases |devices| - i
  {
    if i < |devices| {
      var q := if devices[i] == uni then RemoveDevice(p, uni, facts) else p;
      RemovesOnce(q, devices, uni, facts, i + 1);
      assert devices[i..] == [devices[i]] + devices[i + 1..];
      if devices[i] == uni {
        assert Replacement(p, uni, facts) + [] == Replacement(p, uni, facts);
      }
    }
  }

  lemma LosingLatest(p: Plugin, uni: string, facts: Facts)
    requires Tracked(p) && p.latestDevice == Some(uni)
    ensures var q := RemoveDevice(p, uni, facts);
            && Choice(q) == Choice(UpdateLatestHotSpot(p.(devices := q.devices), facts))
            && (q.hotspotEnabled <==> StaysOn(p, q, facts))
            && Replacement(p, uni, facts) == if Choice(q).Some? then [Choice(q).value] else []
  {
    var rest := p.(devices := RemoveOne(p.devices, uni));
    var cleared := rest.(latestDevice := None, latestHotSpot := None);
    ChoiceMeans(rest, facts);
    ChoiceIsLastNewest(rest, cleared, facts);
  }

  /** Removing a device drops it alone. When it was the latest one a new choice is made, which is
      activated if there is one; the hotspot stays on only on an available device chosen so. */
  lemma RemovalMeans(p: Plugin, uni: string, facts: Facts)
    requires Tracked(p) && Listed(p)
    ensures var q := Step(p, DeviceRemoved(uni), facts);
            && q.devices == Without(p.devices, [uni])
            && if p.latestDevice == Some(uni) then
                 && Choice(q) == Choice(UpdateLatestHotSpot(p.(devices := q.devices), facts))
                 && (q.hotspotEnabled <==> StaysOn(p, q, facts))
                 && Replacements(p, p.devices, uni, facts, 0) == if Choice(q).Some? then [Choice(q).value] else []
               else
                 q == p.(devices := q.devices) && Replacements(p, p.devices, uni, facts, 0) == []
  {
    assert p.devices[0..] == p.devices;
    RemovesOnce(p, p.devices, uni, facts, 0);
    RemoveDeviceKeepsListed(p, uni, facts);
    if uni !in p.devices {
      WithoutNone(p.devices, [uni]);
    } else if p.latestDevice == Some(uni) {
      LosingLatest(p, uni, facts);
    }
  }

  /** Removing the latest hotspot's connection, and the first look, make a new choice. */
  lemma NewChoiceMeans(p: Plugin, e: Event, facts: Facts)
    requires Tracked(p) && (e.ConnectionRemoved? || e.Refreshed?)
    ensures var q := Step(p, e, facts);
            if e.Refreshed? || (p.latestHotSpot.Some? && p.latestHotSpot.value.path == e.path) then
              q == UpdateLatestHotSpot(p, facts) && (q.hotspotEnabled <==> StaysOn(p, q, facts))
            else q == p
  {
    ChoiceSwitches(p, facts);
  }
}
