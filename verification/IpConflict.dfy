/** The hysteresis of a device's IP-conflict checker (DeviceIPChecker in
    src-old/ipconfilctchecker.cpp): two counters and a flag against the whole
    history of probe answers. An answer is the MAC address it names, empty for none. */
module IpConflict {

  /** The checker's fields; `signals` are the conflictStatusChanged values so far,
      `probes` counts the confirmations it asked for. */
  datatype Checker = Checker(conflictCount: nat, clearCount: nat, conflicted: bool, signals: seq<bool>, probes: nat)

  const NEW_CHECKER := Checker(0, 0, false, [], 0)

  function Answer(c: Checker, mac: string): Checker {
    if mac == "" then
      var d := c.(conflictCount := 0, clearCount := c.clearCount + 1);
      if c.clearCount < 3 && c.conflicted then d.(probes := c.probes + 1)
      else if c.conflicted then d.(conflicted := false, signals := c.signals + [false])
      else d
    else
      var d := c.(clearCount := 0, conflictCount := c.conflictCount + 1);
      if c.conflictCount < 1 && !c.conflicted then d.(probes := c.probes + 1)
      else if !c.conflicted then d.(conflicted := true, signals := c.signals + [true])
      else d
  }

  function Answers(history: seq<string>): Checker {
    if history == [] then NEW_CHECKER
    else Answer(Answers(history[..|history| - 1]), history[|history| - 1])
  }

  /** The length of the run of empty (or of nonempty) answers the history ends in. */
  function Trailing(history: seq<string>, empty: bool): (n: nat)
    ensures n <= |history|
    ensures forall i :: |history| - n <= i < |history| ==> (history[i] == "") == empty
    ensures n < |history| ==> (history[|history| - n - 1] == "") != empty
  {
    if history == [] || (history[|history| - 1] == "") != empty then 0
    else 1 + Trailing(history[..|history| - 1], empty)
  }

  /** Two answers in a row name a MAC address. */
  predicate Confirmed(h: seq<string>, i: nat) {
    i + 1 < |h| && h[i] != "" && h[i + 1] != ""
  }

  /** Four empty answers in a row begin at j. */
  predicate Cleared(h: seq<string>, j: nat) {
    j + 3 < |h| && h[j] == "" && h[j + 1] == "" && h[j + 2] == "" && h[j + 3] == ""
  }

  ghost predicate Standing(h: seq<string>, i: nat) {
    Confirmed(h, i) && forall j: nat :: i + 2 <= j ==> !Cleared(h, j)
  }

  /** A conflict was confirmed and has not been cleared since. */
  ghost predicate InConflict(h: seq<string>) {
    exists i: nat :: Standing(h, i)
  }

  lemma ConflictAfterEmpty(h: seq<string>)
    ensures InConflict(h + [""]) <==> InConflict(h) && Trailing(h, true) < 3
  {
    var g := h + [""];
    var n := Trailing(h, true);
    assert forall j: nat :: Cleared(g, j) <==> Cleared(h, j) || (j + 3 == |h| && n >= 3) by {
      forall j: nat ensures Cleared(g, j) <==> Cleared(h, j) || (j + 3 == |h| && n >= 3) {
      }
    }
    if n >= 3 {
      assert Cleared(g, |h| - 3);
    }
    if i: nat :| Standing(g, i) {
      assert Standing(h, i);
    }
    if n < 3 {
      if i: nat :| Standing(h, i) {
        assert Standing(g, i);
      }
    }
  }

  lemma ConflictAfterMac(h: seq<string>, mac: string)
    requires mac != ""
    ensures InConflict(h + [mac]) <==> InConflict(h) || Trailing(h, false) >= 1
  {
    var g := h + [mac];
    assert forall j: nat :: Cleared(g, j) <==> Cleared(h, j);
    if i: nat :| Standing(g, i) {
      if i + 1 < |h| {
        assert Standing(h, i);
      }
    }
    if i: nat :| Standing(h, i) {
      assert Standing(g, i);
    }
    if Trailing(h, false) >= 1 {
      assert Standing(g, |h| - 1);
    }
  }

  /** After any history the counters are the lengths of its trailing runs, the flag says
      whether a confirmed conflict stands, and the signals alternate, starting with true. */
  lemma {:induction false} FlagIsHistory(h: seq<string>)
    ensures var c := Answers(h);
            && c.conflictCount == Trailing(h, false) && c.clearCount == Trailing(h, true)
            && (c.conflicted <==> InConflict(h))
            && (forall k :: 0 <= k < |c.signals| ==> c.signals[k] == (k % 2 == 0))
            && c.conflicted == (|c.signals| % 2 == 1)
  {
    if h != [] {
      var g, mac := h[..|h| - 1], h[|h| - 1];
      assert h == g + [mac];
      FlagIsHistory(g);
      if mac == "" {
        ConflictAfterEmpty(g);
      } else {
        ConflictAfterMac(g, mac);
      }
    }
  }

  /** The checker asks again exactly while one more answer can change the flag later
      but this one does not: a first MAC outside a conflict, or one of the first
      three empty answers inside one. */
  lemma ProbesAreConfirmations(h: seq<string>, mac: string)
    ensures Answers(h + [mac]).probes - Answers(h).probes ==
              if mac == "" then (if InConflict(h) && Trailing(h, true) < 3 then 1 else 0)
              else (if !InConflict(h) && Trailing(h, false) == 0 then 1 else 0)
  {
    assert (h + [mac])[..|h|] == h;
    FlagIsHistory(h);
  }

  lemma NextAnswer(h: seq<string>, mac: string)
    ensures Answers(h + [mac]) == Answer(Answers(h), mac)
    ensures Answers(h + [mac]).conflicted <==> InConflict(h + [mac])
  {
    assert (h + [mac])[..|h|] == h;
    FlagIsHistory(h + [mac]);
  }

  class DeviceIPChecker {
    var ipV4: seq<string>
    var macAddress: string
    var conflictCount: nat
    var clearCount: nat
    var ipConflicted: bool
    ghost var signals: seq<bool>
    ghost var probes: nat
    ghost var history: seq<string>

    ghost function State(): Checker
      reads this
    {
      Checker(conflictCount, clearCount, ipConflicted, signals, probes)
    }

    ghost predicate Valid()
      reads this
    {
      State() == Answers(history)
    }

    constructor ()
      ensures Valid() && history == []
    {
      ipV4, macAddress := [], "";
      conflictCount, clearCount, ipConflicted := 0, 0, false;
      signals, probes, history := [], 0, [];
    }

    method SetDeviceInfo(ipV4: seq<string>, macAddress: string)
      requires Valid()
      modifies this`ipV4, this`macAddress
      ensures Valid() && this.ipV4 == ipV4 && this.macAddress == macAddress
    {
      this.ipV4, this.macAddress := ipV4, macAddress;
    }

    /** One probe answer; `check` is whether ipConflictCheck is emitted for the addresses. */
    method HandlerIpConflict() returns (check: bool)
      requires Valid()
      modifies this
      ensures Valid() && history == old(history) + [old(macAddress)]
      ensures ipV4 == old(ipV4) && macAddress == old(macAddress)
      ensures ipConflicted <==> InConflict(history)
      ensures check == (probes == old(probes) + 1) && (check || probes == old(probes))
    {
      check := false;
      if macAddress == "" {
        conflictCount := 0;
        if clearCount < 3 && ipConflicted {
          check, probes := true, probes + 1;
        } else {
          var lastConflictStatus := ipConflicted;
          ipConflicted := false;
          if lastConflictStatus {
            signals := signals + [false];
          }
        }
        clearCount := clearCount + 1;
      } else {
        clearCount := 0;
        if conflictCount < 1 && !ipConflicted {
          check, probes := true, probes + 1;
        } else {
          var lastConflictStatus := ipConflicted;
          ipConflicted := true;
          if !lastConflictStatus {
            signals := signals + [true];
          }
        }
        conflictCount := conflictCount + 1;
      }
      assert State() == Answer(old(State()), macAddress);
      NextAnswer(history, macAddress);
      history := history + [macAddress];
    }
  }
}
