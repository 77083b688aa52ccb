/** What one slot of the secret agent does, stated without its functions: which calls are
    accepted, who is answered and with what, and what the user's input reaches. */
module SecretOutcomes {
  import opened Sequences
  import opened SecretQueue
  import opened SecretQueueProofs

  // ----- which reply a call can get

  predicate IsVpn(cfg: Config, r: Request) {
    cfg.lib.isVpn(r.connection, r.settingName)
  }

  /** The secrets of an ssh VPN are those of the running agent. */
  predicate ByAgent(cfg: Config, r: Request) {
    IsVpn(cfg, r) && cfg.lib.usesSshAgent(r.connection)
  }

  /** The secrets the setting needs, with those on record counted or not. */
  function Needs(cfg: Config, r: Request, requestNew: bool): seq<string> {
    cfg.lib.needSecrets(r.connection, r.settingName, requestNew)
  }

  /** The caller wants the user to be asked. */
  predicate Interactive(cfg: Config, r: Request) {
    || r.flags.requestNew
    || (r.flags.allowInteraction && (r.flags.userRequested || IsVpn(cfg, r) || Needs(cfg, r, false) != []))
  }

  /** The call neither waits for the keyring nor finds its secrets in storage. */
  predicate Pressing(cfg: Config, r: Request) {
    r.kind.GetSecrets? && !ByAgent(cfg, r)
    && (cfg.greeter || (r.flags.requestNew && (IsVpn(cfg, r) || Needs(cfg, r, true) != [])))
  }

  /** The one cause of each reply the agent gives by itself. */
  predicate Earned(cfg: Config, socket: string, r: Request, reply: Reply) {
    match reply
    case Acknowledge => !r.kind.GetSecrets?
    case SshSocket(x) => r.kind.GetSecrets? && ByAgent(cfg, r) && x == socket && socket != ""
    case StoredSecrets =>
      r.kind.GetSecrets? && !cfg.greeter && r.flags.requestNew && !IsVpn(cfg, r) && Needs(cfg, r, true) == []
    case VpnSecrets =>
      Pressing(cfg, r) && IsVpn(cfg, r) && r.flags.userRequested && !Interactive(cfg, r)
    case SettingSecrets =>
      && Pressing(cfg, r) && !(IsVpn(cfg, r) && r.flags.userRequested) && !Interactive(cfg, r)
      && Needs(cfg, r, false) == []
    case Failed(NoSecrets) => r.kind.GetSecrets? && ByAgent(cfg, r) && socket == ""
    case Failed(AgentCanceled) =>
      Pressing(cfg, r) && Interactive(cfg, r) && cfg.lib.isWireless(r.connection) && !r.flags.userRequested
    case Failed(InternalError) =>
      Pressing(cfg, r)
      && if Interactive(cfg, r) then !cfg.lib.isWireless(r.connection)
         else !(IsVpn(cfg, r) && r.flags.userRequested) && Needs(cfg, r, false) != []
    case Failed(UserCanceled) => false
    case Password(_, _) => false
  }

  /** A call is answered with a reply exactly when it has earned it. */
  lemma AnsweredAsEarned(cfg: Config, socket: string, r: Request, reply: Reply)
    ensures Act(cfg, socket, "", r) == Answer(reply) <==> Earned(cfg, socket, r, reply)
    ensures Act(cfg, socket, "", r) == Prompt <==> Wanted(cfg, r)
    ensures Act(cfg, socket, "", r) == Wait <==> r.kind.GetSecrets? && Waits(cfg, r)
  {
  }

  /** Every reply of a drain goes to a call it found, which has earned it; while a prompt is in
      flight only Save and Delete calls are acknowledged. */
  lemma {:induction false} DrainRepliesEarned(cfg: Config, socket: string, ssid: string, calls: seq<Request>, s: Sent)
    requires s in Drain(cfg, socket, ssid, calls).sent
    ensures exists r :: r in calls && r.message == s.message && Earned(cfg, socket, r, s.reply)
    ensures ssid != "" ==> s.reply == Acknowledge
    decreases |calls|
  {
    var head, tail := calls[0], calls[1..];
    var next := if Act(cfg, socket, ssid, head).Prompt? then cfg.lib.id(head.connection) else ssid;
    if s in Drain(cfg, socket, next, tail).sent {
      DrainRepliesEarned(cfg, socket, next, tail, s);
    } else {
      assert Act(cfg, socket, ssid, head) == Answer(s.reply) && s.message == head.message;
      AnsweredAsEarned(cfg, socket, head, s.reply);
    }
  }

  // ----- a call that arrives between two drains

  lemma {:induction false} DrainOfConcat(cfg: Config, socket: string, ssid: string, a: seq<Request>, b: seq<Request>)
    ensures var d := Drain(cfg, socket, ssid, a);
            var e := Drain(cfg, socket, d.ssid, b);
            Drain(cfg, socket, ssid, a + b) ==
            Drained(e.ssid, d.calls + e.calls, d.sent + e.sent, d.prompts + e.prompts)
    decreases |a|
  {
    if a == [] {
      assert a + b == b;
    } else {
      var head, tail := a[0], a[1..];
      assert (a + b)[1..] == tail + b;
      var next := if Act(cfg, socket, ssid, head).Prompt? then cfg.lib.id(head.connection) else ssid;
      DrainOfConcat(cfg, socket, next, tail, b);
      var d := Drain(cfg, socket, next, tail);
      var e := Drain(cfg, socket, d.ssid, b);
      match Act(cfg, socket, ssid, head)
      case Wait =>
        Regroup([head], d.calls, e.calls);
      case Prompt =>
        Regroup([head.(ssid := next)], d.calls, e.calls);
        Regroup([head.message], d.prompts, e.prompts);
      case Answer(reply) =>
        Regroup([Sent(head.message, reply)], d.sent, e.sent);
    }
  }

  /** The state after a call arrives in a drained list. */
  function Joined(cfg: Config, socket: string, a: Agent, r: Request): Agent {
    var b := a.(arrivals := a.arrivals + 1);
    match Act(cfg, socket, a.ssid, r)
    case Wait => b.(calls := a.calls + [r])
    case Prompt =>
      var name := cfg.lib.id(r.connection);
      b.(ssid := name, calls := a.calls + [r.(ssid := name)], prompts := a.prompts + [r.message])
    case Answer(reply) => b.(sent := a.sent + [Sent(r.message, reply)])
  }

  lemma JoinedIs(cfg: Config, socket: string, a: Agent, r: Request)
    requires Drainless(cfg, a.ssid, a.calls)
    ensures Settle(cfg, socket, Enqueue(a, r)) == Joined(cfg, socket, a, r)
  {
    DrainlessIsFixed(cfg, socket, a.ssid, a.calls);
    DrainOfConcat(cfg, socket, a.ssid, a.calls, [r]);
    assert [r][1..] == [];
    var name := if Act(cfg, socket, a.ssid, r).Prompt? then cfg.lib.id(r.connection) else a.ssid;
    assert Drain(cfg, socket, name, []) == Drained(name, [], [], []);
    assert a.calls + [] == a.calls && a.sent + [] == a.sent && a.prompts + [] == a.prompts;
  }

  /** The call is accepted: acknowledged, kept waiting, prompted for, or answered as it has earned. */
  ghost predicate Accepted(cfg: Config, socket: string, a: Agent, r: Request, b: Agent) {
    var counted := a.(arrivals := a.arrivals + 1);
    if !r.kind.GetSecrets? then
      b == counted.(sent := a.sent + [Sent(r.message, Acknowledge)])
    else if a.ssid != "" || Waits(cfg, r) then
      b == counted.(calls := a.calls + [r])
    else if Wanted(cfg, r) then
      var name := cfg.lib.id(r.connection);
      b == counted.(ssid := name, calls := a.calls + [r.(ssid := name)], prompts := a.prompts + [r.message])
    else
      exists reply :: Earned(cfg, socket, r, reply) && b == counted.(sent := a.sent + [Sent(r.message, reply)])
  }

  lemma JoinedIsAccepted(cfg: Config, socket: string, a: Agent, r: Request)
    ensures Accepted(cfg, socket, a, r, Joined(cfg, socket, a, r))
  {
    match Act(cfg, socket, a.ssid, r)
    case Wait => AnsweredAsEarned(cfg, socket, r, Acknowledge);
    case Prompt => AnsweredAsEarned(cfg, socket, r, Acknowledge);
    case Answer(reply) => AnsweredAsEarned(cfg, socket, r, reply);
  }

  // ----- the slots

  /** A Save or Delete call is acknowledged at once, and nothing else happens. */
  lemma SaveOutcome(cfg: Config, a: Agent, e: Event, socket: string)
    requires Inv(cfg, a) && (e.Save? || e.Delete?)
    ensures Step(cfg, a, e, socket) ==
            a.(arrivals := a.arrivals + 1, sent := a.sent + [Sent(a.arrivals, Acknowledge)])
  {
    var kind := if e.Save? && cfg.lib.hasSecrets(e.connection) then SaveSecrets else DeleteSecrets;
    JoinedIs(cfg, socket, a, Request(a.arrivals, kind, "", e.connection, "", NO_FLAGS, ""));
  }

  lemma ReplacedDrains(cfg: Config, a: Agent, callId: string, socket: string)
    requires Inv(cfg, a)
    ensures var b := Settle(cfg, socket, Withdraw(a, callId));
            Drainless(cfg, b.ssid, b.calls) && b.arrivals == a.arrivals
  {
    WithdrawKeeps(cfg, a, callId);
    SettleKeeps(cfg, socket, Withdraw(a, callId));
  }

  /** A GetSecrets call is accepted with what it asks for, after an older call with its id
      has been cancelled. */
  lemma AskOutcome(cfg: Config, a: Agent, e: Event, socket: string)
    requires Inv(cfg, a) && Valid(cfg, e) && e.Ask?
    ensures var callId := e.path + e.settingName;
            var again := exists r :: r in a.calls && r.callId == callId;
            var before := if again then Step(cfg, a, Cancel(e.path, e.settingName), socket) else a;
            var r := Request(a.arrivals, GetSecrets, callId, e.connection, e.settingName, e.flags, "");
            before.arrivals == a.arrivals && Accepted(cfg, socket, before, r, Step(cfg, a, e, socket))
  {
    var callId := e.path + e.settingName;
    var again := exists r :: r in a.calls && r.callId == callId;
    var before := if again then Settle(cfg, socket, Withdraw(a, callId)) else a;
    if again {
      ReplacedDrains(cfg, a, callId, socket);
    }
    var r := Request(a.arrivals, GetSecrets, callId, e.connection, e.settingName, e.flags, "");
    JoinedIs(cfg, socket, before, r);
    JoinedIsAccepted(cfg, socket, before, r);
  }

  /** The pending calls with other ids. */
  function Others(calls: seq<Request>, callId: string): seq<Request> {
    if calls == [] then []
    else (if calls[0].callId == callId then [] else [calls[0]]) + Others(calls[1..], callId)
  }

  lemma {:induction false} OthersOfNone(calls: seq<Request>, callId: string)
    requires forall i :: 0 <= i < |calls| ==> calls[i].callId != callId
    ensures Others(calls, callId) == calls
  {
    if calls != [] {
      OthersOfNone(calls[1..], callId);
    }
  }

  lemma {:induction false} OthersOfOne(calls: seq<Request>, callId: string, i: nat)
    requires i < |calls| && calls[i].callId == callId
    requires forall j :: 0 <= j < |calls| && j != i ==> calls[j].callId != callId
    ensures Others(calls, callId) == RemoveAt(calls, i)
  {
    var tail := calls[1..];
    if i == 0 {
      OthersOfNone(tail, callId);
    } else {
      OthersOfOne(tail, callId, i - 1);
      assert RemoveAt(calls, i) == [calls[0]] + RemoveAt(tail, i - 1);
    }
  }

  lemma {:induction false} OthersAre(calls: seq<Request>, callId: string, r: Request)
    ensures r in Others(calls, callId) <==> r in calls && r.callId != callId
  {
    if calls != [] {
      OthersAre(calls[1..], callId, r);
      assert calls == [calls[0]] + calls[1..];
    }
  }

  /** Between slots the cancelled call is the only one with its id. */
  lemma WithdrawIs(cfg: Config, a: Agent, callId: string, r: Request)
    requires Inv(cfg, a) && r in a.calls && r.callId == callId
    ensures Withdraw(a, callId) ==
            a.(ssid := if r.ssid == a.ssid then "" else a.ssid, calls := Others(a.calls, callId),
               sent := a.sent + [Sent(r.message, Failed(AgentCanceled))])
  {
    var i := FirstCall(a.calls, callId);
    assert forall j :: 0 <= j < |a.calls| ==> a.calls[j] in a.calls;
    var k :| 0 <= k < |a.calls| && a.calls[k] == r;
    assert i <= k;
    assert forall j :: 0 <= j < |a.calls| && j != i ==> a.calls[j].callId != callId;
    OthersOfOne(a.calls, callId, i);
  }

  lemma CancelUnprompted(cfg: Config, a: Agent, callId: string, socket: string, r: Request)
    requires Inv(cfg, a) && r in a.calls && r.callId == callId && (a.ssid == "" || r.ssid == "")
    ensures Settle(cfg, socket, Withdraw(a, callId)) ==
            a.(calls := Others(a.calls, callId), sent := a.sent + [Sent(r.message, Failed(AgentCanceled))])
  {
    var w := Withdraw(a, callId);
    WithdrawIs(cfg, a, callId, r);
    if a.ssid == "" {
      assert r.ssid == "" by {
        var k :| 0 <= k < |a.calls| && a.calls[k] == r;
      }
    }
    assert w.ssid == a.ssid;
    forall k | k in w.calls ensures k in a.calls {
      OthersAre(a.calls, callId, k);
    }
    DrainlessIsFixed(cfg, socket, w.ssid, w.calls);
    assert w.sent + [] == w.sent && w.prompts + [] == w.prompts;
  }

  lemma CancelPrompted(cfg: Config, a: Agent, callId: string, socket: string, r: Request)
    requires Inv(cfg, a) && r in a.calls && r.callId == callId && a.ssid != "" && r.ssid == a.ssid
    ensures var b := Settle(cfg, socket, Withdraw(a, callId));
            var rest, told := Others(a.calls, callId), a.sent + [Sent(r.message, Failed(AgentCanceled))];
            && b.prompts == a.prompts + FirstWanted(cfg, rest)
            && told <= b.sent
            && forall s :: s in b.sent[|told|..] ==>
                 exists k :: k in rest && k.message == s.message && Earned(cfg, socket, k, s.reply)
  {
    var w := Withdraw(a, callId);
    WithdrawIs(cfg, a, callId, r);
    WithdrawKeeps(cfg, a, callId);
    PromptsAreWanted(cfg, socket, w.calls);
    var d := Drain(cfg, socket, "", w.calls);
    var b := Settle(cfg, socket, w);
    assert b.sent == w.sent + d.sent && b.sent[|w.sent|..] == d.sent;
    forall s | s in d.sent
      ensures exists k :: k in w.calls && k.message == s.message && Earned(cfg, socket, k, s.reply)
    {
      DrainRepliesEarned(cfg, socket, "", w.calls, s);
    }
  }

  /** Cancelling an id nobody has does nothing. Otherwise its call gets the AgentCanceled error and
      leaves; unless it was the prompted one, nothing else happens. If it was, the first call
      that wants a prompt gets one, and whoever is answered has earned the answer. */
  lemma CancelOutcome(cfg: Config, a: Agent, e: Event, socket: string, r: Request)
    requires Inv(cfg, a) && e.Cancel?
    ensures var b := Step(cfg, a, e, socket);
            var callId := e.path + e.settingName;
            var rest, told := Others(a.calls, callId), a.sent + [Sent(r.message, Failed(AgentCanceled))];
            && ((forall k :: k in a.calls ==> k.callId != callId) ==> b == a)
            && (r in a.calls && r.callId == callId ==>
                  && b.arrivals == a.arrivals
                  && (a.ssid == "" || r.ssid == "" ==> b == a.(calls := rest, sent := told))
                  && (a.ssid != "" && r.ssid == a.ssid ==>
                        && b.prompts == a.prompts + FirstWanted(cfg, rest)
                        && told <= b.sent
                        && forall s :: s in b.sent[|told|..] ==>
                             exists k :: k in rest && k.message == s.message && Earned(cfg, socket, k, s.reply)))
  {
    var callId := e.path + e.settingName;
    var rest := Others(a.calls, callId);
    if forall k :: k in a.calls ==> k.callId != callId {
      assert FirstCall(a.calls, callId) == |a.calls|;
      DrainlessIsFixed(cfg, socket, a.ssid, a.calls);
      assert a.sent + [] == a.sent && a.prompts + [] == a.prompts;
    }
    if r in a.calls && r.callId == callId {
      WithdrawIs(cfg, a, callId, r);
      forall k ensures k in rest <==> k in a.calls && k.callId != callId {
        OthersAre(a.calls, callId, k);
      }
      if a.ssid == "" || r.ssid == "" {
        CancelUnprompted(cfg, a, callId, socket, r);
      } else if r.ssid == a.ssid {
        CancelPrompted(cfg, a, callId, socket, r);
      }
    }
  }

  /** Only the call whose ssid is the key takes the input. */
  lemma {:induction false} TakeInputsOnly(cfg: Config, calls: seq<Request>, p: nat, key: string, password: string,
                                          input: bool)
    requires p < |calls| && forall q :: 0 <= q < |calls| && q != p ==> calls[q].ssid != key
    ensures var (after, answers) := TakeInput(cfg, calls[p], key, password, input);
            TakeInputs(cfg, calls, key, password, input) == (calls[p := after], answers)
  {
    var tail := calls[1..];
    var (after, answers) := TakeInput(cfg, calls[p], key, password, input);
    if p == 0 {
      NoAnswers(cfg, tail, Input(key, password, input));
      assert [after] + tail == calls[0 := after];
      assert answers + [] == answers;
    } else {
      TakeInputsOnly(cfg, tail, p - 1, key, password, input);
      assert [calls[0]] + tail[p - 1 := after] == calls[p := after];
      assert [] + answers == answers;
    }
  }

  /** An input that names no prompt does nothing. One that names the prompt sends its call the
      UserCanceled error, or the password under the first secret the setting needs, which
      then is all the setting holds; the call stays. */
  lemma InputOutcome(cfg: Config, a: Agent, e: Event, p: nat)
    requires Inv(cfg, a) && e.Input? && e.key != ""
    ensures e.key != a.ssid ==> Step(cfg, a, e, "") == a
    ensures e.key == a.ssid && Prompted(a.ssid, a.calls, p) ==>
              var r := a.calls[p];
              var needs := Needs(cfg, r, r.flags.requestNew);
              Step(cfg, a, e, "") ==
              if !e.input then a.(sent := a.sent + [Sent(r.message, Failed(UserCanceled))])
              else if e.password == "" || needs == [] then a
              else
                var filled := r.(connection := r.connection[r.settingName := map[needs[0] := e.password]]);
                a.(calls := a.calls[p := filled], sent := a.sent + [Sent(r.message, Password(needs[0], e.password))])
  {
    if e.key != a.ssid {
      if a.ssid != "" {
        var q: nat :| Prompted(a.ssid, a.calls, q);
      }
      NoAnswers(cfg, a.calls, e);
      assert a.sent + [] == a.sent;
    } else if Prompted(a.ssid, a.calls, p) {
      TakeInputsOnly(cfg, a.calls, p, e.key, e.password, e.input);
      assert a.calls[p := a.calls[p]] == a.calls && a.sent + [] == a.sent;
    }
  }

  // ----- every run

  /** How many calls the events bring. */
  function CallsIn(events: seq<(Event, string)>): nat {
    if events == [] then 0
    else
      var e := events[|events| - 1].0;
      CallsIn(events[..|events| - 1]) + (if e.Ask? || e.Save? || e.Delete? then 1 else 0)
  }

  /** Every GetSecrets, SaveSecrets and DeleteSecrets call of a run has been accepted. */
  lemma {:induction false} EveryCallArrives(cfg: Config, events: seq<(Event, string)>)
    ensures Run(cfg, events).arrivals == CallsIn(events)
  {
    if events != [] {
      EveryCallArrives(cfg, events[..|events| - 1]);
    }
  }
}
