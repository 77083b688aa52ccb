/** The meaning of the secret agent's slots (common-plugin/secretagent.cpp) as
    functions on a state value: the pending calls, the one password prompt in
    flight, and what has been answered so far. Class SecretAgent runs the loops
    of the source against these functions. */
module SecretQueue {
  import opened Sequences

  /** A connection as NetworkManager sends it: setting name to its properties. */
  type Connection = map<string, map<string, string>>

  /** What NetworkManagerQt reads out of a connection. */
  datatype Library = Library(
    id: Connection -> string,
    isWireless: Connection -> bool,
    isVpn: (Connection, string) -> bool,
    usesSshAgent: Connection -> bool,
    hasSecrets: Connection -> bool,
    needSecrets: (Connection, string, bool) -> seq<string>)

  datatype Flags = Flags(requestNew: bool, userRequested: bool, allowInteraction: bool)

  datatype Kind = GetSecrets | SaveSecrets | DeleteSecrets

  /** A pending D-Bus call. `message` is its arrival number. */
  datatype Request = Request(
    message: nat, kind: Kind, callId: string, connection: Connection, settingName: string, flags: Flags, ssid: string)

  datatype AgentError = AgentCanceled | UserCanceled | InternalError | NoSecrets

  datatype Reply =
    | SshSocket(socket: string)
    | StoredSecrets
    | VpnSecrets
    | SettingSecrets
    | Password(field: string, password: string)
    | Failed(error: AgentError)
    | Acknowledge

  datatype Sent = Sent(message: nat, reply: Reply)

  /** The choice processGetSecrets makes when no prompt is in flight. */
  datatype Action = Wait | Prompt | Answer(reply: Reply)

  /** What does not change while the agent lives. */
  datatype Config = Config(greeter: bool, lib: Library)

  function Decide(cfg: Config, socket: string, r: Request): Action {
    var isVpn := cfg.lib.isVpn(r.connection, r.settingName);
    var needs := cfg.lib.needSecrets(r.connection, r.settingName, r.flags.requestNew);
    if isVpn && cfg.lib.usesSshAgent(r.connection) then
      Answer(if socket == "" then Failed(NoSecrets) else SshSocket(socket))
    else if !cfg.greeter && !r.flags.requestNew then
      Wait
    else if !cfg.greeter && !isVpn && needs == [] then
      Answer(StoredSecrets)
    else if r.flags.requestNew || (r.flags.allowInteraction && (needs != [] || r.flags.userRequested || isVpn)) then
      if !cfg.lib.isWireless(r.connection) then Answer(Failed(InternalError))
      else if !r.flags.userRequested then Answer(Failed(AgentCanceled))
      else Prompt
    else if isVpn && r.flags.userRequested then
      Answer(VpnSecrets)
    else if cfg.lib.needSecrets(r.connection, r.settingName, false) == [] then
      Answer(SettingSecrets)
    else
      Answer(Failed(InternalError))
  }

  function Act(cfg: Config, socket: string, ssid: string, r: Request): Action {
    match r.kind
    case GetSecrets => if ssid != "" then Wait else Decide(cfg, socket, r)
    case SaveSecrets => Answer(Acknowledge)
    case DeleteSecrets => Answer(Acknowledge)
  }

  /** The result of draining the list of calls. */
  datatype Drained = Drained(ssid: string, calls: seq<Request>, sent: seq<Sent>, prompts: seq<nat>)

  function Drain(cfg: Config, socket: string, ssid: string, calls: seq<Request>): Drained
    decreases |calls|
  {
    if calls == [] then
      Drained(ssid, [], [], [])
    else
      var head := calls[0];
      match Act(cfg, socket, ssid, head)
      case Wait =>
        var d := Drain(cfg, socket, ssid, calls[1..]);
        d.(calls := [head] + d.calls)
      case Prompt =>
        var name := cfg.lib.id(head.connection);
        var d := Drain(cfg, socket, name, calls[1..]);
        d.(calls := [head.(ssid := name)] + d.calls, prompts := [head.message] + d.prompts)
      case Answer(reply) =>
        var d := Drain(cfg, socket, ssid, calls[1..]);
        d.(sent := [Sent(head.message, reply)] + d.sent)
  }

  /** The agent between two slots. `sent` and `prompts` record, in order, every
      reply and every password prompt so far; `arrivals` counts the calls accepted. */
  datatype Agent = Agent(ssid: string, calls: seq<Request>, sent: seq<Sent>, prompts: seq<nat>, arrivals: nat)

  function Settle(cfg: Config, socket: string, a: Agent): Agent {
    var d := Drain(cfg, socket, a.ssid, a.calls);
    Agent(d.ssid, d.calls, a.sent + d.sent, a.prompts + d.prompts, a.arrivals)
  }

  function Enqueue(a: Agent, r: Request): Agent {
    a.(calls := a.calls + [r], arrivals := a.arrivals + 1)
  }

  /** The first pending GetSecrets call with this id, or |calls|. */
  function FirstCall(calls: seq<Request>, callId: string): (i: nat)
    ensures i <= |calls|
    ensures i < |calls| ==> calls[i].kind.GetSecrets? && calls[i].callId == callId
    ensures forall k :: 0 <= k < i ==> !(calls[k].kind.GetSecrets? && calls[k].callId == callId)
  {
    if calls == [] then 0
    else if calls[0].kind.GetSecrets? && calls[0].callId == callId then 0
    else 1 + FirstCall(calls[1..], callId)
  }

  /** The calls of CancelGetSecrets before it drains. */
  function Withdraw(a: Agent, callId: string): Agent {
    var i := FirstCall(a.calls, callId);
    if i == |a.calls| then a
    else a.(ssid := if a.ssid == a.calls[i].ssid then "" else a.ssid,
            calls := RemoveAt(a.calls, i),
            sent := a.sent + [Sent(a.calls[i].message, Failed(AgentCanceled))])
  }

  /** How one pending call takes the user's input. */
  function TakeInput(cfg: Config, r: Request, key: string, password: string, input: bool): (Request, seq<Sent>) {
    if !(r.kind.GetSecrets? && r.ssid == key) then (r, [])
    else if !input then (r, [Sent(r.message, Failed(UserCanceled))])
    else
      var needs := cfg.lib.needSecrets(r.connection, r.settingName, r.flags.requestNew);
      if password != "" && needs != [] then
        (r.(connection := r.connection[r.settingName := map[needs[0] := password]]),
         [Sent(r.message, Password(needs[0], password))])
      else
        (r, [])
  }

  function TakeInputs(cfg: Config, calls: seq<Request>, key: string, password: string,
                      input: bool): (r: (seq<Request>, seq<Sent>))
    ensures |r.0| == |calls|
  {
    if calls == [] then ([], [])
    else
      var (head, first) := TakeInput(cfg, calls[0], key, password, input);
      var (tail, rest) := TakeInputs(cfg, calls[1..], key, password, input);
      ([head] + tail, first + rest)
  }

  datatype Event =
    | Ask(connection: Connection, path: string, settingName: string, flags: Flags)
    | Save(connection: Connection)
    | Delete(connection: Connection)
    | Cancel(path: string, settingName: string)
    | Input(key: string, password: string, input: bool)

  const NO_FLAGS := Flags(false, false, false)

  /** One slot. `socket` is the value of SSH_AUTH_SOCK while it runs. */
  function Step(cfg: Config, a: Agent, e: Event, socket: string): Agent {
    match e
    case Ask(connection, path, settingName, flags) =>
      var callId := path + settingName;
      var b := if exists r :: r in a.calls && r.callId == callId then Settle(cfg, socket, Withdraw(a, callId)) else a;
      Settle(cfg, socket, Enqueue(b, Request(b.arrivals, GetSecrets, callId, connection, settingName, flags, "")))
    case Save(connection) =>
      var kind := if cfg.lib.hasSecrets(connection) then SaveSecrets else DeleteSecrets;
      Settle(cfg, socket, Enqueue(a, Request(a.arrivals, kind, "", connection, "", NO_FLAGS, "")))
    case Delete(connection) =>
      Settle(cfg, socket, Enqueue(a, Request(a.arrivals, DeleteSecrets, "", connection, "", NO_FLAGS, "")))
    case Cancel(path, settingName) =>
      Settle(cfg, socket, Withdraw(a, path + settingName))
    case Input(key, password, input) =>
      var (calls, answers) := TakeInputs(cfg, a.calls, key, password, input);
      a.(calls := calls, sent := a.sent + answers)
  }

  const IDLE := Agent("", [], [], [], 0)

  /** Every run: the slots in order, each with the environment it saw. */
  function Run(cfg: Config, events: seq<(Event, string)>): Agent {
    if events == [] then IDLE
    else
      var last := events[|events| - 1];
      Step(cfg, Run(cfg, events[..|events| - 1]), last.0, last.1)
  }

  /** What the agent becomes when the drain loop stands at index i. */
  function Resume(cfg: Config, socket: string, a: Agent, i: nat): Agent
    requires i <= |a.calls|
  {
    var d := Drain(cfg, socket, a.ssid, a.calls[i..]);
    Agent(d.ssid, a.calls[..i] + d.calls, a.sent + d.sent, a.prompts + d.prompts, a.arrivals)
  }

  /** The state after one turn of the drain loop, and the index it goes on from. */
  function Turn(cfg: Config, socket: string, a: Agent, i: nat): (r: (Agent, nat))
    requires i < |a.calls|
    ensures r.1 <= |r.0.calls|
  {
    var head := a.calls[i];
    match Act(cfg, socket, a.ssid, head)
    case Wait => (a, i + 1)
    case Prompt =>
      var name := cfg.lib.id(head.connection);
      (a.(ssid := name, calls := a.calls[i := head.(ssid := name)], prompts := a.prompts + [head.message]), i + 1)
    case Answer(reply) =>
      (a.(calls := RemoveAt(a.calls, i), sent := a.sent + [Sent(head.message, reply)]), i)
  }

  lemma ResumeEnds(cfg: Config, socket: string, a: Agent)
    ensures Resume(cfg, socket, a, 0) == Settle(cfg, socket, a)
    ensures Resume(cfg, socket, a, |a.calls|) == a
  {
    assert a.calls[0..] == a.calls && a.calls[|a.calls|..] == [];
    var d := Drain(cfg, socket, a.ssid, a.calls);
    assert a.calls[..0] + d.calls == d.calls;
    assert a.calls[..|a.calls|] + [] == a.calls && a.sent + [] == a.sent && a.prompts + [] == a.prompts;
  }

  /** A turn of the loop does not change where the drain ends. */
  lemma TurnKeepsOutcome(cfg: Config, socket: string, a: Agent, i: nat)
    requires i < |a.calls|
    ensures var (b, j) := Turn(cfg, socket, a, i); Resume(cfg, socket, b, j) == Resume(cfg, socket, a, i)
  {
    var (b, j) := Turn(cfg, socket, a, i);
    var d := Drain(cfg, socket, a.ssid, a.calls[i..]);
    var e := Drain(cfg, socket, b.ssid, b.calls[j..]);
    assert a.calls[i..][1..] == a.calls[i + 1..] == b.calls[j..];
    match Act(cfg, socket, a.ssid, a.calls[i])
    case Wait =>
      assert a.calls[..i] + ([a.calls[i]] + e.calls) == a.calls[..j] + e.calls;
    case Prompt =>
      assert a.calls[..i] + ([b.calls[i]] + e.calls) == b.calls[..j] + e.calls;
    case Answer(_) =>
      assert b.calls[..i] == a.calls[..i];
  }

  /** The same two for the loop of onInputPassword. */
  function InputResume(cfg: Config, a: Agent, i: nat, e: Event): Agent
    requires i <= |a.calls| && e.Input?
  {
    var (rest, answers) := TakeInputs(cfg, a.calls[i..], e.key, e.password, e.input);
    a.(calls := a.calls[..i] + rest, sent := a.sent + answers)
  }

  lemma InputResumeEnds(cfg: Config, a: Agent, e: Event)
    requires e.Input?
    ensures InputResume(cfg, a, 0, e) == Step(cfg, a, e, "")
    ensures InputResume(cfg, a, |a.calls|, e) == a
  {
    assert a.calls[0..] == a.calls && a.calls[|a.calls|..] == [];
    var (rest, _) := TakeInputs(cfg, a.calls, e.key, e.password, e.input);
    assert a.calls[..0] + rest == rest;
    assert a.calls[..|a.calls|] + [] == a.calls && a.sent + [] == a.sent;
  }

  lemma InputTurn(cfg: Config, a: Agent, i: nat, e: Event)
    requires i < |a.calls| && e.Input?
    ensures var (head, answers) := TakeInput(cfg, a.calls[i], e.key, e.password, e.input);
            InputResume(cfg, a, i, e) ==
            InputResume(cfg, a.(calls := a.calls[i := head], sent := a.sent + answers), i + 1, e)
  {
    var (head, first) := TakeInput(cfg, a.calls[i], e.key, e.password, e.input);
    var b := a.(calls := a.calls[i := head], sent := a.sent + first);
    assert a.calls[i..][1..] == a.calls[i + 1..] == b.calls[i + 1..];
    var (rest, answers) := TakeInputs(cfg, a.calls[i + 1..], e.key, e.password, e.input);
    assert a.calls[..i] + ([head] + rest) == b.calls[..i + 1] + rest;
    assert a.sent + (first + answers) == a.sent + first + answers;
  }
}
