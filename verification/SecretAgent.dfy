/** The agent object of common-plugin/secretagent.cpp: fields edited in place by
    its D-Bus slots, proved against the functions of SecretQueue. */
module SecretAgents {
  import opened Sequences
  import opened SecretQueue

  class SecretAgent {
    const cfg: Config
    var ssid: string
    var calls: seq<Request>
    var arrivals: nat
    ghost var sent: seq<Sent>
    ghost var prompts: seq<nat>

    ghost function State(): Agent
      reads this
    {
      Agent(ssid, calls, sent, prompts, arrivals)
    }

    constructor (cfg: Config)
      ensures State() == IDLE && this.cfg == cfg
    {
      this.cfg := cfg;
      ssid, calls, arrivals, sent, prompts := "", [], 0, [], [];
    }

    /** processGetSecrets on the i-th pending call; true when it was answered. */
    method ProcessGetSecrets(i: nat, socket: string) returns (done: bool)
      requires i < |calls| && calls[i].kind.GetSecrets?
      modifies this
      ensures var a := old(State());
              match Act(cfg, socket, a.ssid, a.calls[i])
              case Wait => !done && State() == a
              case Prompt =>
                var name := cfg.lib.id(a.calls[i].connection);
                && !done
                && State() == a.(ssid := name, calls := a.calls[i := a.calls[i].(ssid := name)],
                                 prompts := a.prompts + [a.calls[i].message])
              case Answer(reply) => done && State() == a.(sent := a.sent + [Sent(a.calls[i].message, reply)])
    {
      if ssid != "" {
        return false;
      }
      var request := calls[i];
      var setting := request.settingName;
      var Flags(requestNew, userRequested, allowInteraction) := request.flags;
      var isVpn := cfg.lib.isVpn(request.connection, setting);
      if isVpn {
        if cfg.lib.usesSshAgent(request.connection) {
          sent := sent + [Sent(request.message, if socket == "" then Failed(NoSecrets) else SshSocket(socket))];
          return true;
        }
      }
      var needs := cfg.lib.needSecrets(request.connection, setting, requestNew);
      if !cfg.greeter {
        if !requestNew {
          return false;
        }
        if !isVpn && needs == [] {
          sent := sent + [Sent(request.message, StoredSecrets)];
          return true;
        }
      }
      if requestNew || (allowInteraction && needs != []) || (allowInteraction && userRequested)
         || (isVpn && allowInteraction) {
        if !cfg.lib.isWireless(request.connection) {
          sent := sent + [Sent(request.message, Failed(InternalError))];
          return true;
        }
        if !userRequested {
          sent := sent + [Sent(request.message, Failed(AgentCanceled))];
          return true;
        }
        ssid := cfg.lib.id(request.connection);
        calls := calls[i := request.(ssid := ssid)];
        prompts := prompts + [request.message];
        return false;
      } else if isVpn && userRequested {
        sent := sent + [Sent(request.message, VpnSecrets)];
        return true;
      } else if cfg.lib.needSecrets(request.connection, setting, false) == [] {
        sent := sent + [Sent(request.message, SettingSecrets)];
        return true;
      } else {
        sent := sent + [Sent(request.message, Failed(InternalError))];
        return true;
      }
    }

    /** processSaveSecrets and processDeleteSecrets: an empty reply. */
    method Reply(message: nat) returns (done: bool)
      modifies this`sent
      ensures done && sent == old(sent) + [Sent(message, Acknowledge)]
    {
      sent := sent + [Sent(message, Acknowledge)];
      return true;
    }

    method ProcessNext(socket: string)
      modifies this
      ensures State() == Settle(cfg, socket, old(State()))
    {
      ghost var outcome := Settle(cfg, socket, State());
      ResumeEnds(cfg, socket, State());
      var i := 0;
      while i < |calls|
        invariant i <= |calls| && Resume(cfg, socket, State(), i) == outcome
        decreases |calls| - i
      {
        TurnKeepsOutcome(cfg, socket, State(), i);
        var done;
        match calls[i].kind {
          case GetSecrets => done := ProcessGetSecrets(i, socket);
          case SaveSecrets => done := Reply(calls[i].message);
          case DeleteSecrets => done := Reply(calls[i].message);
        }
        if done {
          calls := RemoveAt(calls, i);
        } else {
          i := i + 1;
        }
      }
      ResumeEnds(cfg, socket, State());
    }

    method CancelGetSecrets(path: string, settingName: string, socket: string)
      modifies this
      ensures State() == Step(cfg, old(State()), Cancel(path, settingName), socket)
    {
      var callId := path + settingName;
      ghost var start := State();
      var i := 0;
      while i < |calls|
        invariant i <= |calls| && State() == start
        invariant forall k :: 0 <= k < i ==> !(calls[k].kind.GetSecrets? && calls[k].callId == callId)
      {
        var request := calls[i];
        if request.kind.GetSecrets? && request.callId == callId {
          if ssid == request.ssid {
            ssid := "";
          }
          sent := sent + [Sent(request.message, Failed(AgentCanceled))];
          calls := RemoveAt(calls, i);
          break;
        }
        i := i + 1;
      }
      assert State() == Withdraw(start, callId);
      ProcessNext(socket);
    }

    method GetSecrets(connection: Connection, path: string, settingName: string, flags: Flags, socket: string)
      modifies this
      ensures State() == Step(cfg, old(State()), Ask(connection, path, settingName, flags), socket)
    {
      var callId := path + settingName;
      var i := 0;
      while i < |calls|
        invariant i <= |calls| && State() == old(State())
        invariant forall k :: 0 <= k < i ==> calls[k].callId != callId
      {
        if calls[i].callId == callId {
          assert calls[i] in calls;
          CancelGetSecrets(path, settingName, socket);
          break;
        }
        i := i + 1;
      }
      var request := Request(arrivals, Kind.GetSecrets, callId, connection, settingName, flags, "");
      calls, arrivals := calls + [request], arrivals + 1;
      ProcessNext(socket);
    }

    method SaveSecrets(connection: Connection, socket: string)
      modifies this
      ensures State() == Step(cfg, old(State()), Save(connection), socket)
    {
      var kind := Kind.DeleteSecrets;
      if cfg.lib.hasSecrets(connection) {
        kind := Kind.SaveSecrets;
      }
      calls, arrivals := calls + [Request(arrivals, kind, "", connection, "", NO_FLAGS, "")], arrivals + 1;
      ProcessNext(socket);
    }

    method DeleteSecrets(connection: Connection, socket: string)
      modifies this
      ensures State() == Step(cfg, old(State()), Delete(connection), socket)
    {
      var request := Request(arrivals, Kind.DeleteSecrets, "", connection, "", NO_FLAGS, "");
      calls, arrivals := calls + [request], arrivals + 1;
      ProcessNext(socket);
    }

    method OnInputPassword(key: string, password: string, input: bool)
      modifies this
      ensures State() == Step(cfg, old(State()), Input(key, password, input), "")
    {
      ghost var e := Input(key, password, input);
      ghost var outcome := Step(cfg, State(), e, "");
      InputResumeEnds(cfg, State(), e);
      var i := 0;
      while i < |calls|
        invariant i <= |calls| && InputResume(cfg, State(), i, e) == outcome
      {
        InputTurn(cfg, State(), i, e);
        var request := calls[i];
        if request.kind.GetSecrets? && request.ssid == key {
          if input {
            var needs := cfg.lib.needSecrets(request.connection, request.settingName, request.flags.requestNew);
            if password != "" && needs != [] {
              var filled := request.connection[request.settingName := map[needs[0] := password]];
              calls := calls[i := request.(connection := filled)];
              sent := sent + [Sent(request.message, Password(needs[0], password))];
            }
          } else {
            sent := sent + [Sent(request.message, Failed(UserCanceled))];
          }
        }
        i := i + 1;
      }
      InputResumeEnds(cfg, State(), e);
    }
  }
}
