/** The proxy controller (src/proxycontroller.cpp): its reply handlers edit the cache in
    place; each is one step of ProxyCache. */
module ProxyControllers {
  import opened Sequences
  import opened ProxyCache

  class ProxyController {
    var sysProxyConfig: seq<SysProxyConfig>
    var autoProxyURL: string
    var proxyMethod: ProxyMethod
    var systemProxyExist: bool
    ghost var existSignals: seq<bool>
    ghost var unchecked: bool
    ghost var history: seq<Event>

    ghost function State(): Proxy
      reads this
    {
      Proxy(sysProxyConfig, autoProxyURL, proxyMethod, systemProxyExist, existSignals, unchecked)
    }

    ghost predicate Valid()
      reads this
    {
      State() == Replay(history)
    }

    constructor ()
      ensures Valid() && history == []
    {
      sysProxyConfig, autoProxyURL, proxyMethod, systemProxyExist := [], "", Init, false;
      existSignals, unchecked, history := [], false, [];
    }

    ghost method Record(e: Event)
      requires State() == Step(Replay(history), e)
      modifies this`history
      ensures Valid() && history == old(history) + [e]
    {
      history := history + [e];
      assert history[..|history| - 1] == old(history);
    }

    /** querySysProxyData: the cache is cleared and each type asked for twice, then the rest;
        the replies arrive later. */
    method QuerySysProxyData() returns (queries: seq<Query>)
      requires Valid()
      modifies this
      ensures Valid() && history == old(history) + [Clear]
      ensures queries == [
                AskProxy("http"), AskAuthentication("http"), AskProxy("https"), AskAuthentication("https"),
                AskProxy("ftp"), AskAuthentication("ftp"), AskProxy("socks"), AskAuthentication("socks"),
                AskAutoProxy, AskMethod, AskIgnoreHosts]
    {
      sysProxyConfig := [];
      unchecked := true;
      Record(Clear);
      queries := [];
      for i := 0 to |PROXY_TYPES|
        invariant queries == TypeQueries(i) && Valid() && history == old(history) + [Clear]
      {
        queries := queries + [AskProxy(PROXY_TYPES[i]), AskAuthentication(PROXY_TYPES[i])];
      }
      TypeQueriesAre();
      queries := queries + [AskAutoProxy, AskMethod, AskIgnoreHosts];
    }

    /** The loop both replies look their record up with. */
    method IndexOf(kind: SysProxyType) returns (i: nat)
      ensures i == FindKind(sysProxyConfig, kind, 0)
    {
      i := 0;
      while i < |sysProxyConfig| && sysProxyConfig[i].kind != kind
        invariant i <= |sysProxyConfig| && FindKind(sysProxyConfig, kind, 0) == FindKind(sysProxyConfig, kind, i)
      {
        i := i + 1;
      }
    }

    method CheckSystemProxyExist()
      modifies this`systemProxyExist, this`existSignals, this`unchecked
      ensures State() == Check(old(State())) && systemProxyExist == ProxyExists(State())
    {
      var isConfExist := false;
      var i := 0;
      while i < |sysProxyConfig| && !isConfExist
        invariant i <= |sysProxyConfig| && State() == old(State())
        invariant isConfExist <==> exists j :: 0 <= j < i && sysProxyConfig[j].url != ""
      {
        if sysProxyConfig[i].url != "" {
          isConfExist := true;
        }
        i := i + 1;
      }
      var exist := isConfExist || autoProxyURL != "";
      if systemProxyExist != exist {
        systemProxyExist := exist;
        existSignals := existSignals + [exist];
      }
      unchecked := false;
      SomeUrlIs(State());
    }

    /** The reply of GetProxy; `proxyChanged` is whether the signal of that name is emitted. */
    method OnProxyReply(name: string, valid: bool, url: string, port: nat, junkAuth: bool) returns (proxyChanged: bool)
      requires Valid()
      modifies this
      ensures Valid() && history == old(history) + [Data(name, valid, url, port, junkAuth)]
      ensures proxyChanged <==>
                valid && forall c :: c in old(sysProxyConfig) && c.kind == ConvertSysProxyType(name) ==>
                                       c.url != url || c.port != port
      ensures proxyChanged ==> systemProxyExist == ProxyExists(State())
    {
      proxyChanged := false;
      NewsIsUnknown(history, name, valid, url, port, junkAuth);
      var kind := ConvertSysProxyType(name);
      if !valid {
        Record(Data(name, valid, url, port, junkAuth));
        return;
      }
      var i := IndexOf(kind);
      if i < |sysProxyConfig| {
        var conf := sysProxyConfig[i];
        if url != conf.url || port != conf.port {
          sysProxyConfig := sysProxyConfig[i := conf.(url := url, port := port)];
          proxyChanged := true;
          CheckSystemProxyExist();
        } else {
          assert sysProxyConfig[i := conf.(url := url, port := port)] == sysProxyConfig;
        }
      } else {
        sysProxyConfig := sysProxyConfig + [SysProxyConfig(kind, url, port, junkAuth, "", "")];
        proxyChanged := true;
        CheckSystemProxyExist();
      }
      Record(Data(name, valid, url, port, junkAuth));
    }

    /** The reply of GetProxyAuthentication; `authChanged` is whether proxyAuthChanged is emitted. */
    method OnProxyAuthReply(name: string, valid: bool, userName: string, password: string, enableAuth: bool,
                            junkPort: nat)
        returns (authChanged: bool)
      requires Valid()
      modifies this
      ensures Valid() && history == old(history) + [Auth(name, valid, userName, password, enableAuth, junkPort)]
      ensures authChanged <==> sysProxyConfig != old(sysProxyConfig)
    {
      authChanged := false;
      var kind := ConvertSysProxyType(name);
      if !valid {
        Record(Auth(name, valid, userName, password, enableAuth, junkPort));
        return;
      }
      var i := IndexOf(kind);
      if i < |sysProxyConfig| {
        var conf := sysProxyConfig[i];
        if enableAuth != conf.enableAuth || userName != conf.userName || password != conf.password {
          sysProxyConfig :=
            sysProxyConfig[i := conf.(enableAuth := enableAuth, userName := userName, password := password)];
          assert sysProxyConfig[i] != old(sysProxyConfig)[i];
          authChanged := true;
        } else {
          assert sysProxyConfig[i := conf.(enableAuth := enableAuth, userName := userName, password := password)]
                 == sysProxyConfig;
        }
      } else {
        sysProxyConfig := sysProxyConfig + [SysProxyConfig(kind, "", junkPort, enableAuth, userName, password)];
        authChanged := true;
      }
      Record(Auth(name, valid, userName, password, enableAuth, junkPort));
    }

    /** The reply of GetAutoProxy, empty when the call failed. */
    method OnAutoProxyReply(url: string) returns (autoProxyChanged: bool)
      requires Valid()
      modifies this
      ensures Valid() && history == old(history) + [AutoProxy(url)]
      ensures autoProxyURL == url && autoProxyChanged == (url != old(autoProxyURL))
      ensures autoProxyChanged ==> systemProxyExist == ProxyExists(State())
    {
      autoProxyChanged := false;
      if autoProxyURL != url {
        autoProxyURL := url;
        autoProxyChanged := true;
        CheckSystemProxyExist();
      }
      Record(AutoProxy(url));
    }

    method OnProxyMethodChanged(name: string) returns (methodChanged: bool)
      requires Valid()
      modifies this
      ensures Valid() && history == old(history) + [Method(name)]
      ensures methodChanged == (proxyMethod != old(proxyMethod)) && Means(name, proxyMethod)
      ensures systemProxyExist == ProxyExists(State())
    {
      methodChanged := false;
      var value := ConvertProxyMethod(name);
      if value != proxyMethod {
        proxyMethod := value;
        methodChanged := true;
      }
      CheckSystemProxyExist();
      Record(Method(name));
    }

    /** The record of a type; None stands for the default record of the source. What it
        says is what the last replies since the last clear said. */
    method GetProxy(kind: SysProxyType) returns (r: Option<SysProxyConfig>)
      requires Valid()
      ensures var f := Learned(history);
              && (r.Some? <==> kind in f.data || kind in f.auth)
              && (r.Some? ==> r.value.kind == kind && Tells(r.value, f))
    {
      CacheIsHistory(history);
      NoRecord(sysProxyConfig, Learned(history), kind);
      for i := 0 to |sysProxyConfig|
        invariant forall j :: 0 <= j < i ==> sysProxyConfig[j].kind != kind
      {
        if sysProxyConfig[i].kind == kind {
          return Some(sysProxyConfig[i]);
        }
      }
      return None;
    }
  }
}
