/** The proxy cache as a function of its history (src/proxycontroller.cpp): replies
    arrive in any order, and overlapping queries clear the cache in between. */
module ProxyCache {
  import opened Sequences

  datatype SysProxyType = Http | Https | Ftp | Socks

  datatype SysProxyConfig = SysProxyConfig(
    kind: SysProxyType, url: string, port: nat, enableAuth: bool, userName: string, password: string)

  /** What reaches the controller. A record made by one kind of reply leaves the other
      kind's scalar field uninitialised: `junk` is whatever it then holds. */
  datatype Event =
    | Clear
    | Data(name: string, valid: bool, url: string, port: nat, junkAuth: bool)
    | Auth(name: string, valid: bool, userName: string, password: string, enableAuth: bool, junkPort: nat)
    | AutoProxy(url: string)
    | Method(name: string)

  datatype ProxyMethod = Init | NoProxy | Auto | Manual

  function ConvertProxyMethod(method_: string): ProxyMethod {
    if method_ == "auto" then Auto else if method_ == "manual" then Manual else NoProxy
  }

  /** An unknown name counts as http. */
  function ConvertSysProxyType(name: string): SysProxyType {
    if name == "ftp" then Ftp
    else if name == "https" then Https
    else if name == "socks" then Socks
    else Http
  }

  function Name(kind: SysProxyType): string {
    match kind
    case Http => "http"
    case Https => "https"
    case Ftp => "ftp"
    case Socks => "socks"
  }

  /** The types a query asks for, in its order. */
  const PROXY_TYPES := ["http", "https", "ftp", "socks"]

  /** The calls a query sends. */
  datatype Query =
    | AskProxy(name: string) | AskAuthentication(name: string) | AskAutoProxy | AskMethod | AskIgnoreHosts

  function TypeQueries(n: nat): seq<Query>
    requires n <= |PROXY_TYPES|
  {
    if n == 0 then []
    else TypeQueries(n - 1) + [AskProxy(PROXY_TYPES[n - 1]), AskAuthentication(PROXY_TYPES[n - 1])]
  }

  lemma TypeQueriesAre()
    ensures |PROXY_TYPES| == 4
    ensures TypeQueries(4) == [
              AskProxy("http"), AskAuthentication("http"), AskProxy("https"), AskAuthentication("https"),
              AskProxy("ftp"), AskAuthentication("ftp"), AskProxy("socks"), AskAuthentication("socks")]
  {
    assert PROXY_TYPES[0] == "http" && PROXY_TYPES[1] == "https";
    assert PROXY_TYPES[2] == "ftp" && PROXY_TYPES[3] == "socks";
    assert TypeQueries(1) == [AskProxy("http"), AskAuthentication("http")];
    assert TypeQueries(2) == TypeQueries(1) + [AskProxy("https"), AskAuthentication("https")];
    assert TypeQueries(3) == TypeQueries(2) + [AskProxy("ftp"), AskAuthentication("ftp")];
  }

  /** The controller. `existSignals` are the systemProxyExistChanged values so far;
      `unchecked` says that the cache was cleared and not checked since. */
  datatype Proxy = Proxy(
    configs: seq<SysProxyConfig>, autoProxyURL: string, method_: ProxyMethod, systemProxyExist: bool,
    existSignals: seq<bool>, unchecked: bool)

  const NEW_PROXY := Proxy([], "", Init, false, [], false)

  function KindOf(c: SysProxyConfig): SysProxyType { c.kind }

  /** The index of the record for a type, or |configs|. */
  function FindKind(configs: seq<SysProxyConfig>, kind: SysProxyType, from: nat): nat
    requires from <= |configs|
  {
    FirstIndex(KindOf, configs, kind, from)
  }

  predicate SomeUrl(configs: seq<SysProxyConfig>) {
    exists i :: 0 <= i < |configs| && configs[i].url != ""
  }

  function Check(p: Proxy): Proxy {
    var e := SomeUrl(p.configs) || p.autoProxyURL != "";
    p.(systemProxyExist := e, unchecked := false,
       existSignals := if e != p.systemProxyExist then p.existSignals + [e] else p.existSignals)
  }

  /** What an event leaves in the cache. */
  function Stored(configs: seq<SysProxyConfig>, e: Event): seq<SysProxyConfig> {
    match e
    case Clear => []
    case Data(name, valid, url, port, junkAuth) =>
      var kind := ConvertSysProxyType(name);
      var i := FindKind(configs, kind, 0);
      if !valid then configs
      else if i < |configs| then configs[i := configs[i].(url := url, port := port)]
      else configs + [SysProxyConfig(kind, url, port, junkAuth, "", "")]
    case Auth(name, valid, userName, password, enableAuth, junkPort) =>
      var kind := ConvertSysProxyType(name);
      var i := FindKind(configs, kind, 0);
      if !valid then configs
      else if i < |configs| then
        configs[i := configs[i].(userName := userName, password := password, enableAuth := enableAuth)]
      else configs + [SysProxyConfig(kind, "", junkPort, enableAuth, userName, password)]
    case _ => configs
  }

  /** Does the event make the controller check whether a system proxy exists? A data
      reply does when it makes a record or changes one, an automatic url when it is new. */
  predicate Checks(p: Proxy, e: Event) {
    match e
    case Clear => false
    case Data(name, valid, url, port, _) =>
      var i := FindKind(p.configs, ConvertSysProxyType(name), 0);
      valid && (i == |p.configs| || p.configs[i].url != url || p.configs[i].port != port)
    case Auth(_, _, _, _, _, _) => false
    case AutoProxy(url) => url != p.autoProxyURL
    case Method(_) => true
  }

  function Step(p: Proxy, e: Event): Proxy {
    var q := p.(configs := Stored(p.configs, e),
                autoProxyURL := if e.AutoProxy? then e.url else p.autoProxyURL,
                method_ := if e.Method? then ConvertProxyMethod(e.name) else p.method_,
                unchecked := p.unchecked || e.Clear?);
    if Checks(p, e) then Check(q) else q
  }

  function Replay(history: seq<Event>): Proxy {
    if history == [] then NEW_PROXY
    else Step(Replay(history[..|history| - 1]), history[|history| - 1])
  }

  // ----- the declarative reading of a history

  /** The last valid data reply for a type since the last clear. */
  function LastData(history: seq<Event>, kind: SysProxyType): Option<(string, nat)> {
    if history == [] then None
    else
      match history[|history| - 1]
      case Clear => None
      case Data(name, valid, url, port, _) =>
        if valid && ConvertSysProxyType(name) == kind then Some((url, port))
        else LastData(history[..|history| - 1], kind)
      case _ => LastData(history[..|history| - 1], kind)
  }

  /** The last valid auth reply for a type since the last clear. */
  function LastAuth(history: seq<Event>, kind: SysProxyType): Option<(string, string, bool)> {
    if history == [] then None
    else
      match history[|history| - 1]
      case Clear => None
      case Auth(name, valid, userName, password, enableAuth, _) =>
        if valid && ConvertSysProxyType(name) == kind then Some((userName, password, enableAuth))
        else LastAuth(history[..|history| - 1], kind)
      case _ => LastAuth(history[..|history| - 1], kind)
  }

  /** The last replies of each type, as two maps. */
  datatype Facts = Facts(data: map<SysProxyType, (string, nat)>, auth: map<SysProxyType, (string, string, bool)>)

  function Learn(f: Facts, e: Event): Facts {
    match e
    case Clear => Facts(map[], map[])
    case Data(name, valid, url, port, _) =>
      if valid then f.(data := f.data[ConvertSysProxyType(name) := (url, port)]) else f
    case Auth(name, valid, userName, password, enableAuth, _) =>
      if valid then f.(auth := f.auth[ConvertSysProxyType(name) := (userName, password, enableAuth)]) else f
    case _ => f
  }

  function Learned(history: seq<Event>): Facts {
    if history == [] then Facts(map[], map[])
    else Learn(Learned(history[..|history| - 1]), history[|history| - 1])
  }

  lemma {:induction false} LearnedIsLast(history: seq<Event>, kind: SysProxyType)
    ensures var f := Learned(history);
            && LastData(history, kind) == (if kind in f.data then Some(f.data[kind]) else None)
            && LastAuth(history, kind) == (if kind in f.auth then Some(f.auth[kind]) else None)
  {
    if history != [] {
      LearnedIsLast(history[..|history| - 1], kind);
    }
  }

  /** The record says what the last replies for its type said; fields no reply gave are
      empty, or arbitrary where the source leaves them uninitialised. */
  predicate Tells(c: SysProxyConfig, f: Facts) {
    && (c.kind in f.data || c.kind in f.auth)
    && (if c.kind in f.data then (c.url, c.port) == f.data[c.kind] else c.url == "")
    && (if c.kind in f.auth then (c.userName, c.password, c.enableAuth) == f.auth[c.kind]
        else c.userName == "" && c.password == "")
  }

  ghost predicate OnePerType(configs: seq<SysProxyConfig>) {
    forall i, j :: 0 <= i < j < |configs| ==> configs[i].kind != configs[j].kind
  }

  predicate Has(configs: seq<SysProxyConfig>, kind: SysProxyType) {
    exists i :: 0 <= i < |configs| && configs[i].kind == kind
  }

  /** The cache holds exactly one record for each type replied to since the last clear. */
  ghost predicate Faithful(configs: seq<SysProxyConfig>, f: Facts) {
    && OnePerType(configs)
    && (forall i :: 0 <= i < |configs| ==> Tells(configs[i], f))
    && (forall kind :: kind in f.data || kind in f.auth ==> Has(configs, kind))
  }

  /** The facts say the same of this type. */
  predicate SameFor(f: Facts, g: Facts, kind: SysProxyType) {
    && (kind in f.data <==> kind in g.data) && (kind in f.data ==> f.data[kind] == g.data[kind])
    && (kind in f.auth <==> kind in g.auth) && (kind in f.auth ==> f.auth[kind] == g.auth[kind])
  }

  lemma NoRecord(configs: seq<SysProxyConfig>, f: Facts, kind: SysProxyType)
    requires Faithful(configs, f)
    ensures var i := FindKind(configs, kind, 0);
            if i < |configs| then Tells(configs[i], f) else kind !in f.data && kind !in f.auth
  {
    if kind in f.data || kind in f.auth {
      assert Has(configs, kind);
    }
  }

  lemma PutOnePerType(configs: seq<SysProxyConfig>, kind: SysProxyType, c: SysProxyConfig)
    requires OnePerType(configs) && c.kind == kind
    ensures var i := FindKind(configs, kind, 0);
            var after := if i < |configs| then configs[i := c] else configs + [c];
            && OnePerType(after)
            && forall k :: 0 <= k < |after| && k != i ==> after[k] == configs[k] && after[k].kind != kind
  {
  }

  /** Setting one type's record right keeps the cache faithful. */
  lemma FaithfulPut(configs: seq<SysProxyConfig>, f: Facts, kind: SysProxyType, after: seq<SysProxyConfig>, g: Facts)
    requires Faithful(configs, f)
    requires var i := FindKind(configs, kind, 0);
             && i < |after| && after[i].kind == kind && Tells(after[i], g)
             && after == (if i < |configs| then configs[i := after[i]] else configs + [after[i]])
    requires forall other :: other != kind ==> SameFor(f, g, other)
    ensures Faithful(after, g)
  {
    var i := FindKind(configs, kind, 0);
    PutOnePerType(configs, kind, after[i]);
    forall k | 0 <= k < |after| && k != i ensures Tells(after[k], g) {
      assert after[k] == configs[k];
      assert Tells(configs[k], f) && SameFor(f, g, configs[k].kind);
    }
    forall other | other in g.data || other in g.auth ensures Has(after, other) {
      if other == kind {
        assert after[i].kind == other;
      } else {
        assert SameFor(f, g, other);
        assert Has(configs, other);
        var k :| 0 <= k < |configs| && configs[k].kind == other;
        assert after[k].kind == other;
      }
    }
  }

  lemma DataFaithful(configs: seq<SysProxyConfig>, f: Facts, e: Event)
    requires Faithful(configs, f) && e.Data? && e.valid
    ensures Faithful(Stored(configs, e), Learn(f, e))
  {
    var kind := ConvertSysProxyType(e.name);
    NoRecord(configs, f, kind);
    FaithfulPut(configs, f, kind, Stored(configs, e), Learn(f, e));
  }

  lemma AuthFaithful(configs: seq<SysProxyConfig>, f: Facts, e: Event)
    requires Faithful(configs, f) && e.Auth? && e.valid
    ensures Faithful(Stored(configs, e), Learn(f, e))
  {
    var kind := ConvertSysProxyType(e.name);
    NoRecord(configs, f, kind);
    FaithfulPut(configs, f, kind, Stored(configs, e), Learn(f, e));
  }

  lemma StoredFaithful(configs: seq<SysProxyConfig>, f: Facts, e: Event)
    requires Faithful(configs, f)
    ensures Faithful(Stored(configs, e), Learn(f, e))
  {
    if e.Data? && e.valid {
      DataFaithful(configs, f, e);
    } else if e.Auth? && e.valid {
      AuthFaithful(configs, f, e);
    }
  }

  /** In every run the cache has at most one record per type, and each record carries
      the last valid data reply and the last valid auth reply since the last clear. */
  lemma {:induction false} CacheIsHistory(history: seq<Event>)
    ensures Faithful(Replay(history).configs, Learned(history))
  {
    if history != [] {
      CacheIsHistory(history[..|history| - 1]);
      StoredFaithful(Replay(history[..|history| - 1]).configs, Learned(history[..|history| - 1]),
                     history[|history| - 1]);
    }
  }

  /** What a record says once both replies are in does not depend on their order, nor
      on anything else but the last replies: histories that leave the same facts leave
      the same record for every type both kinds of reply named. */
  lemma SameFactsSameRecord(g: seq<Event>, h: seq<Event>, kind: SysProxyType)
    requires Learned(g) == Learned(h) && kind in Learned(g).data && kind in Learned(g).auth
    ensures var c, d := Replay(g).configs, Replay(h).configs;
            var i, j := FindKind(c, kind, 0), FindKind(d, kind, 0);
            i < |c| && j < |d| && c[i] == d[j]
  {
    CacheIsHistory(g);
    CacheIsHistory(h);
    NoRecord(Replay(g).configs, Learned(g), kind);
    NoRecord(Replay(h).configs, Learned(h), kind);
  }

  // ----- interleavings

  predicate SameReply(a: Event, b: Event) {
    || (a.Data? && b.Data? && a.valid && b.valid && ConvertSysProxyType(a.name) == ConvertSysProxyType(b.name))
    || (a.Auth? && b.Auth? && a.valid && b.valid && ConvertSysProxyType(a.name) == ConvertSysProxyType(b.name))
  }

  /** No clear, and at most one valid reply of each kind for each type. */
  ghost predicate OneReplyEach(h: seq<Event>) {
    && (forall i :: 0 <= i < |h| ==> !h[i].Clear?)
    && (forall i, j :: 0 <= i < j < |h| ==> !SameReply(h[i], h[j]))
  }

  predicate IsData(e: Event, kind: SysProxyType, value: (string, nat)) {
    e.Data? && e.valid && ConvertSysProxyType(e.name) == kind && (e.url, e.port) == value
  }

  predicate IsAuth(e: Event, kind: SysProxyType, value: (string, string, bool)) {
    e.Auth? && e.valid && ConvertSysProxyType(e.name) == kind && (e.userName, e.password, e.enableAuth) == value
  }

  lemma MembersOfLast(g: seq<Event>, last: Event)
    requires OneReplyEach(g + [last])
    ensures OneReplyEach(g) && !last.Clear? && forall e :: e in g ==> !SameReply(e, last)
  {
    var h := g + [last];
    assert h[|g|] == last;
    assert forall i :: 0 <= i < |g| ==> h[i] == g[i];
    forall e | e in g ensures !SameReply(e, last) {
      var i :| 0 <= i < |g| && g[i] == e;
      assert h[i] == e;
    }
  }

  /** With one reply of each kind at most, the facts are the replies. */
  lemma {:induction false} LearnedData(h: seq<Event>, kind: SysProxyType, d: (string, nat))
    requires OneReplyEach(h)
    ensures (kind in Learned(h).data && Learned(h).data[kind] == d) <==> exists e :: e in h && IsData(e, kind, d)
  {
    if h != [] {
      var g, last := h[..|h| - 1], h[|h| - 1];
      LearnedData(g, kind, d);
      assert h == g + [last];
      MembersOfLast(g, last);
      if IsData(last, kind, d) {
        assert last in h;
      }
    }
  }

  lemma {:induction false} LearnedAuth(h: seq<Event>, kind: SysProxyType, a: (string, string, bool))
    requires OneReplyEach(h)
    ensures (kind in Learned(h).auth && Learned(h).auth[kind] == a) <==> exists e :: e in h && IsAuth(e, kind, a)
  {
    if h != [] {
      var g, last := h[..|h| - 1], h[|h| - 1];
      LearnedAuth(g, kind, a);
      assert h == g + [last];
      MembersOfLast(g, last);
      if IsAuth(last, kind, a) {
        assert last in h;
      }
    }
  }

  lemma {:induction false} ClearForgets(past: seq<Event>, h: seq<Event>)
    ensures Learned(past + [Clear] + h) == Learned(h)
  {
    var all := past + [Clear] + h;
    if h == [] {
      assert all[..|all| - 1] == past;
    } else {
      assert all[..|all| - 1] == past + [Clear] + h[..|h| - 1];
      ClearForgets(past, h[..|h| - 1]);
    }
  }

  /** After a clear, any two orders of the same replies, one of each kind per type, give
      the same record to every type that got both, whatever happened before the clear. */
  lemma InterleavingsAgree(past: seq<Event>, past': seq<Event>, g: seq<Event>, h: seq<Event>, kind: SysProxyType)
    requires multiset(g) == multiset(h) && OneReplyEach(g) && OneReplyEach(h)
    requires exists e, d :: e in g && IsData(e, kind, d)
    requires exists e, a :: e in g && IsAuth(e, kind, a)
    ensures var c, d := Replay(past + [Clear] + g).configs, Replay(past' + [Clear] + h).configs;
            var i, j := FindKind(c, kind, 0), FindKind(d, kind, 0);
            i < |c| && j < |d| && c[i] == d[j]
  {
    var x, d :| x in g && IsData(x, kind, d);
    var y, a :| y in g && IsAuth(y, kind, a);
    assert x in multiset(h) && y in multiset(h);
    LearnedData(g, kind, d);
    LearnedData(h, kind, d);
    LearnedAuth(g, kind, a);
    LearnedAuth(h, kind, a);
    ClearForgets(past, g);
    ClearForgets(past', h);
    CacheIsHistory(past + [Clear] + g);
    CacheIsHistory(past' + [Clear] + h);
    NoRecord(Replay(past + [Clear] + g).configs, Learned(g), kind);
    NoRecord(Replay(past' + [Clear] + h).configs, Learned(h), kind);
  }

  // ----- whether a system proxy exists

  lemma StoredKeepsUrls(p: Proxy, e: Event)
    requires !Checks(p, e) && !e.Clear?
    ensures SomeUrl(Stored(p.configs, e)) == SomeUrl(p.configs)
  {
    var after := Stored(p.configs, e);
    if i :| 0 <= i < |p.configs| && p.configs[i].url != "" {
      assert after[i].url != "";
    }
    if i :| 0 <= i < |after| && after[i].url != "" {
      assert i < |p.configs| && p.configs[i].url != "";
    }
  }

  /** A record or the automatic proxy has a url. */
  ghost predicate ProxyExists(p: Proxy) {
    (exists c :: c in p.configs && c.url != "") || p.autoProxyURL != ""
  }

  lemma SomeUrlIs(p: Proxy)
    ensures ProxyExists(p) <==> SomeUrl(p.configs) || p.autoProxyURL != ""
  {
    if c :| c in p.configs && c.url != "" {
      var i :| 0 <= i < |p.configs| && p.configs[i] == c;
      assert p.configs[i].url != "";
    }
  }

  ghost predicate FlagTrue(p: Proxy) {
    !p.unchecked ==> p.systemProxyExist == ProxyExists(p)
  }

  /** The change signals alternate, starting with true, and the last one is the flag. */
  ghost predicate SignalsAlternate(p: Proxy) {
    && (forall k :: 0 <= k < |p.existSignals| ==> p.existSignals[k] == (k % 2 == 0))
    && p.systemProxyExist == (|p.existSignals| % 2 == 1)
  }

  lemma FlagStep(p: Proxy, e: Event)
    requires FlagTrue(p)
    ensures FlagTrue(Step(p, e))
  {
    SomeUrlIs(p);
    SomeUrlIs(Step(p, e));
    if !Checks(p, e) && !e.Clear? {
      StoredKeepsUrls(p, e);
    }
  }

  lemma SignalStep(p: Proxy, e: Event)
    requires SignalsAlternate(p)
    ensures SignalsAlternate(Step(p, e))
  {
    var q := Step(p, e);
    var n := |p.existSignals|;
    assert q.existSignals == p.existSignals
        || (q.existSignals == p.existSignals + [q.systemProxyExist] && q.systemProxyExist != p.systemProxyExist);
  }

  /** In every run the flag tells whether a system proxy exists, unless a clear has not
      been checked yet, and its change signals alternate, starting with true. */
  lemma {:induction false} ExistFlagIsTrue(history: seq<Event>)
    ensures FlagTrue(Replay(history)) && SignalsAlternate(Replay(history))
  {
    if history != [] {
      var p, e := Replay(history[..|history| - 1]), history[|history| - 1];
      ExistFlagIsTrue(history[..|history| - 1]);
      FlagStep(p, e);
      SignalStep(p, e);
    }
  }

  /** Once an event has checked, the flag tells the truth until the next clear: method events,
      new automatic urls and data replies that store something new check, even after a clear. */
  lemma {:induction false} CheckRestores(history: seq<Event>, i: nat)
    requires i < |history| && Checks(Replay(history[..i]), history[i])
    requires forall j :: i < j < |history| ==> !history[j].Clear?
    ensures !Replay(history).unchecked && Replay(history).systemProxyExist == ProxyExists(Replay(history))
    decreases |history|
  {
    var n := |history| - 1;
    ExistFlagIsTrue(history);
    if i < n {
      assert history[..n][..i] == history[..i];
      CheckRestores(history[..n], i);
    }
  }

  /** Converting a type to its name and back gives the type, and a name of a type to the type
      and back gives the name; any other name is taken for http. */
  lemma NamesRoundTrip(kind: SysProxyType, name: string)
    ensures ConvertSysProxyType(Name(kind)) == kind
    ensures name == "http" || name == "https" || name == "ftp" || name == "socks" ==>
              Name(ConvertSysProxyType(name)) == name
    ensures name != "http" && name != "https" && name != "ftp" && name != "socks" ==> ConvertSysProxyType(name) == Http
  {
  }

  // ----- the other fields

  predicate Means(name: string, m: ProxyMethod) {
    m == (if name == "auto" then Auto else if name == "manual" then Manual else NoProxy)
  }

  /** The method of the last method event, and the url of the last automatic url. */
  ghost predicate LastMethod(history: seq<Event>, m: ProxyMethod) {
    if forall i :: 0 <= i < |history| ==> !history[i].Method? then m == Init
    else exists i :: 0 <= i < |history| && history[i].Method? && Means(history[i].name, m)
                     && forall j :: i < j < |history| ==> !history[j].Method?
  }

  ghost predicate LastUrl(history: seq<Event>, url: string) {
    if forall i :: 0 <= i < |history| ==> !history[i].AutoProxy? then url == ""
    else exists i :: 0 <= i < |history| && history[i] == AutoProxy(url)
                     && forall j :: i < j < |history| ==> !history[j].AutoProxy?
  }

  lemma MethodTurn(before: seq<Event>, e: Event)
    requires LastMethod(before, Replay(before).method_)
    ensures LastMethod(before + [e], Step(Replay(before), e).method_)
  {
    var history, m := before + [e], Step(Replay(before), e).method_;
    if e.Method? {
      assert history[|before|] == e && Means(e.name, m);
    } else if !(forall i :: 0 <= i < |before| ==> !before[i].Method?) {
      var i :| 0 <= i < |before| && before[i].Method? && Means(before[i].name, m)
               && forall j :: i < j < |before| ==> !before[j].Method?;
      assert history[i] == before[i] && history[i].Method?;
      forall j | i < j < |history| ensures !history[j].Method? {
      }
    }
  }

  lemma UrlTurn(before: seq<Event>, e: Event)
    requires LastUrl(before, Replay(before).autoProxyURL)
    ensures LastUrl(before + [e], Step(Replay(before), e).autoProxyURL)
  {
    var history, url := before + [e], Step(Replay(before), e).autoProxyURL;
    if e.AutoProxy? {
      assert history[|before|] == AutoProxy(url);
    } else if !(forall i :: 0 <= i < |before| ==> !before[i].AutoProxy?) {
      var i :| 0 <= i < |before| && before[i] == AutoProxy(url)
               && forall j :: i < j < |before| ==> !before[j].AutoProxy?;
      assert history[i] == before[i] && history[i].AutoProxy?;
      forall j | i < j < |history| ensures !history[j].AutoProxy? {
      }
    }
  }

  /** In every run the method is that of the last method event, and the automatic url the last one. */
  lemma {:induction false} SettingsAreLast(history: seq<Event>)
    ensures LastMethod(history, Replay(history).method_)
    ensures LastUrl(history, Replay(history).autoProxyURL)
  {
    if history != [] {
      var before, e := history[..|history| - 1], history[|history| - 1];
      SettingsAreLast(before);
      MethodTurn(before, e);
      UrlTurn(before, e);
      assert before + [e] == history;
    }
  }

  /** A data reply is news exactly when no record of its type has its url and port. */
  lemma NewsIsUnknown(history: seq<Event>, name: string, valid: bool, url: string, port: nat, junkAuth: bool)
    ensures var configs := Replay(history).configs;
            var kind := ConvertSysProxyType(name);
            Checks(Replay(history), Data(name, valid, url, port, junkAuth)) <==>
              valid && forall c :: c in configs && c.kind == kind ==> c.url != url || c.port != port
  {
    var configs, kind := Replay(history).configs, ConvertSysProxyType(name);
    var i := FindKind(configs, kind, 0);
    CacheIsHistory(history);
    forall c | c in configs && c.kind == kind ensures i < |configs| && c == configs[i] {
      var k :| 0 <= k < |configs| && configs[k] == c;
      assert i <= k;
    }
    assert i < |configs| ==> configs[i] in configs && configs[i].kind == kind;
  }
}
