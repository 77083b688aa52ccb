/** What every run of the secret agent keeps. */
module SecretQueueProofs {
  import opened Sequences
  import opened SecretQueue

  // ----- vocabulary

  function Unmark(r: Request): Request { r.(ssid := "") }

  function Unmarked(calls: seq<Request>): seq<Request> {
    if calls == [] then [] else [Unmark(calls[0])] + Unmarked(calls[1..])
  }

  /** A reply that only the user's input produces; every other reply closes its call. */
  predicate FromUser(s: Sent) {
    s.reply.Password? || s.reply == Failed(UserCanceled)
  }

  /** How many replies closed call m. */
  function Closings(sent: seq<Sent>, m: nat): nat {
    if sent == [] then 0
    else (if !FromUser(sent[0]) && sent[0].message == m then 1 else 0) + Closings(sent[1..], m)
  }

  /** How often call m is pending. */
  function Pendings(calls: seq<Request>, m: nat): nat {
    if calls == [] then 0
    else (if calls[0].message == m then 1 else 0) + Pendings(calls[1..], m)
  }

  /** A call nothing can be done for outside the greeter: its secrets sit in the keyring. */
  predicate Waits(cfg: Config, r: Request) {
    && !cfg.greeter && !r.flags.requestNew
    && !(cfg.lib.isVpn(r.connection, r.settingName) && cfg.lib.usesSshAgent(r.connection))
  }

  ghost predicate AllUnmarked(calls: seq<Request>) {
    forall i :: 0 <= i < |calls| ==> calls[i].ssid == ""
  }

  /** The p-th call is the one the user is being asked about. */
  ghost predicate Prompted(ssid: string, calls: seq<Request>, p: nat) {
    && p < |calls| && calls[p].kind.GetSecrets? && calls[p].ssid == ssid
    && forall q :: 0 <= q < |calls| && q != p ==> calls[q].ssid == ""
  }

  ghost predicate OnePrompt(ssid: string, calls: seq<Request>) {
    if ssid == "" then AllUnmarked(calls) else exists p: nat :: Prompted(ssid, calls, p)
  }

  /** In arrival order, with distinct call ids among the GetSecrets calls. */
  ghost predicate Ordered(calls: seq<Request>) {
    forall i, j :: 0 <= i < j < |calls| ==>
      && calls[i].message < calls[j].message
      && (calls[i].kind.GetSecrets? && calls[j].kind.GetSecrets? ==> calls[i].callId != calls[j].callId)
  }

  ghost predicate Increasing(s: seq<nat>) {
    forall i, j :: 0 <= i < j < |s| ==> s[i] < s[j]
  }

  ghost predicate AllBelow(s: seq<nat>, n: nat) {
    forall k :: 0 <= k < |s| ==> s[k] < n
  }

  /** The prompted call is the last one prompted for; a call that may still prompt arrived after every prompt. */
  ghost predicate InPlace(cfg: Config, prompts: seq<nat>, r: Request) {
    if r.ssid != "" then prompts != [] && prompts[|prompts| - 1] == r.message
    else (r.kind.GetSecrets? && Waits(cfg, r)) || AllBelow(prompts, r.message)
  }

  ghost predicate PromptsInOrder(cfg: Config, a: Agent) {
    && Increasing(a.prompts) && AllBelow(a.prompts, a.arrivals)
    && forall r :: r in a.calls ==> InPlace(cfg, a.prompts, r)
  }

  ghost predicate Unanswered(sent: seq<Sent>, m: nat) {
    forall s :: s in sent ==> s.message != m
  }

  /** A pending call that has had a reply is the one being prompted for. */
  ghost predicate AnsweredArePrompted(a: Agent) {
    && (forall s :: s in a.sent ==> s.message < a.arrivals)
    && (forall r :: r in a.calls && r.ssid == "" ==> Unanswered(a.sent, r.message))
  }

  ghost predicate Arrived(a: Agent) {
    forall r :: r in a.calls ==> r.message < a.arrivals
  }

  /** Each accepted call is either pending or closed by exactly one reply. */
  ghost predicate Conserved(a: Agent) {
    forall m: nat :: Closings(a.sent, m) + Pendings(a.calls, m) == if m < a.arrivals then 1 else 0
  }

  ghost predicate Named(cfg: Config, calls: seq<Request>) {
    forall r :: r in calls && r.kind.GetSecrets? && r.ssid == "" ==> cfg.lib.id(r.connection) != ""
  }

  /** What holds whenever the drain is about to run. */
  ghost predicate Ready(cfg: Config, a: Agent) {
    && Ordered(a.calls)
    && Arrived(a)
    && OnePrompt(a.ssid, a.calls)
    && Named(cfg, a.calls)
    && PromptsInOrder(cfg, a)
    && AnsweredArePrompted(a)
    && Conserved(a)
  }

  /** Nothing in the list can be answered or prompted for. */
  ghost predicate Drainless(cfg: Config, ssid: string, calls: seq<Request>) {
    forall r :: r in calls ==> r.kind.GetSecrets? && (ssid == "" ==> Waits(cfg, r))
  }

  /** What holds between two slots. */
  ghost predicate Inv(cfg: Config, a: Agent) {
    && Ready(cfg, a)
    && Drainless(cfg, a.ssid, a.calls)
  }

  /** A connection has a name, and the user's input names one. */
  predicate Valid(cfg: Config, e: Event) {
    match e
    case Ask(connection, _, _, _) => cfg.lib.id(connection) != ""
    case Input(key, _, _) => key != ""
    case _ => true
  }

  // ----- lists

  lemma {:induction false} PendingsOfConcat(a: seq<Request>, b: seq<Request>, m: nat)
    ensures Pendings(a + b, m) == Pendings(a, m) + Pendings(b, m)
  {
    if a == [] {
      assert a + b == b;
    } else {
      assert (a + b)[1..] == a[1..] + b;
      PendingsOfConcat(a[1..], b, m);
    }
  }

  lemma {:induction false} ClosingsOfConcat(a: seq<Sent>, b: seq<Sent>, m: nat)
    ensures Closings(a + b, m) == Closings(a, m) + Closings(b, m)
  {
    if a == [] {
      assert a + b == b;
    } else {
      assert (a + b)[1..] == a[1..] + b;
      ClosingsOfConcat(a[1..], b, m);
    }
  }

  lemma {:induction false} UnmarkedAt(calls: seq<Request>)
    ensures |Unmarked(calls)| == |calls|
    ensures forall i :: 0 <= i < |calls| ==> Unmarked(calls)[i] == Unmark(calls[i])
  {
    if calls != [] {
      UnmarkedAt(calls[1..]);
    }
  }

  lemma {:induction false} SubsequenceElement<T>(a: seq<T>, b: seq<T>, i: nat) returns (k: nat)
    requires Subsequence(a, b) && i < |a|
    ensures k < |b| && b[k] == a[i]
  {
    if a[0] == b[0] && Subsequence(a[1..], b[1..]) {
      if i == 0 {
        k := 0;
      } else {
        k := SubsequenceElement(a[1..], b[1..], i - 1);
        k := k + 1;
      }
    } else {
      k := SubsequenceElement(a, b[1..], i);
      k := k + 1;
    }
  }

  /** Two elements of a subsequence come from two elements in the same order. */
  lemma {:induction false} SubsequencePair<T>(a: seq<T>, b: seq<T>, i: nat, j: nat) returns (k: nat, l: nat)
    requires Subsequence(a, b) && i < j < |a|
    ensures k < l < |b| && b[k] == a[i] && b[l] == a[j]
  {
    if a[0] == b[0] && Subsequence(a[1..], b[1..]) {
      if i == 0 {
        l := SubsequenceElement(a[1..], b[1..], j - 1);
        k, l := 0, l + 1;
      } else {
        k, l := SubsequencePair(a[1..], b[1..], i - 1, j - 1);
        k, l := k + 1, l + 1;
      }
    } else {
      k, l := SubsequencePair(a, b[1..], i, j);
      k, l := k + 1, l + 1;
    }
  }

  // ----- the drain

  /** What the drain leaves is a subsequence of what it found, prompts aside. */
  lemma {:induction false} DrainKeepsOrder(cfg: Config, socket: string, ssid: string, calls: seq<Request>)
    ensures Subsequence(Unmarked(Drain(cfg, socket, ssid, calls).calls), Unmarked(calls))
    decreases |calls|
  {
    if calls != [] {
      match Act(cfg, socket, ssid, calls[0])
      case Wait => DrainKeepsOrder(cfg, socket, ssid, calls[1..]);
      case Prompt => DrainKeepsOrder(cfg, socket, cfg.lib.id(calls[0].connection), calls[1..]);
      case Answer(_) => DrainKeepsOrder(cfg, socket, ssid, calls[1..]);
    }
  }

  /** Every call the drain finds is either kept or closed by one reply. */
  lemma {:induction false} DrainConserves(cfg: Config, socket: string, ssid: string, calls: seq<Request>, m: nat)
    ensures var d := Drain(cfg, socket, ssid, calls);
            Closings(d.sent, m) + Pendings(d.calls, m) == Pendings(calls, m)
    decreases |calls|
  {
    if calls != [] {
      match Act(cfg, socket, ssid, calls[0])
      case Wait => DrainConserves(cfg, socket, ssid, calls[1..], m);
      case Prompt => DrainConserves(cfg, socket, cfg.lib.id(calls[0].connection), calls[1..], m);
      case Answer(_) => DrainConserves(cfg, socket, ssid, calls[1..], m);
    }
  }

  /** The drain answers calls it found, and removes what it answers. */
  lemma {:induction false} DrainAnswers(cfg: Config, socket: string, ssid: string, calls: seq<Request>, s: Sent)
    requires Ordered(calls) && s in Drain(cfg, socket, ssid, calls).sent
    ensures !FromUser(s)
    ensures exists r :: r in calls && r.message == s.message
    ensures forall r :: r in Drain(cfg, socket, ssid, calls).calls ==> r.message != s.message
    decreases |calls|
  {
    var head, tail := calls[0], calls[1..];
    var next := if Act(cfg, socket, ssid, head).Prompt? then cfg.lib.id(head.connection) else ssid;
    var e := Drain(cfg, socket, next, tail);
    if s in e.sent {
      DrainAnswers(cfg, socket, next, tail, s);
    } else {
      DrainKeepsOrder(cfg, socket, next, tail);
      forall r | r in e.calls
        ensures r.message != s.message
      {
        var i :| 0 <= i < |e.calls| && e.calls[i] == r;
        UnmarkedAt(e.calls);
        UnmarkedAt(tail);
        var k := SubsequenceElement(Unmarked(e.calls), Unmarked(tail), i);
        assert calls[k + 1].message == r.message;
      }
    }
  }

  /** While a prompt is in flight the drain only acknowledges Save and Delete calls. */
  lemma {:induction false} DrainWhilePrompting(cfg: Config, socket: string, ssid: string, calls: seq<Request>)
    requires ssid != ""
    ensures var d := Drain(cfg, socket, ssid, calls);
            && d.ssid == ssid && d.prompts == []
            && d.calls == Filter((r: Request) => r.kind.GetSecrets?, calls)
    decreases |calls|
  {
    if calls != [] {
      DrainWhilePrompting(cfg, socket, ssid, calls[1..]);
    }
  }

  /** The p-th kept call is the one prompt this drain issued; all before it wait for the keyring. */
  ghost predicate PromptsAt(cfg: Config, d: Drained, p: nat) {
    && Prompted(d.ssid, d.calls, p) && d.prompts == [d.calls[p].message] && !Waits(cfg, d.calls[p])
    && forall q :: 0 <= q < p ==> Waits(cfg, d.calls[q])
  }

  lemma WaitBefore(cfg: Config, head: Request, e: Drained, d: Drained, p: nat)
    requires d == e.(calls := [head] + e.calls) && PromptsAt(cfg, e, p) && head.ssid == "" && Waits(cfg, head)
    ensures PromptsAt(cfg, d, p + 1)
  {
    forall q | 0 <= q < |d.calls| && q != p + 1 ensures d.calls[q].ssid == "" {
      if q > 0 {
        assert d.calls[q] == e.calls[q - 1];
      }
    }
    forall q | 0 <= q < p + 1 ensures Waits(cfg, d.calls[q]) {
      if q > 0 {
        assert d.calls[q] == e.calls[q - 1];
      }
    }
  }

  /** Outside a prompt the drain stops at the first call that prompts, if there is one. */
  lemma {:induction false} DrainOutsidePrompt(cfg: Config, socket: string, calls: seq<Request>)
    requires AllUnmarked(calls) && Named(cfg, calls)
    ensures var d := Drain(cfg, socket, "", calls);
            && Drainless(cfg, d.ssid, d.calls)
            && if d.ssid == "" then AllUnmarked(d.calls) && d.prompts == []
               else exists p: nat :: PromptsAt(cfg, d, p)
    decreases |calls|
  {
    var d := Drain(cfg, socket, "", calls);
    if calls != [] {
      var head := calls[0];
      assert head in calls;
      match Act(cfg, socket, "", head)
      case Prompt =>
        var name := cfg.lib.id(head.connection);
        DrainWhilePrompting(cfg, socket, name, calls[1..]);
        assert PromptsAt(cfg, d, 0);
      case Wait =>
        DrainOutsidePrompt(cfg, socket, calls[1..]);
        var e := Drain(cfg, socket, "", calls[1..]);
        if e.ssid != "" {
          var p: nat :| PromptsAt(cfg, e, p);
          WaitBefore(cfg, head, e, d, p);
        }
      case Answer(_) =>
        DrainOutsidePrompt(cfg, socket, calls[1..]);
        var e := Drain(cfg, socket, "", calls[1..]);
        if e.ssid != "" {
          var p: nat :| PromptsAt(cfg, e, p);
          assert PromptsAt(cfg, d, p);
        }
    }
  }

  /** Draining a drained list does nothing, whatever the environment has become. */
  lemma {:induction false} DrainlessIsFixed(cfg: Config, socket: string, ssid: string, calls: seq<Request>)
    requires Drainless(cfg, ssid, calls)
    ensures Drain(cfg, socket, ssid, calls) == Drained(ssid, calls, [], [])
    decreases |calls|
  {
    if calls != [] {
      DrainlessIsFixed(cfg, socket, ssid, calls[1..]);
    }
  }

  // ----- the slots

  lemma KeptFrom(cfg: Config, socket: string, ssid: string, calls: seq<Request>, i: nat) returns (k: nat)
    requires i < |Drain(cfg, socket, ssid, calls).calls|
    ensures k < |calls| && Unmark(calls[k]) == Unmark(Drain(cfg, socket, ssid, calls).calls[i])
  {
    var kept := Drain(cfg, socket, ssid, calls).calls;
    DrainKeepsOrder(cfg, socket, ssid, calls);
    UnmarkedAt(calls);
    UnmarkedAt(kept);
    k := SubsequenceElement(Unmarked(kept), Unmarked(calls), i);
  }

  lemma DrainKeepsOrdered(cfg: Config, socket: string, ssid: string, calls: seq<Request>)
    requires Ordered(calls)
    ensures Ordered(Drain(cfg, socket, ssid, calls).calls)
  {
    var kept := Drain(cfg, socket, ssid, calls).calls;
    DrainKeepsOrder(cfg, socket, ssid, calls);
    UnmarkedAt(calls);
    UnmarkedAt(kept);
    forall i, j | 0 <= i < j < |kept|
      ensures kept[i].message < kept[j].message
      ensures kept[i].kind.GetSecrets? && kept[j].kind.GetSecrets? ==> kept[i].callId != kept[j].callId
    {
      var k, l := SubsequencePair(Unmarked(kept), Unmarked(calls), i, j);
      assert Unmark(calls[k]) == Unmark(kept[i]) && Unmark(calls[l]) == Unmark(kept[j]);
    }
  }

  lemma SettleKeepsAnswers(cfg: Config, socket: string, a: Agent)
    requires Ordered(a.calls) && Arrived(a) && AnsweredArePrompted(a)
    requires var calls := Settle(cfg, socket, a).calls;
             forall r, k :: r in calls && k in a.calls && k.message == r.message && k.ssid != "" ==> r.ssid != ""
    ensures AnsweredArePrompted(Settle(cfg, socket, a))
  {
    var d := Drain(cfg, socket, a.ssid, a.calls);
    var b := Settle(cfg, socket, a);
    forall s | s in d.sent
      ensures s.message < b.arrivals && forall r :: r in d.calls ==> r.message != s.message
    {
      DrainAnswers(cfg, socket, a.ssid, a.calls, s);
    }
    forall r | r in b.calls && r.ssid == ""
      ensures Unanswered(b.sent, r.message)
    {
      var i :| 0 <= i < |d.calls| && d.calls[i] == r;
      var k := KeptFrom(cfg, socket, a.ssid, a.calls, i);
      assert a.calls[k] in a.calls && a.calls[k].message == r.message;
    }
  }

  lemma SettleConserves(cfg: Config, socket: string, a: Agent)
    requires Conserved(a)
    ensures Conserved(Settle(cfg, socket, a))
  {
    var d := Drain(cfg, socket, a.ssid, a.calls);
    var b := Settle(cfg, socket, a);
    forall m: nat
      ensures Closings(b.sent, m) + Pendings(b.calls, m) == if m < b.arrivals then 1 else 0
    {
      DrainConserves(cfg, socket, a.ssid, a.calls, m);
      ClosingsOfConcat(a.sent, d.sent, m);
    }
  }

  ghost predicate Fewer(a: Agent, b: Agent) {
    && b.prompts == a.prompts && b.arrivals == a.arrivals
    && forall r :: r in b.calls ==> r in a.calls
  }

  lemma PromptSurvives(a: Agent, b: Agent, p: nat)
    requires Ordered(b.calls) && Prompted(a.ssid, a.calls, p) && a.ssid != "" && b.ssid == a.ssid
    requires Fewer(a, b) && a.calls[p] in b.calls
    ensures OnePrompt(b.ssid, b.calls)
  {
    var q: nat :| q < |b.calls| && b.calls[q] == a.calls[p];
    forall i | 0 <= i < |b.calls| && i != q ensures b.calls[i].ssid == "" {
      assert b.calls[i].message != b.calls[q].message;
      assert b.calls[i] in a.calls;
      var k :| 0 <= k < |a.calls| && a.calls[k] == b.calls[i];
      assert k != p;
    }
    assert Prompted(b.ssid, b.calls, q);
  }

  lemma SameMarks(a: Agent, b: Agent)
    requires Ordered(a.calls) && Fewer(a, b)
    ensures forall r, k :: r in b.calls && k in a.calls && k.message == r.message ==> r == k
  {
    forall r, k | r in b.calls && k in a.calls && k.message == r.message ensures r == k {
      var i :| 0 <= i < |a.calls| && a.calls[i] == r;
      var j :| 0 <= j < |a.calls| && a.calls[j] == k;
      assert i == j;
    }
  }

  lemma KeptUnmarked(cfg: Config, socket: string, a: Agent)
    requires AllUnmarked(a.calls)
    ensures forall r :: r in Settle(cfg, socket, a).calls ==> Unmark(r) in a.calls
  {
    var b := Settle(cfg, socket, a);
    forall r | r in b.calls ensures Unmark(r) in a.calls {
      var i :| 0 <= i < |b.calls| && b.calls[i] == r;
      var k := KeptFrom(cfg, socket, a.ssid, a.calls, i);
      assert a.calls[k] == Unmark(r);
    }
  }

  lemma SettlePromptsInOrder(cfg: Config, socket: string, a: Agent)
    requires Ready(cfg, a) && a.ssid == ""
    ensures PromptsInOrder(cfg, Settle(cfg, socket, a))
  {
    var b := Settle(cfg, socket, a);
    DrainOutsidePrompt(cfg, socket, a.calls);
    KeptUnmarked(cfg, socket, a);
    if b.ssid == "" {
      assert b.prompts == a.prompts;
    } else {
      var p: nat :| PromptsAt(cfg, Drain(cfg, socket, a.ssid, a.calls), p);
      var m := b.calls[p].message;
      assert InPlace(cfg, a.prompts, Unmark(b.calls[p]));
      assert AllBelow(a.prompts, m) && m < a.arrivals;
      DrainKeepsOrdered(cfg, socket, a.ssid, a.calls);
      forall r | r in b.calls ensures InPlace(cfg, b.prompts, r) {
        var i :| 0 <= i < |b.calls| && b.calls[i] == r;
        assert InPlace(cfg, a.prompts, Unmark(r));
        if i > p && !Waits(cfg, r) {
          assert m < r.message;
        }
      }
    }
  }

  lemma SettleKeeps(cfg: Config, socket: string, a: Agent)
    requires Ready(cfg, a)
    ensures Inv(cfg, Settle(cfg, socket, a))
  {
    var b := Settle(cfg, socket, a);
    DrainKeepsOrdered(cfg, socket, a.ssid, a.calls);
    SettleConserves(cfg, socket, a);
    if a.ssid == "" {
      DrainOutsidePrompt(cfg, socket, a.calls);
      KeptUnmarked(cfg, socket, a);
      assert OnePrompt(b.ssid, b.calls);
      assert Named(cfg, b.calls);
      assert Arrived(b);
      SettlePromptsInOrder(cfg, socket, a);
      SettleKeepsAnswers(cfg, socket, a);
    } else {
      DrainWhilePrompting(cfg, socket, a.ssid, a.calls);
      assert b.prompts == a.prompts;
      assert Fewer(a, b);
      assert OnePrompt(b.ssid, b.calls) by {
        var p: nat :| Prompted(a.ssid, a.calls, p);
        PromptSurvives(a, b, p);
      }
      assert AnsweredArePrompted(b) by {
        SameMarks(a, b);
        SettleKeepsAnswers(cfg, socket, a);
      }
    }
  }

  lemma WithdrawConserves(a: Agent, callId: string)
    requires Conserved(a)
    ensures Conserved(Withdraw(a, callId))
  {
    var b := Withdraw(a, callId);
    var i := FirstCall(a.calls, callId);
    if i < |a.calls| {
      forall m: nat
        ensures Closings(b.sent, m) + Pendings(b.calls, m) == if m < b.arrivals then 1 else 0
      {
        var head, rest := a.calls[i], a.calls[i + 1..];
        ClosingsOfConcat(a.sent, [Sent(head.message, Failed(AgentCanceled))], m);
        PendingsOfConcat(a.calls[..i], rest, m);
        PendingsOfConcat(a.calls[..i], [head] + rest, m);
        PendingsOfConcat([head], rest, m);
        assert a.calls == a.calls[..i] + ([head] + rest);
      }
    }
  }

  lemma RemovalLeaves(calls: seq<Request>, i: nat)
    requires i < |calls| && Ordered(calls)
    ensures Ordered(RemoveAt(calls, i))
    ensures forall r :: r in RemoveAt(calls, i) <==> r in calls && r != calls[i]
  {
    var left := RemoveAt(calls, i);
    assert forall k :: 0 <= k < |left| ==> left[k] == calls[if k < i then k else k + 1];
    forall r | r in calls && r != calls[i] ensures r in left {
      var k :| 0 <= k < |calls| && calls[k] == r;
      assert left[if k < i then k else k - 1] == r;
    }
    forall r | r in left ensures r in calls && r != calls[i] {
      var k :| 0 <= k < |left| && left[k] == r;
      assert calls[if k < i then k else k + 1] == r;
      assert r.message != calls[i].message;
    }
  }

  lemma WithdrawKeepsOnePrompt(a: Agent, callId: string)
    requires Ordered(a.calls) && OnePrompt(a.ssid, a.calls)
    ensures OnePrompt(Withdraw(a, callId).ssid, Withdraw(a, callId).calls)
  {
    var b := Withdraw(a, callId);
    var i := FirstCall(a.calls, callId);
    if i < |a.calls| {
      if a.ssid != "" {
        var p: nat :| Prompted(a.ssid, a.calls, p);
        if p != i {
          RemovalLeaves(a.calls, i);
          assert a.calls[p].message != a.calls[i].message;
          PromptSurvives(a, b, p);
        }
      }
    }
  }

  lemma WithdrawKeepsAnswers(a: Agent, b: Agent, gone: Request)
    requires AnsweredArePrompted(a) && Arrived(a) && gone in a.calls && b.arrivals == a.arrivals
    requires b.sent == a.sent + [Sent(gone.message, Failed(AgentCanceled))]
    requires forall r :: r in b.calls ==> r in a.calls && r.message != gone.message
    ensures AnsweredArePrompted(b)
  {
    forall r | r in b.calls && r.ssid == "" ensures Unanswered(b.sent, r.message) {
      assert Unanswered(a.sent, r.message);
    }
  }

  lemma WithdrawKeeps(cfg: Config, a: Agent, callId: string)
    requires Inv(cfg, a)
    ensures var b := Withdraw(a, callId);
            && Ready(cfg, b) && b.arrivals == a.arrivals
            && (forall r :: r in b.calls ==> r.callId != callId && r in a.calls)
  {
    var b := Withdraw(a, callId);
    var i := FirstCall(a.calls, callId);
    WithdrawKeepsOnePrompt(a, callId);
    WithdrawConserves(a, callId);
    if i == |a.calls| {
      forall r | r in a.calls ensures r.callId != callId {
        var k :| 0 <= k < |a.calls| && a.calls[k] == r;
      }
    } else {
      var gone := a.calls[i];
      assert gone in a.calls;
      RemovalLeaves(a.calls, i);
      forall r | r in b.calls ensures r.callId != callId && r.message != gone.message {
        var k :| 0 <= k < |a.calls| && a.calls[k] == r;
        assert k != i;
      }
      WithdrawKeepsAnswers(a, b, gone);
    }
  }

  lemma EnqueueKeepsOrder(cfg: Config, a: Agent, r: Request)
    requires Ordered(a.calls) && Arrived(a) && r.message == a.arrivals
    requires forall k :: k in a.calls && k.kind.GetSecrets? && r.kind.GetSecrets? ==> k.callId != r.callId
    ensures Ordered(Enqueue(a, r).calls) && Arrived(Enqueue(a, r))
  {
    assert forall i :: 0 <= i < |a.calls| ==> a.calls[i] in a.calls;
  }

  lemma EnqueueKeepsOnePrompt(a: Agent, r: Request)
    requires OnePrompt(a.ssid, a.calls) && r.ssid == ""
    ensures OnePrompt(Enqueue(a, r).ssid, Enqueue(a, r).calls)
  {
    var b := Enqueue(a, r);
    if a.ssid != "" {
      var p: nat :| Prompted(a.ssid, a.calls, p);
      assert Prompted(b.ssid, b.calls, p);
    }
  }

  lemma EnqueueKeepsReplies(cfg: Config, a: Agent, r: Request)
    requires PromptsInOrder(cfg, a) && AnsweredArePrompted(a) && r.message == a.arrivals && r.ssid == ""
    ensures PromptsInOrder(cfg, Enqueue(a, r)) && AnsweredArePrompted(Enqueue(a, r))
  {
    assert InPlace(cfg, a.prompts, r);
    assert Unanswered(a.sent, r.message);
  }

  lemma EnqueueConserves(a: Agent, r: Request)
    requires Conserved(a) && r.message == a.arrivals
    ensures Conserved(Enqueue(a, r))
  {
    var b := Enqueue(a, r);
    forall m: nat
      ensures Closings(b.sent, m) + Pendings(b.calls, m) == if m < b.arrivals then 1 else 0
    {
      PendingsOfConcat(a.calls, [r], m);
    }
  }

  lemma EnqueueKeeps(cfg: Config, a: Agent, r: Request)
    requires Ready(cfg, a) && r.message == a.arrivals && r.ssid == ""
    requires r.kind.GetSecrets? ==> cfg.lib.id(r.connection) != ""
    requires forall k :: k in a.calls && k.kind.GetSecrets? && r.kind.GetSecrets? ==> k.callId != r.callId
    ensures Ready(cfg, Enqueue(a, r))
  {
    EnqueueKeepsOrder(cfg, a, r);
    EnqueueKeepsOnePrompt(a, r);
    EnqueueKeepsReplies(cfg, a, r);
    EnqueueConserves(a, r);
  }

  lemma {:induction false} TakeInputsAt(cfg: Config, calls: seq<Request>, key: string, password: string, input: bool)
    ensures var (after, answers) := TakeInputs(cfg, calls, key, password, input);
            && (forall i :: 0 <= i < |calls| ==> after[i] == TakeInput(cfg, calls[i], key, password, input).0)
            && (forall i :: 0 <= i < |calls| ==>
                  forall s :: s in TakeInput(cfg, calls[i], key, password, input).1 ==> s in answers)
            && (forall s :: s in answers ==>
                  FromUser(s) && exists r :: r in calls && r.ssid == key && r.message == s.message)
  {
    if calls != [] {
      TakeInputsAt(cfg, calls[1..], key, password, input);
    }
  }

  lemma {:induction false} UserRepliesCloseNothing(sent: seq<Sent>, m: nat)
    requires forall s :: s in sent ==> FromUser(s)
    ensures Closings(sent, m) == 0
  {
    if sent != [] {
      UserRepliesCloseNothing(sent[1..], m);
    }
  }

  lemma {:induction false} SameMessagesSamePendings(a: seq<Request>, b: seq<Request>, m: nat)
    requires |a| == |b| && forall i :: 0 <= i < |a| ==> a[i].message == b[i].message
    ensures Pendings(a, m) == Pendings(b, m)
  {
    if a != [] {
      SameMessagesSamePendings(a[1..], b[1..], m);
    }
  }

  lemma InputConserves(cfg: Config, a: Agent, e: Event)
    requires e.Input? && Conserved(a)
    ensures Conserved(Step(cfg, a, e, ""))
  {
    var b := Step(cfg, a, e, "");
    var (calls, answers) := TakeInputs(cfg, a.calls, e.key, e.password, e.input);
    TakeInputsAt(cfg, a.calls, e.key, e.password, e.input);
    forall m: nat
      ensures Closings(b.sent, m) + Pendings(b.calls, m) == if m < b.arrivals then 1 else 0
    {
      ClosingsOfConcat(a.sent, answers, m);
      UserRepliesCloseNothing(answers, m);
      SameMessagesSamePendings(a.calls, b.calls, m);
    }
  }

  /** Would this call be answered by an input event whose key matches it? */
  predicate Answerable(cfg: Config, r: Request, e: Event)
    requires e.Input?
  {
    !e.input || (e.password != "" && cfg.lib.needSecrets(r.connection, r.settingName, r.flags.requestNew) != [])
  }

  lemma OtherKeyUnanswered(cfg: Config, calls: seq<Request>, e: Event, i: nat)
    requires e.Input? && Ordered(calls) && i < |calls| && calls[i].ssid != e.key
    ensures Unanswered(TakeInputs(cfg, calls, e.key, e.password, e.input).1, calls[i].message)
  {
    var answers := TakeInputs(cfg, calls, e.key, e.password, e.input).1;
    TakeInputsAt(cfg, calls, e.key, e.password, e.input);
    forall s | s in answers ensures s.message != calls[i].message {
      var k :| k in calls && k.ssid == e.key && k.message == s.message;
      var j :| 0 <= j < |calls| && calls[j] == k;
      assert j != i;
    }
  }

  lemma NamedInputAnswersThePrompted(cfg: Config, a: Agent, e: Event)
    requires Inv(cfg, a) && e.Input? && e.key != ""
    ensures AnsweredArePrompted(Step(cfg, a, e, ""))
  {
    var b := Step(cfg, a, e, "");
    var (_, answers) := TakeInputs(cfg, a.calls, e.key, e.password, e.input);
    TakeInputsAt(cfg, a.calls, e.key, e.password, e.input);
    forall r | r in b.calls && r.ssid == "" ensures Unanswered(b.sent, r.message) {
      var i :| 0 <= i < |b.calls| && b.calls[i] == r;
      assert r == a.calls[i] && r in a.calls && Unanswered(a.sent, r.message);
      OtherKeyUnanswered(cfg, a.calls, e, i);
    }
  }

  lemma EmptyKeyAnswersOthers(cfg: Config, a: Agent, e: Event, r: Request)
    requires Drainless(cfg, a.ssid, a.calls) && e.Input? && e.key == ""
    requires r in a.calls && r.ssid == "" && Answerable(cfg, r, e)
    ensures !AnsweredArePrompted(Step(cfg, a, e, ""))
  {
    var b := Step(cfg, a, e, "");
    var (_, answers) := TakeInputs(cfg, a.calls, e.key, e.password, e.input);
    TakeInputsAt(cfg, a.calls, e.key, e.password, e.input);
    var i :| 0 <= i < |a.calls| && a.calls[i] == r;
    var (after, first) := TakeInput(cfg, r, e.key, e.password, e.input);
    assert b.calls[i] == after && after in b.calls && after.ssid == "";
    assert first[0] in first && first[0] in answers && first[0].message == after.message;
    assert first[0] in b.sent;
    assert !Unanswered(b.sent, after.message);
  }

  lemma {:induction false} NoAnswers(cfg: Config, calls: seq<Request>, e: Event)
    requires e.Input? && forall r :: r in calls && r.ssid == e.key ==> !Answerable(cfg, r, e)
    ensures TakeInputs(cfg, calls, e.key, e.password, e.input).0 == calls
    ensures TakeInputs(cfg, calls, e.key, e.password, e.input).1 == []
  {
    if calls != [] {
      assert calls[0] in calls;
      NoAnswers(cfg, calls[1..], e);
      assert TakeInput(cfg, calls[0], e.key, e.password, e.input) == (calls[0], []);
      assert [calls[0]] + calls[1..] == calls;
    }
  }

  /** The user's input reaches nobody but the prompted call exactly when it names
      a connection, or no unprompted call could take the answer. */
  lemma InputAnswersOnlyThePrompted(cfg: Config, a: Agent, e: Event)
    requires Inv(cfg, a) && e.Input?
    ensures AnsweredArePrompted(Step(cfg, a, e, "")) <==>
              (e.key != "" || forall r :: r in a.calls && r.ssid == "" ==> !Answerable(cfg, r, e))
  {
    if e.key != "" {
      NamedInputAnswersThePrompted(cfg, a, e);
    } else if r :| r in a.calls && r.ssid == "" && Answerable(cfg, r, e) {
      EmptyKeyAnswersOthers(cfg, a, e, r);
    } else {
      NoAnswers(cfg, a.calls, e);
      assert a.sent + [] == a.sent;
    }
  }

  /** An input event rewrites at most the connection of the prompted call. */
  lemma InputChanges(cfg: Config, a: Agent, e: Event)
    requires e.Input? && e.key != ""
    ensures var b := Step(cfg, a, e, "");
            && |b.calls| == |a.calls|
            && (forall i :: 0 <= i < |a.calls| ==>
                  && b.calls[i] == a.calls[i].(connection := b.calls[i].connection)
                  && (a.calls[i].ssid == "" ==> b.calls[i] == a.calls[i]))
  {
    TakeInputsAt(cfg, a.calls, e.key, e.password, e.input);
  }

  lemma InputKeepsCalls(cfg: Config, a: Agent, e: Event, r: Request)
    requires Inv(cfg, a) && e.Input? && e.key != "" && r in Step(cfg, a, e, "").calls
    ensures InPlace(cfg, a.prompts, r) && r.message < a.arrivals && r.kind.GetSecrets?
    ensures r.ssid == "" ==> r in a.calls
    ensures a.ssid == "" ==> Waits(cfg, r)
  {
    var b := Step(cfg, a, e, "");
    InputChanges(cfg, a, e);
    var i :| 0 <= i < |b.calls| && b.calls[i] == r;
    assert InPlace(cfg, a.prompts, a.calls[i]);
  }

  lemma InputKeeps(cfg: Config, a: Agent, e: Event)
    requires Inv(cfg, a) && e.Input? && e.key != ""
    ensures Inv(cfg, Step(cfg, a, e, ""))
  {
    var b := Step(cfg, a, e, "");
    InputAnswersOnlyThePrompted(cfg, a, e);
    InputConserves(cfg, a, e);
    forall r | r in b.calls
      ensures InPlace(cfg, b.prompts, r) && r.message < b.arrivals && r.kind.GetSecrets?
      ensures r.ssid == "" ==> r in a.calls
      ensures b.ssid == "" ==> Waits(cfg, r)
    {
      InputKeepsCalls(cfg, a, e, r);
    }
    InputChanges(cfg, a, e);
    assert Ordered(b.calls);
    if a.ssid != "" {
      var p: nat :| Prompted(a.ssid, a.calls, p);
      assert Prompted(b.ssid, b.calls, p);
    }
  }

  /** The nested cancel and drain leave no call with the id. */
  lemma ReplacedIsGone(cfg: Config, a: Agent, callId: string, socket: string)
    requires Inv(cfg, a)
    ensures forall r :: r in Settle(cfg, socket, Withdraw(a, callId)).calls ==> r.callId != callId
  {
    var w := Withdraw(a, callId);
    var b := Settle(cfg, socket, w);
    WithdrawKeeps(cfg, a, callId);
    forall r | r in b.calls ensures r.callId != callId {
      var i :| 0 <= i < |b.calls| && b.calls[i] == r;
      var k := KeptFrom(cfg, socket, w.ssid, w.calls, i);
      assert w.calls[k] in w.calls;
    }
  }

  lemma StepKeeps(cfg: Config, a: Agent, e: Event, socket: string)
    requires Inv(cfg, a) && Valid(cfg, e)
    ensures Inv(cfg, Step(cfg, a, e, socket))
  {
    match e
    case Ask(connection, path, settingName, flags) =>
      var callId := path + settingName;
      var again := exists r :: r in a.calls && r.callId == callId;
      var b := if again then Settle(cfg, socket, Withdraw(a, callId)) else a;
      if again {
        ReplacedIsGone(cfg, a, callId, socket);
        WithdrawKeeps(cfg, a, callId);
        SettleKeeps(cfg, socket, Withdraw(a, callId));
      }
      var r := Request(b.arrivals, GetSecrets, callId, connection, settingName, flags, "");
      EnqueueKeeps(cfg, b, r);
      SettleKeeps(cfg, socket, Enqueue(b, r));
    case Save(connection) =>
      var kind := if cfg.lib.hasSecrets(connection) then SaveSecrets else DeleteSecrets;
      var r := Request(a.arrivals, kind, "", connection, "", NO_FLAGS, "");
      EnqueueKeeps(cfg, a, r);
      SettleKeeps(cfg, socket, Enqueue(a, r));
    case Delete(connection) =>
      var r := Request(a.arrivals, DeleteSecrets, "", connection, "", NO_FLAGS, "");
      EnqueueKeeps(cfg, a, r);
      SettleKeeps(cfg, socket, Enqueue(a, r));
    case Cancel(path, settingName) =>
      WithdrawKeeps(cfg, a, path + settingName);
      SettleKeeps(cfg, socket, Withdraw(a, path + settingName));
    case Input(_, _, _) =>
      InputKeeps(cfg, a, e);
  }

  // ----- every run

  ghost predicate ValidRun(cfg: Config, events: seq<(Event, string)>) {
    forall e :: e in events ==> Valid(cfg, e.0)
  }

  /** Between two slots of any run the invariant holds. */
  lemma {:induction false} EveryRun(cfg: Config, events: seq<(Event, string)>)
    requires ValidRun(cfg, events)
    ensures Inv(cfg, Run(cfg, events))
  {
    if events != [] {
      var before, last := events[..|events| - 1], events[|events| - 1];
      EveryRun(cfg, before);
      StepKeeps(cfg, Run(cfg, before), last.0, last.1);
    }
  }

  /** Between slots nothing but GetSecrets calls is pending, with distinct ids in
      arrival order, and the prompt in flight belongs to exactly one of them. */
  lemma OneCallIsPrompted(cfg: Config, events: seq<(Event, string)>)
    requires ValidRun(cfg, events)
    ensures var a := Run(cfg, events);
            && (forall r :: r in a.calls ==> r.kind.GetSecrets? && (r.ssid == "" || r.ssid == a.ssid))
            && (forall i, j :: 0 <= i < j < |a.calls| ==> a.calls[i].callId != a.calls[j].callId)
            && (a.ssid != "" <==> exists i :: 0 <= i < |a.calls| && a.calls[i].ssid != "")
            && (forall i, j ::
                  0 <= i < |a.calls| && 0 <= j < |a.calls| && a.calls[i].ssid != "" && a.calls[j].ssid != "" ==> i == j)
  {
    EveryRun(cfg, events);
    var a := Run(cfg, events);
    assert forall i :: 0 <= i < |a.calls| ==> a.calls[i] in a.calls;
    if a.ssid != "" {
      var p: nat :| Prompted(a.ssid, a.calls, p);
      assert a.calls[p].ssid != "";
    }
  }

  /** The greeter prompts whenever anything is pending, and always for the oldest call. */
  lemma GreeterPromptsTheOldest(cfg: Config, events: seq<(Event, string)>)
    requires ValidRun(cfg, events) && cfg.greeter
    ensures var a := Run(cfg, events);
            if a.ssid == "" then a.calls == [] else a.calls != [] && a.calls[0].ssid == a.ssid
  {
    var a := Run(cfg, events);
    assert forall i :: 0 <= i < |a.calls| ==> a.calls[i] in a.calls;
    EveryRun(cfg, events);
    assert forall i :: 0 < i < |a.calls| ==> a.calls[0].message < a.calls[i].message;
    if a.ssid != "" {
      var p: nat :| Prompted(a.ssid, a.calls, p);
      assert InPlace(cfg, a.prompts, a.calls[p]) && InPlace(cfg, a.prompts, a.calls[0]);
    }
  }

  /** Over a whole run the user is prompted in arrival order, once per call at most. */
  lemma PromptsFollowArrival(cfg: Config, events: seq<(Event, string)>)
    requires ValidRun(cfg, events)
    ensures var a := Run(cfg, events); Increasing(a.prompts) && AllBelow(a.prompts, a.arrivals)
  {
    EveryRun(cfg, events);
  }

  /** Over a whole run each accepted call is pending, or closed by exactly one reply,
      and a pending call that has had a reply is the prompted one. */
  lemma EachCallClosedOnce(cfg: Config, events: seq<(Event, string)>, m: nat)
    requires ValidRun(cfg, events)
    ensures var a := Run(cfg, events);
            && Closings(a.sent, m) + Pendings(a.calls, m) == (if m < a.arrivals then 1 else 0)
            && forall r, s :: r in a.calls && s in a.sent && s.message == r.message ==> r.ssid == a.ssid != ""
  {
    EveryRun(cfg, events);
    var a := Run(cfg, events);
    forall r, s | r in a.calls && s in a.sent && s.message == r.message
      ensures r.ssid == a.ssid != ""
    {
      assert r.ssid != "";
      var i :| 0 <= i < |a.calls| && a.calls[i] == r;
    }
  }

  lemma SentGrows(cfg: Config, a: Agent, e: Event, socket: string)
    ensures a.sent <= Step(cfg, a, e, socket).sent && a.arrivals <= Step(cfg, a, e, socket).arrivals
  {
  }

  lemma LeftClosed(a: Agent, b: Agent, m: nat)
    requires Conserved(a) && Conserved(b) && a.sent <= b.sent && a.arrivals <= b.arrivals
    ensures Closings(b.sent[|a.sent|..], m) ==
            Pendings(a.calls, m) + (if a.arrivals <= m < b.arrivals then 1 else 0) - Pendings(b.calls, m)
  {
    assert b.sent == a.sent + b.sent[|a.sent|..];
    ClosingsOfConcat(a.sent, b.sent[|a.sent|..], m);
  }

  /** In one slot, exactly the calls that leave the list, or arrive and do not stay, are closed. */
  lemma LeavingIsOneReply(cfg: Config, a: Agent, e: Event, socket: string, m: nat)
    requires Inv(cfg, a) && Valid(cfg, e)
    ensures var b := Step(cfg, a, e, socket);
            && a.sent <= b.sent && a.arrivals <= b.arrivals
            && Closings(b.sent[|a.sent|..], m) ==
                 Pendings(a.calls, m) + (if a.arrivals <= m < b.arrivals then 1 else 0) - Pendings(b.calls, m)
  {
    StepKeeps(cfg, a, e, socket);
    SentGrows(cfg, a, e, socket);
    LeftClosed(a, Step(cfg, a, e, socket), m);
  }

  /** The drain reaches a fixed point: draining again does nothing, whatever the
      environment has become, and the calls it leaves are in their old order. */
  lemma DrainReachesFixedPoint(cfg: Config, socket: string, a: Agent, later: string)
    requires Ready(cfg, a)
    ensures var b := Settle(cfg, socket, a);
            Settle(cfg, later, b) == b && Subsequence(Unmarked(b.calls), Unmarked(a.calls))
  {
    var b := Settle(cfg, socket, a);
    SettleKeeps(cfg, socket, a);
    DrainlessIsFixed(cfg, later, b.ssid, b.calls);
    assert b.sent + [] == b.sent && b.prompts + [] == b.prompts;
    DrainKeepsOrder(cfg, socket, a.ssid, a.calls);
  }

  // ----- who is prompted for

  /** A wireless call the user requested, that needs new secrets or may interact in greeter mode. */
  predicate Wanted(cfg: Config, r: Request) {
    && r.kind.GetSecrets? && cfg.lib.isWireless(r.connection) && r.flags.userRequested
    && (r.flags.requestNew || (r.flags.allowInteraction && cfg.greeter))
    && !(cfg.lib.isVpn(r.connection, r.settingName) && cfg.lib.usesSshAgent(r.connection))
    && (cfg.greeter || cfg.lib.isVpn(r.connection, r.settingName)
        || cfg.lib.needSecrets(r.connection, r.settingName, true) != [])
  }

  /** The first such call, if there is one. */
  function FirstWanted(cfg: Config, calls: seq<Request>): seq<nat> {
    if calls == [] then []
    else if Wanted(cfg, calls[0]) then [calls[0].message]
    else FirstWanted(cfg, calls[1..])
  }

  /** Outside a prompt the drain prompts for exactly the first call that wants one. */
  lemma {:induction false} PromptsAreWanted(cfg: Config, socket: string, calls: seq<Request>)
    requires AllUnmarked(calls) && Named(cfg, calls)
    ensures Drain(cfg, socket, "", calls).prompts == FirstWanted(cfg, calls)
  {
    if calls != [] {
      var head := calls[0];
      assert head in calls;
      assert Wanted(cfg, head) <==> Act(cfg, socket, "", head).Prompt?;
      if Wanted(cfg, head) {
        DrainWhilePrompting(cfg, socket, cfg.lib.id(head.connection), calls[1..]);
      } else {
        PromptsAreWanted(cfg, socket, calls[1..]);
      }
    }
  }

  // ----- the empty key

  const ANY_SECRET := Library(_ => "home", _ => true, (_, _) => false, _ => false, _ => false, (_, _, _) => ["psk"])

  lemma FirstCallWaits(cfg: Config, e: Event, socket: string, r: Request)
    requires e.Ask? && r == Request(0, GetSecrets, e.path + e.settingName, e.connection, e.settingName, e.flags, "")
    requires Decide(cfg, socket, r) == Wait
    ensures Run(cfg, [(e, socket)]) == Agent("", [r], [], [], 1)
  {
    var events := [(e, socket)];
    assert events[..0] == [] && Run(cfg, events[..0]) == IDLE;
    assert [r][1..] == [] && Drain(cfg, socket, "", []) == Drained("", [], [], []);
    assert Drain(cfg, socket, "", [r]) == Drained("", [r], [], []);
    var b := Enqueue(IDLE, r);
    assert b.calls == [r] && b.sent + [] == [] && b.prompts + [] == [];
    assert Settle(cfg, socket, b) == Agent("", [r], [], [], 1);
  }

  /** Outside greeter mode a call that asks for no new secrets waits without a prompt, after a
      run with the invariant of EveryRun. An input with the empty key is sent to it. */
  lemma EmptyKeyReachesAWaitingCall()
    ensures var cfg := Config(false, ANY_SECRET);
            var ask := Ask(map[], "/1", "802-11-wireless-security", Flags(false, true, true));
            var a := Run(cfg, [(ask, "")]);
            && ValidRun(cfg, [(ask, "")]) && a.ssid == "" && |a.calls| == 1 && a.sent == []
            && !AnsweredArePrompted(Step(cfg, a, Input("", "secret", true), ""))
  {
    var cfg := Config(false, ANY_SECRET);
    var ask := Ask(map[], "/1", "802-11-wireless-security", Flags(false, true, true));
    var r := Request(0, GetSecrets, ask.path + ask.settingName, ask.connection, ask.settingName, ask.flags, "");
    FirstCallWaits(cfg, ask, "", r);
    EveryRun(cfg, [(ask, "")]);
    EmptyKeyAnswersOthers(cfg, Run(cfg, [(ask, "")]), Input("", "secret", true), r);
  }
}
