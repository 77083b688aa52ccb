/** The zero compression of IPv6 addresses (compressedIpv6Addr in src-old/networkdetails.cpp),
    and the expansion of "::" that section 2.2 of RFC 4291 gives. */
module Ipv6 {
  import opened Text

  const ZERO := "0000"

  // ----- the program

  /** Where the loop stands: the current run and the best run so far, in characters. */
  datatype Scan = Scan(start: nat, len: nat, maxStart: nat, maxLen: nat)

  function ScanTo(groups: seq<string>, n: nat): Scan
    requires n <= |groups|
  {
    if n == 0 then Scan(0, 0, 0, 0)
    else
      var s := ScanTo(groups, n - 1);
      if groups[n - 1] == ZERO then s.(len := s.len + 5)
      else if s.len > s.maxLen then Scan(n * 5, 0, s.start, s.len)
      else s.(start := n * 5, len := 0)
  }

  /** QString::replace at a position: out of range it does nothing, and the length is cut at the end. */
  function Replace(s: string, pos: nat, len: nat, c: char): string {
    if pos > |s| then s
    else s[..pos] + [c] + (if pos + len <= |s| then s[pos + len..] else "")
  }

  predicate DoubleAt(s: string, i: int) {
    0 <= i < |s| - 1 && s[i] == ':' && s[i + 1] == ':'
  }

  predicate HasDouble(s: string) {
    exists i :: 0 <= i < |s| - 1 && DoubleAt(s, i)
  }

  function Compressed(address: string): string {
    if HasDouble(address) then address
    else
      var groups := Split(address, ':');
      var s := ScanTo(groups, |groups|);
      if s.maxLen > 0 then Replace(address, s.maxStart, s.maxLen, ':')
      else if s.len > 0 then (if s.start > 0 then Replace(address, s.start, s.len, ':') else "::")
      else address
  }

  method CompressedIpv6Addr(ipv6Adr: string) returns (r: string)
    ensures r == Compressed(ipv6Adr)
  {
    if HasDouble(ipv6Adr) {
      return ipv6Adr;
    }
    var start: nat, len: nat, maxStart: nat, maxLen: nat := 0, 0, 0, 0;
    var sequence := Split(ipv6Adr, ':');
    var i := 0;
    while i != |sequence|
      invariant i <= |sequence| && Scan(start, len, maxStart, maxLen) == ScanTo(sequence, i)
      decreases |sequence| - i
    {
      if sequence[i] == ZERO {
        len := len + 5;
      } else {
        if len > maxLen {
          maxStart, maxLen := start, len;
        }
        start, len := (i + 1) * 5, 0;
      }
      i := i + 1;
    }
    if maxLen > 0 {
      return Replace(ipv6Adr, maxStart, maxLen, ':');
    }
    if len > maxLen {
      if start > 0 {
        return Replace(ipv6Adr, start, len, ':');
      }
      return "::";
    }
    return ipv6Adr;
  }

  // ----- which run is chosen

  ghost predicate FullForm(groups: seq<string>) {
    |groups| >= 1 && forall i :: 0 <= i < |groups| ==> |groups[i]| == 4 && ':' !in groups[i]
  }

  /** k zero groups from a on, as many as there are, and a nonzero group before n after them. */
  ghost predicate InnerRun(groups: seq<string>, n: nat, a: nat, k: nat) {
    && 0 < k && a + k < n <= |groups|
    && (forall i :: a <= i < a + k ==> groups[i] == ZERO)
    && groups[a + k] != ZERO
    && (a > 0 ==> groups[a - 1] != ZERO)
  }

  /** The first of the longest inner runs. */
  ghost predicate Chosen(groups: seq<string>, n: nat, a: nat, k: nat) {
    && InnerRun(groups, n, a, k)
    && forall b: nat, j: nat :: InnerRun(groups, n, b, j) ==> j < k || (j == k && a <= b)
  }

  /** The zero groups that end the first n groups begin at a. */
  ghost predicate TrailingRun(groups: seq<string>, n: nat, a: nat) {
    && a <= n <= |groups|
    && (forall i :: a <= i < n ==> groups[i] == ZERO)
    && (a > 0 ==> groups[a - 1] != ZERO)
  }

  /** The scan counted in groups instead of characters. */
  function Runs(groups: seq<string>, n: nat): Scan
    requires n <= |groups|
  {
    if n == 0 then Scan(0, 0, 0, 0)
    else
      var s := Runs(groups, n - 1);
      if groups[n - 1] == ZERO then s.(len := s.len + 1)
      else if s.len > s.maxLen then Scan(n, 0, s.start, s.len)
      else s.(start := n, len := 0)
  }

  lemma {:induction false} ScanIsRuns(groups: seq<string>, n: nat)
    requires n <= |groups|
    ensures var s, r := ScanTo(groups, n), Runs(groups, n);
            s == Scan(5 * r.start, 5 * r.len, 5 * r.maxStart, 5 * r.maxLen)
  {
    if n > 0 {
      ScanIsRuns(groups, n - 1);
    }
  }

  ghost predicate NoInnerRun(groups: seq<string>, n: nat) {
    forall a: nat, k: nat :: !InnerRun(groups, n, a, k)
  }

  lemma OneTrailingRun(groups: seq<string>, n: nat, a: nat, b: nat)
    requires TrailingRun(groups, n, a) && TrailingRun(groups, n, b)
    ensures a == b
  {
  }

  /** A run that ends at the next group is the trailing one. */
  lemma NewInnerRun(groups: seq<string>, n: nat, t: nat, a: nat, k: nat)
    requires n < |groups| && TrailingRun(groups, n, t)
    ensures InnerRun(groups, n + 1, a, k) <==>
              InnerRun(groups, n, a, k) || (groups[n] != ZERO && n > t && a == t && k == n - t)
  {
    if a + k == n && InnerRun(groups, n + 1, a, k) {
      OneTrailingRun(groups, n, a, t);
    }
  }

  /** The scan knows the trailing run, and the first longest run that a nonzero group ends. */
  lemma {:induction false} RunsAre(groups: seq<string>, n: nat)
    requires n <= |groups|
    ensures var s := Runs(groups, n);
            && s.start + s.len == n && TrailingRun(groups, n, s.start)
            && (if s.maxLen > 0 then Chosen(groups, n, s.maxStart, s.maxLen) else NoInnerRun(groups, n))
  {
    if n > 0 {
      var before := Runs(groups, n - 1);
      RunsAre(groups, n - 1);
      forall a: nat, k: nat
        ensures InnerRun(groups, n, a, k) <==>
                  InnerRun(groups, n - 1, a, k)
                  || (groups[n - 1] != ZERO && before.len > 0 && a == before.start && k == before.len)
      {
        NewInnerRun(groups, n - 1, before.start, a, k);
      }
    }
  }

  // ----- expanding

  /** The first "::" at or after i, or |s|. */
  function FindDouble(s: string, i: nat): (p: nat)
    requires i <= |s|
    ensures i <= p <= |s| && (p < |s| ==> DoubleAt(s, p))
    ensures forall j :: i <= j < p ==> !DoubleAt(s, j)
    decreases |s| - i
  {
    if i == |s| || DoubleAt(s, i) then i else FindDouble(s, i + 1)
  }

  function Zeros(n: nat): (r: seq<string>)
    ensures |r| == n && forall i :: 0 <= i < n ==> r[i] == ZERO
  {
    if n == 0 then [] else Zeros(n - 1) + [ZERO]
  }

  function Side(s: string): seq<string> {
    if s == "" then [] else Split(s, ':')
  }

  /** The address of n groups a text stands for: "::" fills up with zero groups. */
  function Expand(s: string, n: nat): seq<string> {
    var p := FindDouble(s, 0);
    if p == |s| then Split(s, ':')
    else
      var left, right := Side(s[..p]), Side(s[p + 2..]);
      var k := n - |left| - |right|;
      left + Zeros(if k >= 0 then k else 0) + right
  }

  ghost predicate NoDouble(s: string) {
    forall i :: !DoubleAt(s, i)
  }

  /** A full-form address has five characters a group but one, no "::", and no ':' at its ends. */
  lemma {:induction false} FullFormText(groups: seq<string>)
    requires FullForm(groups)
    ensures var s := Join(groups, ':');
            && |s| == 5 * |groups| - 1 && s[0] != ':' && s[|s| - 1] != ':' && NoDouble(s)
  {
    var head := groups[0];
    assert head[0] in head && head[1] in head && head[2] in head && head[3] in head;
    if |groups| > 1 {
      var rest := Join(groups[1..], ':');
      FullFormText(groups[1..]);
      var s := head + ":" + rest;
      assert s == Join(groups, ':');
      forall i ensures !DoubleAt(s, i) {
        if 5 <= i && i + 1 < |s| {
          assert s[i] == rest[i - 5] && s[i + 1] == rest[i - 4];
          assert !DoubleAt(rest, i - 5);
        }
      }
    }
  }

  /** The text before and after a cut between two groups. */
  lemma CutText(groups: seq<string>, k: nat)
    requires FullForm(groups) && 0 < k < |groups|
    ensures var s := Join(groups, ':');
            && 5 * k < |s| && s[..5 * k] == Join(groups[..k], ':') + ":" && s[5 * k..] == Join(groups[k..], ':')
  {
    JoinCut(groups, k, ':');
    FullFormText(groups[..k]);
    FullFormText(groups[k..]);
  }

  /** Where the "::" stands is where the text is expanded. */
  lemma ExpandAt(left: string, right: string, n: nat)
    requires NoDouble(left) && (left != "" ==> left[|left| - 1] != ':')
    ensures var k := n - |Side(left)| - |Side(right)|;
            Expand(left + "::" + right, n) == Side(left) + Zeros(if k >= 0 then k else 0) + Side(right)
  {
    var s := left + "::" + right;
    var p := FindDouble(s, 0);
    assert DoubleAt(s, |left|);
    forall j | 0 <= j < |left| ensures !DoubleAt(s, j) {
      assert !DoubleAt(left, j);
      assert s[j] == left[j];
      if j + 1 < |left| {
        assert s[j + 1] == left[j + 1];
      }
    }
    assert p == |left|;
    assert s[..p] == left && s[p + 2..] == right;
  }

  lemma SideOfGroups(groups: seq<string>)
    requires FullForm(groups)
    ensures Side(Join(groups, ':')) == groups
  {
    FullFormText(groups);
    SplitOfJoin(groups, ':');
  }

  lemma TextBefore(groups: seq<string>, k: nat)
    requires FullForm(groups) && 0 < k < |groups|
    ensures var s := Join(groups, ':'); 5 * k < |s| && s[..5 * k] == Join(groups[..k], ':') + ":"
  {
    CutText(groups, k);
  }

  lemma TextAfter(groups: seq<string>, a: nat, k: nat)
    requires FullForm(groups) && 0 < a && 0 < k && a + k < |groups|
    ensures var s := Join(groups, ':'); 5 * a + 5 * k < |s| && s[5 * a + 5 * k..] == Join(groups[a + k..], ':')
  {
    CutText(groups, a + k);
    assert 5 * (a + k) == 5 * a + 5 * k;
  }

  lemma ReplaceText(s: string, pos: nat, len: nat, left: string, right: string)
    requires pos + len <= |s| && s[..pos] == left + ":" && s[pos + len..] == right
    ensures Replace(s, pos, len, ':') == left + "::" + right
  {
    assert left + ":" + [':'] == left + "::";
  }

  /** Replacing a run that does not begin the address leaves "::" in its place. */
  lemma InnerRunText(groups: seq<string>, a: nat, k: nat)
    requires FullForm(groups) && 0 < a && 0 < k && a + k < |groups|
    ensures Replace(Join(groups, ':'), 5 * a, 5 * k, ':') == Join(groups[..a], ':') + "::" + Join(groups[a + k..], ':')
  {
    TextBefore(groups, a);
    TextAfter(groups, a, k);
    ReplaceText(Join(groups, ':'), 5 * a, 5 * k, Join(groups[..a], ':'), Join(groups[a + k..], ':'));
  }

  lemma ReplaceTail(s: string, pos: nat, len: nat, left: string)
    requires pos <= |s| < pos + len && s[..pos] == left + ":"
    ensures Replace(s, pos, len, ':') == left + "::" + ""
  {
    assert left + ":" + [':'] + "" == left + "::" + "";
  }

  lemma TrailingRunText(groups: seq<string>, a: nat)
    requires FullForm(groups) && 0 < a < |groups|
    ensures Replace(Join(groups, ':'), 5 * a, 5 * (|groups| - a), ':') == Join(groups[..a], ':') + "::" + ""
  {
    TextBefore(groups, a);
    assert |Join(groups, ':')| < 5 * a + 5 * (|groups| - a) by {
      FullFormText(groups);
    }
    ReplaceTail(Join(groups, ':'), 5 * a, 5 * (|groups| - a), Join(groups[..a], ':'));
  }

  lemma FirstRunText(groups: seq<string>, k: nat)
    requires FullForm(groups) && 0 < k < |groups|
    ensures Replace(Join(groups, ':'), 0, 5 * k, ':') == ":" + Join(groups[k..], ':')
  {
    CutText(groups, k);
  }

  lemma ZerosFill(groups: seq<string>, a: nat, k: nat)
    requires a + k <= |groups| && forall i :: a <= i < a + k ==> groups[i] == ZERO
    ensures groups == groups[..a] + Zeros(k) + groups[a + k..]
  {
    assert groups[a..a + k] == Zeros(k);
  }

  lemma ExpandsBack(groups: seq<string>, a: nat, k: nat)
    requires FullForm(groups) && 0 < a && a + k <= |groups|
    requires forall i :: a <= i < a + k ==> groups[i] == ZERO
    ensures var right := if a + k < |groups| then Join(groups[a + k..], ':') else "";
            Expand(Join(groups[..a], ':') + "::" + right, |groups|) == groups
  {
    var left, right := Join(groups[..a], ':'), if a + k < |groups| then Join(groups[a + k..], ':') else "";
    assert NoDouble(left) && left[|left| - 1] != ':' by {
      FullFormText(groups[..a]);
    }
    assert Side(left) == groups[..a] by {
      SideOfGroups(groups[..a]);
    }
    assert Side(right) == groups[a + k..] by {
      if a + k < |groups| {
        SideOfGroups(groups[a + k..]);
      }
    }
    ExpandAt(left, right, |groups|);
    ZerosFill(groups, a, k);
  }

  lemma NoExpansion(s: string, n: nat)
    requires NoDouble(s)
    ensures Expand(s, n) == Split(s, ':')
  {
  }

  /** The run the program compresses begins the address and a nonzero group ends it. */
  ghost predicate CompressesTheStart(groups: seq<string>) {
    exists k: nat :: Chosen(groups, |groups|, 0, k)
  }

  /** The first case of the program: some run has a nonzero group after it. */
  lemma InnerCase(groups: seq<string>, a: nat, k: nat)
    requires FullForm(groups) && Chosen(groups, |groups|, a, k)
    ensures Expand(Replace(Join(groups, ':'), 5 * a, 5 * k, ':'), |groups|) == groups <==> a > 0
  {
    if a > 0 {
      InnerRunText(groups, a, k);
      ExpandsBack(groups, a, k);
    } else {
      var rest := Join(groups[k..], ':');
      FirstRunText(groups, k);
      FullFormText(groups[k..]);
      assert NoDouble(":" + rest) by {
        forall i ensures !DoubleAt(":" + rest, i) {
          assert i > 0 ==> !DoubleAt(rest, i - 1);
        }
      }
      NoExpansion(":" + rest, |groups|);
      assert (":" + rest)[1..] == rest;
      assert Split(":" + rest, ':')[0] == "";
    }
  }

  /** The second case: the only run ends the address. */
  lemma TrailingCase(groups: seq<string>, a: nat)
    requires FullForm(groups) && TrailingRun(groups, |groups|, a) && a < |groups|
    ensures Expand(if a > 0 then Replace(Join(groups, ':'), 5 * a, 5 * (|groups| - a), ':') else "::", |groups|) ==
              groups
  {
    if a > 0 {
      TrailingRunText(groups, a);
      ExpandsBack(groups, a, |groups| - a);
    } else {
      ExpandAt("", "", |groups|);
      assert "" + "::" + "" == "::";
      assert Zeros(|groups|) == groups;
    }
  }

  /** Expanding the compressed form of a full-form address gives the address back, except
      exactly when the run it compresses begins an address that is not all zero. */
  lemma CompressionIsUndone(groups: seq<string>)
    requires FullForm(groups)
    ensures Expand(Compressed(Join(groups, ':')), |groups|) == groups <==> !CompressesTheStart(groups)
  {
    var address, n := Join(groups, ':'), |groups|;
    FullFormText(groups);
    SplitOfJoin(groups, ':');
    ScanIsRuns(groups, n);
    RunsAre(groups, n);
    var s := Runs(groups, n);
    if s.maxLen > 0 {
      InnerCase(groups, s.maxStart, s.maxLen);
      forall k: nat | Chosen(groups, n, 0, k) ensures s.maxStart == 0 {
        assert InnerRun(groups, n, 0, k) && InnerRun(groups, n, s.maxStart, s.maxLen);
      }
    } else {
      assert !CompressesTheStart(groups);
      if s.len > 0 {
        TrailingCase(groups, s.start);
      } else {
        NoExpansion(address, n);
      }
    }
  }

  lemma OneChosen(groups: seq<string>, n: nat, a: nat, k: nat)
    requires n <= |groups| && Chosen(groups, n, a, k)
    ensures Runs(groups, n).maxStart == a && Runs(groups, n).maxLen == k
  {
    var s := Runs(groups, n);
    RunsAre(groups, n);
    assert InnerRun(groups, n, a, k);
    assert InnerRun(groups, n, s.maxStart, s.maxLen);
  }

  /** The first longest run with a nonzero group after it is replaced; one that begins the
      address leaves a single ':'. */
  lemma InnerRunIsReplaced(groups: seq<string>, a: nat, k: nat)
    requires FullForm(groups) && Chosen(groups, |groups|, a, k)
    ensures Compressed(Join(groups, ':')) ==
              (if a > 0 then Join(groups[..a], ':') + "::" else ":") + Join(groups[a + k..], ':')
  {
    FullFormText(groups);
    SplitOfJoin(groups, ':');
    ScanIsRuns(groups, |groups|);
    OneChosen(groups, |groups|, a, k);
    if a > 0 {
      InnerRunText(groups, a, k);
    } else {
      FirstRunText(groups, k);
    }
  }

  /** The run that ends the address is replaced only when there is no other run. */
  lemma TrailingRunIsReplaced(groups: seq<string>, a: nat)
    requires FullForm(groups) && NoInnerRun(groups, |groups|) && TrailingRun(groups, |groups|, a)
    ensures Compressed(Join(groups, ':')) ==
            if a == |groups| then Join(groups, ':') else if a > 0 then Join(groups[..a], ':') + "::" else "::"
  {
    var n := |groups|;
    FullFormText(groups);
    SplitOfJoin(groups, ':');
    ScanIsRuns(groups, n);
    RunsAre(groups, n);
    OneTrailingRun(groups, n, a, Runs(groups, n).start);
    if 0 < a < n {
      TrailingRunText(groups, a);
    }
  }

  /** For instance, the full form of ::1 loses its seven zero groups: all that is left is ":0001". */
  lemma LeadingZeroIsLost()
    ensures var groups := Zeros(7) + ["0001"];
            && FullForm(groups) && |groups| == 8
            && Compressed(Join(groups, ':')) == ":0001" && Expand(":0001", 8) != groups
  {
    var groups := Zeros(7) + ["0001"];
    assert groups[7..] == ["0001"] && groups[7] == "0001";
    assert InnerRun(groups, 8, 0, 7);
    forall b, m | InnerRun(groups, 8, b, m)
      ensures m <= 7
    {
    }
    assert Chosen(groups, 8, 0, 7);
    InnerRunIsReplaced(groups, 0, 7);
    CompressionIsUndone(groups);
  }

  /** An address that already has a "::" is left alone. */
  lemma DoubleIsKept(address: string, i: nat)
    requires i + 1 < |address| && address[i..i + 2] == "::"
    ensures Compressed(address) == address
  {
    assert address[i..i + 2][0] == address[i] && address[i..i + 2][1] == address[i + 1];
    assert DoubleAt(address, i);
  }
}
