/** Comparing plugin versions (comparePluginApi in common-plugin/utils.h). */
module PluginVersion {
  import opened Text

  const INT_MAX := 0x7FFF_FFFF
  const INT_MIN := -0x8000_0000

  predicate IsDigit(c: char) { '0' <= c <= '9' }

  function Digit(c: char): nat
    requires IsDigit(c)
  {
    c as int - '0' as int
  }

  /** The number a text of digits writes. */
  function Number(s: string): nat
    requires forall i :: 0 <= i < |s| ==> IsDigit(s[i])
  {
    if s == "" then 0 else 10 * Number(s[..|s| - 1]) + Digit(s[|s| - 1])
  }

  predicate Digits(s: string) {
    s != "" && forall i :: 0 <= i < |s| ==> IsDigit(s[i])
  }

  /** The white space of QChar::isSpace. */
  predicate IsSpace(c: char) {
    var n := c as int;
    || 0x09 <= n <= 0x0D || n == 0x20 || n == 0x85 || n == 0xA0 || n == 0x1680 || 0x2000 <= n <= 0x200A
    || n == 0x2028 || n == 0x2029 || n == 0x202F || n == 0x205F || n == 0x3000
  }

  function TrimLeft(s: string): string {
    if s != "" && IsSpace(s[0]) then TrimLeft(s[1..]) else s
  }

  function TrimRight(s: string): string {
    if s != "" && IsSpace(s[|s| - 1]) then TrimRight(s[..|s| - 1]) else s
  }

  /** QString::toInt: white space around the number and one sign before its digits are read
      over; the answer is 0 when the text is no number or out of the range of an int. */
  function ToInt(s: string): int {
    var t := TrimRight(TrimLeft(s));
    var negative := t != "" && t[0] == '-';
    var digits := if t != "" && t[0] in "+-" then t[1..] else t;
    if !Digits(digits) then 0
    else
      var n: int := if negative then 0 - Number(digits) else Number(digits);
      if INT_MIN <= n <= INT_MAX then n else 0
  }

  lemma ToIntOfDigits(s: string)
    requires Digits(s)
    ensures ToInt(s) == if Number(s) <= INT_MAX then Number(s) else 0
  {
    assert IsDigit(s[0]) && IsDigit(s[|s| - 1]);
    assert TrimRight(TrimLeft(s)) == s;
  }

  lemma {:induction false} TrimLeftSnoc(s: string, c: char)
    requires IsSpace(c)
    ensures TrimLeft(s + [c]) == if TrimLeft(s) == "" then "" else TrimLeft(s) + [c]
  {
    if s == "" {
      assert "" + [c] == [c] && [c][1..] == "";
    } else {
      assert (s + [c])[1..] == s[1..] + [c] && (s + [c])[0] == s[0];
      TrimLeftSnoc(s[1..], c);
    }
  }

  /** White space around a number does not matter. */
  lemma SpaceIsTrimmed(s: string, c: char)
    requires IsSpace(c)
    ensures ToInt([c] + s) == ToInt(s) && ToInt(s + [c]) == ToInt(s)
  {
    assert ([c] + s)[1..] == s;
    TrimLeftSnoc(s, c);
    var t := TrimLeft(s);
    assert (t + [c])[..|t + [c]| - 1] == t;
  }

  /** A sign before the digits counts, within the range of an int. */
  lemma SignedDigits(sign: char, digits: string)
    requires (sign == '+' || sign == '-') && Digits(digits)
    ensures var n := if sign == '-' then 0 - Number(digits) else Number(digits);
            ToInt([sign] + digits) == if -0x8000_0000 <= n < 0x8000_0000 then n else 0
  {
    var s := [sign] + digits;
    assert s[1..] == digits && s[|s| - 1] == digits[|digits| - 1];
    assert IsDigit(digits[|digits| - 1]);
    assert TrimRight(TrimLeft(s)) == s;
  }

  function NonEmpty(parts: seq<string>): seq<string> {
    if parts == [] then [] else (if parts[0] == "" then [] else [parts[0]]) + NonEmpty(parts[1..])
  }

  /** The parts of a version, empty ones skipped. */
  function Parts(version: string): seq<string> { NonEmpty(Split(version, '.')) }

  /** The loop from part i on. */
  function CompareFrom(a: seq<string>, b: seq<string>, i: nat): int
    requires i <= |a|
    decreases |a| - i
  {
    if i == |a| then (if |a| > |b| then 1 else -1)
    else if i >= |b| || a[i] == b[i] then CompareFrom(a, b, i + 1)
    else if ToInt(a[i]) > ToInt(b[i]) then 1
    else -1
  }

  function Compare(pluginApi1: string, pluginApi2: string): int {
    if pluginApi1 == pluginApi2 then 0 else CompareFrom(Parts(pluginApi1), Parts(pluginApi2), 0)
  }

  method ComparePluginApi(pluginApi1: string, pluginApi2: string) returns (r: int)
    ensures r == Compare(pluginApi1, pluginApi2)
  {
    if pluginApi1 == pluginApi2 {
      return 0;
    }
    var subPluginApis1, subPluginApis2 := Parts(pluginApi1), Parts(pluginApi2);
    for i := 0 to |subPluginApis1|
      invariant CompareFrom(subPluginApis1, subPluginApis2, i) == CompareFrom(subPluginApis1, subPluginApis2, 0)
    {
      if |subPluginApis2| > i {
        if subPluginApis1[i] != subPluginApis2[i] {
          if ToInt(subPluginApis1[i]) > ToInt(subPluginApis2[i]) {
            return 1;
          } else {
            return -1;
          }
        }
      }
    }
    if |subPluginApis1| > |subPluginApis2| {
      return 1;
    } else {
      return -1;
    }
  }

  // ----- canonical versions

  /** A number below 2^31 in decimal, without leading zeros. */
  function Decimal(n: nat): (s: string)
    ensures Digits(s)
  {
    var d := [('0' as int + n % 10) as char];
    if n < 10 then d else Decimal(n / 10) + d
  }

  function Decimals(version: seq<nat>): (r: seq<string>)
    ensures |r| == |version| && forall i :: 0 <= i < |r| ==> r[i] == Decimal(version[i])
  {
    seq(|version|, i requires 0 <= i < |version| => Decimal(version[i]))
  }

  /** The canonical text of a version. */
  function Written(version: seq<nat>): string {
    if version == [] then "" else Join(Decimals(version), '.')
  }

  ghost predicate InRange(version: seq<nat>) {
    forall i :: 0 <= i < |version| ==> version[i] <= INT_MAX
  }

  /** The first number that differs decides, and a prefix is the smaller version. */
  function Lexicographic(a: seq<nat>, b: seq<nat>): int {
    if a == [] && b == [] then 0
    else if a == [] then -1
    else if b == [] then 1
    else if a[0] == b[0] then Lexicographic(a[1..], b[1..])
    else if a[0] > b[0] then 1
    else -1
  }

  lemma {:induction false} DecimalRoundTrip(n: nat)
    ensures Number(Decimal(n)) == n
  {
    if n >= 10 {
      DecimalRoundTrip(n / 10);
      var s := Decimal(n);
      assert s[..|s| - 1] == Decimal(n / 10);
    } else {
      assert Decimal(n)[..0] == "";
    }
  }

  lemma {:induction false} AllNonEmpty(parts: seq<string>)
    requires forall i :: 0 <= i < |parts| ==> parts[i] != ""
    ensures NonEmpty(parts) == parts
  {
    if parts != [] {
      AllNonEmpty(parts[1..]);
    }
  }

  /** Splitting the canonical text gives the parts back. */
  lemma PartsOfWritten(version: seq<nat>)
    ensures Parts(Written(version)) == Decimals(version)
  {
    if version == [] {
      assert Split("", '.') == [""];
      assert [""][1..] == [];
    } else {
      forall i | 0 <= i < |version| ensures '.' !in Decimals(version)[i] {
        assert Digits(Decimal(version[i]));
      }
      SplitOfJoin(Decimals(version), '.');
      AllNonEmpty(Decimals(version));
    }
  }

  /** Written numbers are told apart and read back. */
  lemma ReadBack(m: nat, n: nat)
    requires m <= INT_MAX && n <= INT_MAX
    ensures ToInt(Decimal(m)) == m && ToInt(Decimal(n)) == n
    ensures Decimal(m) == Decimal(n) <==> m == n
  {
    DecimalRoundTrip(m);
    DecimalRoundTrip(n);
    ToIntOfDigits(Decimal(m));
    ToIntOfDigits(Decimal(n));
  }

  lemma {:induction false} CompareDecimals(a: seq<nat>, b: seq<nat>, i: nat)
    requires InRange(a) && InRange(b) && i <= |a| && a != b
    requires forall j :: 0 <= j < i && j < |b| ==> a[j] == b[j]
    ensures CompareFrom(Decimals(a), Decimals(b), i) ==
              if i <= |b| then Lexicographic(a[i..], b[i..]) else 1
    decreases |a| - i
  {
    assert |a| == |b| == i ==> a == b;
    if i == |a| {
    } else if i < |b| {
      ReadBack(a[i], b[i]);
      assert a[i..][0] == a[i] && b[i..][0] == b[i] && a[i..][1..] == a[i + 1..] && b[i..][1..] == b[i + 1..];
      if a[i] == b[i] {
        CompareDecimals(a, b, i + 1);
      }
    } else {
      CompareDecimals(a, b, i + 1);
    }
  }

  lemma WrittenIsInjective(a: seq<nat>, b: seq<nat>)
    requires Written(a) == Written(b)
    ensures a == b
  {
    PartsOfWritten(a);
    PartsOfWritten(b);
    forall i | 0 <= i < |a| ensures a[i] == b[i] {
      assert Decimals(a)[i] == Decimals(b)[i];
      DecimalRoundTrip(a[i]);
      DecimalRoundTrip(b[i]);
    }
  }

  lemma {:induction false} LexicographicReflexive(a: seq<nat>)
    ensures Lexicographic(a, a) == 0
  {
    if a != [] {
      LexicographicReflexive(a[1..]);
    }
  }

  /** On canonical texts the comparison is lexicographic comparison of the numbers. */
  lemma CompareIsLexicographic(a: seq<nat>, b: seq<nat>)
    requires InRange(a) && InRange(b)
    ensures Compare(Written(a), Written(b)) == Lexicographic(a, b)
  {
    PartsOfWritten(a);
    PartsOfWritten(b);
    if a == b {
      LexicographicReflexive(a);
    } else {
      if Written(a) == Written(b) {
        WrittenIsInjective(a, b);
      }
      CompareDecimals(a, b, 0);
      assert a[0..] == a && b[0..] == b;
    }
  }

  lemma {:induction false} LexicographicOrder(a: seq<nat>, b: seq<nat>, c: seq<nat>)
    ensures Lexicographic(a, b) == -Lexicographic(b, a)
    ensures Lexicographic(a, b) == 0 ==> a == b
    ensures Lexicographic(a, b) <= 0 && Lexicographic(b, c) <= 0 ==> Lexicographic(a, c) <= 0
  {
    if a != [] && b != [] {
      LexicographicOrder(a[1..], b[1..], if c == [] then c else c[1..]);
      assert a == [a[0]] + a[1..] && b == [b[0]] + b[1..];
    }
  }

  /** On canonical texts the comparison is a total order. */
  lemma CanonicalOrder(a: seq<nat>, b: seq<nat>, c: seq<nat>)
    requires InRange(a) && InRange(b) && InRange(c)
    ensures var x, y, z := Written(a), Written(b), Written(c);
            && Compare(x, y) == -Compare(y, x)
            && (Compare(x, y) == 0 <==> x == y)
            && (Compare(x, y) <= 0 && Compare(y, z) <= 0 ==> Compare(x, z) <= 0)
  {
    CompareIsLexicographic(a, b);
    CompareIsLexicographic(b, a);
    CompareIsLexicographic(b, c);
    CompareIsLexicographic(a, c);
    LexicographicOrder(a, b, c);
  }

  // ----- the parts of any text

  lemma {:induction false} NonEmptyOfConcat(a: seq<string>, b: seq<string>)
    ensures NonEmpty(a + b) == NonEmpty(a) + NonEmpty(b)
  {
    if a == [] {
      assert a + b == b;
    } else {
      assert (a + b)[1..] == a[1..] + b;
      NonEmptyOfConcat(a[1..], b);
    }
  }

  /** A dot separates the parts of what stands before it from those of what stands after it, and
      a text without a dot is its own part unless it is empty. */
  lemma PartsAre(x: string, y: string)
    ensures Parts(x + "." + y) == Parts(x) + Parts(y)
    ensures '.' !in x ==> Parts(x) == if x == "" then [] else [x]
  {
    SplitOfConcat(x, y, '.');
    NonEmptyOfConcat(Split(x, '.'), Split(y, '.'));
    if '.' !in x {
      SplitOfFree(x, '.');
      assert [x][1..] == [];
    }
  }

  // ----- any texts

  /** The index of the first part in which two versions differ, or where one ends. */
  function FirstDifference(a: seq<string>, b: seq<string>, i: nat): (k: nat)
    requires i <= |a| && i <= |b|
    ensures i <= k <= |a| && k <= |b| && (k < |a| && k < |b| ==> a[k] != b[k])
    ensures forall j :: i <= j < k ==> a[j] == b[j]
    decreases |a| - i
  {
    if i == |a| || i == |b| || a[i] != b[i] then i else FirstDifference(a, b, i + 1)
  }

  /** Two different texts say which version is newer: the first different parts are
      different numbers, or one version goes on where the other ends. */
  predicate Ranked(x: string, y: string) {
    var a, b := Parts(x), Parts(y);
    var k := FirstDifference(a, b, 0);
    if k < |a| && k < |b| then ToInt(a[k]) != ToInt(b[k]) else |a| != |b|
  }

  lemma {:induction false} PastTheEnd(a: seq<string>, b: seq<string>, i: nat)
    requires |b| <= i <= |a|
    ensures CompareFrom(a, b, i) == if |a| > |b| then 1 else -1
    decreases |a| - i
  {
    if i < |a| {
      PastTheEnd(a, b, i + 1);
    }
  }

  lemma {:induction false} CompareAtDifference(a: seq<string>, b: seq<string>, i: nat)
    requires i <= |a| && i <= |b|
    ensures var k := FirstDifference(a, b, i);
            CompareFrom(a, b, i) ==
              if k < |a| && k < |b| then (if ToInt(a[k]) > ToInt(b[k]) then 1 else -1)
              else if |a| > |b| then 1 else -1
    decreases |a| - i
  {
    if i < |a| {
      if i < |b| {
        if a[i] == b[i] {
          CompareAtDifference(a, b, i + 1);
        }
      } else {
        PastTheEnd(a, b, i);
      }
    }
  }

  lemma {:induction false} DifferenceIsSymmetric(a: seq<string>, b: seq<string>, i: nat)
    requires i <= |a| && i <= |b|
    ensures FirstDifference(a, b, i) == FirstDifference(b, a, i)
    decreases |a| - i
  {
    if i < |a| && i < |b| && a[i] == b[i] {
      DifferenceIsSymmetric(a, b, i + 1);
    }
  }

  /** On any texts, swapping the arguments flips the answer exactly when the texts are the
      same or rank the versions; otherwise the second argument is newer both ways. */
  lemma AntisymmetricExactly(x: string, y: string)
    ensures Compare(x, y) == -Compare(y, x) <==> x == y || Ranked(x, y)
  {
    var a, b := Parts(x), Parts(y);
    CompareAtDifference(a, b, 0);
    CompareAtDifference(b, a, 0);
    DifferenceIsSymmetric(a, b, 0);
  }

  lemma LonePart(x: string)
    requires x != "" && '.' !in x
    ensures Parts(x) == [x]
  {
    SplitOfFree(x, '.');
    AllNonEmpty([x]);
  }

  lemma LoneCompare(x: string, y: string)
    requires x != "" && '.' !in x && y != "" && '.' !in y && x != y
    ensures Compare(x, y) == if ToInt(x) > ToInt(y) then 1 else -1
  {
    LonePart(x);
    LonePart(y);
    assert [x][0] != [y][0];
  }

  lemma OneDigit(c: char)
    requires IsDigit(c)
    ensures Digits([c]) && Number([c]) == Digit(c)
  {
    assert [c][..0] == "";
  }

  lemma SignedOne(sign: char)
    requires sign == '+' || sign == '-'
    ensures ToInt([sign, '1']) == if sign == '-' then -1 else 1
  {
    OneDigit('1');
    SignedDigits(sign, "1");
    assert [sign, '1'] == [sign] + "1";
  }

  /** For instance a leading zero or a sign: each of "1" and "01", and each of "1" and "+1",
      is older than the other. A minus sign does rank: "-1" is older than "0". */
  lemma LeadingZeroIsNotRanked()
    ensures Compare("1", "01") == Compare("01", "1") == -1
    ensures Compare("1", "+1") == Compare("+1", "1") == -1
    ensures Compare("-1", "0") == -1 && Compare("0", "-1") == 1
  {
    OneDigit('0');
    OneDigit('1');
    assert Digits("01") && "01"[..1] == "0" && Number("01") == 1;
    ToIntOfDigits("0");
    ToIntOfDigits("1");
    ToIntOfDigits("01");
    SignedOne('+');
    SignedOne('-');
    LoneCompare("1", "01");
    LoneCompare("01", "1");
    LoneCompare("1", "+1");
    LoneCompare("+1", "1");
    LoneCompare("-1", "0");
    LoneCompare("0", "-1");
  }
}
