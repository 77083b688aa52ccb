/** Facts about sequences shared by the components: order-preserving selection,
    subsequences, distinctness and removal of single elements. */
module Sequences {

  datatype Option<+T> = None | Some(value: T)

  ghost predicate Distinct<T>(s: seq<T>) {
    forall i, j :: 0 <= i < j < |s| ==> s[i] != s[j]
  }

  /** a can be obtained from b by deleting elements. */
  predicate Subsequence<T(==)>(a: seq<T>, b: seq<T>) {
    if a == [] then true
    else if b == [] then false
    else (a[0] == b[0] && Subsequence(a[1..], b[1..])) || Subsequence(a, b[1..])
  }

  function RemoveAt<T>(s: seq<T>, i: nat): seq<T>
    requires i < |s|
  {
    s[..i] + s[i + 1..]
  }

  function Filter<T>(p: T -> bool, s: seq<T>): (r: seq<T>)
    ensures forall i :: 0 <= i < |r| ==> r[i] in s && p(r[i])
    ensures forall i :: 0 <= i < |s| && p(s[i]) ==> s[i] in r
  {
    if s == [] then [] else (if p(s[0]) then [s[0]] else []) + Filter(p, s[1..])
  }

  lemma {:induction false} FilterOfConcat<T>(p: T -> bool, a: seq<T>, b: seq<T>)
    ensures Filter(p, a + b) == Filter(p, a) + Filter(p, b)
  {
    if a == [] {
      assert a + b == b;
    } else {
      assert (a + b)[1..] == a[1..] + b;
      FilterOfConcat(p, a[1..], b);
    }
  }

  lemma {:induction false} SubsequenceReflexive<T>(a: seq<T>)
    ensures Subsequence(a, a)
  {
    if a != [] {
      SubsequenceReflexive(a[1..]);
    }
  }

  lemma {:induction false} SubsequenceOfConcat<T>(a: seq<T>, b: seq<T>, c: seq<T>, d: seq<T>)
    requires Subsequence(a, b) && Subsequence(c, d)
    ensures Subsequence(a + c, b + d)
    decreases |b|
  {
    if b == [] {
      assert a + c == c && b + d == d;
    } else {
      assert (b + d)[1..] == b[1..] + d;
      if a != [] && a[0] == b[0] && Subsequence(a[1..], b[1..]) {
        assert (a + c)[1..] == a[1..] + c;
        SubsequenceOfConcat(a[1..], b[1..], c, d);
      } else {
        SubsequenceOfConcat(a, b[1..], c, d);
        if a + c == [] {
        } else {
          assert Subsequence(a + c, (b + d)[1..]);
        }
      }
    }
  }

  /** s without the elements of gone. */
  function Without<T(==)>(s: seq<T>, gone: seq<T>): (r: seq<T>)
    ensures forall i :: 0 <= i < |r| ==> r[i] in s && r[i] !in gone
    ensures forall i :: 0 <= i < |s| && s[i] !in gone ==> s[i] in r
  {
    if s == [] then [] else (if s[0] in gone then [] else [s[0]]) + Without(s[1..], gone)
  }

  lemma WithoutCons<T>(x: T, s: seq<T>, gone: seq<T>)
    ensures Without([x] + s, gone) == (if x in gone then [] else [x]) + Without(s, gone)
  {
    assert ([x] + s)[1..] == s;
  }

  /** s without the first occurrence of x. */
  function RemoveOne<T(==)>(s: seq<T>, x: T): seq<T> {
    if s == [] then [] else if s[0] == x then s[1..] else [s[0]] + RemoveOne(s[1..], x)
  }

  lemma {:induction false} WithoutNone<T>(s: seq<T>, gone: seq<T>)
    requires forall x :: x in s ==> x !in gone
    ensures Without(s, gone) == s
  {
    if s != [] {
      WithoutNone(s[1..], gone);
    }
  }

  lemma {:induction false} WithoutDistinct<T>(s: seq<T>, gone: seq<T>)
    requires Distinct(s)
    ensures Distinct(Without(s, gone))
  {
    if s != [] {
      WithoutDistinct(s[1..], gone);
    }
  }

  lemma {:induction false} WithoutSame<T>(s: seq<T>, a: seq<T>, b: seq<T>)
    requires forall y :: y in s ==> (y in a <==> y in b)
    ensures Without(s, a) == Without(s, b)
  {
    if s != [] {
      assert s[0] in s;
      WithoutSame(s[1..], a, b);
    }
  }

  /** Removing the elements of a list one at a time removes them all. */
  lemma {:induction false} RemoveNext<T>(s: seq<T>, gone: seq<T>, x: T)
    requires Distinct(s) && x !in gone
    ensures RemoveOne(Without(s, gone), x) == Without(s, gone + [x])
  {
    if s != [] {
      assert forall y :: y in s[1..] ==> y != s[0];
      if s[0] == x {
        assert forall y :: y in s[1..] && y in gone + [x] ==> y in gone;
        WithoutSame(s[1..], gone, gone + [x]);
      } else {
        RemoveNext(s[1..], gone, x);
        var rest := Without(s[1..], gone);
        assert s[0] in gone + [x] <==> s[0] in gone;
        if s[0] in gone {
          assert Without(s, gone) == rest;
        } else {
          assert Without(s, gone) == [s[0]] + rest;
          assert ([s[0]] + rest)[1..] == rest;
        }
      }
    }
  }

  /** The loop that removes collected elements one at a time. */
  method RemoveEach<T(==)>(s: seq<T>, gone: seq<T>) returns (left: seq<T>)
    requires Distinct(s) && Distinct(gone)
    ensures left == Without(s, gone)
  {
    left := s;
    WithoutNone(s, []);
    for i := 0 to |gone|
      invariant left == Without(s, gone[..i])
    {
      RemoveNext(s, gone[..i], gone[i]);
      assert gone[..i + 1] == gone[..i] + [gone[i]];
      left := RemoveOne(left, gone[i]);
    }
    assert gone[..|gone|] == gone;
  }

  lemma SliceSnoc<T>(s: seq<T>, r: nat, n: nat)
    requires r < n <= |s|
    ensures s[r..n] == s[r..n - 1] + [s[n - 1]]
  {
  }

  lemma Regroup<T>(a: seq<T>, b: seq<T>, c: seq<T>)
    ensures a + (b + c) == a + b + c
  {
  }

  // ----- a field of every element

  function Mapped<A, B>(f: A -> B, s: seq<A>): (r: seq<B>)
    ensures |r| == |s| && forall i :: 0 <= i < |r| ==> r[i] == f(s[i])
  {
    seq(|s|, i requires 0 <= i < |s| => f(s[i]))
  }

  lemma MappedOfConcat<A, B>(f: A -> B, a: seq<A>, b: seq<A>)
    ensures Mapped(f, a + b) == Mapped(f, a) + Mapped(f, b)
  {
  }

  lemma MappedOfOne<A, B>(f: A -> B, x: A)
    ensures Mapped(f, [x]) == [f(x)] && Mapped(f, []) == []
  {
  }

  lemma MappedIn<A, B>(f: A -> B, x: A, s: seq<A>)
    requires forall y :: y in s && f(x) == f(y) ==> x == y
    ensures f(x) in Mapped(f, s) <==> x in s
  {
    if x in s {
      var i :| 0 <= i < |s| && s[i] == x;
      assert Mapped(f, s)[i] == f(x);
    }
    if f(x) in Mapped(f, s) {
      var i :| 0 <= i < |s| && Mapped(f, s)[i] == f(x);
      assert s[i] in s;
    }
  }

  lemma WithoutMappedStep<A, B>(f: A -> B, head: A, tail: seq<A>, gone: seq<A>)
    requires head in gone <==> f(head) in Mapped(f, gone)
    requires Mapped(f, Without(tail, gone)) == Without(Mapped(f, tail), Mapped(f, gone))
    ensures Mapped(f, Without([head] + tail, gone)) == Without(Mapped(f, [head] + tail), Mapped(f, gone))
  {
    MappedOfOne(f, head);
    MappedOfConcat(f, [head], tail);
    MappedOfConcat(f, if head in gone then [] else [head], Without(tail, gone));
    WithoutCons(head, tail, gone);
    WithoutCons(f(head), Mapped(f, tail), Mapped(f, gone));
  }

  /** Where the field tells the elements apart, removing elements removes their fields. */
  lemma {:induction false} WithoutMapped<A, B>(f: A -> B, s: seq<A>, gone: seq<A>)
    requires forall x, y :: x in s && y in gone && f(x) == f(y) ==> x == y
    ensures Mapped(f, Without(s, gone)) == Without(Mapped(f, s), Mapped(f, gone))
  {
    if s != [] {
      assert s == [s[0]] + s[1..] && s[0] in s;
      WithoutMapped(f, s[1..], gone);
      MappedIn(f, s[0], gone);
      WithoutMappedStep(f, s[0], s[1..], gone);
    }
  }

  /** The index of the first element at or after `from` with this field, or |s|. */
  function FirstIndex<A, B(==)>(f: A -> B, s: seq<A>, key: B, from: nat): (i: nat)
    requires from <= |s|
    ensures from <= i <= |s| && (i < |s| ==> f(s[i]) == key)
    ensures forall j :: from <= j < i ==> f(s[j]) != key
    decreases |s| - from
  {
    if from == |s| || f(s[from]) == key then from else FirstIndex(f, s, key, from + 1)
  }

  /** The elements from the i-th on whose field is not among these. */
  function Lacking<A, B(==)>(f: A -> B, s: seq<A>, keys: seq<B>, i: nat): seq<A>
    requires i <= |s|
    decreases |s| - i
  {
    if i == |s| then [] else (if f(s[i]) in keys then [] else [s[i]]) + Lacking(f, s, keys, i + 1)
  }

  lemma {:induction false} LackingIs<A, B>(f: A -> B, s: seq<A>, keys: seq<B>, i: nat)
    requires i <= |s|
    ensures forall x :: x in Lacking(f, s, keys, i) <==> x in s[i..] && f(x) !in keys
    decreases |s| - i
  {
    if i < |s| {
      LackingIs(f, s, keys, i + 1);
      assert s[i..] == [s[i]] + s[i + 1..];
    }
  }

  lemma AllLacking<A, B>(f: A -> B, s: seq<A>, keys: seq<B>)
    ensures forall x :: x in Lacking(f, s, keys, 0) <==> x in s && f(x) !in keys
  {
    LackingIs(f, s, keys, 0);
    assert s[0..] == s;
  }

  lemma {:induction false} LackingDistinct<A, B>(f: A -> B, s: seq<A>, keys: seq<B>, i: nat)
    requires i <= |s| && Distinct(s)
    ensures Distinct(Lacking(f, s, keys, i))
    decreases |s| - i
  {
    if i < |s| {
      LackingDistinct(f, s, keys, i + 1);
      LackingIs(f, s, keys, i + 1);
    }
  }

  /** The loop that collects the elements whose field is gone. */
  method CollectLacking<A, B(==)>(f: A -> B, s: seq<A>, keys: seq<B>) returns (gone: seq<A>)
    ensures gone == Lacking(f, s, keys, 0)
  {
    gone := [];
    for i := 0 to |s|
      invariant gone + Lacking(f, s, keys, i) == Lacking(f, s, keys, 0)
    {
      Regroup(gone, [s[i]], Lacking(f, s, keys, i + 1));
      if f(s[i]) !in keys {
        gone := gone + [s[i]];
      }
    }
  }

  // ----- rising numbers

  ghost predicate Rising(s: seq<nat>, low: nat, high: nat) {
    && (forall i, j :: 0 <= i < j < |s| ==> s[i] < s[j])
    && (forall i :: 0 <= i < |s| ==> low <= s[i] < high)
  }

  lemma RisingCons(x: nat, s: seq<nat>, low: nat, high: nat)
    requires low <= x < high && Rising(s, x + 1, high)
    ensures Rising([x] + s, low, high) && Rising(s, low, high)
  {
  }

  lemma {:induction false} WithoutRising(s: seq<nat>, gone: seq<nat>, low: nat, high: nat)
    requires Rising(s, low, high)
    ensures Rising(Without(s, gone), low, high)
    decreases |s|
  {
    if s != [] {
      assert Rising(s[1..], s[0] + 1, high);
      WithoutRising(s[1..], gone, s[0] + 1, high);
      RisingCons(s[0], Without(s[1..], gone), low, high);
    }
  }

  function Range(a: nat, b: nat): seq<nat> {
    if b <= a then [] else Range(a, b - 1) + [b - 1]
  }

  lemma {:induction false} RangeIs(a: nat, b: nat)
    requires a <= b
    ensures |Range(a, b)| == b - a && forall i :: 0 <= i < b - a ==> Range(a, b)[i] == a + i
  {
    if a < b {
      RangeIs(a, b - 1);
    }
  }

  lemma {:induction false} RangeAbove(a: nat, b: nat, k: nat)
    requires k in Range(a, b)
    ensures a <= k < b
  {
    if k != b - 1 {
      RangeAbove(a, b - 1, k);
    }
  }

  /** Numbers that go on from a are the range. */
  lemma RangeAppended(old_: seq<nat>, all: seq<nat>, a: nat, b: nat)
    requires a <= b && |all| == |old_| + (b - a)
    requires forall i :: 0 <= i < |old_| ==> all[i] == old_[i]
    requires forall i :: |old_| <= i < |all| ==> all[i] == a + (i - |old_|)
    ensures all == old_ + Range(a, b)
  {
    RangeIs(a, b);
  }

  // ----- places in nested loops

  /** A turn of an outer loop, and one of the inner loop in it. */
  datatype Spot = Spot(outer: nat, inner: nat)

  predicate Before(a: Spot, b: Spot) {
    a.outer < b.outer || (a.outer == b.outer && a.inner < b.inner)
  }

  ghost predicate InTurn(spots: seq<Spot>) {
    forall i, j :: 0 <= i < j < |spots| ==> Before(spots[i], spots[j])
  }

  lemma InTurnConcat(a: seq<Spot>, b: seq<Spot>, mid: nat)
    requires InTurn(a) && InTurn(b)
    requires (forall i :: 0 <= i < |a| ==> a[i].outer < mid) && (forall i :: 0 <= i < |b| ==> mid <= b[i].outer)
    ensures InTurn(a + b)
  {
  }

  /** The first n turns of the inner loop in one turn of the outer one. */
  function Row(outer: nat, n: nat): (r: seq<Spot>)
    ensures |r| == n && forall k :: 0 <= k < n ==> r[k] == Spot(outer, k)
  {
    seq(n, k requires 0 <= k < n => Spot(outer, k))
  }
}
