/** The value of a list that a controller keeps in step with snapshots: entries
    found by key, overwritten when present, appended when new, and dropped when
    the snapshot no longer has them. */
module KeyedList {
  import opened Sequences

  datatype Entry<K, V> = Entry(key: K, value: V)

  function Keys<K, V>(s: seq<Entry<K, V>>): (r: seq<K>)
    ensures |r| == |s| && forall i :: 0 <= i < |s| ==> r[i] == s[i].key
  {
    seq(|s|, i requires 0 <= i < |s| => s[i].key)
  }

  function FindFrom<K(==), V>(s: seq<Entry<K, V>>, k: K, from: nat): (i: nat)
    requires from <= |s|
    ensures from <= i <= |s| && (i < |s| ==> s[i].key == k)
    ensures forall j :: from <= j < i ==> s[j].key != k
    decreases |s| - from
  {
    if from == |s| || s[from].key == k then from else FindFrom(s, k, from + 1)
  }

  /** The first entry with this key, or |s|. */
  function Find<K(==), V>(s: seq<Entry<K, V>>, k: K): (i: nat)
    ensures i <= |s| && (i < |s| ==> s[i].key == k)
    ensures forall j :: 0 <= j < i ==> s[j].key != k
  {
    FindFrom(s, k, 0)
  }

  function Upsert<K(==), V>(s: seq<Entry<K, V>>, e: Entry<K, V>): seq<Entry<K, V>> {
    var i := Find(s, e.key);
    if i < |s| then s[i := e] else s + [e]
  }

  /** The entries of es from j on put in place, in order. */
  function UpsertFrom<K(==), V>(s: seq<Entry<K, V>>, es: seq<Entry<K, V>>, j: nat): seq<Entry<K, V>>
    requires j <= |es|
    decreases |es| - j
  {
    if j == |es| then s else UpsertFrom(Upsert(s, es[j]), es, j + 1)
  }

  /** The keys of es from j on that are not seen yet, in order of first occurrence. */
  function NewKeysFrom<K(==), V>(seen: seq<K>, es: seq<Entry<K, V>>, j: nat): seq<K>
    requires j <= |es|
    decreases |es| - j
  {
    if j == |es| then []
    else if es[j].key in seen then NewKeysFrom(seen, es, j + 1)
    else [es[j].key] + NewKeysFrom(seen + [es[j].key], es, j + 1)
  }

  function NewKeys<K(==), V>(seen: seq<K>, es: seq<Entry<K, V>>): seq<K> {
    NewKeysFrom(seen, es, 0)
  }

  /** The last value es gives to a key at or after j. */
  function LastFrom<K(==), V>(es: seq<Entry<K, V>>, k: K, j: nat): Option<V>
    requires j <= |es|
    decreases |es| - j
  {
    if j == |es| then None
    else match LastFrom(es, k, j + 1)
         case Some(v) => Some(v)
         case None => if es[j].key == k then Some(es[j].value) else None
  }

  function Last<K(==), V>(es: seq<Entry<K, V>>, k: K): Option<V> {
    LastFrom(es, k, 0)
  }

  function KeepKeys<K(==), V>(s: seq<Entry<K, V>>, keys: seq<K>): seq<Entry<K, V>> {
    if s == [] then []
    else (if s[0].key in keys then [s[0]] else []) + KeepKeys(s[1..], keys)
  }

  function Common<K(==)>(s: seq<K>, keys: seq<K>): seq<K> {
    if s == [] then []
    else (if s[0] in keys then [s[0]] else []) + Common(s[1..], keys)
  }

  /** The list after a snapshot: every entry of es put in place, then every key es lacks dropped. */
  function Reconcile<K(==), V>(s: seq<Entry<K, V>>, es: seq<Entry<K, V>>): seq<Entry<K, V>> {
    KeepKeys(UpsertFrom(s, es, 0), Keys(es))
  }

  /** The list and the snapshot say the same: each key of es once, with its last value, and no other. */
  ghost predicate Agrees<K, V>(s: seq<Entry<K, V>>, es: seq<Entry<K, V>>) {
    && Distinct(Keys(s))
    && (forall x :: x in s ==> Last(es, x.key) == Some(x.value))
    && (forall e :: e in es ==> e.key in Keys(s))
  }

  // ----- one snapshot

  lemma UpsertKeys<K, V>(s: seq<Entry<K, V>>, e: Entry<K, V>)
    ensures Keys(Upsert(s, e)) == if e.key in Keys(s) then Keys(s) else Keys(s) + [e.key]
    ensures Distinct(Keys(s)) ==> Distinct(Keys(Upsert(s, e)))
  {
    var i := Find(s, e.key);
    if i < |s| {
      assert Keys(s)[i] == e.key;
      assert Keys(Upsert(s, e)) == Keys(s);
    } else {
      assert e.key !in Keys(s);
      assert Keys(Upsert(s, e)) == Keys(s) + [e.key];
    }
  }

  /** The keys seen once every key of es from j on has been added that was not there. */
  function AddKeys<K(==), V>(seen: seq<K>, es: seq<Entry<K, V>>, j: nat): seq<K>
    requires j <= |es|
    decreases |es| - j
  {
    if j == |es| then seen
    else AddKeys(if es[j].key in seen then seen else seen + [es[j].key], es, j + 1)
  }

  lemma {:induction false} UpsertFromAdds<K, V>(s: seq<Entry<K, V>>, es: seq<Entry<K, V>>, j: nat)
    requires j <= |es|
    ensures Keys(UpsertFrom(s, es, j)) == AddKeys(Keys(s), es, j)
    ensures Distinct(Keys(s)) ==> Distinct(Keys(UpsertFrom(s, es, j)))
    decreases |es| - j
  {
    if j < |es| {
      UpsertKeys(s, es[j]);
      UpsertFromAdds(Upsert(s, es[j]), es, j + 1);
    }
  }

  lemma {:induction false} AddKeysAppends<K, V>(seen: seq<K>, es: seq<Entry<K, V>>, j: nat)
    requires j <= |es|
    ensures AddKeys(seen, es, j) == seen + NewKeysFrom(seen, es, j)
    decreases |es| - j
  {
    if j < |es| {
      var k := es[j].key;
      if k in seen {
        AddKeysAppends(seen, es, j + 1);
      } else {
        AddKeysAppends(seen + [k], es, j + 1);
        Regroup(seen, [k], NewKeysFrom(seen + [k], es, j + 1));
      }
    }
  }

  lemma {:induction false} SeenStays<K, V>(seen: seq<K>, es: seq<Entry<K, V>>, j: nat, k: K)
    requires j <= |es| && k in seen
    ensures k in AddKeys(seen, es, j)
    decreases |es| - j
  {
    if j < |es| {
      SeenStays(if es[j].key in seen then seen else seen + [es[j].key], es, j + 1, k);
    }
  }

  lemma {:induction false} GivenKeyIsThere<K, V>(seen: seq<K>, es: seq<Entry<K, V>>, j: nat, i: nat)
    requires j <= i < |es|
    ensures es[i].key in AddKeys(seen, es, j)
    decreases i - j
  {
    var more := if es[j].key in seen then seen else seen + [es[j].key];
    if j < i {
      GivenKeyIsThere(more, es, j + 1, i);
    } else {
      SeenStays(more, es, j + 1, es[j].key);
    }
  }

  lemma UpsertFromKeys<K, V>(s: seq<Entry<K, V>>, es: seq<Entry<K, V>>, j: nat)
    requires j <= |es|
    ensures Keys(UpsertFrom(s, es, j)) == Keys(s) + NewKeysFrom(Keys(s), es, j)
    ensures Distinct(Keys(s)) ==> Distinct(Keys(UpsertFrom(s, es, j)))
    ensures forall i :: j <= i < |es| ==> es[i].key in Keys(UpsertFrom(s, es, j))
  {
    UpsertFromAdds(s, es, j);
    AddKeysAppends(Keys(s), es, j);
    forall i | j <= i < |es| ensures es[i].key in Keys(UpsertFrom(s, es, j)) {
      GivenKeyIsThere(Keys(s), es, j, i);
    }
  }

  /** An entry of the updated list has the last value given to its key, or the value it had. */
  lemma {:induction false} UpsertFromValues<K, V>(s: seq<Entry<K, V>>, es: seq<Entry<K, V>>, j: nat, x: Entry<K, V>)
    requires j <= |es| && Distinct(Keys(s)) && x in UpsertFrom(s, es, j)
    ensures match LastFrom(es, x.key, j) case Some(v) => x.value == v case None => x in s
    decreases |es| - j
  {
    if j < |es| {
      var t := Upsert(s, es[j]);
      UpsertKeys(s, es[j]);
      UpsertFromValues(t, es, j + 1, x);
      if LastFrom(es, x.key, j + 1) == None {
        var k :| 0 <= k < |t| && t[k] == x;
        var i := Find(s, es[j].key);
        if x.key == es[j].key {
          assert Keys(t)[k] == x.key;
          assert Keys(t)[i] == x.key;
        }
      }
    }
  }

  lemma {:induction false} LastIsGiven<K, V>(es: seq<Entry<K, V>>, k: K, j: nat)
    requires j <= |es|
    ensures LastFrom(es, k, j).Some? <==> exists i :: j <= i < |es| && es[i].key == k
    ensures LastFrom(es, k, j).Some? ==> Entry(k, LastFrom(es, k, j).value) in es
    decreases |es| - j
  {
    if j < |es| {
      LastIsGiven(es, k, j + 1);
    }
  }

  lemma KeepKeysCons<K, V>(e: Entry<K, V>, s: seq<Entry<K, V>>, keys: seq<K>)
    ensures KeepKeys([e] + s, keys) == (if e.key in keys then [e] else []) + KeepKeys(s, keys)
  {
    assert ([e] + s)[1..] == s;
  }

  lemma {:induction false} KeepKeysIs<K, V>(s: seq<Entry<K, V>>, keys: seq<K>)
    ensures Keys(KeepKeys(s, keys)) == Common(Keys(s), keys)
    ensures forall x :: x in KeepKeys(s, keys) <==> x in s && x.key in keys
  {
    if s != [] {
      KeepKeysIs(s[1..], keys);
      assert Keys(s)[1..] == Keys(s[1..]);
      assert s == [s[0]] + s[1..];
    }
  }

  lemma {:induction false} CommonIs<K>(s: seq<K>, keys: seq<K>)
    ensures forall i :: 0 <= i < |Common(s, keys)| ==> Common(s, keys)[i] in s && Common(s, keys)[i] in keys
    ensures forall i :: 0 <= i < |s| && s[i] in keys ==> s[i] in Common(s, keys)
    ensures Distinct(s) ==> Distinct(Common(s, keys))
    ensures (forall i :: 0 <= i < |s| ==> s[i] in keys) ==> Common(s, keys) == s
  {
    if s != [] {
      CommonIs(s[1..], keys);
    }
  }

  lemma {:induction false} CommonOfConcat<K>(a: seq<K>, b: seq<K>, keys: seq<K>)
    ensures Common(a + b, keys) == Common(a, keys) + Common(b, keys)
  {
    if a == [] {
      assert a + b == b;
    } else {
      var head := if a[0] in keys then [a[0]] else [];
      assert (a + b)[1..] == a[1..] + b && (a + b)[0] == a[0];
      CommonOfConcat(a[1..], b, keys);
      assert Common(a + b, keys) == head + Common(a[1..] + b, keys);
      assert head + (Common(a[1..], keys) + Common(b, keys)) == (head + Common(a[1..], keys)) + Common(b, keys);
    }
  }

  lemma {:induction false} NewKeysAreGiven<K, V>(seen: seq<K>, es: seq<Entry<K, V>>, j: nat)
    requires j <= |es|
    ensures forall i :: 0 <= i < |NewKeysFrom(seen, es, j)| ==> NewKeysFrom(seen, es, j)[i] in Keys(es)
    decreases |es| - j
  {
    if j < |es| {
      NewKeysAreGiven(seen, es, j + 1);
      NewKeysAreGiven(seen + [es[j].key], es, j + 1);
      assert Keys(es)[j] == es[j].key;
    }
  }

  /** An entry past the old ones has a key of the snapshot. */
  lemma NewEntryIsGiven<K, V>(s: seq<Entry<K, V>>, es: seq<Entry<K, V>>, i: nat)
    requires |s| <= i < |UpsertFrom(s, es, 0)|
    ensures UpsertFrom(s, es, 0)[i].key in Keys(es)
  {
    var given := NewKeysFrom(Keys(s), es, 0);
    UpsertFromKeys(s, es, 0);
    NewKeysAreGiven(Keys(s), es, 0);
    assert Keys(UpsertFrom(s, es, 0))[i] == given[i - |s|];
  }

  /** The survivors come first in their old order, then the new keys. */
  lemma ReconcileOrder<K, V>(s: seq<Entry<K, V>>, es: seq<Entry<K, V>>)
    ensures Keys(Reconcile(s, es)) == Common(Keys(s), Keys(es)) + NewKeys(Keys(s), es)
  {
    var added := NewKeys(Keys(s), es);
    UpsertFromKeys(s, es, 0);
    KeepKeysIs(UpsertFrom(s, es, 0), Keys(es));
    CommonOfConcat(Keys(s), added, Keys(es));
    NewKeysAreGiven(Keys(s), es, 0);
    CommonIs(added, Keys(es));
  }

  lemma KeyOf<K, V>(es: seq<Entry<K, V>>, e: Entry<K, V>)
    requires e in es
    ensures e.key in Keys(es)
  {
    var i :| 0 <= i < |es| && es[i] == e;
    assert Keys(es)[i] == e.key;
  }

  /** After a snapshot the list agrees with it, whatever was there before. */
  lemma ReconcileAgrees<K, V>(s: seq<Entry<K, V>>, es: seq<Entry<K, V>>)
    requires Distinct(Keys(s))
    ensures Agrees(Reconcile(s, es), es)
  {
    var all, r := UpsertFrom(s, es, 0), Reconcile(s, es);
    UpsertFromKeys(s, es, 0);
    KeepKeysIs(all, Keys(es));
    assert Distinct(Keys(r)) && forall e :: e in es ==> e.key in Keys(r) by {
      CommonIs(Keys(all), Keys(es));
      forall e | e in es ensures e.key in Keys(r) {
        KeyOf(es, e);
      }
    }
    forall x | x in r ensures Last(es, x.key) == Some(x.value) {
      var i :| 0 <= i < |Keys(es)| && Keys(es)[i] == x.key;
      assert es[i].key == x.key;
      LastIsGiven(es, x.key, 0);
      UpsertFromValues(s, es, 0, x);
    }
  }

  /** Two lists that agree with one snapshot hold the same entries. */
  lemma AgreementIsUnique<K, V>(a: seq<Entry<K, V>>, b: seq<Entry<K, V>>, es: seq<Entry<K, V>>, x: Entry<K, V>)
    requires Agrees(a, es) && Agrees(b, es) && x in a
    ensures x in b
  {
    LastIsGiven(es, x.key, 0);
    assert x in es;
    var i :| 0 <= i < |Keys(b)| && Keys(b)[i] == x.key;
    assert b[i] in b;
  }
}
