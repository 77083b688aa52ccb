/** Which items an update reports as changed, for every list whose items are found by a key
    and compared by one field of the connection: the paths and ids of the VPN and DSL items,
    the (device, uuid) pairs and ssids of the hotspots. */
module TaggedSlots {
  import opened Sequences

  /** An item as the comparison sees it. */
  datatype Slot<K, A> = Slot(ident: nat, key: K, tag: A)

  /** An entry of a snapshot as the comparison sees it. */
  datatype Entry<K, A> = Entry(key: K, tag: A)

  /** The index of the first slot with the key at or after `from`, or |slots|. */
  function FindSlot<K(==), A>(slots: seq<Slot<K, A>>, key: K, from: nat): (i: nat)
    requires from <= |slots|
    ensures from <= i <= |slots| && (i < |slots| ==> slots[i].key == key)
    ensures forall j :: from <= j < i ==> slots[j].key != key
    decreases |slots| - from
  {
    if from == |slots| || slots[from].key == key then from else FindSlot(slots, key, from + 1)
  }

  function PlaceTag<K(==), A>(slots: seq<Slot<K, A>>, next: nat, e: Entry<K, A>): seq<Slot<K, A>> {
    var k := FindSlot(slots, e.key, 0);
    if k < |slots| then slots[k := slots[k].(tag := e.tag)] else slots + [Slot(next, e.key, e.tag)]
  }

  /** The slots the entries from j on find under another tag, as they find them. */
  function Retagged<K(==), A(==)>(slots: seq<Slot<K, A>>, next: nat, es: seq<Entry<K, A>>, j: nat): seq<nat>
    requires j <= |es|
    decreases |es| - j
  {
    if j == |es| then []
    else
      var k := FindSlot(slots, es[j].key, 0);
      var rest := Retagged(PlaceTag(slots, next, es[j]), if k < |slots| then next else next + 1, es, j + 1);
      if k < |slots| && slots[k].tag != es[j].tag then [slots[k].ident] + rest else rest
  }

  /** Slots are told apart by key and by identity, and none has the next identity. */
  ghost predicate Apart<K, A>(slots: seq<Slot<K, A>>, next: nat) {
    && (forall i, j :: 0 <= i < j < |slots| ==> slots[i].ident != slots[j].ident && slots[i].key != slots[j].key)
    && (forall i :: 0 <= i < |slots| ==> slots[i].ident < next)
  }

  /** No key is listed twice from the j-th entry on. */
  ghost predicate DistinctFrom<K, A>(es: seq<Entry<K, A>>, j: nat) {
    forall m, n :: j <= m < n < |es| ==> es[m].key != es[n].key
  }

  ghost predicate Lists<K, A>(es: seq<Entry<K, A>>, j: nat, key: K) {
    exists m :: j <= m < |es| && es[m].key == key
  }

  /** An entry from the j-th on has the slot's key and another tag. */
  ghost predicate Retags<K, A>(es: seq<Entry<K, A>>, j: nat, s: Slot<K, A>) {
    exists m :: j <= m < |es| && es[m].key == s.key && es[m].tag != s.tag
  }

  lemma OneEntryOn<K, A>(es: seq<Entry<K, A>>, j: nat, s: Slot<K, A>)
    requires j < |es| && DistinctFrom(es, j)
    ensures Lists(es, j, s.key) <==> (es[j].key == s.key || Lists(es, j + 1, s.key))
    ensures Retags(es, j, s) <==> if es[j].key == s.key then es[j].tag != s.tag else Retags(es, j + 1, s)
    ensures es[j].key == s.key ==> !Lists(es, j + 1, s.key) && !Retags(es, j + 1, s)
  {
    var k := j + 1;
    if Lists(es, k, s.key) {
      var m :| k <= m < |es| && es[m].key == s.key;
      assert j <= m;
    }
    if Retags(es, k, s) {
      var m :| k <= m < |es| && es[m].key == s.key && es[m].tag != s.tag;
      assert j <= m;
    }
  }

  /** `changed` names slots the entries from the j-th on list, each once, and exactly those they retag. */
  ghost predicate ChangesAre<K, A>(slots: seq<Slot<K, A>>, es: seq<Entry<K, A>>, j: nat, changed: seq<nat>) {
    && Distinct(changed)
    && (forall x :: x in changed ==>
          exists i :: 0 <= i < |slots| && slots[i].ident == x && Lists(es, j, slots[i].key))
    && (forall i :: 0 <= i < |slots| ==> (slots[i].ident in changed <==> Retags(es, j, slots[i])))
  }

  /** One entry that finds the k-th slot. */
  lemma FoundTurn<K, A>(slots: seq<Slot<K, A>>, next: nat, es: seq<Entry<K, A>>, j: nat, k: nat, rest: seq<nat>)
    requires Apart(slots, next) && j < |es| && DistinctFrom(es, j) && k < |slots| && slots[k].key == es[j].key
    requires ChangesAre(slots[k := slots[k].(tag := es[j].tag)], es, j + 1, rest)
    ensures ChangesAre(slots, es, j, if slots[k].tag != es[j].tag then [slots[k].ident] + rest else rest)
  {
    var after := slots[k := slots[k].(tag := es[j].tag)];
    var changed := if slots[k].tag != es[j].tag then [slots[k].ident] + rest else rest;
    OneEntryOn(es, j, slots[k]);
    OneEntryOn(es, j, after[k]);
    assert after[k].ident == slots[k].ident;
    forall i | 0 <= i < |slots|
      ensures slots[i].ident in changed <==> Retags(es, j, slots[i])
    {
      OneEntryOn(es, j, slots[i]);
      assert i != k ==> after[i] == slots[i] && slots[i].key != es[j].key;
    }
    forall x | x in changed
      ensures exists i :: 0 <= i < |slots| && slots[i].ident == x && Lists(es, j, slots[i].key)
    {
      if x in rest {
        var i :| 0 <= i < |after| && after[i].ident == x && Lists(es, j + 1, after[i].key);
        assert slots[i].key == after[i].key;
        OneEntryOn(es, j, slots[i]);
      }
    }
  }

  /** One entry that finds no slot and appends one. */
  lemma NewTurn<K, A>(slots: seq<Slot<K, A>>, next: nat, es: seq<Entry<K, A>>, j: nat, rest: seq<nat>)
    requires Apart(slots, next) && j < |es| && DistinctFrom(es, j)
    requires forall i :: 0 <= i < |slots| ==> slots[i].key != es[j].key
    requires ChangesAre(slots + [Slot(next, es[j].key, es[j].tag)], es, j + 1, rest)
    ensures ChangesAre(slots, es, j, rest)
  {
    var after := slots + [Slot(next, es[j].key, es[j].tag)];
    OneEntryOn(es, j, after[|slots|]);
    forall i | 0 <= i < |slots|
      ensures slots[i].ident in rest <==> Retags(es, j, slots[i])
    {
      OneEntryOn(es, j, slots[i]);
      assert after[i] == slots[i];
    }
    forall x | x in rest
      ensures exists i :: 0 <= i < |slots| && slots[i].ident == x && Lists(es, j, slots[i].key)
    {
      var i :| 0 <= i < |after| && after[i].ident == x && Lists(es, j + 1, after[i].key);
      assert i < |slots| && after[i] == slots[i];
      OneEntryOn(es, j, slots[i]);
    }
  }

  lemma {:induction false} RetaggedAre<K, A>(slots: seq<Slot<K, A>>, next: nat, es: seq<Entry<K, A>>, j: nat)
    requires Apart(slots, next) && j <= |es| && DistinctFrom(es, j)
    ensures ChangesAre(slots, es, j, Retagged(slots, next, es, j))
    decreases |es| - j
  {
    if j < |es| {
      var k := FindSlot(slots, es[j].key, 0);
      var after, on := PlaceTag(slots, next, es[j]), if k < |slots| then next else next + 1;
      RetaggedAre(after, on, es, j + 1);
      if k < |slots| {
        FoundTurn(slots, next, es, j, k, Retagged(after, on, es, j + 1));
      } else {
        NewTurn(slots, next, es, j, Retagged(after, on, es, j + 1));
      }
    }
  }
}
