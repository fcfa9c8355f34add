/**
 `OpenAddressingHashMap` of include/HashMap.hpp: linear probing with tombstones
 and growth by rehashing. The hash is any function; the table size is a power
 of two in the source, where masking is the remainder used here.
 */
module OpenAddressing {
  import opened Basics

  datatype Slot<K, V> = Empty | Occupied(key: K, value: V) | Deleted

  // ----- Probe sequences -----

  /** The slot that the probe for k reaches after d steps. */
  function At<K>(hash: K -> nat, k: K, n: nat, d: nat): (i: nat)
    requires d < n
    ensures i < n
  {
    var h := hash(k) % n;
    if h + d < n then h + d else h + d - n
  }

  /** How many steps the probe for k needs to reach slot i. */
  function Dist<K>(hash: K -> nat, k: K, n: nat, i: nat): (d: nat)
    requires i < n
    ensures d < n && At(hash, k, n, d) == i
  {
    var h := hash(k) % n;
    if i >= h then i - h else i - h + n
  }

  predicate Has<K(==), V>(s: Slot<K, V>, k: K) {
    s.Occupied? && s.key == k
  }

  function ProbeSlot<K, V>(t: seq<Slot<K, V>>, hash: K -> nat, k: K, d: nat): Slot<K, V>
    requires d < |t|
  {
    t[At(hash, k, |t|, d)]
  }

  /** No empty slot lies between a key's home and a slot that holds it. */
  ghost predicate ProbeOk<K(!new), V(!new)>(t: seq<Slot<K, V>>, hash: K -> nat) {
    forall k: K, d: nat, e: nat {:trigger ProbeSlot(t, hash, k, d), ProbeSlot(t, hash, k, e)} ::
      d < e < |t| && Has(ProbeSlot(t, hash, k, e), k) ==> !ProbeSlot(t, hash, k, d).Empty?
  }

  /** Every key is held by at most one slot. */
  ghost predicate Unique<K(!new), V(!new)>(t: seq<Slot<K, V>>) {
    forall i: nat, j: nat :: i < |t| && j < |t| && t[i].Occupied? && t[j].Occupied? && t[i].key == t[j].key ==> i == j
  }

  ghost predicate Present<K(!new), V(!new)>(t: seq<Slot<K, V>>, k: K) {
    exists i: nat :: i < |t| && Has(t[i], k)
  }

  /** A slot holding k lies behind a tombstone of its probe. */
  ghost predicate Shadowed<K(!new), V(!new)>(t: seq<Slot<K, V>>, hash: K -> nat, k: K) {
    exists d: nat, e: nat {:trigger ProbeSlot(t, hash, k, d), ProbeSlot(t, hash, k, e)} ::
      d < e < |t| && ProbeSlot(t, hash, k, d).Deleted? && Has(ProbeSlot(t, hash, k, e), k)
  }

  ghost predicate TombstoneFree<K(!new), V(!new)>(t: seq<Slot<K, V>>) {
    forall i: nat :: i < |t| ==> !t[i].Deleted?
  }

  /** The map that a left-to-right scan of the slots builds. */
  ghost function Model<K, V>(t: seq<Slot<K, V>>): map<K, V> {
    if t == [] then map[]
    else
      var m, s := Model(t[..|t| - 1]), t[|t| - 1];
      if s.Occupied? then m[s.key := s.value] else m
  }

  /** The table stands for m: each key of m has exactly one slot, which holds its value. */
  ghost predicate Represents<K(!new), V(!new)>(t: seq<Slot<K, V>>, m: map<K, V>) {
    && Unique(t)
    && (forall i: nat :: i < |t| && t[i].Occupied? ==> t[i].key in m && m[t[i].key] == t[i].value)
    && (forall k :: k in m ==> Present(t, k))
  }

  lemma {:induction false} ModelKeys<K(!new), V(!new)>(t: seq<Slot<K, V>>, k: K)
    ensures k in Model(t) <==> Present(t, k)
  {
    if t != [] {
      var n := |t| - 1;
      ModelKeys(t[..n], k);
      if Present(t[..n], k) {
        var i: nat :| i < n && Has(t[..n][i], k);
        assert Has(t[i], k);
      }
      if Present(t, k) {
        var i: nat :| i < |t| && Has(t[i], k);
        assert i < n ==> Has(t[..n][i], k);
      }
      assert Has(t[n], k) ==> Present(t, k);
    }
  }

  lemma {:induction false} ModelValues<K(!new), V(!new)>(t: seq<Slot<K, V>>, i: nat)
    requires Unique(t) && i < |t| && t[i].Occupied?
    ensures t[i].key in Model(t) && Model(t)[t[i].key] == t[i].value
  {
    var n := |t| - 1;
    assert t[..n][..] == t[..n];
    if i < n {
      assert t[..n][i] == t[i];
      assert Unique(t[..n]);
      ModelValues(t[..n], i);
    }
  }

  /** A table represents a map iff it has no duplicate and the scan builds that map. */
  lemma RepresentsIff<K(!new), V(!new)>(t: seq<Slot<K, V>>, m: map<K, V>)
    ensures Represents(t, m) <==> Unique(t) && m == Model(t)
  {
    forall k: K ensures k in Model(t) <==> Present(t, k) { ModelKeys(t, k); }
    if Unique(t) {
      forall i: nat | i < |t| && t[i].Occupied?
        ensures t[i].key in Model(t) && Model(t)[t[i].key] == t[i].value { ModelValues(t, i); }
      if Represents(t, m) {
        forall k: K ensures k in m <==> k in Model(t) {
          if Present(t, k) { var i: nat :| i < |t| && Has(t[i], k); }
        }
        forall k: K | k in m ensures m[k] == Model(t)[k] {
          var i: nat :| i < |t| && Has(t[i], k);
        }
      }
    }
  }

  // ----- Occupancy -----

  ghost function OccupiedWeight<K, V>(): Slot<K, V> -> nat {
    (s: Slot<K, V>) => if s.Occupied? then 1 else 0
  }

  ghost function Count<K, V>(t: seq<Slot<K, V>>): nat {
    SumBy(t, OccupiedWeight())
  }

  lemma {:induction false} CountFull<K, V>(t: seq<Slot<K, V>>)
    ensures Count(t) <= |t|
    ensures (forall i: nat :: i < |t| ==> t[i].Occupied?) ==> Count(t) == |t|
  {
    if t != [] {
      CountFull(t[1..]);
      assert forall i: nat :: i < |t| - 1 ==> t[1..][i] == t[i + 1];
    }
  }

  lemma CountUpdate<K, V>(t: seq<Slot<K, V>>, i: nat, s: Slot<K, V>)
    requires i < |t|
    ensures Count(t[i := s]) == Count(t) - (if t[i].Occupied? then 1 else 0) + (if s.Occupied? then 1 else 0)
  {
    SumByUpdate(t, i, s, OccupiedWeight());
  }

  lemma CountPrefix<K, V>(t: seq<Slot<K, V>>, i: nat)
    requires i < |t|
    ensures Count(t[..i + 1]) == Count(t[..i]) + (if t[i].Occupied? then 1 else 0)
    ensures Count(t[..i + 1]) <= Count(t)
  {
    assert t[..i + 1] == t[..i] + [t[i]] && t == t[..i + 1] + t[i + 1..];
    SumByAppend(t[..i], [t[i]], OccupiedWeight());
    SumByAppend(t[..i + 1], t[i + 1..], OccupiedWeight());
  }

  /** A table that is not full has a free slot on every probe. */
  lemma FreeDistance<K(!new), V(!new)>(t: seq<Slot<K, V>>, hash: K -> nat, k: K) returns (d: nat)
    requires Count(t) < |t|
    ensures d < |t| && !ProbeSlot(t, hash, k, d).Occupied?
  {
    CountFull(t);
    var i: nat :| i < |t| && !t[i].Occupied?;
    d := Dist(hash, k, |t|, i);
  }

  // ----- One insertion, one erasure -----

  /** Where the insertion loops stop: the first slot of the probe not occupied by another key. */
  ghost predicate InsertPoint<K(!new), V(!new)>(t: seq<Slot<K, V>>, hash: K -> nat, k: K, d: nat) {
    && d < |t|
    && (ProbeSlot(t, hash, k, d).Occupied? ==> ProbeSlot(t, hash, k, d).key == k)
    && (forall e: nat {:trigger ProbeSlot(t, hash, k, e)} :: e < d ==>
          ProbeSlot(t, hash, k, e).Occupied? && ProbeSlot(t, hash, k, e).key != k)
  }

  ghost function Put<K(!new), V(!new)>(t: seq<Slot<K, V>>, hash: K -> nat, k: K, d: nat, s: Slot<K, V>): seq<Slot<K, V>>
    requires d < |t|
  {
    t[At(hash, k, |t|, d) := s]
  }

  /** The insertion probe for k ends at a slot that already holds k. */
  ghost predicate Reached<K(!new), V(!new)>(t: seq<Slot<K, V>>, hash: K -> nat, k: K) {
    exists d: nat :: InsertPoint(t, hash, k, d) && ProbeSlot(t, hash, k, d).Occupied?
  }

  /** t' is t after an insertion that did not grow the table. */
  ghost predicate Inserted<K(!new), V(!new)>(t: seq<Slot<K, V>>, hash: K -> nat, k: K, v: V, t': seq<Slot<K, V>>) {
    exists d: nat :: InsertPoint(t, hash, k, d) && t' == Put(t, hash, k, d, Occupied(k, v))
  }

  lemma PutKeepsProbe<K(!new), V(!new)>(t: seq<Slot<K, V>>, hash: K -> nat, k: K, d: nat, s: Slot<K, V>)
    requires ProbeOk(t, hash) && d < |t| && !s.Empty?
    requires s.Occupied? ==> InsertPoint(t, hash, k, d) && s.key == k
    ensures ProbeOk(Put(t, hash, k, d, s), hash)
  {
    var t', n := Put(t, hash, k, d, s), |t|;
    forall x: K, a: nat, e: nat {:trigger ProbeSlot(t', hash, x, a), ProbeSlot(t', hash, x, e)} |
      a < e < n && Has(ProbeSlot(t', hash, x, e), x)
      ensures !ProbeSlot(t', hash, x, a).Empty?
    {
      var before := ProbeSlot(t, hash, x, a);
      if At(hash, x, n, e) == At(hash, k, n, d) {
        assert x == k && e == d;
      } else {
        assert ProbeSlot(t, hash, x, e) == ProbeSlot(t', hash, x, e);
      }
      assert !before.Empty?;
    }
  }

  /** Insertion adds its key and no other. */
  lemma InsertedKeys<K(!new), V(!new)>(t: seq<Slot<K, V>>, hash: K -> nat, k: K, v: V, t': seq<Slot<K, V>>, x: K)
    requires Inserted(t, hash, k, v, t')
    ensures Present(t', x) <==> x == k || Present(t, x)
  {
    var d: nat :| InsertPoint(t, hash, k, d) && t' == Put(t, hash, k, d, Occupied(k, v));
    var i := At(hash, k, |t|, d);
    assert Has(t'[i], k);
    if Present(t, x) {
      var j: nat :| j < |t| && Has(t[j], x);
      assert Has(t'[j], x);
    }
    if x != k && Present(t', x) {
      var j: nat :| j < |t| && Has(t'[j], x);
      assert Has(t[j], x);
    }
  }

  /** The copies of k other than the insertion point are exactly the shadowed ones. */
  lemma OtherCopyIffShadowed<K(!new), V(!new)>(t: seq<Slot<K, V>>, hash: K -> nat, k: K, d: nat)
    requires ProbeOk(t, hash) && InsertPoint(t, hash, k, d) && Unique(t)
    ensures Shadowed(t, hash, k) <==> exists j: nat :: j < |t| && j != At(hash, k, |t|, d) && Has(t[j], k)
  {
    var n := |t|;
    if Shadowed(t, hash, k) {
      var a: nat, e: nat :| a < e < n && ProbeSlot(t, hash, k, a).Deleted? && Has(ProbeSlot(t, hash, k, e), k);
      assert d <= a;
      assert At(hash, k, n, e) != At(hash, k, n, d) && Has(t[At(hash, k, n, e)], k);
    }
    forall j: nat | j < n && j != At(hash, k, n, d) && Has(t[j], k) ensures Shadowed(t, hash, k) {
      var e := Dist(hash, k, n, j);
      assert Has(ProbeSlot(t, hash, k, e), k);
      assert d < e;
      assert ProbeSlot(t, hash, k, d).Deleted?;
    }
  }

  /** Writing a key whose only possible slot is i updates the map. */
  lemma WriteUpdates<K(!new), V(!new)>(t: seq<Slot<K, V>>, m: map<K, V>, k: K, v: V, i: nat)
    requires Represents(t, m) && i < |t| && (t[i].Occupied? ==> t[i].key == k)
    requires forall j: nat :: j < |t| && j != i ==> !Has(t[j], k)
    ensures Represents(t[i := Occupied(k, v)], m[k := v])
  {
    var t' := t[i := Occupied(k, v)];
    assert forall j: nat :: j < |t| && j != i ==> t'[j] == t[j];
    forall x | x in m[k := v] ensures Present(t', x) {
      if x == k {
        assert Has(t'[i], k);
      } else {
        var j: nat :| j < |t| && Has(t[j], x);
        assert Has(t'[j], x);
      }
    }
  }

  /** Insertion into a table that stands for m yields m[k := v] exactly when k is not shadowed. */
  lemma InsertedModel<K(!new), V(!new)>(t: seq<Slot<K, V>>, hash: K -> nat, k: K, v: V, t': seq<Slot<K, V>>, m: map<K, V>)
    requires ProbeOk(t, hash) && Represents(t, m) && Inserted(t, hash, k, v, t')
    ensures Represents(t', m[k := v]) <==> !Shadowed(t, hash, k)
    ensures Unique(t') <==> !Shadowed(t, hash, k)
  {
    var d: nat :| InsertPoint(t, hash, k, d) && t' == Put(t, hash, k, d, Occupied(k, v));
    var i := At(hash, k, |t|, d);
    OtherCopyIffShadowed(t, hash, k, d);
    if Shadowed(t, hash, k) {
      var j: nat :| j < |t| && j != i && Has(t[j], k);
      assert t'[j] == t[j] && t'[i].key == k;
    } else {
      WriteUpdates(t, m, k, v, i);
    }
  }

  /** Without tombstones nothing is shadowed, and insertion leaves none. */
  lemma InsertedNoTombstone<K(!new), V(!new)>(t: seq<Slot<K, V>>, hash: K -> nat, k: K, v: V, t': seq<Slot<K, V>>)
    requires TombstoneFree(t) && Inserted(t, hash, k, v, t')
    ensures !Shadowed(t, hash, k) && TombstoneFree(t')
  {
  }

  lemma EraseModel<K(!new), V(!new)>(t: seq<Slot<K, V>>, m: map<K, V>, i: nat)
    requires Represents(t, m) && i < |t| && t[i].Occupied?
    ensures Represents(t[i := Deleted], m - {t[i].key})
  {
    var t' := t[i := Deleted];
    assert forall j: nat :: j < |t| && j != i ==> t'[j] == t[j];
    forall x | x in m - {t[i].key} ensures Present(t', x) {
      var j: nat :| j < |t| && Has(t[j], x);
      assert Has(t'[j], x);
    }
  }

  /** A probe that has seen no match is over when it meets an empty slot or comes round. */
  lemma AbsentAtEmpty<K(!new), V(!new)>(t: seq<Slot<K, V>>, hash: K -> nat, k: K, e: nat)
    requires ProbeOk(t, hash) && e <= |t| && (e < |t| ==> ProbeSlot(t, hash, k, e).Empty?)
    requires forall d: nat {:trigger ProbeSlot(t, hash, k, d)} :: d < e ==> !Has(ProbeSlot(t, hash, k, d), k)
    ensures !Present(t, k)
  {
    forall i: nat | i < |t| ensures !Has(t[i], k) {
      var d := Dist(hash, k, |t|, i);
      assert t[i] == ProbeSlot(t, hash, k, d);
    }
  }

  /**
   Inserting a key and erasing it again must leave it absent. It does so exactly
   when the key was not shadowed: otherwise the older copy resurfaces.
   */
  lemma InsertEraseIffNotShadowed<K(!new), V(!new)>(t: seq<Slot<K, V>>, hash: K -> nat, k: K, v: V, d: nat)
    requires ProbeOk(t, hash) && Unique(t) && InsertPoint(t, hash, k, d)
    ensures Present(Put(Put(t, hash, k, d, Occupied(k, v)), hash, k, d, Deleted), k) <==> Shadowed(t, hash, k)
  {
    var i := At(hash, k, |t|, d);
    var t' := Put(Put(t, hash, k, d, Occupied(k, v)), hash, k, d, Deleted);
    assert t' == t[i := Deleted];
    OtherCopyIffShadowed(t, hash, k, d);
    if Present(t', k) {
      var j: nat :| j < |t'| && Has(t'[j], k);
      assert Has(t[j], k);
    }
    if Shadowed(t, hash, k) {
      var j: nat :| j < |t| && j != i && Has(t[j], k);
      assert Has(t'[j], k);
    }
  }

  function ToZero(k: int): nat { 0 }

  /** Erasing k leaves a tombstone in the first slot of its probe that holds it. */
  ghost predicate Erased<K(!new), V(!new)>(t: seq<Slot<K, V>>, hash: K -> nat, k: K, t': seq<Slot<K, V>>) {
    exists i: nat :: FirstMatch(t, hash, k, i) && t' == t[i := Deleted]
  }

  /** Such a run: insert 1, insert 2, erase 1, insert 2 again, erase 2; key 2 is still there. */
  lemma StaleCopyResurfaces()
    ensures
      var t0: seq<Slot<int, int>> := [Empty, Empty, Empty, Empty];
      var t1: seq<Slot<int, int>> := [Occupied(1, 10), Empty, Empty, Empty];
      var t2: seq<Slot<int, int>> := [Occupied(1, 10), Occupied(2, 20), Empty, Empty];
      var t3: seq<Slot<int, int>> := [Deleted, Occupied(2, 20), Empty, Empty];
      var t4: seq<Slot<int, int>> := [Occupied(2, 21), Occupied(2, 20), Empty, Empty];
      && Inserted(t0, ToZero, 1, 10, t1) && Inserted(t1, ToZero, 2, 20, t2) && Erased(t2, ToZero, 1, t3)
      && Inserted(t3, ToZero, 2, 21, t4) && Erased(t4, ToZero, 2, t3) && Present(t3, 2)
  {
    var t0: seq<Slot<int, int>> := [Empty, Empty, Empty, Empty];
    var t1: seq<Slot<int, int>> := [Occupied(1, 10), Empty, Empty, Empty];
    var t2: seq<Slot<int, int>> := [Occupied(1, 10), Occupied(2, 20), Empty, Empty];
    var t3: seq<Slot<int, int>> := [Deleted, Occupied(2, 20), Empty, Empty];
    var t4: seq<Slot<int, int>> := [Occupied(2, 21), Occupied(2, 20), Empty, Empty];
    assert InsertPoint(t0, ToZero, 1, 0) && Put(t0, ToZero, 1, 0, Occupied(1, 10)) == t1;
    assert ProbeSlot(t1, ToZero, 2, 0) == Occupied(1, 10);
    assert InsertPoint(t1, ToZero, 2, 1) && Put(t1, ToZero, 2, 1, Occupied(2, 20)) == t2;
    assert FirstMatch(t2, ToZero, 1, 0) && t2[0 := Deleted] == t3;
    assert InsertPoint(t3, ToZero, 2, 0) && Put(t3, ToZero, 2, 0, Occupied(2, 21)) == t4;
    assert FirstMatch(t4, ToZero, 2, 0) && t4[0 := Deleted] == t3;
    assert Has(t3[1], 2);
  }

  lemma EmptyTable<K(!new), V(!new)>(t: seq<Slot<K, V>>, hash: K -> nat)
    requires forall i: nat :: i < |t| ==> t[i].Empty?
    ensures ProbeOk(t, hash) && Count(t) == 0 && TombstoneFree(t) && Represents(t, map[])
  {
    SumByZero(t, OccupiedWeight());
  }

  lemma SameKeys<K(!new), V(!new)>(t': seq<Slot<K, V>>, t: seq<Slot<K, V>>)
    requires Represents(t', Model(t))
    ensures forall x :: Present(t', x) <==> Present(t, x)
  {
    RepresentsIff(t', Model(t));
    forall x ensures Present(t', x) <==> Present(t, x) {
      ModelKeys(t, x);
      ModelKeys(t', x);
    }
  }

  // ----- The table itself -----

  /** One more element would exceed seven tenths of the slots. */
  predicate TooFull(size: nat, n: nat) {
    (size + 1) * 10 > 7 * n
  }

  /** The first slot of the probe for k that holds k. */
  ghost predicate FirstMatch<K(!new), V(!new)>(t: seq<Slot<K, V>>, hash: K -> nat, k: K, i: nat) {
    && i < |t| && Has(t[i], k)
    && (forall d: nat {:trigger ProbeSlot(t, hash, k, d)} :: d < Dist(hash, k, |t|, i) ==> !Has(ProbeSlot(t, hash, k, d), k))
  }

  class OpenAddressingHashMap<K(==,!new), V(!new)> {
    const hash: K -> nat
    const blank: V
    var table: array<Slot<K, V>>
    var size: nat

    ghost predicate Valid()
      reads this, table
    {
      && table.Length > 0
      && ProbeOk(table[..], hash)
      && size == Count(table[..])
      && size * 10 <= 7 * table.Length
    }

    constructor (hash: K -> nat, blank: V, buckets: nat)
      requires buckets > 0
      ensures Valid() && fresh(table) && this.hash == hash && this.blank == blank
      ensures table.Length == buckets && TombstoneFree(table[..]) && Represents(table[..], map[])
    {
      this.hash, this.blank, size := hash, blank, 0;
      table := new Slot<K, V>[buckets](_ => Empty);
      new;
      EmptyTable(table[..], hash);
    }

    /** The probe that `contains`, `find` and `erase` share. */
    method Locate(k: K) returns (found: bool, index: nat)
      requires Valid()
      ensures found <==> Present(table[..], k)
      ensures found ==> FirstMatch(table[..], hash, k, index)
    {
      var n := table.Length;
      index := hash(k) % n;
      var originalIndex := index;
      ghost var d := 0;
      while table[index] != Empty
        invariant d < n && index == At(hash, k, n, d) && originalIndex == At(hash, k, n, 0)
        invariant forall e: nat {:trigger ProbeSlot(table[..], hash, k, e)} :: e < d ==> !Has(ProbeSlot(table[..], hash, k, e), k)
        decreases n - d
      {
        assert table[index] == ProbeSlot(table[..], hash, k, d);
        if Has(table[index], k) {
          return true, index;
        }
        index, d := (if index + 1 < n then index + 1 else 0), d + 1;
        if index == originalIndex {
          AbsentAtEmpty(table[..], hash, k, n);
          return false, index;
        }
      }
      AbsentAtEmpty(table[..], hash, k, d);
      found := false;
    }

    method Contains(k: K) returns (found: bool)
      requires Valid()
      ensures found <==> Present(table[..], k)
      ensures found <==> k in Model(table[..])
    {
      var i;
      found, i := Locate(k);
      ModelKeys(table[..], k);
    }

    method Find(k: K) returns (r: Option<V>)
      requires Valid()
      ensures r.Some? <==> Present(table[..], k)
      ensures forall m :: Represents(table[..], m) ==> r == if k in m then Some(m[k]) else None
    {
      var found, i := Locate(k);
      r := if found then Some(table[i].value) else None;
    }

    method Erase(k: K) returns (found: bool)
      requires Valid()
      modifies this`size, table
      ensures Valid()
      ensures found <==> old(Present(table[..], k))
      ensures !found ==> table[..] == old(table[..]) && size == old(size)
      ensures found ==> size == old(size) - 1
      ensures found ==> Erased(old(table[..]), hash, k, table[..])
      ensures forall m :: Represents(old(table[..]), m) ==> Represents(table[..], m - {k})
    {
      var i;
      found, i := Locate(k);
      ghost var t := table[..];
      if found {
        ghost var d := Dist(hash, k, |t|, i);
        PutKeepsProbe(t, hash, k, d, Deleted);
        CountUpdate(t, i, Deleted);
        table[i] := Deleted;
        size := size - 1;
        assert table[..] == t[i := Deleted];
        forall m | Represents(t, m) ensures Represents(table[..], m - {k}) { EraseModel(t, m, i); }
      } else {
        forall m | Represents(t, m) ensures Represents(t, m - {k}) { assert k !in m; assert m - {k} == m; }
      }
    }

    /** Writes a key at its insertion point. */
    method PutAt(k: K, v: V, i: nat, ghost d: nat)
      requires Valid() && !TooFull(size, table.Length)
      requires InsertPoint(table[..], hash, k, d) && i == At(hash, k, table.Length, d)
      modifies this`size, table
      ensures Valid() && Inserted(old(table[..]), hash, k, v, table[..])
      ensures size == old(size) + if old(table[i].Occupied?) then 0 else 1
    {
      ghost var t := table[..];
      PutKeepsProbe(t, hash, k, d, Occupied(k, v));
      CountUpdate(t, i, Occupied(k, v));
      size := if table[i].Occupied? then size else size + 1;
      table[i] := Occupied(k, v);
      assert table[..] == Put(t, hash, k, d, Occupied(k, v));
    }

    /** The probe of the insertion loops; it stops because the table is never full. */
    method ProbeForInsert(k: K) returns (i: nat, ghost d: nat)
      requires Valid()
      ensures InsertPoint(table[..], hash, k, d) && i == At(hash, k, table.Length, d)
    {
      var n := table.Length;
      ghost var free := FreeDistance(table[..], hash, k);
      i, d := hash(k) % n, 0;
      while table[i].Occupied? && table[i].key != k
        invariant d <= free && i == At(hash, k, n, d)
        invariant forall e: nat {:trigger ProbeSlot(table[..], hash, k, e)} :: e < d ==>
          ProbeSlot(table[..], hash, k, e).Occupied? && ProbeSlot(table[..], hash, k, e).key != k
        decreases free - d
      {
        assert table[i] == ProbeSlot(table[..], hash, k, d);
        i, d := (if i + 1 < n then i + 1 else 0), d + 1;
      }
    }

    /**
     Insertion. A table that stands for a map stands for the updated map
     afterwards exactly when the table grew or the key was not shadowed.
     */
    method Insert(k: K, v: V)
      requires Valid()
      modifies this`table, this`size, table
      ensures Valid() && (table == old(table) || fresh(table))
      ensures forall x :: Present(table[..], x) <==> x == k || old(Present(table[..], x))
      ensures !old(TooFull(size, table.Length)) ==>
        && table == old(table) && Inserted(old(table[..]), hash, k, v, table[..]) && size <= old(size) + 1
      ensures forall m :: Represents(old(table[..]), m) ==>
        (Represents(table[..], m[k := v]) <==> old(TooFull(size, table.Length)) || !Shadowed(old(table[..]), hash, k))
      ensures old(TooFull(size, table.Length)) ==> Represents(table[..], Model(old(table[..]))[k := v])
      decreases if TooFull(size, table.Length) then 3 else 0
    {
      ghost var grew, t := TooFull(size, table.Length), table[..];
      if TooFull(size, table.Length) {
        Rehash();
      }
      ghost var t1 := table[..];
      var i; ghost var d;
      i, d := ProbeForInsert(k);
      PutAt(k, v, i, d);
      forall x ensures Present(table[..], x) <==> x == k || Present(t, x) { InsertedKeys(t1, hash, k, v, table[..], x); }
      forall m | Represents(t1, m)
        ensures Represents(table[..], m[k := v]) <==> !Shadowed(t1, hash, k) { InsertedModel(t1, hash, k, v, table[..], m); }
      if grew {
        InsertedNoTombstone(t1, hash, k, v, table[..]);
        forall m | Represents(t, m) ensures m == Model(t) { RepresentsIff(t, m); }
      }
    }

    /**
     Doubling. No insertion of the loop can ask for another rehash, which is
     why the recursion ends; the keys are kept, and of several copies of one
     key the last in slot order survives.
     */
    method Rehash()
      requires Valid()
      modifies this`table, this`size
      ensures Valid() && fresh(table) && table.Length == 2 * old(table.Length) && !TooFull(size, table.Length)
      ensures TombstoneFree(table[..]) && Represents(table[..], Model(old(table[..])))
      ensures forall x :: Present(table[..], x) <==> old(Present(table[..], x))
      ensures size <= old(size)
      decreases 2
    {
      var oldTable := table;
      ghost var t := oldTable[..];
      table := new Slot<K, V>[2 * oldTable.Length](_ => Empty);
      size := 0;
      EmptyTable(table[..], hash);
      var i := 0;
      while i < oldTable.Length
        invariant i <= oldTable.Length && oldTable[..] == t
        invariant Valid() && fresh(table) && table.Length == 2 * oldTable.Length
        invariant TombstoneFree(table[..]) && Represents(table[..], Model(t[..i])) && size <= Count(t[..i])
      {
        CountPrefix(t, i);
        assert t[..i + 1][..i] == t[..i] && t[..i + 1][i] == t[i];
        Move(oldTable[i], Model(t[..i]));
        i := i + 1;
      }
      assert t[..i] == t;
      SameKeys(table[..], t);
    }

    /** One turn of the copying loop: a tombstone-free table takes over one slot of the old one. */
    method Move(slot: Slot<K, V>, ghost m: map<K, V>)
      requires Valid() && TombstoneFree(table[..]) && Represents(table[..], m) && (slot.Occupied? ==> !TooFull(size, table.Length))
      modifies this`table, this`size, table
      ensures Valid() && table == old(table) && TombstoneFree(table[..])
      ensures Represents(table[..], if slot.Occupied? then m[slot.key := slot.value] else m)
      ensures size <= old(size) + if slot.Occupied? then 1 else 0
      decreases 1
    {
      if slot.Occupied? {
        ghost var t := table[..];
        Insert(slot.key, slot.value);
        InsertedNoTombstone(t, hash, slot.key, slot.value, table[..]);
      }
    }

    /**
     `operator[]`: the slot of k, created with a blank value when the probe
     meets a free slot before it. None stands for "HashMap is full", which
     cannot be the result.
     */
    method Subscript(k: K) returns (r: Option<nat>)
      requires Valid()
      modifies this`table, this`size, table
      ensures Valid() && (table == old(table) || fresh(table))
      ensures r.Some? && r.value < table.Length && Has(table[r.value], k)
      ensures forall x :: Present(table[..], x) <==> x == k || old(Present(table[..], x))
      ensures forall m :: Represents(old(table[..]), m) ==>
        var wanted := if k in m then m else m[k := blank];
        && (Represents(table[..], wanted) <==> old(TooFull(size, table.Length)) || !Shadowed(old(table[..]), hash, k))
        && (Unique(table[..]) ==> Represents(table[..], wanted))
      ensures Reached(old(table[..]), hash, k) ==> table == old(table) && table[..] == old(table[..])
      ensures !Reached(old(table[..]), hash, k) && !old(TooFull(size, table.Length)) ==>
        table == old(table) && Inserted(old(table[..]), hash, k, blank, table[..])
      ensures !Reached(old(table[..]), hash, k) && old(TooFull(size, table.Length)) ==>
        var m := Model(old(table[..]));
        Represents(table[..], if k in m then m else m[k := blank])
      decreases if TooFull(size, table.Length) then 1 else 0
    {
      var n := table.Length;
      ghost var t := table[..];
      ghost var free := FreeDistance(t, hash, k);
      var index := hash(k) % n;
      var originalIndex := index;
      ghost var d := 0;
      while true
        invariant d <= free && index == At(hash, k, n, d) && originalIndex == At(hash, k, n, 0)
        invariant forall e: nat {:trigger ProbeSlot(t, hash, k, e)} :: e < d ==>
          ProbeSlot(t, hash, k, e).Occupied? && ProbeSlot(t, hash, k, e).key != k
        decreases free - d
      {
        assert table[index] == ProbeSlot(t, hash, k, d);
        if !table[index].Occupied? {
          if TooFull(size, table.Length) {
            Rehash();
            ghost var t1 := table[..];
            r := Subscript(k);
            RehashedSubscript(t, t1, hash, k);
            return;
          }
          PutAt(k, blank, index, d);
          SubscriptInserted(t, hash, k, blank, d, table[..]);
          return Some(index);
        } else if table[index].key == k {
          SubscriptFound(t, hash, k, d);
          return Some(index);
        }
        index, d := (if index + 1 < n then index + 1 else 0), d + 1;
        if index == originalIndex {
          assert false;
          return None;
        }
      }
    }

    /** `map[k] = v`: a map update exactly when the table grew or the key was not shadowed. */
    method Assign(k: K, v: V)
      requires Valid()
      modifies this`table, this`size, table
      ensures Valid() && (table == old(table) || fresh(table))
      ensures forall x :: Present(table[..], x) <==> x == k || old(Present(table[..], x))
      ensures forall m :: Represents(old(table[..]), m) ==>
        (Represents(table[..], m[k := v]) <==> old(TooFull(size, table.Length)) || !Shadowed(old(table[..]), hash, k))
    {
      ghost var t := table[..];
      var r := Subscript(k);
      ghost var t1, i := table[..], r.value;
      StoreValue(k, v, r.value);
      forall m | Represents(t, m)
        ensures Represents(table[..], m[k := v]) <==> Represents(t1, if k in m then m else m[k := blank]) {
        OverwriteIsUpdate(t1, m, k, blank, v, i);
      }
    }

    /** Writes through the reference that `operator[]` returned. */
    method StoreValue(k: K, v: V, i: nat)
      requires Valid() && i < table.Length && Has(table[i], k)
      modifies table
      ensures Valid() && table[..] == old(table[..])[i := Occupied(k, v)]
      ensures forall x :: Present(table[..], x) <==> old(Present(table[..], x))
    {
      ghost var t := table[..];
      OverwriteKeepsProbe(t, hash, k, v, i);
      CountUpdate(t, i, Occupied(k, v));
      forall x ensures Present(t[i := Occupied(k, v)], x) <==> Present(t, x) { OverwriteKeepsKeys(t, k, v, i, x); }
      table[i] := Occupied(k, v);
      assert table[..] == t[i := Occupied(k, v)];
    }
  }

  lemma OverwriteKeepsProbe<K(!new), V(!new)>(t: seq<Slot<K, V>>, hash: K -> nat, k: K, v: V, i: nat)
    requires ProbeOk(t, hash) && i < |t| && Has(t[i], k)
    ensures ProbeOk(t[i := Occupied(k, v)], hash)
  {
    var t' := t[i := Occupied(k, v)];
    forall x: K, a: nat, e: nat {:trigger ProbeSlot(t', hash, x, a), ProbeSlot(t', hash, x, e)} |
      a < e < |t| && Has(ProbeSlot(t', hash, x, e), x)
      ensures !ProbeSlot(t', hash, x, a).Empty?
    {
      assert Has(ProbeSlot(t, hash, x, e), x);
      assert !ProbeSlot(t, hash, x, a).Empty?;
    }
  }

  lemma OverwriteKeepsKeys<K(!new), V(!new)>(t: seq<Slot<K, V>>, k: K, v: V, i: nat, x: K)
    requires i < |t| && Has(t[i], k)
    ensures Present(t[i := Occupied(k, v)], x) <==> Present(t, x)
  {
    var t' := t[i := Occupied(k, v)];
    assert forall j: nat :: j < |t| ==> (Has(t'[j], x) <==> Has(t[j], x));
  }

  /** Writing k's slot turns the table for m, with k blank if it was new, into the table for m[k := v]. */
  lemma OverwriteIsUpdate<K(!new), V(!new)>(t: seq<Slot<K, V>>, m: map<K, V>, k: K, blank: V, v: V, i: nat)
    requires i < |t| && Has(t[i], k)
    requires Represents(t, if k in m then m else m[k := blank]) || !Unique(t)
    ensures Represents(t[i := Occupied(k, v)], m[k := v]) <==> Represents(t, if k in m then m else m[k := blank])
  {
    var t', m1 := t[i := Occupied(k, v)], if k in m then m else m[k := blank];
    if Represents(t, m1) {
      assert forall j: nat :: j < |t| && j != i ==> !Has(t[j], k);
      WriteUpdates(t, m1, k, v, i);
      assert m1[k := v] == m[k := v];
    } else {
      var a: nat, b: nat :| a < |t| && b < |t| && t[a].Occupied? && t[b].Occupied? && t[a].key == t[b].key && a != b;
      assert t'[a].Occupied? && t'[b].Occupied? && t'[a].key == t'[b].key;
    }
  }

  /** `operator[]` that met a free slot first: the key is added, and the map is right iff the key was not shadowed. */
  lemma SubscriptInserted<K(!new), V(!new)>(t: seq<Slot<K, V>>, hash: K -> nat, k: K, blank: V, d: nat, t': seq<Slot<K, V>>)
    requires ProbeOk(t, hash) && InsertPoint(t, hash, k, d) && !ProbeSlot(t, hash, k, d).Occupied?
    requires t' == Put(t, hash, k, d, Occupied(k, blank))
    ensures forall x :: Present(t', x) <==> x == k || Present(t, x)
    ensures forall m :: Represents(t, m) ==>
      && (Represents(t', if k in m then m else m[k := blank]) <==> !Shadowed(t, hash, k))
      && (Unique(t') ==> Represents(t', if k in m then m else m[k := blank]))
    ensures Inserted(t, hash, k, blank, t') && !Reached(t, hash, k)
  {
    assert Inserted(t, hash, k, blank, t');
    forall x ensures Present(t', x) <==> x == k || Present(t, x) { InsertedKeys(t, hash, k, blank, t', x); }
    forall m | Represents(t, m)
      ensures Represents(t', if k in m then m else m[k := blank]) <==> !Shadowed(t, hash, k)
      ensures Unique(t') ==> !Shadowed(t, hash, k)
    {
      InsertedModel(t, hash, k, blank, t', m);
      if k in m {
        OtherCopyIffShadowed(t, hash, k, d);
        var j: nat :| j < |t| && Has(t[j], k);
      }
    }
  }

  /** `operator[]` that met its key first changes nothing, and the key was not shadowed. */
  lemma SubscriptFound<K(!new), V(!new)>(t: seq<Slot<K, V>>, hash: K -> nat, k: K, d: nat)
    requires ProbeOk(t, hash) && InsertPoint(t, hash, k, d) && ProbeSlot(t, hash, k, d).Occupied?
    ensures Present(t, k) && Reached(t, hash, k)
    ensures forall m :: Represents(t, m) ==> k in m && !Shadowed(t, hash, k)
  {
    assert Has(t[At(hash, k, |t|, d)], k);
    forall m | Represents(t, m) ensures k in m && !Shadowed(t, hash, k) {
      OtherCopyIffShadowed(t, hash, k, d);
      assert forall j: nat :: j < |t| && Has(t[j], k) ==> j == At(hash, k, |t|, d);
    }
  }

  /** After a rehash nothing is shadowed and the map is the scan of the old table. */
  lemma RehashedSubscript<K(!new), V(!new)>(t: seq<Slot<K, V>>, t1: seq<Slot<K, V>>, hash: K -> nat, k: K)
    requires TombstoneFree(t1) && Represents(t1, Model(t))
    ensures !Shadowed(t1, hash, k)
    ensures forall m :: Represents(t, m) ==> Represents(t1, m)
  {
    forall m | Represents(t, m) ensures Represents(t1, m) { RepresentsIff(t, m); }
  }
}
