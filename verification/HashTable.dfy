// The open-addressed hash table of racket/src/rktio/rktio_hash.c: double hashing over a
// power-of-two array, removal marks, growth at half full and shrinking at a quarter full.
module Options {
  datatype Option<+T> = None | Some(value: T)
}

// What a bucket array means, and what each probe loop finds in it.
module Buckets {
  import opened Options
  import opened Probing

  // `v` NULL and `key` -1: vacated by a removal.  `v` NULL and `key` 0: never used (calloc).
  datatype Bucket<+V> = Bucket(key: int, v: Option<V>)

  predicate Live<V>(b: Bucket<V>) { b.v.Some? }

  predicate NeverUsed<V>(b: Bucket<V>) { b.v.None? && b.key != -1 }

  ghost predicate WellKeyed<V>(bs: seq<Bucket<V>>) {
    forall i :: 0 <= i < |bs| ==>
      if bs[i].v.Some? then bs[i].key >= 0 else bs[i].key == -1 || bs[i].key == 0
  }

  // Each key has at most one live slot.
  ghost predicate Distinct<V>(bs: seq<Bucket<V>>) {
    forall i, j :: 0 <= i < |bs| && 0 <= j < |bs| && Live(bs[i]) && Live(bs[j]) && bs[i].key == bs[j].key ==> i == j
  }

  predicate Passable<V>(bs: seq<Bucket<V>>, key: nat, n: nat)
    requires |bs| > 0
  {
    !NeverUsed(bs[Probe(key, n, |bs|)])
  }

  // A probe for `key` gets to its nth slot without meeting a never-used one.
  ghost predicate PathTo<V>(bs: seq<Bucket<V>>, key: nat, n: nat)
    requires |bs| > 0
  {
    forall m: nat :: m < n ==> Passable(bs, key, m)
  }

  ghost predicate ReachedAt<V>(bs: seq<Bucket<V>>, i: nat, n: nat)
    requires i < |bs| && bs[i].key >= 0
  {
    n < |bs| && Probe(bs[i].key, n, |bs|) == i && PathTo(bs, bs[i].key, n)
  }

  ghost predicate Reachable<V>(bs: seq<Bucket<V>>) {
    forall i :: 0 <= i < |bs| && Live(bs[i]) && bs[i].key >= 0 ==> exists n: nat :: ReachedAt(bs, i, n)
  }

  ghost predicate WellFormed<V>(bs: seq<Bucket<V>>) {
    && |bs| >= 16 && IsPowerOfTwo(|bs|)
    && WellKeyed(bs) && Distinct(bs) && Reachable(bs)
  }

  // The map a bucket array stands for (a lower slot wins, which never matters when Distinct).
  ghost function Contents<V>(bs: seq<Bucket<V>>): (m: map<int, V>) {
    if bs == [] then map[]
    else if Live(bs[0]) then Contents(bs[1..])[bs[0].key := bs[0].v.value]
    else Contents(bs[1..])
  }

  function CountLive<V>(bs: seq<Bucket<V>>): nat {
    if bs == [] then 0 else (if Live(bs[0]) then 1 else 0) + CountLive(bs[1..])
  }

  // ---- counting

  lemma {:induction false} CountLiveUpdate<V>(bs: seq<Bucket<V>>, i: nat, b: Bucket<V>)
    requires i < |bs|
    ensures CountLive(bs[i := b])
         == CountLive(bs) - (if Live(bs[i]) then 1 else 0) + (if Live(b) then 1 else 0)
  {
    if i == 0 {
      assert bs[i := b][1..] == bs[1..];
    } else {
      CountLiveUpdate(bs[1..], i - 1, b);
      assert bs[i := b][1..] == bs[1..][i - 1 := b];
    }
  }

  lemma {:induction false} CountLiveFull<V>(bs: seq<Bucket<V>>)
    requires forall i :: 0 <= i < |bs| ==> Live(bs[i])
    ensures CountLive(bs) == |bs|
  {
    if bs != [] { CountLiveFull(bs[1..]); }
  }

  lemma {:induction false} CountLiveEmpty<V>(bs: seq<Bucket<V>>)
    requires forall i :: 0 <= i < |bs| ==> !Live(bs[i])
    ensures CountLive(bs) == 0
  {
    if bs != [] { CountLiveEmpty(bs[1..]); }
  }

  // ---- the map

  lemma {:induction false} ContentsKey<V>(bs: seq<Bucket<V>>, k: int) returns (i: nat)
    requires k in Contents(bs)
    ensures i < |bs| && Live(bs[i]) && bs[i].key == k && Contents(bs)[k] == bs[i].v.value
  {
    if Live(bs[0]) && bs[0].key == k {
      i := 0;
    } else {
      i := ContentsKey(bs[1..], k);
      i := i + 1;
    }
  }

  lemma {:induction false} ContentsHas<V>(bs: seq<Bucket<V>>, i: nat)
    requires i < |bs| && Live(bs[i])
    ensures bs[i].key in Contents(bs)
    ensures Distinct(bs) ==> Contents(bs)[bs[i].key] == bs[i].v.value
  {
    if i > 0 { ContentsHas(bs[1..], i - 1); }
    if Distinct(bs) {
      var j := ContentsKey(bs, bs[i].key);
      assert j == i;
    }
  }

  lemma DistinctTail<V>(bs: seq<Bucket<V>>)
    requires bs != [] && Distinct(bs)
    ensures Distinct(bs[1..])
    ensures Live(bs[0]) ==> bs[0].key !in Contents(bs[1..])
  {
    var t := bs[1..];
    forall i, j | 0 <= i < |t| && 0 <= j < |t| && Live(t[i]) && Live(t[j]) && t[i].key == t[j].key
      ensures i == j
    {
      assert bs[i + 1] == t[i] && bs[j + 1] == t[j];
    }
    if Live(bs[0]) && bs[0].key in Contents(t) {
      var i := ContentsKey(t, bs[0].key);
    }
  }

  // `count` is the number of keys: the table is a map with |Contents| entries.
  lemma {:induction false} CountIsSize<V>(bs: seq<Bucket<V>>)
    requires Distinct(bs)
    ensures |Contents(bs)| == CountLive(bs)
  {
    if bs != [] {
      DistinctTail(bs);
      CountIsSize(bs[1..]);
    }
  }

  // A map that agrees with every live slot, and has no key besides theirs, is the contents.
  lemma ContentsIs<V>(bs: seq<Bucket<V>>, m: map<int, V>)
    requires Distinct(bs)
    requires forall i :: 0 <= i < |bs| && Live(bs[i]) ==> bs[i].key in m && m[bs[i].key] == bs[i].v.value
    requires forall k :: k in m ==> exists i :: 0 <= i < |bs| && Live(bs[i]) && bs[i].key == k
    ensures Contents(bs) == m
  {
    forall k | k in Contents(bs) ensures k in m && m[k] == Contents(bs)[k] {
      var i := ContentsKey(bs, k);
    }
    forall k | k in m ensures k in Contents(bs) {
      var i :| 0 <= i < |bs| && Live(bs[i]) && bs[i].key == k;
      ContentsHas(bs, i);
    }
  }

  // ---- the probe loops as functions

  // The loop of rktio_hash_get and rktio_hash_remove from the nth probe on: the slot whose key
  // field equals the key, or nothing when a never-used slot is met or the probe has wrapped.
  function FindSlot<V>(bs: seq<Bucket<V>>, key: nat, n: nat): (r: Option<nat>)
    requires |bs| > 0 && n <= |bs|
    ensures r.Some? ==> r.value < |bs|
    decreases |bs| - n
  {
    if n == |bs| then None
    else
      var p := Probe(key, n, |bs|);
      if bs[p].key == key then Some(p)
      else if NeverUsed(bs[p]) then None
      else FindSlot(bs, key, n + 1)
  }

  // The loop of rktio_hash_set: the live slot of the key, or the first slot without a value.
  function SetSlot<V>(bs: seq<Bucket<V>>, key: nat, n: nat): (r: Option<nat>)
    requires |bs| > 0 && n <= |bs|
    ensures r.Some? ==> r.value < |bs|
    decreases |bs| - n
  {
    if n == |bs| then None
    else
      var p := Probe(key, n, |bs|);
      if !Live(bs[p]) || bs[p].key == key then Some(p) else SetSlot(bs, key, n + 1)
  }

  ghost predicate Stops<V>(bs: seq<Bucket<V>>, key: nat, n: nat)
    requires |bs| > 0
  {
    NeverUsed(bs[Probe(key, n, |bs|)]) || bs[Probe(key, n, |bs|)].key == key
  }

  // FindSlot in closed form: the first probe that stops decides.
  lemma {:induction false} FindSlotFirst<V>(bs: seq<Bucket<V>>, key: nat, n: nat, k: nat)
    requires |bs| > 0 && n <= k < |bs|
    requires Stops(bs, key, k)
    requires forall m: nat :: n <= m < k ==> !Stops(bs, key, m)
    ensures var p := Probe(key, k, |bs|);
            FindSlot(bs, key, n) == if bs[p].key == key then Some(p) else None
    decreases k - n
  {
    if n < k {
      assert !Stops(bs, key, n);
      FindSlotFirst(bs, key, n + 1, k);
    }
  }

  lemma {:induction false} FindSlotNever<V>(bs: seq<Bucket<V>>, key: nat, n: nat)
    requires |bs| > 0 && n <= |bs|
    requires forall m: nat :: n <= m < |bs| ==> !Stops(bs, key, m)
    ensures FindSlot(bs, key, n) == None
    decreases |bs| - n
  {
    if n < |bs| {
      assert !Stops(bs, key, n);
      FindSlotNever(bs, key, n + 1);
    }
  }

  lemma {:induction false} FindSlotInv<V>(bs: seq<Bucket<V>>, key: nat, n: nat) returns (k: nat)
    requires |bs| > 0 && n <= |bs|
    ensures n <= k <= |bs|
    ensures forall m: nat :: n <= m < k ==> !Stops(bs, key, m)
    ensures k < |bs| ==> Stops(bs, key, k)
    decreases |bs| - n
  {
    if n == |bs| || Stops(bs, key, n) { k := n; } else { k := FindSlotInv(bs, key, n + 1); }
  }

  // A live key is found: nothing on its path stops the probe before its slot.
  lemma FindLive<V>(bs: seq<Bucket<V>>, key: nat, i: nat)
    requires WellFormed(bs) && i < |bs| && Live(bs[i]) && bs[i].key == key
    ensures FindSlot(bs, key, 0) == Some(i)
  {
    var n: nat :| ReachedAt(bs, i, n);
    forall m: nat | m < n ensures !Stops(bs, key, m) {
      assert Passable(bs, key, m);
      var p := Probe(key, m, |bs|);
      if bs[p].key == key {
        assert Live(bs[p]);
        assert p == i;
        ProbeInjective(key, m, n, |bs|);
      }
    }
    FindSlotFirst(bs, key, 0, n);
  }

  // The only dead slot a search can come back with is a never-used one, for key 0.
  lemma FindDead<V>(bs: seq<Bucket<V>>, key: nat)
    requires WellFormed(bs) && key !in Contents(bs)
    ensures var r := FindSlot(bs, key, 0);
            r.Some? ==> key == 0 && bs[r.value] == Bucket(0, None)
    ensures FindSlot(bs, key, 0).Some? <==> key == 0 && exists i :: 0 <= i < |bs| && NeverUsed(bs[i])
  {
    var k := FindSlotInv(bs, key, 0);
    if k < |bs| {
      FindSlotFirst(bs, key, 0, k);
      var p := Probe(key, k, |bs|);
      if bs[p].key == key && Live(bs[p]) { ContentsHas(bs, p); }
    } else {
      FindSlotNever(bs, key, 0);
      forall i | 0 <= i < |bs| ensures !NeverUsed(bs[i]) {
        var n := ProbeSurjective(key, i, |bs|);
        assert !Stops(bs, key, n);
      }
    }
  }

  // rktio_hash_get answers as the map does.
  lemma FindIsLookup<V>(bs: seq<Bucket<V>>, key: nat)
    requires WellFormed(bs)
    ensures var r := FindSlot(bs, key, 0);
            (if r.Some? then bs[r.value].v else None)
            == if key in Contents(bs) then Some(Contents(bs)[key]) else None
  {
    if key in Contents(bs) {
      var i := ContentsKey(bs, key);
      FindLive(bs, key, i);
    } else {
      FindDead(bs, key);
    }
  }

  // ---- set

  predicate Blocked<V>(bs: seq<Bucket<V>>, key: nat, n: nat)
    requires |bs| > 0
  {
    var b := bs[Probe(key, n, |bs|)];
    Live(b) && b.key != key
  }

  lemma {:induction false} SetSlotInv<V>(bs: seq<Bucket<V>>, key: nat, n: nat) returns (k: nat)
    requires |bs| > 0 && n <= |bs|
    ensures n <= k <= |bs|
    ensures forall m: nat :: n <= m < k ==> Blocked(bs, key, m)
    ensures SetSlot(bs, key, n) == if k == |bs| then None else Some(Probe(key, k, |bs|))
    ensures k < |bs| ==> !Blocked(bs, key, k)
    decreases |bs| - n
  {
    if n == |bs| || !Blocked(bs, key, n) { k := n; } else { k := SetSlotInv(bs, key, n + 1); }
  }

  // With one slot free somewhere, the loop of rktio_hash_set ends at a usable slot: use_hc is
  // never still -1 at line 174.
  lemma SetFindsSlot<V>(bs: seq<Bucket<V>>, key: nat)
    requires |bs| > 1 && IsPowerOfTwo(|bs|) && CountLive(bs) < |bs|
    ensures SetSlot(bs, key, 0).Some?
  {
    var k := SetSlotInv(bs, key, 0);
    if k == |bs| {
      forall i | 0 <= i < |bs| ensures Live(bs[i]) {
        var n := ProbeSurjective(key, i, |bs|);
        assert Blocked(bs, key, n);
      }
      CountLiveFull(bs);
    }
  }

  // The contract of rktio_hash_set that its loop relies on: the key is absent, or its slot comes
  // before any slot without a value.
  predicate SetContract<V>(bs: seq<Bucket<V>>, key: nat)
    requires |bs| > 0
  {
    (forall i :: 0 <= i < |bs| && Live(bs[i]) ==> bs[i].key != key)
    || exists k: nat :: k < |bs| && LiveAt(bs, key, k) && forall m: nat :: m < k ==> Blocked(bs, key, m)
  }

  predicate LiveAt<V>(bs: seq<Bucket<V>>, key: nat, n: nat)
    requires |bs| > 0
  {
    var b := bs[Probe(key, n, |bs|)];
    Live(b) && b.key == key
  }

  function AfterSet<V>(bs: seq<Bucket<V>>, key: nat, v: V): (r: seq<Bucket<V>>)
    requires |bs| > 0
    ensures |r| == |bs|
  {
    var s := SetSlot(bs, key, 0);
    if s.Some? then bs[s.value := Bucket(key, Some(v))] else bs
  }

  // Writing a live slot over any slot keeps every old path passable.
  lemma PathKept<V>(bs: seq<Bucket<V>>, p: nat, b: Bucket<V>, key: nat, n: nat)
    requires |bs| > 0 && p < |bs| && !NeverUsed(b) && PathTo(bs, key, n)
    ensures PathTo(bs[p := b], key, n)
  {
    var cs := bs[p := b];
    forall m: nat | m < n ensures Passable(cs, key, m) {
      assert Passable(bs, key, m);
    }
  }

  lemma SlotWriteDistinct<V>(bs: seq<Bucket<V>>, p: nat, b: Bucket<V>)
    requires p < |bs| && Distinct(bs) && Live(b)
    requires forall i :: 0 <= i < |bs| && i != p && Live(bs[i]) ==> bs[i].key != b.key
    ensures Distinct(bs[p := b])
  {
  }

  lemma SlotWriteContents<V>(bs: seq<Bucket<V>>, p: nat, b: Bucket<V>)
    requires p < |bs| && Distinct(bs) && Live(b)
    requires forall i :: 0 <= i < |bs| && i != p && Live(bs[i]) ==> bs[i].key != b.key
    requires Live(bs[p]) ==> bs[p].key == b.key
    ensures Distinct(bs[p := b]) && Contents(bs[p := b]) == Contents(bs)[b.key := b.v.value]
  {
    var cs, m := bs[p := b], Contents(bs)[b.key := b.v.value];
    SlotWriteDistinct(bs, p, b);
    forall i | 0 <= i < |cs| && Live(cs[i]) ensures cs[i].key in m && m[cs[i].key] == cs[i].v.value {
      if i != p { ContentsHas(bs, i); }
    }
    forall k | k in m ensures exists i :: 0 <= i < |cs| && Live(cs[i]) && cs[i].key == k {
      if k == b.key {
        assert cs[p] == b;
      } else {
        var i := ContentsKey(bs, k);
        assert cs[i] == bs[i];
      }
    }
    ContentsIs(cs, m);
  }

  // Under the contract the slot found is the key's own, if it has one.
  lemma SetSlotOwn<V>(bs: seq<Bucket<V>>, key: nat) returns (k: nat)
    requires WellFormed(bs) && CountLive(bs) < |bs| && SetContract(bs, key)
    ensures k < |bs| && SetSlot(bs, key, 0) == Some(Probe(key, k, |bs|))
    ensures forall m: nat :: m < k ==> Blocked(bs, key, m)
    ensures forall i :: 0 <= i < |bs| && i != Probe(key, k, |bs|) && Live(bs[i]) ==> bs[i].key != key
    ensures Live(bs[Probe(key, k, |bs|)]) <==> key in Contents(bs)
    ensures Live(bs[Probe(key, k, |bs|)]) ==> bs[Probe(key, k, |bs|)].key == key
  {
    SetFindsSlot(bs, key);
    k := SetSlotInv(bs, key, 0);
    var p := Probe(key, k, |bs|);
    if key in Contents(bs) {
      var i := ContentsKey(bs, key);
      var k': nat :| k' < |bs| && LiveAt(bs, key, k') && forall m: nat :: m < k' ==> Blocked(bs, key, m);
      assert !Blocked(bs, key, k) && !Blocked(bs, key, k');
    } else {
      forall i | 0 <= i < |bs| && Live(bs[i]) ensures bs[i].key != key { ContentsHas(bs, i); }
    }
  }

  // Under the contract the write is a map update, keeps the table well formed and counts right.
  lemma SetUpdates<V>(bs: seq<Bucket<V>>, key: nat, v: V)
    requires WellFormed(bs) && CountLive(bs) < |bs| && SetContract(bs, key)
    ensures WellFormed(AfterSet(bs, key, v))
    ensures Contents(AfterSet(bs, key, v)) == Contents(bs)[key := v]
    ensures CountLive(AfterSet(bs, key, v)) == CountLive(bs) + (if key in Contents(bs) then 0 else 1)
    ensures SetSlot(bs, key, 0).Some? && (Live(bs[SetSlot(bs, key, 0).value]) <==> key in Contents(bs))
  {
    var k := SetSlotOwn(bs, key);
    var p, b := Probe(key, k, |bs|), Bucket(key, Some(v));
    SetReachable(bs, key, v, k);
    SlotWriteContents(bs, p, b);
    CountLiveUpdate(bs, p, b);
  }

  lemma SetReachable<V>(bs: seq<Bucket<V>>, key: nat, v: V, k: nat)
    requires |bs| >= 16 && IsPowerOfTwo(|bs|) && WellKeyed(bs) && Reachable(bs)
    requires k < |bs| && forall m: nat :: m < k ==> Blocked(bs, key, m)
    ensures Reachable(bs[Probe(key, k, |bs|) := Bucket(key, Some(v))])
  {
    var p := Probe(key, k, |bs|);
    var b := Bucket(key, Some(v));
    var cs := bs[p := b];
    forall i | 0 <= i < |cs| && Live(cs[i]) && cs[i].key >= 0 ensures exists n: nat :: ReachedAt(cs, i, n) {
      if i == p {
        forall m: nat | m < k ensures Passable(cs, key, m) { assert Blocked(bs, key, m); }
        assert ReachedAt(cs, p, k);
      } else {
        assert cs[i] == bs[i];
        var n: nat :| ReachedAt(bs, i, n);
        PathKept(bs, p, b, bs[i].key, n);
        assert ReachedAt(cs, i, n);
      }
    }
  }

  // The contract is exact: outside it rktio_hash_set gives the key a second live slot.
  lemma SetContractExact<V>(bs: seq<Bucket<V>>, key: nat, v: V)
    requires WellFormed(bs) && CountLive(bs) < |bs|
    ensures WellFormed(AfterSet(bs, key, v)) <==> SetContract(bs, key)
  {
    if SetContract(bs, key) {
      SetUpdates(bs, key, v);
    } else {
      var i :| 0 <= i < |bs| && Live(bs[i]) && bs[i].key == key;
      SetFindsSlot(bs, key);
      var k := SetSlotInv(bs, key, 0);
      var p := Probe(key, k, |bs|);
      assert !LiveAt(bs, key, k);
      var cs := AfterSet(bs, key, v);
      assert p != i && cs[i] == bs[i] && Live(cs[i]) && Live(cs[p]) && cs[i].key == cs[p].key;
    }
  }

  // ---- remove

  // `found` slot vacated.
  function AfterRemove<V>(bs: seq<Bucket<V>>, key: nat): (r: seq<Bucket<V>>)
    requires |bs| > 0
    ensures |r| == |bs|
  {
    var s := FindSlot(bs, key, 0);
    if s.Some? then bs[s.value := Bucket(-1, None)] else bs
  }

  lemma VacateReachable<V>(bs: seq<Bucket<V>>, p: nat)
    requires |bs| > 0 && Reachable(bs) && p < |bs|
    ensures Reachable(bs[p := Bucket(-1, None)])
  {
    var b := Bucket(-1, None);
    var cs := bs[p := b];
    forall i | 0 <= i < |cs| && Live(cs[i]) && cs[i].key >= 0 ensures exists n: nat :: ReachedAt(cs, i, n) {
      assert cs[i] == bs[i];
      var n: nat :| ReachedAt(bs, i, n);
      PathKept(bs, p, b, bs[i].key, n);
      assert ReachedAt(cs, i, n);
    }
  }

  lemma VacateContents<V>(bs: seq<Bucket<V>>, p: nat)
    requires Distinct(bs) && p < |bs|
    ensures Distinct(bs[p := Bucket(-1, None)])
    ensures Contents(bs[p := Bucket(-1, None)]) == if Live(bs[p]) then Contents(bs) - {bs[p].key} else Contents(bs)
  {
    var cs := bs[p := Bucket(-1, None)];
    var m := if Live(bs[p]) then Contents(bs) - {bs[p].key} else Contents(bs);
    forall i | 0 <= i < |cs| && Live(cs[i]) ensures cs[i].key in m && m[cs[i].key] == cs[i].v.value {
      ContentsHas(bs, i);
    }
    forall k | k in m ensures exists i :: 0 <= i < |cs| && Live(cs[i]) && cs[i].key == k {
      var i := ContentsKey(bs, k);
      assert cs[i] == bs[i];
    }
    ContentsIs(cs, m);
  }

  lemma VacateWellFormed<V>(bs: seq<Bucket<V>>, p: nat)
    requires WellFormed(bs) && p < |bs|
    ensures WellFormed(bs[p := Bucket(-1, None)])
  {
    hide Reachable, Contents;
    VacateReachable(bs, p);
    VacateContents(bs, p);
  }

  lemma VacateKey<V>(bs: seq<Bucket<V>>, p: nat)
    requires WellFormed(bs) && p < |bs|
    ensures var cs := bs[p := Bucket(-1, None)];
            && Contents(cs) == (if Live(bs[p]) then Contents(bs) - {bs[p].key} else Contents(bs))
            && CountLive(cs) == CountLive(bs) - (if Live(bs[p]) then 1 else 0)
  {
    hide Reachable, Contents, CountLive;
    VacateContents(bs, p);
    CountLiveUpdate(bs, p, Bucket(-1, None));
  }

  lemma Minus<K, V>(m: map<K, V>, k: K)
    requires k !in m
    ensures m - {k} == m
  {
  }

  // Vacating whatever the search found removes the key, and nothing else, from the map.
  lemma RemoveUpdates<V>(bs: seq<Bucket<V>>, key: nat)
    requires WellFormed(bs)
    ensures WellFormed(AfterRemove(bs, key))
    ensures Contents(AfterRemove(bs, key)) == Contents(bs) - {key}
    ensures key in Contents(bs) ==> FindSlot(bs, key, 0).Some?
    ensures CountLive(AfterRemove(bs, key)) == CountLive(bs) - (if key in Contents(bs) then 1 else 0)
  {
    hide Reachable, Distinct, WellKeyed, Contents, CountLive, FindSlot;
    var s := FindSlot(bs, key, 0);
    if key in Contents(bs) {
      var i := ContentsKey(bs, key);
      FindLive(bs, key, i);
    } else {
      FindDead(bs, key);
      Minus(Contents(bs), key);
    }
    if s.Some? {
      VacateWellFormed(bs, s.value);
      VacateKey(bs, s.value);
    }
  }

  // Removing without a rehash empties the key's own slot and fills none.
  lemma RemoveOnlyEmpties<V>(bs: seq<Bucket<V>>, i: nat)
    requires WellFormed(bs) && i < |bs| && Live(bs[i])
    ensures !Live(AfterRemove(bs, bs[i].key)[i])
    ensures forall j :: 0 <= j < |bs| && Live(AfterRemove(bs, bs[i].key)[j]) ==> Live(bs[j])
  {
    FindLive(bs, bs[i].key, i);
  }

  // What makes the decrement of rktio_hash_remove right.
  predicate RemoveContract<V>(bs: seq<Bucket<V>>, key: nat) {
    || key != 0
    || (exists i :: 0 <= i < |bs| && Live(bs[i]) && bs[i].key == key)
    || (forall i :: 0 <= i < |bs| ==> !NeverUsed(bs[i]))
  }

  // rktio_hash_remove decrements `count` whenever its search comes back with a slot.  That is
  // right exactly when the key is present, or is not 0, or no slot is still never-used.
  lemma RemoveCountExact<V>(bs: seq<Bucket<V>>, key: nat)
    requires WellFormed(bs)
    ensures (FindSlot(bs, key, 0).Some? <==> key in Contents(bs))
       <==> (key in Contents(bs) || key != 0 || forall i :: 0 <= i < |bs| ==> !NeverUsed(bs[i]))
  {
    if key in Contents(bs) { RemoveUpdates(bs, key); } else { FindDead(bs, key); }
  }

  lemma EmptyTable<V>(n: nat, bs: seq<Bucket<V>>)
    requires n >= 16 && IsPowerOfTwo(n) && |bs| == n
    requires forall i :: 0 <= i < n ==> bs[i] == Bucket(0, None)
    ensures WellFormed(bs) && Contents(bs) == map[] && CountLive(bs) == 0
  {
    CountLiveEmpty(bs);
    CountIsSize(bs);
  }
}

module HashTables {
  import opened Options
  import opened Probing
  import opened Buckets

  lemma AbsentContract<V>(bs: seq<Bucket<V>>, key: nat)
    requires |bs| > 0 && key !in Contents(bs)
    ensures SetContract(bs, key)
  {
    forall i | 0 <= i < |bs| && Live(bs[i]) ensures bs[i].key != key { ContentsHas(bs, i); }
  }

  // A bucket array as it is allocated.
  function Unused<V>(n: nat): seq<Bucket<V>> { seq(n, _ => Bucket(0, None)) }

  // The size of the bucket array after a set, and after a removing call that may shrink it.
  function SizeAfterSet(size: nat, count: int, isNew: bool): nat {
    var s := if size == 0 then 16 else size;
    if isNew && 2 * (count + 1) >= s then 2 * s else s
  }

  function SizeAfterRehash(newSize: nat, count: int): nat {
    if 2 * count >= newSize then 2 * newSize else newSize
  }

  function SizeAfterRemove(size: nat, count: int): nat {
    if 4 * (count - 1) <= size && size / 2 >= 16 then SizeAfterRehash(size / 2, count - 1) else size
  }

  // A removing call keeps the array when told to, and when half of it would be below 16 slots.
  predicate KeepsArray(size: nat, dontRehash: bool) { dontRehash || size < 32 }

  class HashTable<V> {
    var buckets: array?<Bucket<V>>
    var size: nat
    var count: int

    ghost predicate Valid()
      reads this, buckets
    {
      if buckets == null then size == 0 && count == 0
      else
        && buckets.Length == size
        && WellFormed(buckets[..])
        && count == CountLive(buckets[..])
        && 2 * count < size
    }

    // The finite map the table stands for.
    ghost function Model(): map<int, V>
      reads this, buckets
    {
      if buckets == null then map[] else Contents(buckets[..])
    }

    // The slots, none before the first set.
    function Slots(): seq<Bucket<V>>
      reads this, buckets
    {
      if buckets == null then [] else buckets[..]
    }

    lemma NoneLive()
      requires Valid() && forall i :: 0 <= i < size ==> !Live(buckets[i])
      ensures Model() == map[]
    {
      if buckets != null {
        CountIsSize(buckets[..]);
        CountLiveEmpty(buckets[..]);
      }
    }

    lemma AbsentAllowed(key: nat)
      requires Valid() && key !in Model()
      ensures buckets != null ==> SetContract(buckets[..], key)
    {
      if buckets != null { AbsentContract(buckets[..], key); }
    }

    constructor ()
      ensures Valid() && Model() == map[] && buckets == null
    {
      buckets, size, count := null, 0, 0;
    }

    method IsEmpty() returns (r: bool)
      requires Valid()
      ensures r <==> Model() == map[]
    {
      if buckets != null { CountIsSize(buckets[..]); }
      return count == 0;
    }

    method Get(key: nat) returns (r: Option<V>)
      requires Valid()
      ensures r == if key in Model() then Some(Model()[key]) else None
    {
      hide Reachable, Distinct, WellKeyed, Contents;
      if buckets == null { return None; }
      FindIsLookup(buckets[..], key);
      var hc := Start(key, size);
      var initHc := hc;
      var d := Step(key, size);
      ghost var n := 0;
      while true
        invariant n < size && hc == Probe(key, n, size)
        invariant FindSlot(buckets[..], key, 0) == FindSlot(buckets[..], key, n)
        decreases size - n
      {
        if buckets[hc].key == key {
          return buckets[hc].v;
        } else if buckets[hc].v.Some? || buckets[hc].key == -1 {
          ProbeReturn(key, n + 1, size);
          hc := Advance(hc, d, size);
          n := n + 1;
          if hc == initHc { return None; }
        } else {
          return None;
        }
      }
    }

    // Builds a new bucket array.  `depth` bounds the rehashes nested in it: with 0 no set called
    // from here rehashes again (growing); with 1 at most the last of them does (shrinking).
    method Rehash(newSize: nat, ghost depth: nat) returns (ghost grows: nat)
      requires Filled()
      requires newSize > 0 && IsPowerOfTwo(newSize)
      requires newSize >= 16 ==> 2 * count <= newSize
      requires newSize >= 16 && depth == 0 ==> 2 * count < newSize
      requires newSize < 16 ==> 2 * count < size
      modifies this
      ensures Valid() && Model() == old(Model()) && count == old(count)
      ensures newSize < 16 ==> buckets == old(buckets) && size == old(size) && grows == 0
      ensures newSize >= 16 ==> fresh(buckets) && size == SizeAfterRehash(newSize, count)
      ensures grows <= 1 && (depth == 0 ==> grows == 0)
      decreases depth, 1, 0
    {
      grows := 0;
      if newSize >= 16 {
        var oldBuckets := buckets;
        var oldSize := size;
        ghost var ob := oldBuckets[..];
        ghost var total := count;
        size := newSize;
        buckets := new Bucket<V>[newSize](i => Bucket(0, None));
        count := 0;
        EmptyTable(newSize, buckets[..]);
        assert ob[oldSize..] == [];
        var i := oldSize;
        while i > 0
          invariant i <= oldSize
          invariant oldBuckets[..] == ob
          invariant fresh(buckets) && buckets != oldBuckets
          invariant Valid() && Model() == Contents(ob[i..])
          invariant count == CountLive(ob[i..]) <= total
          invariant size == SizeAfterRehash(newSize, count)
          invariant grows == if 2 * count >= newSize then 1 else 0
        {
          i := i - 1;
          TailFacts(ob, i);
          if oldBuckets[i].v.Some? {
            AbsentContract(buckets[..], oldBuckets[i].key);
            ghost var grew := Set(oldBuckets[i].key, oldBuckets[i].v.value, depth);
            if grew { grows := grows + 1; }
          }
        }
        assert ob[0..] == ob;
      }
    }

    // Lines 139-142: the array is allocated by the first set.
    method Allocate()
      requires Valid()
      modifies this
      ensures Valid() && Model() == old(Model()) && count == old(count)
      ensures buckets != null && size == if old(size) == 0 then 16 else old(size)
      ensures if old(buckets) == null then fresh(buckets) else buckets == old(buckets)
      ensures old(buckets) == null ==> buckets[..] == Unused(16) && forall key: nat :: SetContract(buckets[..], key)
    {
      if buckets == null {
        size := 16;
        buckets := new Bucket<V>[16](i => Bucket(0, None));
        EmptyTable(16, buckets[..]);
        forall key: nat ensures SetContract(buckets[..], key) { AbsentContract(buckets[..], key); }
        assert buckets[..] == Unused(16);
      }
    }

    // Everything but the load bound, which a set breaks until it has grown the array.
    ghost predicate Filled()
      reads this, buckets
    {
      && buckets != null && buckets.Length == size
      && WellFormed(buckets[..])
      && count == CountLive(buckets[..])
    }

    // Lines 174-176: fill the slot found and count it.
    method Fill(useHc: nat, key: nat, v: V)
      requires Filled() && count < size
      requires SetContract(buckets[..], key) && key !in Model()
      requires SetSlot(buckets[..], key, 0) == Some(useHc)
      modifies this`count, buckets
      ensures Filled() && Model() == old(Model())[key := v] && count == old(count) + 1
      ensures buckets[..] == AfterSet(old(buckets[..]), key, v)
    {
      SetUpdates(buckets[..], key, v);
      ghost var after := AfterSet(buckets[..], key, v);
      buckets[useHc] := Bucket(key, Some(v));
      count := count + 1;
      assert buckets[..] == after;
    }

    // Lines 178-179: grow at half full.
    method MaybeGrow(ghost depth: nat) returns (ghost grew: bool)
      requires Filled() && 2 * (count - 1) < size
      requires depth == 0 ==> 2 * count < size
      modifies this
      ensures Valid() && Model() == old(Model()) && count == old(count)
      ensures buckets != null && (buckets == old(buckets) || fresh(buckets))
      ensures size == if 2 * count >= old(size) then 2 * old(size) else old(size)
      ensures grew <==> size != old(size)
      ensures !grew ==> buckets == old(buckets) && buckets[..] == old(buckets[..])
      decreases depth, 0, 0
    {
      grew := 2 * count >= size;
      if 2 * count >= size {
        PowerOfTwoDoubles(size);
        ghost var g := Rehash(2 * size, depth - 1);
      }
    }

    // Lines 144-180: look for the key or a free slot, and use it.
    method Place(key: nat, v: V, ghost depth: nat) returns (ghost grew: bool)
      requires Valid() && buckets != null && SetContract(buckets[..], key)
      requires depth == 0 ==> key in Model() || 2 * (count + 1) < size
      modifies this, buckets
      ensures Valid() && Model() == old(Model())[key := v]
      ensures buckets != null && (buckets == old(buckets) || fresh(buckets))
      ensures size == SizeAfterSet(old(size), old(count), old(key !in Model()))
      ensures count == old(count) + (if old(key in Model()) then 0 else 1)
      ensures grew <==> size != old(size)
      ensures !grew ==> buckets == old(buckets) && buckets[..] == AfterSet(old(buckets[..]), key, v)
      decreases depth, 0, 1
    {
      hide Reachable, Distinct, Contents;
      grew := false;
      ghost var bs := buckets[..];
      SetUpdates(bs, key, v);
      var hc := Start(key, size);
      var initHc := hc;
      var useHc := -1;
      var d := Step(key, size);
      ghost var n := 0;
      while true
        invariant unchanged(this) && buckets[..] == bs
        invariant n < size && hc == Probe(key, n, size)
        invariant useHc == -1
        invariant SetSlot(bs, key, 0) == SetSlot(bs, key, n)
        decreases size - n
      {
        assert buckets[hc] == bs[hc];
        if buckets[hc].v.Some? {
          if buckets[hc].key == key {
            buckets[hc] := Bucket(key, Some(v));
            assert buckets[..] == AfterSet(bs, key, v);
            return;
          } else {
            if buckets[hc].key == -1 {
              if useHc < 0 { useHc := hc; }
            }
            ProbeReturn(key, n + 1, size);
            hc := Advance(hc, d, size);
            n := n + 1;
            if hc == initHc { break; }
          }
        } else {
          if useHc < 0 { useHc := hc; }
          break;
        }
      }
      Fill(useHc, key, v);
      grew := MaybeGrow(depth);
    }

    method Set(key: nat, v: V, ghost depth: nat := 1) returns (ghost grew: bool)
      requires Valid()
      requires buckets != null ==> SetContract(buckets[..], key)
      requires depth == 0 ==> buckets != null && (key in Model() || 2 * (count + 1) < size)
      modifies this, buckets
      ensures Valid() && Model() == old(Model())[key := v]
      ensures buckets != null && (buckets == old(buckets) || fresh(buckets))
      ensures size == SizeAfterSet(old(size), old(count), old(key !in Model()))
      ensures count == old(count) + (if old(key in Model()) then 0 else 1)
      ensures grew <==> old(size) != 0 && size != old(size)
      ensures !grew ==> buckets[..] == AfterSet(if old(buckets) == null then Unused(16) else old(buckets[..]), key, v)
      decreases depth, 0, 2
    {
      Allocate();
      grew := Place(key, v, depth);
    }

    // Lines 115-122: vacate the slot found, and shrink at a quarter full unless told not to.
    method Vacate(hc: nat, ghost key: nat, dontRehash: bool) returns (ghost grows: nat)
      requires Valid() && buckets != null && key in Model()
      requires FindSlot(buckets[..], key, 0) == Some(hc)
      modifies this, buckets
      ensures Valid() && Model() == old(Model()) - {key}
      ensures buckets == old(buckets) || fresh(buckets)
      ensures KeepsArray(old(size), dontRehash) ==>
        buckets == old(buckets) && size == old(size) && buckets[..] == AfterRemove(old(buckets[..]), key)
      ensures count == old(count) - 1
      ensures !dontRehash ==> size == SizeAfterRemove(old(size), old(count))
      ensures grows <= 1
    {
      grows := 0;
      RemoveUpdates(buckets[..], key);
      ghost var after := AfterRemove(buckets[..], key);
      buckets[hc] := Bucket(-1, None);
      count := count - 1;
      assert buckets[..] == after;
      if !dontRehash {
        if 4 * count <= size {
          grows := Rehash(size / 2, 1);
        }
      }
    }

    method Remove(key: nat, dontRehash: bool) returns (ghost grows: nat)
      requires Valid()
      requires buckets != null ==>
        key in Model() || key != 0 || forall i :: 0 <= i < size ==> !NeverUsed(buckets[i])
      modifies this, buckets
      ensures Valid() && Model() == old(Model()) - {key}
      ensures buckets == old(buckets) || fresh(buckets)
      ensures key !in old(Model()) || KeepsArray(old(size), dontRehash) ==>
        buckets == old(buckets) && size == old(size)
        && (buckets != null ==> buckets[..] == AfterRemove(old(buckets[..]), key))
      ensures count == old(count) - (if old(key in Model()) then 1 else 0)
      ensures !dontRehash && key in old(Model()) ==> size == SizeAfterRemove(old(size), old(count))
      ensures grows <= 1
    {
      hide Reachable, Distinct, WellKeyed, Contents;
      grows := 0;
      if buckets == null { return; }
      ghost var bs := buckets[..];
      RemoveCountExact(bs, key);
      var hc := Start(key, size);
      var initHc := hc;
      var d := Step(key, size);
      ghost var n := 0;
      while true
        invariant unchanged(this) && buckets[..] == bs
        invariant n < size && hc == Probe(key, n, size)
        invariant FindSlot(bs, key, 0) == FindSlot(bs, key, n)
        decreases size - n
      {
        assert buckets[hc] == bs[hc];
        if buckets[hc].key == key {
          grows := Vacate(hc, key, dontRehash);
          return;
        } else if buckets[hc].v.Some? || buckets[hc].key == -1 {
          ProbeReturn(key, n + 1, size);
          hc := Advance(hc, d, size);
          n := n + 1;
          if hc == initHc { return; }
        } else {
          return;
        }
      }
    }

    method GetKey(i: nat) returns (k: int)
      requires Valid() && i < size
      ensures k == if Live(buckets[i]) then buckets[i].key else -1
      ensures k >= 0 ==> k in Model() && Model()[k] == buckets[i].v.value
      ensures k >= -1 && (k == -1 <==> !Live(buckets[i]))
    {
      if buckets[i].v.Some? {
        assert WellKeyed(buckets[..]) && buckets[..][i] == buckets[i];
        ContentsHas(buckets[..], i);
        k := buckets[i].key;
      } else {
        k := -1;
      }
    }

    // One operation of a history.
    method Apply(op: Op<V>) returns (answer: Option<V>)
      requires Valid() && OpContract(Slots(), op)
      modifies this, buckets
      ensures Valid() && Model() == MapStep(old(Model()), op)
      ensures answer == MapAnswer(old(Model()), op)
      ensures buckets == old(buckets) || fresh(buckets)
    {
      answer := None;
      match op {
        case GetOp(k) => answer := Get(k);
        case SetOp(k, v) => ghost var grew := Set(k, v);
        case RemoveOp(k, dontRehash) =>
          if buckets != null { RemoveContractIs(buckets[..], k); }
          ghost var g := Remove(k, dontRehash);
      }
    }

    lemma ModelIsSlots()
      ensures Model() == Contents(Slots())
    {
    }

    // rktio_hash_free with free_values, as the slots whose values it frees: its loop ends before slot
    // 0, so it frees every value exactly when that slot holds none.
    method FreedSlots() returns (freed: seq<nat>)
      requires Valid()
      ensures forall i :: i in freed <==> 0 < i < size && Live(buckets[i])
      ensures forall i, j :: 0 <= i < j < |freed| ==> freed[i] > freed[j]
      ensures (forall i :: 0 <= i < size && Live(buckets[i]) ==> i in freed) <==> (buckets == null || !Live(buckets[0]))
    {
      freed := [];
      if buckets != null {
        var i := size - 1;
        while i != 0
          invariant 0 <= i < size
          invariant forall k :: k in freed <==> i < k < size && Live(buckets[k])
          invariant forall j, k :: 0 <= j < k < |freed| ==> freed[j] > freed[k]
          invariant forall j :: 0 <= j < |freed| ==> freed[j] > i
          decreases i
        {
          if buckets[i].v.Some? { freed := freed + [i]; }
          i := i - 1;
        }
      }
    }
  }

  // The slot do_rehash comes to next, downwards: what it adds to the slots already moved.
  lemma TailFacts<V>(ob: seq<Bucket<V>>, i: nat)
    requires i < |ob| && WellFormed(ob)
    ensures CountLive(ob[i..]) == CountLive(ob[i + 1..]) + (if Live(ob[i]) then 1 else 0)
    ensures CountLive(ob[i..]) <= CountLive(ob)
    ensures Live(ob[i]) ==> ob[i].key >= 0 && ob[i].key !in Contents(ob[i + 1..])
    ensures Contents(ob[i..])
         == if Live(ob[i]) then Contents(ob[i + 1..])[ob[i].key := ob[i].v.value] else Contents(ob[i + 1..])
  {
    var t := ob[i..];
    forall a, b | 0 <= a < |t| && 0 <= b < |t| && Live(t[a]) && Live(t[b]) && t[a].key == t[b].key
      ensures a == b
    {
      assert t[a] == ob[i + a] && t[b] == ob[i + b];
    }
    assert t[1..] == ob[i + 1..];
    DistinctTail(t);
    SuffixCount(ob, i);
  }

  lemma {:induction false} SuffixCount<V>(bs: seq<Bucket<V>>, i: nat)
    requires i <= |bs|
    ensures CountLive(bs[i..]) <= CountLive(bs)
  {
    if i > 0 {
      SuffixCount(bs[1..], i - 1);
      assert bs[1..][i - 1..] == bs[i..];
    } else {
      assert bs[0..] == bs;
    }
  }

  // ---- whole histories

  datatype Op<V> = GetOp(key: nat) | SetOp(key: nat, v: V) | RemoveOp(key: nat, dontRehash: bool)

  // What rktio_hash_set and rktio_hash_remove rely on, in the slots they find.
  predicate OpContract<V>(bs: seq<Bucket<V>>, op: Op<V>) {
    match op
    case GetOp(_) => true
    case SetOp(k, _) => bs == [] || SetContract(bs, k)
    case RemoveOp(k, _) => bs == [] || RemoveContract(bs, k)
  }

  // A caller that only knows the map is safe to set absent keys, and to remove any key that is
  // present or not 0.
  lemma AllowedContract<V>(bs: seq<Bucket<V>>, op: Op<V>)
    requires op.SetOp? ==> op.key !in Contents(bs)
    requires op.RemoveOp? ==> op.key != 0 || 0 in Contents(bs)
    ensures OpContract(bs, op)
  {
    if op.SetOp? {
      if bs != [] { AbsentContract(bs, op.key); }
    } else if op.RemoveOp? && op.key in Contents(bs) {
      var i := ContentsKey(bs, op.key);
    }
  }

  lemma RemoveContractIs<V>(bs: seq<Bucket<V>>, key: nat)
    requires RemoveContract(bs, key)
    ensures key in Contents(bs) || key != 0 || forall i :: 0 <= i < |bs| ==> !NeverUsed(bs[i])
  {
    if i :| 0 <= i < |bs| && Live(bs[i]) && bs[i].key == key { ContentsHas(bs, i); }
  }

  function MapStep<V>(m: map<int, V>, op: Op<V>): map<int, V> {
    match op
    case GetOp(_) => m
    case SetOp(k, v) => m[k := v]
    case RemoveOp(k, _) => m - {k}
  }

  function MapAnswer<V>(m: map<int, V>, op: Op<V>): Option<V> {
    if op.GetOp? && op.key in m then Some(m[op.key]) else None
  }

  // The map after a history, and its answers.
  function MapAfter<V>(m: map<int, V>, ops: seq<Op<V>>): map<int, V>
    decreases |ops|
  {
    if ops == [] then m else MapAfter(MapStep(m, ops[0]), ops[1..])
  }

  function MapRun<V>(m: map<int, V>, ops: seq<Op<V>>): seq<Option<V>>
    decreases |ops|
  {
    if ops == [] then [] else [MapAnswer(m, ops[0])] + MapRun(MapStep(m, ops[0]), ops[1..])
  }

  lemma {:induction false} RunAppend<V>(m: map<int, V>, ops: seq<Op<V>>, op: Op<V>)
    ensures MapAfter(m, ops + [op]) == MapStep(MapAfter(m, ops), op)
    ensures MapRun(m, ops + [op]) == MapRun(m, ops) + [MapAnswer(MapAfter(m, ops), op)]
    decreases |ops|
  {
    if ops == [] {
      assert [op][1..] == [];
    } else {
      RunAppend(MapStep(m, ops[0]), ops[1..], op);
      assert (ops + [op])[1..] == ops[1..] + [op];
    }
  }

  // Any history on a new table is answered as a finite map answers it, and leaves that map, up to
  // the first operation whose contract its slots break; one that follows the map breaks none.
  method RunHistory<V>(ops: seq<Op<V>>) returns (answers: seq<Option<V>>, ht: HashTable<V>, done: nat)
    ensures done <= |ops| && ht.Valid()
    ensures answers == MapRun(map[], ops[..done]) && ht.Model() == MapAfter(map[], ops[..done])
    ensures done < |ops| ==> !OpContract(ht.Slots(), ops[done])
    ensures (forall i :: 0 <= i < |ops| ==>
               && (ops[i].SetOp? ==> ops[i].key !in MapAfter(map[], ops[..i]))
               && (ops[i].RemoveOp? ==> ops[i].key != 0 || 0 in MapAfter(map[], ops[..i]))) ==> done == |ops|
  {
    hide HashTable.Valid, HashTable.Model, OpContract, MapRun, MapAfter;
    ht := new HashTable<V>();
    answers, done := [], 0;
    StartHistory(ops);
    while done < |ops| && OpContract(ht.Slots(), ops[done])
      invariant done <= |ops|
      invariant ht.Valid() && fresh(ht) && (ht.buckets != null ==> fresh(ht.buckets))
      invariant answers == MapRun(map[], ops[..done]) && ht.Model() == MapAfter(map[], ops[..done])
      decreases |ops| - done
    {
      RunAppend(map[], ops[..done], ops[done]);
      assert ops[..done + 1] == ops[..done] + [ops[done]];
      var answer := ht.Apply(ops[done]);
      answers := answers + [answer];
      done := done + 1;
    }
    if done < |ops| {
      ht.ModelIsSlots();
      ghost var op := ops[done];
      if (op.SetOp? ==> op.key !in ht.Model()) && (op.RemoveOp? ==> op.key != 0 || 0 in ht.Model()) {
        AllowedContract(ht.Slots(), op);
      }
    }
  }

  lemma StartHistory<V>(ops: seq<Op<V>>)
    ensures MapRun(map[], ops[..0]) == [] && MapAfter(map[], ops[..0]) == map[]
  {
  }

  // ---- where the code falls short of a map

  // 16 starts at slot 0, where 0 is, and steps by 3.
  lemma ProbesOf16()
    ensures Probe(0, 0, 16) == 0 && Probe(16, 0, 16) == 0 && Probe(16, 1, 16) == 3
  {
  }

  const WITH_0_16 := Unused<int>(16)[0 := Bucket(0, Some(0))][3 := Bucket(16, Some(1))]
  const WITH_16 := WITH_0_16[0 := Bucket(-1, None)]

  lemma SlotsUsed()
    ensures AfterSet(Unused<int>(16), 0, 0) == Unused<int>(16)[0 := Bucket(0, Some(0))]
    ensures AfterSet(Unused<int>(16)[0 := Bucket(0, Some(0))], 16, 1) == WITH_0_16
    ensures AfterRemove(WITH_0_16, 0) == WITH_16
  {
    ProbesOf16();
    var one := Unused<int>(16)[0 := Bucket(0, Some(0))];
    assert SetSlot(one, 16, 0) == SetSlot(one, 16, 1) == Some(3);
  }

  lemma SecondSlotUsed()
    ensures !SetContract(WITH_16, 16)
    ensures AfterSet(WITH_16, 16, 2) == WITH_16[0 := Bucket(16, Some(2))]
  {
    ProbesOf16();
    assert Live(WITH_16[3]) && WITH_16[3].key == 16;
    assert !LiveAt(WITH_16, 16, 0) && !Blocked(WITH_16, 16, 0);
  }

  // Set 0, set 16, remove 0: the next set of 16 uses slot 0, with its old value still in slot 3.
  method SecondSlot() returns (h: HashTable<int>)
    ensures h.Valid() && h.Model() == map[16 := 1]
    ensures h.buckets != null && h.size == 16 && !SetContract(h.buckets[..], 16)
    ensures var cs := AfterSet(h.buckets[..], 16, 2);
            cs[0] == Bucket(16, Some(2)) && cs[3] == Bucket(16, Some(1))
  {
    hide SetContract, AfterSet, AfterRemove;
    SlotsUsed();
    SecondSlotUsed();
    h := new HashTable<int>();
    ghost var grew := h.Set(0, 0);
    h.AbsentAllowed(16);
    grew := h.Set(16, 1);
    ghost var g := h.Remove(0, false);
  }

  const WITH_1 := Unused<int>(16)[1 := Bucket(1, Some(0))]

  lemma OneLive()
    ensures AfterSet(Unused<int>(16), 1, 0) == WITH_1
    ensures FindSlot(WITH_1, 0, 0) == Some(0) && AfterRemove(WITH_1, 0) == Unused<int>(16)[0 := Bucket(-1, None)][1 := Bucket(1, Some(0))]
  {
  }

  // On a table that holds only key 1, removing key 0 finds a slot: `count` would be 0 with one key live.
  method MiscountedRemove() returns (h: HashTable<int>)
    ensures h.Valid() && h.Model() == map[1 := 0] && h.count == 1
    ensures h.buckets != null && !RemoveContract(h.buckets[..], 0)
    ensures FindSlot(h.buckets[..], 0, 0).Some?
    ensures CountLive(AfterRemove(h.buckets[..], 0)) == 1 != h.count - 1
  {
    hide FindSlot, AfterSet, AfterRemove;
    OneLive();
    h := new HashTable<int>();
    ghost var grew := h.Set(1, 0);
    CountLiveUpdate(WITH_1, 0, Bucket(-1, None));
    assert AfterRemove(WITH_1, 0) == WITH_1[0 := Bucket(-1, None)];
    assert NeverUsed(WITH_1[0]);
  }

  // The value of key 0, in slot 0, is not among those freed.
  method UnfreedValue() returns (h: HashTable<int>, freed: seq<nat>)
    ensures h.Valid() && h.Model() == map[0 := 0] && h.buckets != null && h.buckets[0] == Bucket(0, Some(0))
    ensures forall i :: i !in freed
  {
    hide AfterSet;
    SlotsUsed();
    h := new HashTable<int>();
    ghost var grew := h.Set(0, 0);
    freed := h.FreedSlots();
  }
}
