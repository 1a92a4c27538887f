// One inotify descriptor shared by many filesystem-change events (rktio_fs_change.c): slots of
// reference-counted watch descriptors.
module InotifySlots {
  import opened InotifyReads

  // rin_wd_t
  datatype Slot = Slot(wd: int, refcount: nat, val: int)

  function FindWd(slots: seq<Slot>, wd: int): (i: nat)
    ensures i <= |slots| && (i < |slots| ==> slots[i].wd == wd) && forall j :: 0 <= j < i ==> slots[j].wd != wd
  {
    if slots == [] || slots[0].wd == wd then 0 else 1 + FindWd(slots[1..], wd)
  }

  // What an event for wd does.
  function Fired(slots: seq<Slot>, wd: int): (r: seq<Slot>)
    ensures |r| == |slots|
  {
    var i := FindWd(slots, wd);
    if i < |slots| then slots[i := slots[i].(wd := -1, val := 1)] else slots
  }

  // What events do, one after the other.
  function Pulled(slots: seq<Slot>, wds: seq<int>): (r: seq<Slot>)
    ensures |r| == |slots|
    decreases |wds|
  {
    if wds == [] then slots else Pulled(Fired(slots, wds[0]), wds[1..])
  }

  // The events that find a slot, in order; inotify_rm_watch is called for each.
  function Hits(slots: seq<Slot>, wds: seq<int>): seq<int>
    decreases |wds|
  {
    if wds == [] then []
    else (if FindWd(slots, wds[0]) < |slots| then [wds[0]] else []) + Hits(Fired(slots, wds[0]), wds[1..])
  }

  lemma {:induction false} HitsAppend(slots: seq<Slot>, wds: seq<int>, wd: int)
    ensures Hits(slots, wds + [wd]) == Hits(slots, wds) + if FindWd(Pulled(slots, wds), wd) < |slots| then [wd] else []
    decreases |wds|
  {
    hide FindWd, Fired;
    if wds == [] {
      assert wds + [wd] == [wd] && [wd][1..] == [];
    } else {
      assert (wds + [wd])[1..] == wds[1..] + [wd];
      HitsAppend(Fired(slots, wds[0]), wds[1..], wd);
    }
  }

  function Hit(slots: seq<Slot>, wds: seq<int>): set<int> { set w | w in Hits(slots, wds) }

  lemma HitMore(slots: seq<Slot>, wds: seq<int>, wd: int)
    ensures Hit(slots, wds + [wd]) == Hit(slots, wds) + if FindWd(Pulled(slots, wds), wd) < |slots| then {wd} else {}
  {
    hide Hits, Pulled, FindWd;
    HitsAppend(slots, wds, wd);
  }

  // The descriptors slots are watched by.
  function LiveWds(slots: seq<Slot>): set<int> { set i | 0 <= i < |slots| && slots[i].wd != -1 :: slots[i].wd }

  lemma {:induction false} HitsLeave(slots: seq<Slot>, wds: seq<int>)
    requires LiveApart(slots)
    ensures LiveWds(Pulled(slots, wds)) == LiveWds(slots) - Hit(slots, wds) && LiveApart(Pulled(slots, wds))
    decreases |wds|
  {
    hide LiveWds;
    if wds != [] {
      HitLeaves(slots, wds[0]);
      HitsLeave(Fired(slots, wds[0]), wds[1..]);
    }
  }

  lemma HitLeaves(slots: seq<Slot>, wd: int)
    requires LiveApart(slots)
    ensures LiveApart(Fired(slots, wd))
    ensures LiveWds(Fired(slots, wd)) == if FindWd(slots, wd) < |slots| then LiveWds(slots) - {wd} else LiveWds(slots)
  {
    var i := FindWd(slots, wd);
    if i < |slots| { LiveSet(slots, i, slots[i].(wd := -1, val := 1)); }
  }

  // A slot gives up its descriptor, or takes one no other has.
  lemma LiveSet(slots: seq<Slot>, i: nat, slot: Slot)
    requires i < |slots| && LiveApart(slots)
    ensures LiveWds(slots[i := slot]) == LiveWds(slots) - {slots[i].wd} + if slot.wd != -1 then {slot.wd} else {}
  {
    var next := slots[i := slot];
    forall w | w in LiveWds(slots) && w != slots[i].wd ensures w in LiveWds(next) {
      var j :| 0 <= j < |slots| && slots[j].wd != -1 && slots[j].wd == w;
      assert next[j].wd == w;
    }
    if slot.wd != -1 { assert next[i].wd == slot.wd; }
  }

  lemma LiveGrown(slots: seq<Slot>, more: seq<Slot>)
    requires forall i :: 0 <= i < |more| ==> more[i].wd == -1
    ensures LiveWds(slots + more) == LiveWds(slots)
  {
    forall w | w in LiveWds(slots) ensures w in LiveWds(slots + more) {
      var j :| 0 <= j < |slots| && slots[j].wd != -1 && slots[j].wd == w;
      assert (slots + more)[j].wd == w;
    }
  }

  // What do_inotify_remove does to the slots.
  function AfterRemove(slots: seq<Slot>, p: nat, wds: seq<int>): (r: seq<Slot>)
    requires p < |slots| && slots[p].refcount > 0
    ensures |r| == |slots|
  {
    if slots[p].refcount == 1 && slots[p].wd != -1 then
      var pulled := Pulled(slots[p := slots[p].(wd := -1)], wds);
      pulled[p := pulled[p].(refcount := 0)]
    else slots[p := slots[p].(refcount := slots[p].refcount - 1)]
  }

  // Whether it looks for events.
  predicate LastLeaves(slot: Slot) { slot.refcount == 1 && slot.wd != -1 }

  function SizeAfterAdd(size: nat, count: nat): nat {
    if count != size then size else if size != 0 then 2 * size else 32
  }

  lemma {:induction false} PulledAppend(slots: seq<Slot>, wds: seq<int>, wd: int)
    ensures Pulled(slots, wds + [wd]) == Fired(Pulled(slots, wds), wd)
    decreases |wds|
  {
    if wds == [] {
      assert wds + [wd] == [wd] && [wd][1..] == [];
    } else {
      assert (wds + [wd])[1..] == wds[1..] + [wd];
      PulledAppend(Fired(slots, wds[0]), wds[1..], wd);
    }
  }

  function CountHeld(slots: seq<Slot>): (n: nat)
    ensures n <= |slots|
  {
    if slots == [] then 0 else (if slots[0].refcount != 0 then 1 else 0) + CountHeld(slots[1..])
  }

  lemma {:induction false} CountUpdate(slots: seq<Slot>, i: nat, slot: Slot)
    requires i < |slots|
    ensures CountHeld(slots[i := slot]) ==
            CountHeld(slots) + (if slot.refcount != 0 then 1 else 0) - (if slots[i].refcount != 0 then 1 else 0)
  {
    if i == 0 {
      assert slots[0 := slot][1..] == slots[1..];
    } else {
      CountUpdate(slots[1..], i - 1, slot);
      assert slots[i := slot][1..] == slots[1..][i - 1 := slot];
    }
  }

  lemma {:induction false} CountAppend(slots: seq<Slot>, more: seq<Slot>)
    requires forall i :: 0 <= i < |more| ==> more[i].refcount == 0
    ensures CountHeld(slots + more) == CountHeld(slots)
    decreases |slots| + |more|
  {
    if slots != [] {
      assert (slots + more)[1..] == slots[1..] + more;
      CountAppend(slots[1..], more);
    } else if more != [] {
      assert slots + more == more && [] + more[1..] == more[1..];
      CountAppend([], more[1..]);
    }
  }

  // If not every slot is held, one is free.
  lemma {:induction false} SomeFree(slots: seq<Slot>) returns (i: nat)
    requires CountHeld(slots) < |slots|
    ensures i < |slots| && slots[i].refcount == 0
  {
    if slots[0].refcount == 0 {
      i := 0;
    } else {
      i := SomeFree(slots[1..]);
      i := i + 1;
    }
  }

  // given[i] is the watch descriptor slot i was last taken for; fired, those whose events were handled.
  // A held slot is ready exactly when its event was, and no two live slots share a descriptor.
  ghost predicate SlotsOk(slots: seq<Slot>, given: seq<int>, fired: set<int>) {
    && |given| == |slots|
    && (forall i :: 0 <= i < |slots| && slots[i].refcount == 0 ==> slots[i].wd == -1)
    && (forall i :: 0 <= i < |slots| && slots[i].refcount != 0 ==> SlotOk(slots[i], given[i], fired))
    && (forall i, j :: 0 <= i < j < |slots| && slots[i].wd != -1 ==> slots[i].wd != slots[j].wd)
  }

  ghost predicate SlotOk(slot: Slot, given: int, fired: set<int>) {
    && given != -1 && (slot.val == 1 <==> given in fired) && (slot.val == 1 <==> slot.wd == -1)
    && (slot.wd != -1 ==> slot.wd == given && slot.val == 0)
  }

  function Handled(wds: seq<int>): set<int> { set w | w in wds && w != -1 }

  lemma FiredOk(slots: seq<Slot>, given: seq<int>, fired: set<int>, wd: int)
    requires SlotsOk(slots, given, fired)
    ensures SlotsOk(Fired(slots, wd), given, fired + Handled([wd]))
    ensures forall i :: 0 <= i < |slots| ==> Fired(slots, wd)[i].refcount == slots[i].refcount
  {
    var i := FindWd(slots, wd);
    forall j | 0 <= j < |slots| && slots[j].refcount != 0 && given[j] == wd ensures slots[j].wd == -1 || j == i {
    }
  }

  lemma {:induction false} PulledOk(slots: seq<Slot>, given: seq<int>, fired: set<int>, wds: seq<int>)
    requires SlotsOk(slots, given, fired)
    ensures SlotsOk(Pulled(slots, wds), given, fired + Handled(wds))
    ensures CountHeld(Pulled(slots, wds)) == CountHeld(slots)
    ensures forall i :: 0 <= i < |slots| ==> Pulled(slots, wds)[i].refcount == slots[i].refcount
    decreases |wds|
  {
    if wds == [] {
      assert fired + Handled(wds) == fired;
    } else {
      FiredOk(slots, given, fired, wds[0]);
      FiredCount(slots, wds[0]);
      PulledOk(Fired(slots, wds[0]), given, fired + Handled([wds[0]]), wds[1..]);
      assert fired + Handled([wds[0]]) + Handled(wds[1..]) == fired + Handled(wds);
    }
  }

  lemma FiredCount(slots: seq<Slot>, wd: int)
    ensures CountHeld(Fired(slots, wd)) == CountHeld(slots)
  {
    var i := FindWd(slots, wd);
    if i < |slots| { CountUpdate(slots, i, slots[i].(wd := -1, val := 1)); }
  }

  lemma {:induction false} PulledRefcounts(slots: seq<Slot>, wds: seq<int>, i: nat)
    requires i < |slots|
    ensures Pulled(slots, wds)[i].refcount == slots[i].refcount
    decreases |wds|
  {
    if wds != [] {
      PulledRefcounts(Fired(slots, wds[0]), wds[1..], i);
    }
  }

  lemma LeaveOk(slots: seq<Slot>, given: seq<int>, fired: set<int>, p: nat)
    requires SlotsOk(slots, given, fired) && p < |slots|
    ensures SlotsOk(slots[p := slots[p].(wd := -1, refcount := 0)], given, fired)
  {
  }

  // Events do not depend on reference counts.
  lemma {:induction false} PulledLetGo(slots: seq<Slot>, wds: seq<int>, p: nat, n: nat)
    requires p < |slots|
    ensures Pulled(slots[p := slots[p].(refcount := n)], wds) == Pulled(slots, wds)[p := Pulled(slots, wds)[p].(refcount := n)]
    decreases |wds|
  {
    if wds != [] {
      FindLetGo(slots, wds[0], p, n);
      PulledLetGo(Fired(slots, wds[0]), wds[1..], p, n);
    }
  }

  lemma FindLetGo(slots: seq<Slot>, wd: int, p: nat, n: nat)
    requires p < |slots|
    ensures var other := slots[p := slots[p].(refcount := n)];
            Fired(other, wd) == Fired(slots, wd)[p := Fired(slots, wd)[p].(refcount := n)]
  {
    var other := slots[p := slots[p].(refcount := n)];
    assert forall i :: 0 <= i < |slots| ==> other[i].wd == slots[i].wd;
    assert FindWd(other, wd) == FindWd(slots, wd);
  }

  // ---- when a slot becomes ready

  ghost predicate LiveApart(slots: seq<Slot>) {
    forall i, j :: 0 <= i < j < |slots| && slots[i].wd != -1 ==> slots[i].wd != slots[j].wd
  }

  // A slot becomes ready by events exactly when its descriptor is among them.
  lemma {:induction false} ReadyWhenFired(slots: seq<Slot>, wds: seq<int>, i: nat)
    requires LiveApart(slots) && i < |slots| && slots[i].wd != -1 && slots[i].val == 0
    ensures Pulled(slots, wds)[i].val == if slots[i].wd in wds then 1 else 0
    decreases |wds|
  {
    if wds != [] {
      var next := Fired(slots, wds[0]);
      if slots[i].wd == wds[0] {
        assert FindWd(slots, wds[0]) == i;
        StaysReady(next, wds[1..], i);
      } else {
        ReadyWhenFired(next, wds[1..], i);
      }
    }
  }

  lemma {:induction false} StaysReady(slots: seq<Slot>, wds: seq<int>, i: nat)
    requires i < |slots| && slots[i].val == 1
    ensures Pulled(slots, wds)[i].val == 1
    decreases |wds|
  {
    if wds != [] {
      StaysReady(Fired(slots, wds[0]), wds[1..], i);
    }
  }

  // The events rin_pull_events handles, and whether it reports an error.
  function Handling(q: seq<Event>, ms: seq<Moment>): seq<int> { Heads(Drain(q, HEADER, ms).batches) }

  predicate ReadFails(q: seq<Event>, ms: seq<Moment>) { Drain(q, HEADER, ms).failed }

  lemma NothingDrained(d: Drained)
    ensures Prepend([], d) == d
  {
  }

  lemma PrependMore(done: seq<seq<Event>>, b: seq<Event>, d: Drained)
    ensures Prepend(done, Prepend([b], d)) == Prepend(done + [b], d)
  {
  }

  lemma PrependNone(done: seq<seq<Event>>, q: seq<Event>)
    ensures Prepend(done, Drained([], q, true)) == Drained(done, q, true)
    ensures Prepend(done, Drained([], [], false)) == Drained(done, [], false)
  {
    assert done + [] == done;
  }

  // One turn of the loop.
  lemma DrainStep(q: seq<Event>, bsize: nat, ms: seq<Moment>)
    requires bsize > 0
    ensures var q' := q + Next(ms).arrived;
            var d := Drain(q, bsize, ms);
            && (q' == [] ==> d == Drained([], [], false))
            && (q' != [] && Next(ms).fate.Fails? ==> d == Drained([], q', true))
            && (q' != [] && Next(ms).fate.Interrupted? ==> d == Drain(q', bsize, Later(ms)))
            && (q' != [] && Next(ms).fate.Works? && Size(q'[0]) > bsize ==> d == Drain(q', 2 * bsize, Later(ms)))
            && (q' != [] && Next(ms).fate.Works? && Size(q'[0]) <= bsize ==>
                  var n := Fit(q', bsize); d == Prepend([q'[..n]], Drain(q'[n..], bsize, Later(ms))))
    ensures ms == [] ==> q + Next(ms).arrived == q
  {
    hide Size, Fit;
  }

  // The slots when the watch of one is being given up.
  function Cut(slots: seq<Slot>, p: nat): seq<Slot>
    requires p < |slots|
  {
    slots[p := slots[p].(wd := -1)]
  }

  lemma NothingPulled(slots: seq<Slot>)
    ensures Pulled(slots, Heads([])) == slots && Hits(slots, Heads([])) == [] && Hit(slots, Heads([])) == {}
  {
  }

  lemma FiredIs(slots: seq<Slot>, wd: int)
    ensures var i := FindWd(slots, wd);
            Fired(slots, wd) == if i < |slots| then slots[i := slots[i].(wd := -1, val := 1)] else slots
  {
  }

  lemma LiveHas(slots: seq<Slot>, p: nat)
    requires p < |slots| && slots[p].wd != -1
    ensures slots[p].wd in LiveWds(slots)
  {
  }

  lemma LiveHasNot(slots: seq<Slot>)
    ensures -1 !in LiveWds(slots)
  {
  }

  // Whether a slot is held does not matter for what is watched.
  lemma LiveCount(slots: seq<Slot>, p: nat, n: nat)
    requires p < |slots|
    ensures LiveWds(slots[p := slots[p].(refcount := n)]) == LiveWds(slots)
  {
    var next := slots[p := slots[p].(refcount := n)];
    assert forall i :: 0 <= i < |slots| ==> next[i].wd == slots[i].wd;
  }

  lemma LiveLetGo(slots: seq<Slot>, p: nat)
    requires p < |slots|
    ensures LiveWds(slots[p := slots[p].(refcount := 0)]) == LiveWds(slots)
  {
    LiveCount(slots, p, 0);
  }

  lemma LeaveLive(slots: seq<Slot>, given: seq<int>, fired: set<int>, p: nat)
    requires SlotsOk(slots, given, fired) && p < |slots|
    ensures LiveApart(Cut(slots, p)) && LiveWds(Cut(slots, p)) == LiveWds(slots) - {slots[p].wd}
  {
    LiveSet(slots, p, slots[p].(wd := -1));
  }

  // No slot becomes ready unnoticed.
  lemma {:induction false} ChangeMeansHit(slots: seq<Slot>, wds: seq<int>)
    ensures Pulled(slots, wds) != slots ==> Hits(slots, wds) != []
    decreases |wds|
  {
    if wds != [] {
      ChangeMeansHit(Fired(slots, wds[0]), wds[1..]);
    }
  }

  class InotifyState {
    var wds: array<Slot>
    var count: nat
    var got: bool
    var queue: seq<Event>        // what the kernel has queued
    ghost var given: seq<int>
    ghost var fired: set<int>    // descriptors whose events were handled
    ghost var used: set<int>     // descriptors the kernel has given out
    ghost var watches: set<int>  // those of them inotify_rm_watch was not yet called for

    ghost predicate Valid()
      reads this, wds
    {
      && SlotsOk(wds[..], given, fired)
      && count == CountHeld(wds[..])
      && watches == LiveWds(wds[..])
      && fired <= used && forall i :: 0 <= i < |given| && wds[i].refcount != 0 ==> given[i] in used
    }

    constructor ()
      ensures Valid() && count == 0 && !got && queue == [] && fired == {} && fresh(wds) && wds.Length == 0
    {
      wds, count, got, queue := new Slot[0], 0, false, [];
      given, fired, used, watches := [], {}, {}, {};
    }

    // The client holds what Add returned, and has yet to give it to Remove.
    predicate IsHeld(p2: int)
      reads this, wds
    {
      0 < p2 <= wds.Length && wds[p2 - 1].refcount != 0
    }

    predicate Ready(p2: int)
      requires 0 < p2 <= wds.Length
      reads this, wds
    {
      wds[p2 - 1].val != 0
    }

    method RinFindWd(wd: int) returns (p: nat)
      ensures p == FindWd(wds[..], wd)
    {
      p := 0;
      ghost var slots := wds[..];
      while p < wds.Length && wds[p].wd != wd
        invariant p <= wds.Length && FindWd(slots, wd) == p + FindWd(slots[p..], wd)
      {
        assert slots[p..][1..] == slots[p + 1..];
        p := p + 1;
      }
    }

    // Lines 353-361: one event. The result is whether any has found a slot so far.
    method HandleEvent(wd: int, got: int, ghost slots: seq<Slot>, ghost heads: seq<int>) returns (r: int)
      requires wds[..] == Pulled(slots, heads) && got == if Hits(slots, heads) != [] then 1 else 0
      modifies wds, this`watches
      ensures wds[..] == Pulled(slots, heads + [wd]) && r == if Hits(slots, heads + [wd]) != [] then 1 else 0
      ensures watches == old(watches) - if FindWd(Pulled(slots, heads), wd) < wds.Length then {wd} else {}
    {
      hide Pulled, Hits, Fired, FindWd;
      PulledAppend(slots, heads, wd);
      HitsAppend(slots, heads, wd);
      ghost var now := wds[..];
      FiredIs(now, wd);
      r := got;
      var p := RinFindWd(wd);
      if p < wds.Length {
        r := 1;
        wds[p] := wds[p].(wd := -1, val := 1);
        watches := watches - {wd};
        assert wds[..] == now[p := now[p].(wd := -1, val := 1)];
      }
    }

    // rin_pull_events; `ms` is what happens while it runs. The result says whether any event found a slot.
    method PullEvents(ms: seq<Moment>) returns (r: int)
      modifies wds, this`watches, this`queue
      ensures queue == Drain(old(queue), HEADER, ms).left && wds[..] == Pulled(old(wds[..]), Handling(old(queue), ms))
      ensures r == if ReadFails(old(queue), ms) then -1 else if Hits(old(wds[..]), Handling(old(queue), ms)) != [] then 1 else 0
      ensures watches == old(watches) - Hit(old(wds[..]), Handling(old(queue), ms))
    {
      hide Pulled, Hits, Drain, Size, Fit, Heads, Hit, Prepend;
      var got := 0;
      var bsize := HEADER;
      var k := 0;
      ghost var slots, q0 := wds[..], queue;
      ghost var done: seq<seq<Event>> := [];
      NothingPulled(slots);
      NothingDrained(Drain(q0, HEADER, ms));
      assert ms[0..] == ms;
      while true
        invariant 0 <= k <= |ms| && bsize > 0 && Drain(q0, HEADER, ms) == Prepend(done, Drain(queue, bsize, ms[k..]))
        invariant wds[..] == Pulled(slots, Heads(done)) && got == if Hits(slots, Heads(done)) != [] then 1 else 0
        invariant watches == old(watches) - Hit(slots, Heads(done))
        decreases |ms| - k, |queue|, Gap(queue, bsize)
      {
        DrainStep(queue, bsize, ms[k..]);
        PrependNone(done, queue + Next(ms[k..]).arrived);
        var fate := Works;
        if k < |ms| {
          queue := queue + ms[k].arrived;
          fate := ms[k].fate;
          assert ms[k..][1..] == ms[k + 1..];
          k := k + 1;
        }
        if queue == [] { return got; }
        if fate.Fails? { return -1; }
        if fate.Works? {
          if Size(queue[0]) > bsize {
            bsize := 2 * bsize;
          } else {
            var n := Fit(queue, bsize);
            PrependMore(done, queue[..n], Drain(queue[n..], bsize, ms[k..]));
            HeadsAppend(done, queue[..n]);
            HitMore(slots, Heads(done), queue[0].wd);
            got := HandleEvent(queue[0].wd, got, slots, Heads(done));
            done := done + [queue[..n]];
            queue := queue[n..];
          }
        }
      }
    }

    // Make room when every slot is held.
    method Grow()
      requires Valid()
      modifies this`wds, this`given
      ensures Valid() && count < wds.Length && (wds == old(wds) || fresh(wds))
      ensures wds.Length == SizeAfterAdd(old(wds.Length), count) && wds[..old(wds.Length)] == old(wds[..])
      ensures forall i :: old(wds.Length) <= i < wds.Length ==> wds[i].refcount == 0
    {
      hide LiveWds;
      if count == wds.Length {
        var newSize := if wds.Length != 0 then 2 * wds.Length else 32;
        var newWds := new Slot[newSize](i requires 0 <= i reads this, wds => if i < wds.Length then wds[i] else Slot(-1, 0, 0));
        ghost var more := newWds[wds.Length..];
        assert newWds[..] == wds[..] + more;
        CountAppend(wds[..], more);
        LiveGrown(wds[..], more);
        given := given + seq(newSize - wds.Length, _ => -1);
        wds := newWds;
      }
    }

    // rin_add_wd: its call of abort cannot be reached.
    method RinAddWd(wd: int) returns (p: nat)
      requires Valid() && count < wds.Length && wd != -1
      requires wd !in used || exists i :: 0 <= i < wds.Length && wds[i].wd == wd
      modifies wds, this`given, this`used, this`watches
      ensures p < wds.Length && SlotsOk(wds[..], given, fired) && fired <= used && watches == LiveWds(wds[..])
      ensures forall i :: 0 <= i < |given| && wds[i].refcount != 0 ==> given[i] in used
      ensures CountHeld(wds[..]) == count + if wds[p].refcount == 1 then 1 else 0
      ensures wds[p].wd == wd && wds[p].val == 0 && wds[p].refcount == old(wds[p].refcount) + 1
      ensures forall i :: 0 <= i < wds.Length && i != p ==> wds[i] == old(wds[i])
      ensures given == old(given)[p := wd]
    {
      hide LiveWds, Valid, SlotsOk, CountHeld;
      p := RinFindWd(wd);
      if p < wds.Length {
        ShareSlot(wd, p);
      } else {
        p := UseSlot(wd);
      }
    }

    // Lines 319-324: the watch has a slot already.
    method ShareSlot(wd: int, p: nat)
      requires Valid() && p < wds.Length && wds[p].wd == wd && wd != -1
      modifies wds
      ensures SlotsOk(wds[..], given, fired) && fired <= used && watches == LiveWds(wds[..])
      ensures forall i :: 0 <= i < |given| && wds[i].refcount != 0 ==> given[i] in used
      ensures CountHeld(wds[..]) == count + if wds[p].refcount == 1 then 1 else 0
      ensures wds[p] == old(wds[p]).(refcount := old(wds[p].refcount) + 1) && wds[p].val == 0
      ensures forall i :: 0 <= i < wds.Length && i != p ==> wds[i] == old(wds[i])
      ensures given == given[p := wd]
    {
      hide LiveWds;
      ghost var slots := wds[..];
      CountUpdate(slots, p, slots[p].(refcount := slots[p].refcount + 1));
      LiveSet(slots, p, slots[p].(refcount := slots[p].refcount + 1));
      LiveHas(slots, p);
      wds[p] := wds[p].(refcount := wds[p].refcount + 1);
      assert wds[..] == slots[p := slots[p].(refcount := slots[p].refcount + 1)];
    }

    // Lines 326-333: the first free slot, which there is.
    method UseSlot(wd: int) returns (p: nat)
      requires Valid() && count < wds.Length && wd != -1 && wd !in used
      requires forall i :: 0 <= i < wds.Length ==> wds[i].wd != wd
      modifies wds, this`given, this`used, this`watches
      ensures p < wds.Length && SlotsOk(wds[..], given, fired) && fired <= used && watches == LiveWds(wds[..])
      ensures forall i :: 0 <= i < |given| && wds[i].refcount != 0 ==> given[i] in used
      ensures CountHeld(wds[..]) == count + 1
      ensures wds[p] == Slot(wd, 1, 0) && old(wds[p].refcount) == 0
      ensures forall i :: 0 <= i < wds.Length && i != p ==> wds[i] == old(wds[i])
      ensures given == old(given)[p := wd]
    {
      hide LiveWds;
      ghost var slots := wds[..];
      ghost var free := SomeFree(slots);
      p := 0;
      while wds[p].refcount != 0
        invariant p <= free < wds.Length
        decreases free - p
      {
        p := p + 1;
      }
      CountUpdate(slots, p, Slot(wd, 1, 0));
      LiveSet(slots, p, Slot(wd, 1, 0));
      LiveHasNot(slots);
      wds[p] := Slot(wd, 1, 0);
      given := given[p := wd];
      used, watches := used + {wd}, watches + {wd};
      assert wds[..] == slots[p := Slot(wd, 1, 0)];
    }

    // do_inotify_add: wd is what inotify_add_watch returns, -1, or the descriptor of a live watch for
    // the same file, or a fresh one.
    method Add(wd: int) returns (p2: int)
      requires Valid()
      requires wd == -1 || wd !in used || exists i :: 0 <= i < wds.Length && wds[i].wd == wd
      modifies this`wds, this`count, this`given, this`used, this`watches, wds
      ensures Valid() && (wds == old(wds) || fresh(wds)) && wds.Length == SizeAfterAdd(old(wds.Length), old(count))
      ensures p2 == -1 <==> wd == -1
      ensures wd != -1 ==> IsHeld(p2) && !Ready(p2) && wds[p2 - 1].wd == wd && given[p2 - 1] == wd
      ensures wd != -1 ==> wds[p2 - 1].refcount == 1 + if p2 <= old(wds.Length) then old(wds[..])[p2 - 1].refcount else 0
      ensures forall i :: 0 <= i < old(wds.Length) && i + 1 != p2 ==> wds[i] == old(wds[..])[i]
    {
      ghost var slots := wds[..];
      Grow();
      assert forall i :: 0 <= i < |slots| ==> wds[i] == slots[i];
      if wd == -1 { return -1; }
      var p := RinAddWd(wd);
      if wds[p].refcount == 1 { count := count + 1; }
      p2 := p + 1;
    }

    // Lines 497-506: the last user of a slot leaves it; one that is still watched is given up first.
    method LetGo(p: nat, ms: seq<Moment>)
      requires Valid() && p < wds.Length && wds[p].refcount == 1
      modifies this`count, this`got, this`fired, this`used, this`watches, this`queue, wds
      ensures wds[p].refcount == 1 && wds[..][p := wds[p].(refcount := 0)] == AfterRemove(old(wds[..]), p, Handling(old(queue), ms))
      ensures SlotsOk(wds[..][p := wds[p].(refcount := 0)], given, fired)
      ensures count == CountHeld(wds[..][p := wds[p].(refcount := 0)]) && old(used) <= used && fired <= used
      ensures watches == LiveWds(wds[..][p := wds[p].(refcount := 0)])
      ensures forall i :: 0 <= i < wds.Length ==> wds[i].refcount == old(wds[i].refcount)
      ensures queue == if old(wds[p].wd) != -1 then Drain(old(queue), HEADER, ms).left else old(queue)
      ensures fired == if old(wds[p].wd) != -1 then old(fired) + Handled(Handling(old(queue), ms)) else old(fired)
      ensures got == (old(got) || (old(wds[p].wd) != -1 && !ReadFails(old(queue), ms) && Hits(Cut(old(wds[..]), p), Handling(old(queue), ms)) != []))
    {
      hide SlotsOk, Pulled, CountHeld, Handled, LiveWds, Hits, Hit, Drain, Heads;
      ghost var slots, heads := wds[..], Handling(queue, ms);
      CountUpdate(slots, p, slots[p].(wd := -1, refcount := 0));
      LeaveOk(slots, given, fired, p);
      LeaveLive(slots, given, fired, p);
      if wds[p].wd != -1 {
        watches := watches - {wds[p].wd};
        wds[p] := wds[p].(wd := -1);
        ghost var cut := wds[..];
        ghost var gone := slots[p := slots[p].(wd := -1, refcount := 0)];
        assert cut == Cut(slots, p) && cut[p := cut[p].(refcount := 0)] == gone;
        var r := PullEvents(ms);
        if r > 0 { got := true; }
        PulledLetGo(cut, heads, p, 0);
        PulledOk(gone, given, fired, heads);
        HitsLeave(cut, heads);
        LiveLetGo(wds[..], p);
        forall i | 0 <= i < wds.Length ensures wds[..][i].refcount == slots[i].refcount {
          PulledRefcounts(cut, heads, i);
        }
        fired := fired + Handled(heads);
        used := used + Handled(heads);
        assert wds[..][p := wds[p].(refcount := 0)] == Pulled(gone, heads);
      } else {
        assert slots[p := slots[p].(wd := -1, refcount := 0)] == slots[p := slots[p].(refcount := 0)];
        LiveLetGo(slots, p);
      }
      count := count - 1;
    }

    // do_inotify_remove
    method Remove(p2: int, ms: seq<Moment>)
      requires Valid() && IsHeld(p2)
      modifies this`count, this`got, this`fired, this`used, this`watches, this`queue, wds
      ensures Valid() && wds[..] == AfterRemove(old(wds[..]), p2 - 1, Handling(old(queue), ms))
      ensures forall i :: 0 <= i < wds.Length ==> wds[i].refcount == old(wds[i].refcount) - if i == p2 - 1 then 1 else 0
      ensures queue == if LastLeaves(old(wds[p2 - 1])) then Drain(old(queue), HEADER, ms).left else old(queue)
      ensures fired == if LastLeaves(old(wds[p2 - 1])) then old(fired) + Handled(Handling(old(queue), ms)) else old(fired)
      ensures got == (old(got) || (LastLeaves(old(wds[p2 - 1])) && !ReadFails(old(queue), ms) && Hits(Cut(old(wds[..]), p2 - 1), Handling(old(queue), ms)) != []))
    {
      hide Hits, Hit, Pulled, LiveWds, Drain, Heads;
      var p := p2 - 1;
      ghost var slots := wds[..];
      if wds[p].refcount == 1 {
        LetGo(p, ms);
      } else {
        CountUpdate(slots, p, slots[p].(refcount := slots[p].refcount - 1));
        LiveCount(slots, p, slots[p].refcount - 1);
      }
      ghost var last := wds[..];
      wds[p] := wds[p].(refcount := wds[p].refcount - 1);
      assert wds[..] == last[p := last[p].(refcount := last[p].refcount - 1)];
    }

    // do_inotify_poll: ready exactly when the watch's event has been handled.
    method Poll(p2: int, ms: seq<Moment>) returns (r: int)
      requires Valid() && IsHeld(p2)
      modifies this`got, this`fired, this`used, this`watches, this`queue, wds
      ensures Valid() && IsHeld(p2)
      ensures queue == Drain(old(queue), HEADER, ms).left
      ensures wds[..] == Pulled(old(wds[..]), Handling(old(queue), ms)) && fired == old(fired) + Handled(Handling(old(queue), ms))
      ensures if ReadFails(old(queue), ms) then r == -1 else r == if given[p2 - 1] in fired then 1 else 0
      ensures forall i :: 0 <= i < wds.Length ==> wds[i].refcount == old(wds[i].refcount)
      ensures got == (old(got) || (!ReadFails(old(queue), ms) && Hits(old(wds[..]), Handling(old(queue), ms)) != []))
    {
      hide Hits, Hit, Pulled, LiveWds, Drain, Heads;
      var p := p2 - 1;
      ghost var slots, heads := wds[..], Handling(queue, ms);
      r := PullEvents(ms);
      if r > 0 { got := true; }
      PulledOk(slots, given, fired, heads);
      HitsLeave(slots, heads);
      fired := fired + Handled(heads);
      used := used + Handled(heads);
      r := if r < 0 then -1 else if wds[p].val != 0 then 1 else 0;
    }

    // do_inotify_fd: sleep only if no event came in since the last time.
    method MaySleep() returns (sleep: bool)
      modifies this`got
      ensures sleep == !old(got) && !got
    {
      sleep := !got;
      got := false;
    }
  }
}
