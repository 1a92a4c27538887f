// Which filesystem changes reach their slots (rktio_fs_change.c), whatever is queued or arrives and
// however the reads of rin_pull_events cut it up.
module InotifyDelivery {
  import opened InotifyReads
  import opened InotifySlots

  // ---- what the kernel queues

  // A watch fires, at most once as it was added with IN_ONESHOT, with the length of the name of the
  // directory entry it is about, 0 if it is about no entry; or the last user has given it up.
  datatype Happening = Fires(wd: int, nameLength: nat) | GivenUp(wd: int)

  // The events of that.  Since Linux 2.6.36 (`ignored`) the event of a one-shot watch is followed by an
  // IN_IGNORED event for the same descriptor, without a name; inotify_rm_watch always gives one.
  function EventsOf(h: Happening, ignored: bool): (q: seq<Event>)
    ensures 1 <= |q| <= 2 && forall i :: 0 <= i < |q| ==> q[i].wd == h.wd
  {
    match h
    case Fires(wd, n) => if ignored then [Event(wd, n), Event(wd, 0)] else [Event(wd, n)]
    case GivenUp(wd) => [Event(wd, 0)]
  }

  function Queued(hs: seq<Happening>, ignored: bool): seq<Event> {
    if hs == [] then [] else EventsOf(hs[0], ignored) + Queued(hs[1..], ignored)
  }

  // Where the events of the kth happening are in the queue.
  function At(hs: seq<Happening>, ignored: bool, k: nat): nat
    requires k <= |hs|
  {
    if k == 0 then 0 else |EventsOf(hs[0], ignored)| + At(hs[1..], ignored, k - 1)
  }

  predicate Among(hs: seq<Happening>, ignored: bool, k: nat, i: nat)
    requires k < |hs|
  {
    At(hs, ignored, k) <= i < At(hs, ignored, k) + |EventsOf(hs[k], ignored)|
  }

  lemma {:induction false} QueuedAt(hs: seq<Happening>, ignored: bool, k: nat, i: nat)
    requires k < |hs| && Among(hs, ignored, k, i)
    ensures i < |Queued(hs, ignored)| && Queued(hs, ignored)[i] == EventsOf(hs[k], ignored)[i - At(hs, ignored, k)]
    decreases k
  {
    hide EventsOf;
    if k > 0 { QueuedAt(hs[1..], ignored, k - 1, i - |EventsOf(hs[0], ignored)|); }
  }

  lemma {:induction false} SomeHappening(hs: seq<Happening>, ignored: bool, i: nat) returns (k: nat)
    requires i < |Queued(hs, ignored)|
    ensures k < |hs| && Among(hs, ignored, k, i)
    decreases |hs|
  {
    hide EventsOf;
    var n := |EventsOf(hs[0], ignored)|;
    if i < n {
      k := 0;
    } else {
      k := SomeHappening(hs[1..], ignored, i - n);
      k := k + 1;
    }
  }

  // A descriptor is given out once.
  ghost predicate Once(hs: seq<Happening>) {
    && (forall k :: 0 <= k < |hs| ==> hs[k].wd != -1)
    && (forall k, l :: 0 <= k < l < |hs| ==> hs[k].wd != hs[l].wd)
  }

  // ---- any number of passes

  // The reads of one call of rin_pull_events after the other, each with a new buffer; what arrives in
  // between arrives with the first moment of the next.
  function Passes(q: seq<Event>, mss: seq<seq<Moment>>): (d: Drained)
    ensures forall k :: 0 <= k < |d.batches| ==> d.batches[k] != []
    decreases |mss|
  {
    if mss == [] then Drained([], q, false)
    else
      var d := Drain(q, HEADER, mss[0]);
      Prepend(d.batches, Passes(d.left, mss[1..]))
  }

  lemma HeadsJoin(a: seq<seq<Event>>, b: seq<seq<Event>>)
    ensures Heads(a + b) == Heads(a) + Heads(b)
  {
  }

  lemma {:induction false} PulledJoin(slots: seq<Slot>, a: seq<int>, b: seq<int>)
    ensures Pulled(slots, a + b) == Pulled(Pulled(slots, a), b)
    decreases |a|
  {
    hide Fired;
    if a == [] {
      assert a + b == b;
    } else {
      assert (a + b)[1..] == a[1..] + b;
      PulledJoin(Fired(slots, a[0]), a[1..], b);
    }
  }

  // What a pass handles and what the later ones handle make the slots what all of them handle does.
  lemma PassesPull(slots: seq<Slot>, q: seq<Event>, mss: seq<seq<Moment>>)
    requires mss != []
    ensures var d := Drain(q, HEADER, mss[0]);
            Pulled(slots, Heads(Passes(q, mss).batches))
            == Pulled(Pulled(slots, Handling(q, mss[0])), Heads(Passes(d.left, mss[1..]).batches))
  {
    hide Pulled, Heads;
    var d, later := Drain(q, HEADER, mss[0]), Passes(Drain(q, HEADER, mss[0]).left, mss[1..]);
    HeadsJoin(d.batches, later.batches);
    PulledJoin(slots, Heads(d.batches), Heads(later.batches));
  }

  lemma OnePass(q: seq<Event>)
    ensures Passes(q, [[]]).batches == Drain(q, HEADER, []).batches
  {
    hide Drain;
    var d := Drain(q, HEADER, []);
    var mss: seq<seq<Moment>> := [[]];
    assert Passes(d.left, []).batches == [] && mss[1..] == [];
    assert d.batches + [] == d.batches;
  }

  // ---- reaching a slot

  ghost predicate Unready(slots: seq<Slot>) {
    LiveApart(slots) && forall i :: 0 <= i < |slots| ==> slots[i].val == 0
  }

  // Whatever the slots: handling these events makes ready each whose watch fired.
  ghost predicate Delivered(hs: seq<Happening>, heads: seq<int>) {
    forall slots: seq<Slot>, i, h :: Unready(slots) && 0 <= i < |slots| && h in hs && h.Fires? && slots[i].wd == h.wd ==>
      Pulled(slots, heads)[i].val == 1
  }

  // That is: one event for each watch that fired is the first of some read.
  lemma DeliveredIs(hs: seq<Happening>, heads: seq<int>)
    requires forall k :: 0 <= k < |hs| ==> hs[k].wd != -1
    ensures Delivered(hs, heads) <==> forall h :: h in hs && h.Fires? ==> h.wd in heads
  {
    hide Pulled;
    forall h | h in hs && h.Fires? && Delivered(hs, heads) ensures h.wd in heads {
      var slots := [Slot(h.wd, 1, 0)];
      assert Unready(slots) && slots[0].wd == h.wd;
      ReadyWhenFired(slots, heads, 0);
    }
    if forall h :: h in hs && h.Fires? ==> h.wd in heads {
      forall slots: seq<Slot>, i, h | Unready(slots) && 0 <= i < |slots| && h in hs && h.Fires? && slots[i].wd == h.wd
        ensures Pulled(slots, heads)[i].val == 1
      {
        ReadyWhenFired(slots, heads, i);
      }
    }
  }

  // ---- one queue, from the sizes of its events

  function Sizes(q: seq<Event>): (ss: seq<nat>)
    ensures |ss| == |q| && forall i :: 0 <= i < |q| ==> ss[i] == Size(q[i])
  {
    seq(|q|, i requires 0 <= i < |q| => Size(q[i]))
  }

  function FitFrom(ss: seq<nat>, room: nat, at: nat): (n: nat)
    requires at <= |ss|
    ensures at + n <= |ss| && (n > 0 <==> at < |ss| && ss[at] <= room)
    decreases |ss| - at
  {
    if at == |ss| || ss[at] > room then 0 else 1 + FitFrom(ss, room - ss[at], at + 1)
  }

  // The places in the queue where a read starts: each takes what fits into the buffer, which has
  // become large enough for the event at its start.
  function Starts(ss: seq<nat>, bsize: nat, at: nat): (r: seq<nat>)
    requires bsize > 0 && at <= |ss|
    ensures forall k :: 0 <= k < |r| ==> r[k] < |ss|
    decreases |ss| - at
  {
    if at == |ss| then []
    else
      var b := Grown(bsize, ss[at]);
      [at] + Starts(ss, b, at + FitFrom(ss, b, at))
  }

  lemma {:induction false} FitIs(q: seq<Event>, room: nat, at: nat)
    requires at <= |q|
    ensures Fit(q[at..], room) == FitFrom(Sizes(q), room, at)
    decreases |q| - at
  {
    hide Size;
    if at < |q| && Size(q[at]) <= room {
      FitIs(q, room - Size(q[at]), at + 1);
      assert q[at..][1..] == q[at + 1..];
    }
  }

  function WdsAt(q: seq<Event>, places: seq<nat>): (r: seq<int>)
    requires forall k :: 0 <= k < |places| ==> places[k] < |q|
    ensures |r| == |places|
  {
    seq(|places|, k requires 0 <= k < |places| => q[places[k]].wd)
  }

  // The events handled are those at the starts.
  lemma {:induction false} HeadsAreStarts(q: seq<Event>, bsize: nat, at: nat)
    requires bsize > 0 && at <= |q|
    ensures Heads(Drain(q[at..], bsize, []).batches) == WdsAt(q, Starts(Sizes(q), bsize, at))
    decreases |q| - at
  {
    hide Drain, Fit, Size, Heads, Sizes;
    if at == |q| {
      EmptyDrain(bsize);
      NoHeads();
    } else {
      var r, b := q[at..], Grown(bsize, Size(q[at]));
      var n := Fit(r, b);
      GrowFirst(r, bsize);
      ReadFirst(r, b);
      FitIs(q, b, at);
      assert r[n..] == q[at + n..];
      HeadsAreStarts(q, b, at + n);
      HeadsCons(r[..n], Drain(r[n..], b, []).batches);
      assert r[..n][0] == q[at];
    }
  }

  lemma NoHeads()
    ensures Heads([]) == []
  {
  }

  lemma HeadsCons(b: seq<Event>, bs: seq<seq<Event>>)
    requires b != []
    ensures Heads([b] + bs) == [b[0].wd] + Heads(bs)
  {
  }

  // One of the events of the kth happening stands where a read starts.
  ghost predicate Noticed(hs: seq<Happening>, ignored: bool, k: nat)
    requires k < |hs|
  {
    exists i :: i in Starts(Sizes(Queued(hs, ignored)), HEADER, 0) && Among(hs, ignored, k, i)
  }

  // A queue that is read in one quiet pass makes ready every slot whose watch fired if and only if, for
  // each, one of its events stands where a read starts. The starts depend on the sizes alone.
  lemma QueueDelivered(hs: seq<Happening>, ignored: bool)
    requires Once(hs)
    ensures Delivered(hs, Heads(Passes(Queued(hs, ignored), [[]]).batches))
       <==> forall k :: 0 <= k < |hs| && hs[k].Fires? ==> Noticed(hs, ignored, k)
  {
    hide Queued, EventsOf, At, Passes, Drain, Starts, Heads, Delivered, Sizes, Noticed;
    var q := Queued(hs, ignored);
    var heads := Heads(Passes(q, [[]]).batches);
    OnePass(q);
    assert q[0..] == q;
    HeadsAreStarts(q, HEADER, 0);
    DeliveredIs(hs, heads);
    forall k | 0 <= k < |hs| ensures hs[k].wd in heads <==> Noticed(hs, ignored, k) { NoticedIs(hs, ignored, k, heads); }
    forall h | h in hs ensures exists k :: 0 <= k < |hs| && hs[k] == h {}
  }

  lemma NoticedIs(hs: seq<Happening>, ignored: bool, k: nat, heads: seq<int>)
    requires Once(hs) && k < |hs|
    requires heads == WdsAt(Queued(hs, ignored), Starts(Sizes(Queued(hs, ignored)), HEADER, 0))
    ensures hs[k].wd in heads <==> Noticed(hs, ignored, k)
  {
    hide Queued, EventsOf, At, Starts, Sizes;
    var q, starts := Queued(hs, ignored), Starts(Sizes(Queued(hs, ignored)), HEADER, 0);
    if hs[k].wd in heads {
      var m :| 0 <= m < |heads| && heads[m] == hs[k].wd;
      var l := SomeHappening(hs, ignored, starts[m]);
      QueuedAt(hs, ignored, l, starts[m]);
      assert starts[m] in starts && Among(hs, ignored, k, starts[m]);
    }
    if Noticed(hs, ignored, k) {
      var i :| i in starts && Among(hs, ignored, k, i);
      var m :| 0 <= m < |starts| && starts[m] == i;
      QueuedAt(hs, ignored, k, i);
      assert heads[m] == hs[k].wd;
    }
  }

  // ---- every way to read

  ghost predicate AllShort(bs: seq<seq<Event>>, c: nat) {
    forall k, e :: 0 <= k < |bs| && e in bs[k] ==> Size(e) <= c
  }

  ghost predicate FewEach(bs: seq<seq<Event>>, c: nat) {
    forall k :: 0 <= k < |bs| ==> |bs[k]| * HEADER <= c
  }

  lemma ShortCons(b: seq<Event>, bs: seq<seq<Event>>, c: nat)
    requires b != []
    ensures AllShort([b] + bs, c) ==> Size(b[0]) <= c && AllShort(bs, c)
    ensures FewEach([b] + bs, c) <==> |b| * HEADER <= c && FewEach(bs, c)
  {
    hide Size;
    var all := [b] + bs;
    assert all[0] == b && b[0] in b && forall k :: 0 <= k < |bs| ==> all[k + 1] == bs[k];
    if AllShort(all, c) {
      forall k, e | 0 <= k < |bs| && e in bs[k] ensures Size(e) <= c { assert e in all[k + 1]; }
    }
    if FewEach(all, c) {
      forall k | 0 <= k < |bs| ensures |bs[k]| * HEADER <= c { assert |all[k + 1]| * HEADER <= c; }
    }
  }

  lemma {:induction false} FitBound(q: seq<Event>, room: nat)
    ensures Fit(q, room) * HEADER <= room
  {
    if q != [] && Size(q[0]) <= room { FitBound(q[1..], room - Size(q[0])); }
  }

  // As long as only events of at most c bytes are read, the buffer that reads them has at most c.
  lemma {:induction false} ShortReads(q: seq<Event>, bsize: nat, ms: seq<Moment>, c: nat)
    requires c == HEADER || c == 2 * HEADER
    requires bsize == HEADER || bsize == c || (bsize > 0 && q != [] && Size(q[0]) > c)
    ensures AllShort(Drain(q, bsize, ms).batches, c) ==> FewEach(Drain(q, bsize, ms).batches, c)
    decreases |ms|, |q|, Gap(q, bsize)
  {
    hide Size, Fit, AllShort, FewEach;
    var q' := q + Next(ms).arrived;
    if q' == [] || Next(ms).fate.Fails? {
      NoReads(c);
    } else if Next(ms).fate.Interrupted? {
      ShortReads(q', bsize, Later(ms), c);
    } else if Size(q'[0]) > bsize {
      ShortReads(q', 2 * bsize, Later(ms), c);
    } else {
      var n := Fit(q', bsize);
      FitBound(q', bsize);
      ShortCons(q'[..n], Drain(q'[n..], bsize, Later(ms)).batches, c);
      if Size(q'[0]) <= c { ShortReads(q'[n..], bsize, Later(ms), c); }
    }
  }

  lemma NoReads(c: nat)
    ensures FewEach([], c)
  {
  }

  lemma ShortJoin(a: seq<seq<Event>>, b: seq<seq<Event>>, c: nat)
    ensures AllShort(a + b, c) ==> AllShort(a, c) && AllShort(b, c)
    ensures FewEach(a, c) && FewEach(b, c) ==> FewEach(a + b, c)
  {
    hide Size;
    var all := a + b;
    assert (forall k :: 0 <= k < |a| ==> all[k] == a[k]) && forall k :: 0 <= k < |b| ==> all[|a| + k] == b[k];
    if AllShort(all, c) {
      forall k, e | 0 <= k < |a| && e in a[k] ensures Size(e) <= c { assert e in all[k]; }
      forall k, e | 0 <= k < |b| && e in b[k] ensures Size(e) <= c { assert e in all[|a| + k]; }
    }
  }

  lemma {:induction false} PassesShort(q: seq<Event>, mss: seq<seq<Moment>>, c: nat)
    requires c == HEADER || c == 2 * HEADER
    ensures AllShort(Passes(q, mss).batches, c) ==> FewEach(Passes(q, mss).batches, c)
    decreases |mss|
  {
    hide Drain, AllShort, FewEach;
    if mss == [] {
      NoReads(c);
    } else {
      var d := Drain(q, HEADER, mss[0]);
      ShortReads(q, HEADER, mss[0], c);
      PassesShort(d.left, mss[1..], c);
      ShortJoin(d.batches, Passes(d.left, mss[1..]).batches, c);
    }
  }

  // Of reads with one event each, every event is the first.
  lemma {:induction false} StartAt(bs: seq<seq<Event>>, i: nat)
    requires (forall k :: 0 <= k < |bs| ==> |bs[k]| == 1) && i < |Concat(bs)|
    ensures Concat(bs)[i].wd in Heads(bs)
  {
    assert bs == [bs[0]] + bs[1..];
    HeadsCons(bs[0], bs[1..]);
    if i > 0 { StartAt(bs[1..], i - 1); }
  }

  // Of reads with two events at most, one of any two events in a row is the first.
  lemma {:induction false} StartNear(bs: seq<seq<Event>>, i: nat)
    requires (forall k :: 0 <= k < |bs| ==> 1 <= |bs[k]| <= 2) && i + 1 < |Concat(bs)|
    ensures Concat(bs)[i].wd in Heads(bs) || Concat(bs)[i + 1].wd in Heads(bs)
  {
    var n, rest := |bs[0]|, bs[1..];
    assert bs == [bs[0]] + rest;
    HeadsCons(bs[0], rest);
    if i >= n {
      StartNear(rest, i - n);
    } else if i > 0 {
      assert Concat(bs)[i + 1] == Concat(rest)[0] && rest != [];
      assert rest == [rest[0]] + rest[1..];
      HeadsCons(rest[0], rest[1..]);
    }
  }

  // How much is read for a happening at once, at most.
  predicate Within(h: Happening, c: nat) { h.Fires? ==> Size(Event(h.wd, h.nameLength)) <= c }

  lemma QueuedShort(hs: seq<Happening>, ignored: bool, bs: seq<seq<Event>>, c: nat)
    requires Concat(bs) == Queued(hs, ignored) && c >= HEADER
    requires forall k :: 0 <= k < |hs| ==> Within(hs[k], c)
    ensures AllShort(bs, c)
  {
    hide Queued, At;
    forall k, e | 0 <= k < |bs| && e in bs[k] ensures Size(e) <= c {
      var i :| 0 <= i < |bs[k]| && bs[k][i] == e;
      Member(bs, k, i);
      var j :| 0 <= j < |Concat(bs)| && Concat(bs)[j] == e;
      var l := SomeHappening(hs, ignored, j);
      QueuedAt(hs, ignored, l, j);
      assert Within(hs[l], c);
    }
  }

  // Whatever has been read of such happenings, in whatever passes, every watch that fired is handled.
  lemma ShortDelivered(hs: seq<Happening>, ignored: bool, q: seq<Event>, mss: seq<seq<Moment>>, c: nat)
    requires Once(hs) && Concat(Passes(q, mss).batches) == Queued(hs, ignored)
    requires c == HEADER || (c == 2 * HEADER && ignored)
    requires forall k :: 0 <= k < |hs| ==> Within(hs[k], c)
    ensures Delivered(hs, Heads(Passes(q, mss).batches))
  {
    hide Queued, At, Heads, Passes, Delivered, AllShort, Size;
    var bs := Passes(q, mss).batches;
    QueuedShort(hs, ignored, bs, c);
    PassesShort(q, mss, c);
    forall h | h in hs && h.Fires? ensures h.wd in Heads(bs) {
      var k :| 0 <= k < |hs| && hs[k] == h;
      var i := At(hs, ignored, k);
      QueuedAt(hs, ignored, k, i);
      if c == HEADER {
        assert forall k :: 0 <= k < |bs| ==> |bs[k]| * HEADER <= c && bs[k] != [];
        StartAt(bs, i);
      } else {
        QueuedAt(hs, ignored, k, i + 1);
        assert forall k :: 0 <= k < |bs| ==> |bs[k]| * HEADER <= c && bs[k] != [];
        StartNear(bs, i);
      }
    }
    DeliveredIs(hs, Heads(bs));
  }

  // ---- which names are too long

  // Only watches of directories give names, and none of an entry longer than the longest.
  ghost predicate Plausible(hs: seq<Happening>, dirs: set<int>, longest: nat) {
    Once(hs)
    && forall k :: 0 <= k < |hs| && hs[k].Fires? && hs[k].nameLength > 0 ==> hs[k].wd in dirs && hs[k].nameLength <= longest
  }

  // The first length of a name that can lose an event.
  function TooLong(ignored: bool): nat { if ignored then 16 else 1 }

  // Whatever is queued, arrives, interrupts or fails, in whatever passes: all watches that fired are
  // handled once their events have been read, if and only if no watched directory has too long a name.
  lemma EventsDelivered(ignored: bool, dirs: set<int>, longest: nat)
    requires -1 !in dirs
    ensures (forall hs, q, mss :: Plausible(hs, dirs, longest) && Concat(Passes(q, mss).batches) == Queued(hs, ignored)
               ==> Delivered(hs, Heads(Passes(q, mss).batches)))
       <==> dirs == {} || longest < TooLong(ignored)
  {
    hide Queued, Passes, Delivered, Heads, Concat;
    if dirs == {} || longest < TooLong(ignored) {
      forall hs, q, mss | Plausible(hs, dirs, longest) && Concat(Passes(q, mss).batches) == Queued(hs, ignored)
        ensures Delivered(hs, Heads(Passes(q, mss).batches))
      {
        ShortDelivered(hs, ignored, q, mss, if dirs != {} && ignored then 2 * HEADER else HEADER);
      }
    } else {
      var dir := SomeOf(dirs);
      var f, g := if dir == 1 then 2 else 1, if dir == 3 then 4 else 3;
      var hs := [Fires(dir, TooLong(ignored)), Fires(f, 0), Fires(g, 0)];
      NameLosesEvent(ignored, dir, f, g);
      assert Plausible(hs, dirs, longest);
      AllReadAtOnce(Queued(hs, ignored));
    }
  }

  lemma SomeOf(s: set<int>) returns (x: int)
    requires s != {}
    ensures x in s
  {
    assert (forall y :: y !in s) ==> s == {};
    x :| x in s;
  }

  lemma AllReadAtOnce(q: seq<Event>)
    ensures Concat(Passes(q, [[]]).batches) == q
  {
    hide Drain, Passes, Concat;
    OnePass(q);
    QuietNeverFails(q, HEADER);
    var n := EverythingRead(q, HEADER, []);
    var d := Drain(q, HEADER, []);
    assert Arrived([][..n]) == [];
    assert Concat(d.batches) + [] == Concat(d.batches) && q + [] == q;
  }

  lemma {:induction false} QuietNeverFails(q: seq<Event>, bsize: nat)
    requires bsize > 0
    ensures !Drain(q, bsize, []).failed
    decreases |q|, Gap(q, bsize)
  {
    hide Size, Fit;
    assert q + QUIET.arrived == q;
    if q != [] {
      if Size(q[0]) > bsize { QuietNeverFails(q, 2 * bsize); } else { QuietNeverFails(q[Fit(q, bsize)..], bsize); }
    }
  }

  // For instance: a directory fires with a name of 16 characters, then two files. The name makes the
  // buffer 64 bytes long; the first read takes both events of the directory, the second all four
  // of the files. (Before IN_IGNORED: with a name of one character the buffer is 32 bytes long, and one
  // read takes the events of both files.)
  lemma NameLosesEvent(ignored: bool, dir: int, f: int, g: int)
    requires dir != -1 && f != -1 && g != -1 && dir != f && dir != g && f != g
    ensures var hs := [Fires(dir, TooLong(ignored)), Fires(f, 0), Fires(g, 0)];
            Once(hs) && !Delivered(hs, Heads(Passes(Queued(hs, ignored), [[]]).batches))
  {
    hide Passes, Delivered, Heads, Starts, Noticed;
    var hs := [Fires(dir, TooLong(ignored)), Fires(f, 0), Fires(g, 0)];
    assert Once(hs);
    QueueDelivered(hs, ignored);
    LastUnnoticed(ignored, dir, f, g);
    assert hs[2].Fires?;
  }

  lemma LastUnnoticed(ignored: bool, dir: int, f: int, g: int)
    ensures !Noticed([Fires(dir, TooLong(ignored)), Fires(f, 0), Fires(g, 0)], ignored, 2)
  {
    hide Starts;
    var hs := [Fires(dir, TooLong(ignored)), Fires(f, 0), Fires(g, 0)];
    QueueOfThree(ignored, dir, f, g);
    if ignored { StartsLong(); } else { StartsOlder(); }
    assert At(hs[1..][1..], ignored, 0) == 0;
    assert At(hs[1..], ignored, 1) == if ignored then 2 else 1;
    assert At(hs, ignored, 2) == if ignored then 4 else 2;
  }

  lemma QueueOfThree(ignored: bool, dir: int, f: int, g: int)
    ensures Sizes(Queued([Fires(dir, TooLong(ignored)), Fires(f, 0), Fires(g, 0)], ignored))
         == if ignored then [48, 16, 16, 16, 16, 16] else [32, 16, 16]
  {
    var hs := [Fires(dir, TooLong(ignored)), Fires(f, 0), Fires(g, 0)];
    var two, one := hs[1..], hs[1..][1..];
    assert two == [Fires(f, 0), Fires(g, 0)] && one == [Fires(g, 0)] && one[1..] == [];
    assert Queued(one, ignored) == EventsOf(Fires(g, 0), ignored);
    assert Queued(two, ignored) == EventsOf(Fires(f, 0), ignored) + Queued(one, ignored);
    assert Queued(hs, ignored) == EventsOf(hs[0], ignored) + Queued(two, ignored);
  }

  lemma StartsLong()
    ensures Starts([48, 16, 16, 16, 16, 16], HEADER, 0) == [0, 2]
  {
    var ss: seq<nat> := [48, 16, 16, 16, 16, 16];
    assert Grown(16, 48) == Grown(32, 48) == Grown(64, 48) == 64;
    assert FitFrom(ss, 0, 2) == 0 && FitFrom(ss, 16, 1) == 1 && FitFrom(ss, 64, 0) == 2;
    assert FitFrom(ss, 16, 5) == 1 && FitFrom(ss, 32, 4) == 2 && FitFrom(ss, 48, 3) == 3 && FitFrom(ss, 64, 2) == 4;
    assert Starts(ss, 64, 6) == [] && Starts(ss, 64, 2) == [2];
  }

  lemma StartsOlder()
    ensures Starts([32, 16, 16], HEADER, 0) == [0, 1]
  {
    var ss: seq<nat> := [32, 16, 16];
    assert Grown(16, 32) == Grown(32, 32) == 32;
    assert FitFrom(ss, 0, 1) == 0 && FitFrom(ss, 32, 0) == 1;
    assert FitFrom(ss, 16, 2) == 1 && FitFrom(ss, 32, 1) == 2;
    assert Starts(ss, 32, 3) == [] && Starts(ss, 32, 1) == [1];
  }

  // The two events of a watch must be next to each other: were another's queued in between, the
  // shortest name would do.
  lemma ApartLosesEvent(dir: int, f: int, g: int)
    requires dir != f && f != g
    ensures f !in Heads(Passes([Event(dir, 1), Event(dir, 0), Event(f, 0), Event(g, 0), Event(f, 0), Event(g, 0)], [[]]).batches)
  {
    hide Passes, Drain, Heads, Starts;
    var q := [Event(dir, 1), Event(dir, 0), Event(f, 0), Event(g, 0), Event(f, 0), Event(g, 0)];
    OnePass(q);
    assert q[0..] == q && Sizes(q) == [32, 16, 16, 16, 16, 16];
    HeadsAreStarts(q, HEADER, 0);
    StartsApart();
  }

  lemma StartsApart()
    ensures Starts([32, 16, 16, 16, 16, 16], HEADER, 0) == [0, 1, 3, 5]
  {
    var ss: seq<nat> := [32, 16, 16, 16, 16, 16];
    assert Grown(16, 32) == Grown(32, 32) == 32;
    assert FitFrom(ss, 0, 1) == 0 && FitFrom(ss, 32, 0) == 1;
    assert FitFrom(ss, 0, 3) == 0 && FitFrom(ss, 16, 2) == 1 && FitFrom(ss, 32, 1) == 2;
    assert FitFrom(ss, 0, 5) == 0 && FitFrom(ss, 16, 4) == 1 && FitFrom(ss, 32, 3) == 2;
    assert FitFrom(ss, 16, 6) == 0 && FitFrom(ss, 32, 5) == 1;
    assert Starts(ss, 32, 6) == [] && Starts(ss, 32, 5) == [5] && Starts(ss, 32, 3) == [3, 5] && Starts(ss, 32, 1) == [1, 3, 5];
  }

  // ---- one event for each watch

  // On an older kernel, a queue of fired watches is handled if and only if no two events in a row fit
  // into the buffer as the events before have made it.
  lemma OlderQueueDelivered(hs: seq<Happening>)
    requires Once(hs) && forall k :: 0 <= k < |hs| ==> hs[k].Fires?
    ensures Delivered(hs, Heads(Passes(Queued(hs, false), [[]]).batches)) <==> Tight(HEADER, Queued(hs, false))
  {
    hide Queued, At, Drain, Passes, Heads, Tight, Delivered, Concat;
    var q := Queued(hs, false);
    var bs := Passes(q, [[]]).batches;
    OnePass(q);
    AllReadAtOnce(q);
    TightSingles(q, HEADER);
    DeliveredIs(hs, Heads(bs));
    if Tight(HEADER, q) {
      forall h | h in hs ensures h.wd in Heads(bs) {
        var k :| 0 <= k < |hs| && hs[k] == h;
        QueuedAt(hs, false, k, At(hs, false, k));
        StartAt(bs, At(hs, false, k));
      }
    } else {
      OneForEach(hs);
      var k :| 0 <= k < |bs| && |bs[k]| != 1;
      assert |bs[k]| > 1;
      SecondIsNoHead(bs, k);
      Member(bs, k, 1);
      var i :| 0 <= i < |q| && q[i] == bs[k][1];
      var l := SomeHappening(hs, false, i);
      QueuedAt(hs, false, l, i);
      assert hs[l] in hs && hs[l].wd !in Heads(bs);
    }
  }

  lemma OneForEach(hs: seq<Happening>)
    requires Once(hs) && forall k :: 0 <= k < |hs| ==> hs[k].Fires?
    ensures Different(Queued(hs, false))
  {
    hide Queued;
    var q := Queued(hs, false);
    forall i, j | 0 <= i < j < |q| ensures q[i].wd != q[j].wd { TwoOfThem(hs, i, j); }
  }

  lemma TwoOfThem(hs: seq<Happening>, i: nat, j: nat)
    requires Once(hs) && forall k :: 0 <= k < |hs| ==> hs[k].Fires?
    requires i < j < |Queued(hs, false)|
    ensures Queued(hs, false)[i].wd != Queued(hs, false)[j].wd
  {
    hide Queued;
    var k := SomeHappening(hs, false, i);
    var l := SomeHappening(hs, false, j);
    assert k != l;
    QueuedAt(hs, false, k, i);
    QueuedAt(hs, false, l, j);
  }
}
