// The loop of rktio_ltps_poll when the kernel's interest set may hold descriptors that the table has
// lost, as after rktio_ltps_remove_all: whether it ends.
module LtpsPollLoop {
  import opened Options
  import opened LtpsModel
  import opened LtpsPollSets

  // What a turn of the loop works on: the pairs of the table, and the interest set.
  datatype Polled = Polled(pairs: map<int, Sides>, kernel: map<int, set<PollBit>>)

  // What epoll_wait reports of a descriptor: `ready` is what the descriptors are ready for, which the
  // loop does not change, and a report does not use it up (level triggering).
  function EventsAt(p: Polled, ready: map<int, set<PollBit>>, f: int): set<PollBit> {
    if f in p.kernel && f in ready then ready[f] * (p.kernel[f] + {Hup, Err}) else {}
  }

  // All that it is ready for, of what the kernel may report.
  lemma EventsAreReported(p: Polled, ready: map<int, set<PollBit>>, f: int, events: set<PollBit>)
    ensures EventsAt(p, ready, f) != {} ==> MayReport(p.kernel, f, EventsAt(p, ready, f))
    ensures f in ready && events <= ready[f] && MayReport(p.kernel, f, events) ==> events <= EventsAt(p, ready, f)
  {
  }

  predicate Reported(p: Polled, ready: map<int, set<PollBit>>, f: int) { EventsAt(p, ready, f) != {} }

  // Lines 506-539: a descriptor without a pair is passed over.
  function Turn(p: Polled, ready: map<int, set<PollBit>>, f: int): Polled {
    if f !in p.pairs then p
    else
      var after := AfterEvent(p.pairs, f, EventsAt(p, ready, f));
      Polled(after, if f in after then p.kernel[f := Mask(after[f])] else p.kernel - {f})
  }

  // The loop on these reports in turn, if the kernel can make them.
  function Turns(p: Polled, ready: map<int, set<PollBit>>, fs: seq<int>): Option<Polled>
    decreases |fs|
  {
    if fs == [] then Some(p)
    else if Reported(p, ready, fs[0]) then Turns(Turn(p, ready, fs[0]), ready, fs[1..])
    else None
  }

  // The interest set is right for every pair.  It may hold more.
  ghost predicate Tracked(p: Polled) {
    NoEmptyPair(p.pairs) && forall f :: f in p.pairs ==> f in p.kernel && p.kernel[f] == Mask(p.pairs[f])
  }

  ghost predicate NoneLost(p: Polled, ready: map<int, set<PollBit>>) {
    forall f :: Reported(p, ready, f) ==> f in p.pairs
  }

  ghost function Reading(pairs: map<int, Sides>): set<int> { set f | f in pairs && pairs[f].r != null }

  ghost function Writing(pairs: map<int, Sides>): set<int> { set f | f in pairs && pairs[f].w != null }

  ghost function Registered(p: Polled): nat { |Reading(p.pairs)| + |Writing(p.pairs)| }

  // The sides taken are those of the event, and nothing else changes.
  lemma TurnSides(pairs: map<int, Sides>, f: int, events: set<PollBit>)
    requires f in pairs
    ensures var after, s := AfterEvent(pairs, f, events), Taken(pairs[f], events);
            && Reading(after) == Reading(pairs) - (if s.r == null then {f} else {})
            && Writing(after) == Writing(pairs) - (if s.w == null then {f} else {})
  {
    var after := AfterEvent(pairs, f, events);
    assert forall g :: g != f ==> (g in after <==> g in pairs) && (g in after ==> after[g] == pairs[g]);
  }

  lemma SizeWithout(s: set<int>, x: int)
    ensures |s - {x}| == |s| - if x in s then 1 else 0
  {
    if x !in s { assert s - {x} == s; }
  }

  lemma TurnLowers(p: Polled, ready: map<int, set<PollBit>>, f: int)
    requires Tracked(p) && Reported(p, ready, f) && f in p.pairs
    ensures Registered(Turn(p, ready, f)) < Registered(p)
  {
    hide Reading, Writing, AfterEvent, Mask;
    var events := EventsAt(p, ready, f);
    ReportHits(p.pairs[f], p.kernel[f], events);
    TurnSides(p.pairs, f, events);
    SizeWithout(Reading(p.pairs), f);
    SizeWithout(Writing(p.pairs), f);
    SidesOf(p.pairs, f);
    assert Reading(p.pairs) - {} == Reading(p.pairs) && Writing(p.pairs) - {} == Writing(p.pairs);
  }

  lemma SidesOf(pairs: map<int, Sides>, f: int)
    requires f in pairs
    ensures (f in Reading(pairs) <==> pairs[f].r != null) && (f in Writing(pairs) <==> pairs[f].w != null)
  {
  }

  lemma TurnLosesNone(p: Polled, ready: map<int, set<PollBit>>, f: int)
    requires f in p.pairs && NoneLost(p, ready)
    ensures NoneLost(Turn(p, ready, f), ready)
  {
    hide AfterEvent;
    var q := Turn(p, ready, f);
    forall g | Reported(q, ready, g) ensures g in q.pairs {
      if g != f {
        OthersStay(p.pairs, f, EventsAt(p, ready, f), g);
        assert EventsAt(q, ready, g) == EventsAt(p, ready, g) && Reported(p, ready, g);
      }
    }
  }

  lemma TurnTracks(p: Polled, ready: map<int, set<PollBit>>, f: int)
    requires Tracked(p) && f in p.pairs
    ensures Tracked(Turn(p, ready, f))
  {
    hide EventsAt;
  }

  lemma {:induction false} TurnsBounded(p: Polled, ready: map<int, set<PollBit>>, fs: seq<int>)
    requires Tracked(p) && NoneLost(p, ready) && Turns(p, ready, fs).Some?
    ensures |fs| <= Registered(p)
    decreases |fs|
  {
    hide Turn, EventsAt, Tracked, Registered, Reported;
    if fs != [] {
      TurnTracks(p, ready, fs[0]);
      TurnLowers(p, ready, fs[0]);
      TurnLosesNone(p, ready, fs[0]);
      TurnsBounded(Turn(p, ready, fs[0]), ready, fs[1..]);
    }
  }

  lemma {:induction false} Repeats(p: Polled, ready: map<int, set<PollBit>>, f: int, n: nat)
    requires Reported(p, ready, f) && f !in p.pairs
    ensures Turns(p, ready, seq(n, _ => f)) == Some(p)
  {
    var fs := seq(n, _ => f);
    if n > 0 {
      Repeats(p, ready, f, n - 1);
      assert fs[1..] == seq(n - 1, _ => f);
    }
  }

  ghost predicate EndsWithin(p: Polled, ready: map<int, set<PollBit>>, n: nat) {
    forall fs :: Turns(p, ready, fs).Some? ==> |fs| <= n
  }

  // Whatever the kernel reports when, the loop ends, within a bound, if and only if no descriptor it
  // reports has lost its pair.
  lemma PollEnds(p: Polled, ready: map<int, set<PollBit>>)
    requires Tracked(p)
    ensures (exists n: nat :: EndsWithin(p, ready, n)) <==> NoneLost(p, ready)
  {
    hide Turns, Tracked, Registered, Reported;
    if NoneLost(p, ready) {
      forall fs | Turns(p, ready, fs).Some? ensures |fs| <= Registered(p) { TurnsBounded(p, ready, fs); }
      assert EndsWithin(p, ready, Registered(p));
    } else {
      var f :| Reported(p, ready, f) && f !in p.pairs;
      forall n: nat ensures !EndsWithin(p, ready, n) {
        Repeats(p, ready, f, n + 1);
        assert |seq(n + 1, _ => f)| > n;
      }
    }
  }

  // And once there is a lost one, no way the loop can go ends: it is still reported after any number
  // of turns.
  lemma {:induction false} NeverQuiet(p: Polled, ready: map<int, set<PollBit>>, f: int, fs: seq<int>)
    requires Reported(p, ready, f) && f !in p.pairs && Turns(p, ready, fs).Some?
    ensures var q := Turns(p, ready, fs).value; Reported(q, ready, f) && f !in q.pairs
    decreases |fs|
  {
    if fs != [] {
      StillReported(p, ready, f, fs[0]);
      NeverQuiet(Turn(p, ready, fs[0]), ready, f, fs[1..]);
    }
  }

  lemma StillReported(p: Polled, ready: map<int, set<PollBit>>, f: int, g: int)
    requires Reported(p, ready, f) && f !in p.pairs
    ensures Reported(Turn(p, ready, g), ready, f) && f !in Turn(p, ready, g).pairs
  {
    hide AfterEvent;
    if g in p.pairs { OthersStay(p.pairs, g, EventsAt(p, ready, g), f); }
    assert EventsAt(Turn(p, ready, g), ready, f) == EventsAt(p, ready, f);
  }

  lemma OthersStay(pairs: map<int, Sides>, g: int, events: set<PollBit>, f: int)
    requires g in pairs && f != g
    ensures f in AfterEvent(pairs, g, events) <==> f in pairs
  {
  }

  // A valid poll set has lost none.
  lemma ValidEnds(pairs: map<int, Sides>, kernel: map<int, set<PollBit>>, ready: map<int, set<PollBit>>)
    requires NoEmptyPair(pairs) && KernelAgrees(pairs, kernel)
    ensures Tracked(Polled(pairs, kernel)) && NoneLost(Polled(pairs, kernel), ready)
  {
    assert kernel.Keys == pairs.Keys;
  }

  // Register one descriptor and remove all: the table is empty, the interest set is not.
  method StaleInterest(f: nat) returns (lt: Ltps)
    ensures lt.TableValid() && lt.fd >= 0 && lt.pairs == map[] && lt.epoll.interest == map[f := {In}]
  {
    hide Ltps.Framed, Conserved, Linked;
    lt := new Ltps();
    var s, err, made := lt.Add(f, CreateRead, false, 0, true);
    assert lt.pairs == map[f := Sides(made, null)] && Mask(Sides(made, null)) == {In};
    assert lt.epoll.interest == map[f := {In}];
    lt.RemoveAll();
  }

  // So a poll of it never ends once the descriptor has something to read.
  lemma StaleSpins(f: nat, ready: map<int, set<PollBit>>, n: nat)
    requires f in ready && In in ready[f]
    ensures Turns(Polled(map[], map[f := {In}]), ready, seq(n, _ => f)) == Some(Polled(map[], map[f := {In}]))
  {
    var p := Polled(map[], map[f := {In}]);
    assert In in EventsAt(p, ready, f);
    Repeats(p, ready, f, n);
  }
}
