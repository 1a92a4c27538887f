// Reading the events of an inotify descriptor as rin_pull_events does (rktio_fs_change.c): into a
// buffer that starts with room for one event without a name and doubles when an event does not fit.
module InotifyReads {
  // sizeof(struct inotify_event)
  const HEADER: nat := 16

  // A queued event: the watch it is for, and the length of the name it carries, 0 for none.
  datatype Event = Event(wd: int, nameLength: nat)

  // What it takes up: names end in a zero byte and are padded to whole headers.
  function Size(e: Event): (n: nat)
    ensures n >= HEADER && (n < 2 * HEADER <==> e.nameLength == 0)
  {
    if e.nameLength == 0 then HEADER else HEADER + (e.nameLength / HEADER + 1) * HEADER
  }

  // What happens around one turn of the loop: events arrive, and the read works, is interrupted or
  // fails with an error that is not expected.
  datatype Fate = Works | Interrupted | Fails

  datatype Moment = Moment(arrived: seq<Event>, fate: Fate)

  const QUIET := Moment([], Works)

  // How many events a read into this much room returns: the longest prefix that fits.
  function Fit(q: seq<Event>, room: nat): (n: nat)
    ensures n <= |q| && (n > 0 <==> q != [] && Size(q[0]) <= room)
  {
    if q == [] || Size(q[0]) > room then 0 else 1 + Fit(q[1..], room - Size(q[0]))
  }

  // What the loop reads, each read on its own, and what it leaves in the queue.
  datatype Drained = Drained(batches: seq<seq<Event>>, left: seq<Event>, failed: bool)

  function Prepend(bs: seq<seq<Event>>, d: Drained): Drained { d.(batches := bs + d.batches) }

  // How much too small the buffer is.
  function Gap(q: seq<Event>, bsize: nat): nat {
    if q == [] || Size(q[0]) <= bsize then 0 else Size(q[0]) - bsize
  }

  function Next(ms: seq<Moment>): Moment { if ms == [] then QUIET else ms[0] }

  function Later(ms: seq<Moment>): seq<Moment> { if ms == [] then [] else ms[1..] }

  // The loop from a queue and a buffer size on; `ms` is what happens turn by turn, and nothing after.
  function Drain(q: seq<Event>, bsize: nat, ms: seq<Moment>): (d: Drained)
    requires bsize > 0
    ensures forall k :: 0 <= k < |d.batches| ==> d.batches[k] != []
    decreases |ms|, |q|, Gap(q, bsize)
  {
    var q' := q + Next(ms).arrived;
    if q' == [] then Drained([], [], false)
    else match Next(ms).fate
      case Interrupted => Drain(q', bsize, Later(ms))
      case Fails => Drained([], q', true)
      case Works =>
        if Size(q'[0]) > bsize then Drain(q', 2 * bsize, Later(ms))
        else
          var n := Fit(q', bsize);
          Prepend([q'[..n]], Drain(q'[n..], bsize, Later(ms)))
  }

  // The first event of each read; rin_pull_events looks at no other.
  function Heads(batches: seq<seq<Event>>): (r: seq<int>)
    ensures |r| == |batches|
  {
    seq(|batches|, i requires 0 <= i < |batches| => if batches[i] == [] then -1 else batches[i][0].wd)
  }

  lemma HeadsAppend(bs: seq<seq<Event>>, b: seq<Event>)
    requires b != []
    ensures Heads(bs + [b]) == Heads(bs) + [b[0].wd]
  {
  }

  // ---- every event is read

  function Concat(batches: seq<seq<Event>>): seq<Event> {
    if batches == [] then [] else batches[0] + Concat(batches[1..])
  }

  function Arrived(ms: seq<Moment>): seq<Event> {
    if ms == [] then [] else ms[0].arrived + Arrived(ms[1..])
  }

  // Unless a read fails, the loop empties the queue: what it reads, in order, is what was queued and
  // what arrived until it found nothing more.
  lemma {:induction false} EverythingRead(q: seq<Event>, bsize: nat, ms: seq<Moment>) returns (n: nat)
    requires bsize > 0
    ensures n <= |ms| && Concat(Drain(q, bsize, ms).batches) + Drain(q, bsize, ms).left == q + Arrived(ms[..n])
    ensures !Drain(q, bsize, ms).failed ==> Drain(q, bsize, ms).left == []
    decreases |ms|, |q|, Gap(q, bsize)
  {
    hide Size, Fit, Arrived, Concat;
    var rest := Later(ms);
    var q' := q + Next(ms).arrived;
    FirstArrived(ms);
    if q' == [] || Next(ms).fate.Fails? {
      n := if ms == [] then 0 else 1;
      NothingRead(q');
    } else if Next(ms).fate.Interrupted? || Size(q'[0]) > bsize {
      var m := EverythingRead(q', if Next(ms).fate.Interrupted? then bsize else 2 * bsize, rest);
      n := MoreArrived(q, ms, m);
    } else {
      var k := Fit(q', bsize);
      var m := EverythingRead(q'[k..], bsize, rest);
      n := MoreArrived(q, ms, m);
      var d := Drain(q'[k..], bsize, rest);
      ConcatOne(q'[..k], d.batches);
      Rejoined(q', k, Concat(d.batches), d.left, Arrived(rest[..m]));
    }
  }

  lemma NothingRead(q: seq<Event>)
    ensures Concat([]) + q == q
  {
  }

  lemma Rejoined(q: seq<Event>, k: nat, read: seq<Event>, left: seq<Event>, arrived: seq<Event>)
    requires k <= |q| && read + left == q[k..] + arrived
    ensures (q[..k] + read) + left == q + arrived
  {
    assert (q[..k] + read) + left == q[..k] + (read + left);
    assert q[..k] + (q[k..] + arrived) == q + arrived;
  }

  lemma FirstArrived(ms: seq<Moment>)
    ensures Arrived(ms[..if ms == [] then 0 else 1]) == Next(ms).arrived
  {
    if ms != [] { assert ms[..1][1..] == [] && ms[..1][0] == ms[0]; }
  }

  lemma MoreArrived(q: seq<Event>, ms: seq<Moment>, m: nat) returns (n: nat)
    requires m <= |Later(ms)|
    ensures n <= |ms| && q + Arrived(ms[..n]) == (q + Next(ms).arrived) + Arrived(Later(ms)[..m])
  {
    if ms == [] {
      n := 0;
      assert ms[..0] == [] && Later(ms)[..m] == [];
    } else {
      n := m + 1;
      assert ms[..n][1..] == ms[1..][..m] && ms[..n][0] == ms[0];
    }
  }

  lemma ConcatOne(b: seq<Event>, bs: seq<seq<Event>>)
    ensures Concat([b] + bs) == b + Concat(bs)
  {
    assert ([b] + bs)[1..] == bs;
  }

  // ---- one event at a time

  ghost predicate Singles(batches: seq<seq<Event>>) {
    forall k :: 0 <= k < |batches| ==> |batches[k]| == 1
  }

  ghost predicate Nameless(q: seq<Event>) {
    forall i :: 0 <= i < |q| ==> q[i].nameLength == 0
  }

  ghost predicate AllNameless(ms: seq<Moment>) {
    forall i :: 0 <= i < |ms| ==> Nameless(ms[i].arrived)
  }

  // While no event carries a name the buffer never grows, and every read returns one event.
  lemma {:induction false} NamelessSingles(q: seq<Event>, ms: seq<Moment>)
    requires Nameless(q) && AllNameless(ms)
    ensures Singles(Drain(q, HEADER, ms).batches)
    decreases |ms|, |q|
  {
    var q' := q + Next(ms).arrived;
    assert Nameless(q') && AllNameless(Later(ms));
    if q' != [] && !Next(ms).fate.Fails? {
      assert Size(q'[0]) == HEADER;
      if Next(ms).fate.Interrupted? {
        NamelessSingles(q', Later(ms));
      } else {
        assert Fit(q', HEADER) == 1;
        NamelessSingles(q'[1..], Later(ms));
      }
    }
  }

  // The buffer after it has been made large enough for an event.
  function Grown(bsize: nat, size: nat): (b: nat)
    requires bsize > 0
    ensures b >= bsize && b >= size
    decreases if size <= bsize then 0 else size - bsize
  {
    if size <= bsize then bsize else Grown(2 * bsize, size)
  }

  // ... and for all events of a queue, in turn.
  function Buffer(bsize: nat, q: seq<Event>): (b: nat)
    requires bsize > 0
    ensures b >= bsize
    decreases |q|
  {
    if q == [] then bsize else Buffer(Grown(bsize, Size(q[0])), q[1..])
  }

  // Event i and the next do not fit together into the buffer the events up to i make.
  predicate TightAt(bsize: nat, q: seq<Event>, i: nat)
    requires bsize > 0 && i + 1 < |q|
  {
    Size(q[i]) + Size(q[i + 1]) > Buffer(bsize, q[..i + 1])
  }

  ghost predicate Tight(bsize: nat, q: seq<Event>)
    requires bsize > 0
  {
    forall i: nat :: i + 1 < |q| ==> TightAt(bsize, q, i)
  }

  lemma TightLater(bsize: nat, q: seq<Event>, i: nat)
    requires bsize > 0 && i + 2 < |q|
    ensures TightAt(bsize, q, i + 1) <==> TightAt(Grown(bsize, Size(q[0])), q[1..], i)
  {
    assert q[..i + 2][1..] == q[1..][..i + 1];
  }

  lemma TightNow(bsize: nat, q: seq<Event>)
    requires bsize > 0 && |q| > 1
    ensures TightAt(bsize, q, 0) <==> Size(q[0]) + Size(q[1]) > Grown(bsize, Size(q[0]))
  {
    var one := q[..0 + 1];
    assert one[1..] == [] && one[0] == q[0];
    assert Buffer(bsize, one) == Buffer(Grown(bsize, Size(q[0])), []);
  }

  lemma TightStep(bsize: nat, q: seq<Event>)
    requires bsize > 0 && |q| > 1
    ensures var b := Grown(bsize, Size(q[0]));
            Tight(bsize, q) <==> Size(q[0]) + Size(q[1]) > b && Tight(b, q[1..])
  {
    hide Size, Grown, TightAt;
    var b, r := Grown(bsize, Size(q[0])), q[1..];
    TightNow(bsize, q);
    if Tight(bsize, q) {
      forall i: nat | i + 1 < |r| ensures TightAt(b, r, i) { TightLater(bsize, q, i); }
    }
    if Size(q[0]) + Size(q[1]) > b && Tight(b, r) {
      forall i: nat | i + 1 < |q| ensures TightAt(bsize, q, i) {
        if i > 0 { TightLater(bsize, q, i - 1); }
      }
    }
  }

  // Growing the buffer reads nothing.
  lemma {:induction false} GrowFirst(q: seq<Event>, bsize: nat)
    requires bsize > 0 && q != []
    ensures Drain(q, bsize, []) == Drain(q, Grown(bsize, Size(q[0])), [])
    decreases Gap(q, bsize)
  {
    hide Size, Fit;
    assert q + QUIET.arrived == q;
    if Size(q[0]) > bsize { GrowFirst(q, 2 * bsize); }
  }

  lemma ReadFirst(q: seq<Event>, bsize: nat)
    requires bsize > 0 && q != [] && Size(q[0]) <= bsize
    ensures var n := Fit(q, bsize);
            Drain(q, bsize, []).batches == [q[..n]] + Drain(q[n..], bsize, []).batches
  {
    hide Size, Fit;
    assert q + QUIET.arrived == q;
  }

  lemma FitOne(q: seq<Event>, bsize: nat)
    requires q != [] && Size(q[0]) <= bsize
    ensures Fit(q, bsize) == 1 <==> |q| == 1 || Size(q[0]) + Size(q[1]) > bsize
  {
    if |q| > 1 { assert q[1..][0] == q[1]; }
  }

  // Exactly then the whole queue is read one event at a time.
  lemma {:induction false} TightSingles(q: seq<Event>, bsize: nat)
    requires bsize > 0
    ensures Singles(Drain(q, bsize, []).batches) <==> Tight(bsize, q)
    decreases |q|
  {
    hide Size, Fit, Drain;
    if q == [] {
      EmptyDrain(bsize);
    } else {
      var b := Grown(bsize, Size(q[0]));
      var n := Fit(q, b);
      GrowFirst(q, bsize);
      ReadFirst(q, b);
      FitOne(q, b);
      SinglesCons(q[..n], Drain(q[n..], b, []).batches);
      if n == 1 { TightSingles(q[1..], b); }
      if |q| > 1 { TightStep(bsize, q); }
    }
  }

  lemma EmptyDrain(bsize: nat)
    requires bsize > 0
    ensures Drain([], bsize, []).batches == []
  {
  }

  lemma SinglesCons(b: seq<Event>, bs: seq<seq<Event>>)
    ensures Singles([b] + bs) <==> |b| == 1 && Singles(bs)
  {
    var all := [b] + bs;
    assert forall k :: 0 <= k < |bs| ==> all[k + 1] == bs[k];
    if Singles(all) {
      assert |all[0]| == 1;
      forall k | 0 <= k < |bs| ensures |bs[k]| == 1 { assert |all[k + 1]| == 1; }
    }
  }

  // With different watches, the second event of a read is first in no read.
  lemma {:induction false} SecondIsNoHead(bs: seq<seq<Event>>, k: nat)
    requires k < |bs| && |bs[k]| > 1 && forall i :: 0 <= i < |bs| ==> bs[i] != []
    requires Different(Concat(bs))
    ensures bs[k][1].wd !in Heads(bs)
  {
    var b, rest := bs[0], bs[1..];
    assert Concat(bs) == b + Concat(rest);
    DifferentParts(b, Concat(rest));
    assert Heads(bs) == [b[0].wd] + Heads(rest);
    if k == 0 {
      assert b[0] in b && b[1] in b;
      if b[1].wd in Heads(rest) { var e := HeadIsRead(rest, b[1].wd); }
    } else {
      SecondIsNoHead(rest, k - 1);
      Member(rest, k - 1, 1);
    }
  }

  ghost predicate Different(q: seq<Event>) {
    forall i, j :: 0 <= i < j < |q| ==> q[i].wd != q[j].wd
  }

  lemma DifferentParts(a: seq<Event>, b: seq<Event>)
    requires Different(a + b)
    ensures Different(a) && Different(b) && forall x, y :: x in a && y in b ==> x.wd != y.wd
  {
    var q := a + b;
    assert forall i :: 0 <= i < |a| ==> q[i] == a[i];
    forall i, j | 0 <= i < j < |b| ensures b[i].wd != b[j].wd { assert q[|a| + i] == b[i] && q[|a| + j] == b[j]; }
    forall x, y | x in a && y in b ensures x.wd != y.wd {
      var i :| 0 <= i < |a| && a[i] == x;
      var j :| 0 <= j < |b| && b[j] == y;
      assert q[i] == x && q[|a| + j] == y;
    }
  }

  lemma {:induction false} HeadIsRead(bs: seq<seq<Event>>, wd: int) returns (e: Event)
    requires wd in Heads(bs) && forall i :: 0 <= i < |bs| ==> bs[i] != []
    ensures e in Concat(bs) && e.wd == wd
  {
    if bs[0][0].wd == wd {
      e := bs[0][0];
    } else {
      assert Heads(bs) == [bs[0][0].wd] + Heads(bs[1..]);
      e := HeadIsRead(bs[1..], wd);
    }
  }

  lemma {:induction false} Member(bs: seq<seq<Event>>, k: nat, i: nat)
    requires k < |bs| && i < |bs[k]|
    ensures bs[k][i] in Concat(bs)
  {
    if k > 0 { Member(bs[1..], k - 1, i); }
  }
}
