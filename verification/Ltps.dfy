// The long-term poll set of racket/src/rktio/rktio_ltps.c (epoll variant): a table from file
// descriptors to a read and a write handle, kept in step with the kernel's interest set, and a
// chain of handles that have been signaled.
module LtpsModel {
  datatype AutoMode = HandleNone | HandleZero | HandleFree

  datatype Mode = CreateRead | CreateWrite | CheckRead | CheckWrite | CreateVnode | CheckVnode
                | Remove | RemoveVnode
  {
    predicate NeedsPair() { !CreateRead? && !CreateWrite? && !CreateVnode? }
    predicate IsRemove() { Remove? || RemoveVnode? }
    predicate IsRead() { CreateRead? || CheckRead? || CreateVnode? || CheckVnode? }
    predicate Creates() { CreateRead? || CreateWrite? || CreateVnode? }
  }

  datatype Outcome = Found | NotFound | Unsupported | Removed | NoHandle | PosixError

  datatype PollBit = In | Out | Hup | Err

  // Where a created handle is.  Being a function of the handle, it is exactly one place.
  datatype Place = OnRead(fd: int) | OnWrite(fd: int) | Signaled | Returned | Zeroed | Freed
  {
    predicate Registered() { OnRead? || OnWrite? }
  }

  function PlaceAfterSignal(m: AutoMode): Place {
    match m
    case HandleNone => Signaled
    case HandleZero => Zeroed
    case HandleFree => Freed
  }

  class Handle {
    var autoMode: AutoMode
    var data: int  // the client's pointer, 0 for NULL
    var next: Handle?

    constructor ()
      ensures autoMode == HandleNone && data == 0 && next == null
    {
      autoMode, data, next := HandleNone, 0, null;
    }
  }

  class Pair {
    var readHandle: Handle?
    var writeHandle: Handle?

    constructor ()
      ensures readHandle == null && writeHandle == null
    {
      readHandle, writeHandle := null, null;
    }
  }

  datatype Sides = Sides(r: Handle?, w: Handle?)

  // EPOLLIN exactly when there is a read handle, EPOLLOUT exactly when there is a write handle.
  function Mask(s: Sides): set<PollBit> {
    (if s.r != null then {In} else {}) + (if s.w != null then {Out} else {})
  }

  ghost predicate NoDup(chain: seq<Handle>) {
    forall i, j :: 0 <= i < j < |chain| ==> chain[i] != chain[j]
  }

  // Each handle sits where `place` says, and nowhere else.
  ghost predicate Conserved(pairs: map<int, Sides>, place: map<Handle, Place>, chain: seq<Handle>) {
    && (forall f :: f in pairs && pairs[f].r != null ==> pairs[f].r in place && place[pairs[f].r] == OnRead(f))
    && (forall f :: f in pairs && pairs[f].w != null ==> pairs[f].w in place && place[pairs[f].w] == OnWrite(f))
    && (forall h :: h in place && place[h].OnRead? ==> place[h].fd in pairs && pairs[place[h].fd].r == h)
    && (forall h :: h in place && place[h].OnWrite? ==> place[h].fd in pairs && pairs[place[h].fd].w == h)
    && (forall h :: h in place ==> (place[h] == Signaled <==> h in chain))
    && (forall h :: h in chain ==> h in place)
    && NoDup(chain)
  }

  ghost predicate NoEmptyPair(pairs: map<int, Sides>) {
    forall f :: f in pairs ==> pairs[f].r != null || pairs[f].w != null
  }

  ghost predicate KernelAgrees(pairs: map<int, Sides>, kernel: map<int, set<PollBit>>) {
    kernel.Keys == pairs.Keys && forall f :: f in pairs ==> kernel[f] == Mask(pairs[f])
  }

  ghost function ElementAfter(chain: seq<Handle>, i: nat): Handle? {
    if i + 1 < |chain| then chain[i + 1] else null
  }

  lemma EventConsumes(pairs: map<int, Sides>, before: map<Handle, Place>, after: map<Handle, Place>,
                      auto: map<Handle, AutoMode>, chain: seq<Handle>, f: int, read: bool, write: bool)
    requires Conserved(pairs, before, chain) && f in pairs && auto.Keys == before.Keys
    requires (read && pairs[f].r != null) || (write && pairs[f].w != null)
    requires var mid := if read && pairs[f].r != null then before[pairs[f].r := PlaceAfterSignal(auto[pairs[f].r])] else before;
             after == if write && pairs[f].w != null then mid[pairs[f].w := PlaceAfterSignal(auto[pairs[f].w])] else mid
    ensures OnlySignals(before, after, auto) && after.Keys == before.Keys
    ensures RegisteredIn(after) < RegisteredIn(before)
  {
    var h := if read && pairs[f].r != null then pairs[f].r else pairs[f].w;
    assert h in RegisteredIn(before) && h !in RegisteredIn(after);
  }

  // KernelAgrees while the pair of f may still be empty: an empty pair is not in the kernel's set.
  ghost predicate KernelMatches(pairs: map<int, Sides>, kernel: map<int, set<PollBit>>) {
    && (forall g :: g in kernel <==> g in pairs && pairs[g] != Sides(null, null))
    && (forall g :: g in kernel ==> kernel[g] == Mask(pairs[g]))
  }

  lemma MatchesAgrees(pairs: map<int, Sides>, kernel: map<int, set<PollBit>>)
    requires KernelMatches(pairs, kernel) && NoEmptyPair(pairs)
    ensures KernelAgrees(pairs, kernel)
  {
    assert forall g :: g in pairs.Keys <==> g in kernel.Keys;
  }

  ghost predicate NoEmptyPairBut(pairs: map<int, Sides>, f: int) {
    forall g :: g in pairs && g != f ==> pairs[g].r != null || pairs[g].w != null
  }

  ghost predicate Linked(head: Handle?, chain: seq<Handle>)
    reads chain
  {
    && (if chain == [] then head == null else head == chain[0])
    && forall i :: 0 <= i < |chain| ==> chain[i].next == ElementAfter(chain, i)
  }

  ghost function RegisteredIn(place: map<Handle, Place>): set<Handle> {
    set h | h in place && place[h].Registered()
  }

  // What a call may do to handles that existed before it: leave them, or take them from a
  // registered side to where the handle's auto mode sends them.
  ghost predicate OnlySignals(before: map<Handle, Place>, after: map<Handle, Place>, auto: map<Handle, AutoMode>) {
    && before.Keys <= after.Keys
    && before.Keys <= auto.Keys
    && forall h :: h in before ==>
         after[h] == before[h] || (before[h].Registered() && after[h] == PlaceAfterSignal(auto[h]))
  }

  // Whatever has moved was registered, and is now chained, zeroed or freed, by its auto mode.
  lemma MovedByMode(before: map<Handle, Place>, after: map<Handle, Place>, auto: map<Handle, AutoMode>, h: Handle)
    requires OnlySignals(before, after, auto) && h in before && after[h] != before[h]
    ensures before[h].OnRead? || before[h].OnWrite?
    ensures match auto[h]
            case HandleNone => after[h] == Signaled
            case HandleZero => after[h] == Zeroed
            case HandleFree => after[h] == Freed
  {
  }

  lemma NoSignals(place: map<Handle, Place>, auto: map<Handle, AutoMode>)
    requires place.Keys <= auto.Keys
    ensures OnlySignals(place, place, auto)
  {
  }

  lemma SignalsThen(l0: map<Handle, Place>, l1: map<Handle, Place>, l2: map<Handle, Place>, auto: map<Handle, AutoMode>)
    requires OnlySignals(l0, l1, auto) && OnlySignals(l1, l2, auto)
    ensures OnlySignals(l0, l2, auto)
  {
  }

  // `chain` and `place` after signaling one handle.
  ghost function SignaledChain(chain: seq<Handle>, s: Handle, m: AutoMode): seq<Handle> {
    if m == HandleNone then [s] + chain else chain
  }

  lemma SignalRead(pairs: map<int, Sides>, place: map<Handle, Place>, chain: seq<Handle>, f: int, m: AutoMode)
    requires Conserved(pairs, place, chain) && f in pairs && pairs[f].r != null
    ensures Conserved(pairs[f := pairs[f].(r := null)],
                      place[pairs[f].r := PlaceAfterSignal(m)], SignaledChain(chain, pairs[f].r, m))
  {
  }

  lemma SignalWrite(pairs: map<int, Sides>, place: map<Handle, Place>, chain: seq<Handle>, f: int, m: AutoMode)
    requires Conserved(pairs, place, chain) && f in pairs && pairs[f].w != null
    ensures Conserved(pairs[f := pairs[f].(w := null)],
                      place[pairs[f].w := PlaceAfterSignal(m)], SignaledChain(chain, pairs[f].w, m))
  {
  }

  lemma DropPair(pairs: map<int, Sides>, place: map<Handle, Place>, chain: seq<Handle>, f: int)
    requires Conserved(pairs, place, chain) && f in pairs && pairs[f] == Sides(null, null)
    ensures Conserved(pairs - {f}, place, chain)
  {
  }

  lemma NoneRegistered(pairs: map<int, Sides>, place: map<Handle, Place>, chain: seq<Handle>)
    requires Conserved(pairs, place, chain) && pairs == map[]
    ensures RegisteredIn(place) == {}
  {
  }

  lemma ReturnedFreed(pairs: map<int, Sides>, place: map<Handle, Place>, chain: seq<Handle>, s: Handle)
    requires Conserved(pairs, place, chain) && s in place && place[s] == Returned
    ensures Conserved(pairs, place[s := Freed], chain)
  {
  }

  lemma NotChained(pairs: map<int, Sides>, place: map<Handle, Place>, chain: seq<Handle>, f: int)
    requires Conserved(pairs, place, chain) && f in pairs
    ensures pairs[f].r != null ==> pairs[f].r in place && pairs[f].r !in chain
    ensures pairs[f].w != null ==> pairs[f].w in place && pairs[f].w !in chain
  {
  }

  lemma EmptyPair(pairs: map<int, Sides>, place: map<Handle, Place>, chain: seq<Handle>, f: int)
    requires Conserved(pairs, place, chain) && f !in pairs
    ensures Conserved(pairs[f := Sides(null, null)], place, chain)
  {
  }

  lemma AttachedRead(pairs: map<int, Sides>, place: map<Handle, Place>, chain: seq<Handle>, f: int, s: Handle)
    requires Conserved(pairs, place, chain) && f in pairs && pairs[f].r == null && s !in place
    ensures Conserved(pairs[f := pairs[f].(r := s)], place[s := OnRead(f)], chain)
    ensures Conserved(pairs, place[s := Freed], chain)
  {
  }

  lemma AttachedWrite(pairs: map<int, Sides>, place: map<Handle, Place>, chain: seq<Handle>, f: int, s: Handle)
    requires Conserved(pairs, place, chain) && f in pairs && pairs[f].w == null && s !in place
    ensures Conserved(pairs[f := pairs[f].(w := s)], place[s := OnWrite(f)], chain)
    ensures Conserved(pairs, place[s := Freed], chain)
  {
  }

  lemma PopSignaled(pairs: map<int, Sides>, place: map<Handle, Place>, chain: seq<Handle>)
    requires Conserved(pairs, place, chain) && chain != []
    ensures chain[0] in place && Conserved(pairs, place[chain[0] := Returned], chain[1..])
  {
    var s, t := chain[0], chain[1..];
    assert chain == [s] + t;
    forall h | h in place ensures h in t <==> h in chain && h != s {
      if h in t {
        var i :| 0 <= i < |t| && t[i] == h;
        assert chain[i + 1] == h;
      }
    }
  }

  lemma LinkedHead(head: Handle?, chain: seq<Handle>)
    requires Linked(head, chain)
    ensures head == null <==> chain == []
  {
  }

  lemma LinkedTail(head: Handle?, chain: seq<Handle>)
    requires Linked(head, chain) && chain != []
    ensures head == chain[0] && Linked(head.next, chain[1..])
  {
    var t := chain[1..];
    forall i | 0 <= i < |t| ensures t[i].next == ElementAfter(t, i) {
      assert chain[i + 1].next == ElementAfter(chain, i + 1);
    }
    assert head.next == ElementAfter(chain, 0);
  }

  // `pairs` is what the pair objects of the table hold.
  ghost predicate Mirrors(table: map<int, Pair>, pairs: map<int, Sides>)
    reads set f | f in table :: table[f]
  {
    table.Keys == pairs.Keys
    && forall f :: f in table ==> pairs[f] == Sides(table[f].readHandle, table[f].writeHandle)
  }

  ghost predicate InjectiveMap(m: map<int, Pair>) {
    forall f, g :: f in m && g in m && f != g ==> m[f] != m[g]
  }

  lemma MirrorsAdd(table: map<int, Pair>, pairs: map<int, Sides>, f: int, v: Pair)
    requires Mirrors(table, pairs) && InjectiveMap(table) && f !in table && v !in table.Values
    requires v.readHandle == null && v.writeHandle == null
    ensures Mirrors(table[f := v], pairs[f := Sides(null, null)]) && InjectiveMap(table[f := v])
  {
    var t := table[f := v];
    forall a, b | a in t && b in t && a != b ensures t[a] != t[b] {
      assert (a != f ==> table[a] in table.Values) && (b != f ==> table[b] in table.Values);
    }
  }

  method SetRead(v: Pair, s: Handle?, ghost f: int, ghost table: map<int, Pair>, ghost pairs: map<int, Sides>)
    requires InjectiveMap(table) && Mirrors(table, pairs) && f in table && table[f] == v
    modifies v`readHandle
    ensures v.readHandle == s && Mirrors(table, pairs[f := pairs[f].(r := s)])
  {
    v.readHandle := s;
  }

  method SetWrite(v: Pair, s: Handle?, ghost f: int, ghost table: map<int, Pair>, ghost pairs: map<int, Sides>)
    requires InjectiveMap(table) && Mirrors(table, pairs) && f in table && table[f] == v
    modifies v`writeHandle
    ensures v.writeHandle == s && Mirrors(table, pairs[f := pairs[f].(w := s)])
  {
    v.writeHandle := s;
  }
}

module LtpsPollSets {
  import opened Options
  import opened Buckets
  import opened HashTables
  import opened LtpsModel

  function Taken(s: Sides, events: set<PollBit>): Sides {
    Sides(if events * {In, Hup, Err} != {} then null else s.r, if events * {Out, Hup, Err} != {} then null else s.w)
  }

  // A reported event always finds a handle to take.
  lemma ReportHits(s: Sides, mask: set<PollBit>, events: set<PollBit>)
    requires mask == Mask(s) && (s.r != null || s.w != null)
    requires events != {} && events <= mask + {Hup, Err}
    ensures (events * {In, Hup, Err} != {} && s.r != null) || (events * {Out, Hup, Err} != {} && s.w != null)
  {
    var b :| b in events;
    if b == In || b == Hup || b == Err { assert b in events * {In, Hup, Err}; }
    if b == Out || b == Hup || b == Err { assert b in events * {Out, Hup, Err}; }
  }

  // The pairs after one epoll event: IN, HUP and ERR take the read handle, OUT, HUP and ERR the
  // write handle, and a pair left with neither is dropped.
  function AfterEvent(pairs: map<int, Sides>, f: int, events: set<PollBit>): map<int, Sides>
    requires f in pairs
  {
    var s := Taken(pairs[f], events);
    if s == Sides(null, null) then pairs - {f} else pairs[f := s]
  }

  // KernelAgrees but for the pair of f, which may be empty.
  ghost predicate AgreesBut(pairs: map<int, Sides>, kernel: map<int, set<PollBit>>, f: int) {
    kernel.Keys == pairs.Keys && NoEmptyPairBut(pairs, f) && forall g :: g in pairs && g != f ==> kernel[g] == Mask(pairs[g])
  }

  lemma TakenAgrees(pairs: map<int, Sides>, kernel: map<int, set<PollBit>>, f: int, events: set<PollBit>)
    requires KernelAgrees(pairs, kernel) && NoEmptyPair(pairs) && f in pairs
    ensures var mid := pairs[f := Taken(pairs[f], events)];
            AgreesBut(mid, kernel, f)
            && AfterEvent(pairs, f, events) == if mid[f] == Sides(null, null) then mid - {f} else mid
  {
    assert pairs[f := Taken(pairs[f], events)].Keys == pairs.Keys;
  }

  // What epoll_wait may report: descriptors of the interest set, and for them only bits that were
  // asked for, or a hang-up or an error.
  predicate MayReport(kernel: map<int, set<PollBit>>, f: int, events: set<PollBit>) {
    f in kernel && events != {} && events <= kernel[f] + {Hup, Err}
  }

  lemma MayReportIs(kernel: map<int, set<PollBit>>, f: int, events: set<PollBit>)
    ensures MayReport(kernel, f, events) <==>
              f in kernel && events != {} && forall e :: e in events ==> e == Hup || e == Err || e in kernel[f]
  {
  }

  function SideOf(f: int, mode: Mode): Place {
    if mode.IsRead() then OnRead(f) else OnWrite(f)
  }

  function HandleOf(pairs: map<int, Sides>, f: int, mode: Mode): Handle? {
    if f !in pairs then null else if mode.IsRead() then pairs[f].r else pairs[f].w
  }

  function WithHandle(pairs: map<int, Sides>, f: int, mode: Mode, s: Handle): map<int, Sides> {
    var base := if f in pairs then pairs[f] else Sides(null, null);
    pairs[f := if mode.IsRead() then base.(r := s) else base.(w := s)]
  }

  function Ensured(pairs: map<int, Sides>, f: int): map<int, Sides> {
    if f in pairs then pairs else pairs[f := Sides(null, null)]
  }

  // What a call that is not a removal does once there is an epoll descriptor: hand out the handle
  // that is there, or make one (`made`) that stays registered unless epoll_ctl says EPERM.
  ghost predicate AddEffect(p0: map<int, Sides>, l0: map<Handle, Place>, p1: map<int, Sides>, l1: map<Handle, Place>,
                            f: int, mode: Mode, ctlOk: bool, s: Handle?, made: Handle?)
  {
    if HandleOf(p0, f, mode) != null || !mode.Creates() then
      s == HandleOf(p0, f, mode) && made == null && p1 == p0 && l1 == l0
    else
      && made != null && made !in l0
      && if ctlOk then s == made && p1 == WithHandle(p0, f, mode, made) && l1 == l0[made := SideOf(f, mode)]
         else s == null && p1 == p0 && l1 == l0[made := Freed]
  }

  // What rktio_ltps_add answers.
  function AddOutcome(pairs: map<int, Sides>, f: int, mode: Mode, pendingOpen: bool, fd: int, newFd: int, ctlOk: bool): Outcome {
    if pendingOpen then Unsupported
    else if fd < 0 && newFd < 0 then PosixError
    else if f !in pairs && mode.NeedsPair() then NotFound
    else if mode.IsRemove() then Removed
    else if HandleOf(pairs, f, mode) != null || (mode.Creates() && ctlOk) then Found
    else NoHandle
  }

  lemma SetTwice<K, T>(m: map<K, T>, k: K, x: T, y: T)
    ensures m[k := x][k := y] == m[k := y]
    ensures k in m && m[k] == y ==> m[k := y] == m
  {
  }

  // What adding and removing come to, mode by mode.
  lemma AddIs(p0: map<int, Sides>, l0: map<Handle, Place>, p1: map<int, Sides>, l1: map<Handle, Place>,
              f: int, mode: Mode, ctlOk: bool, s: Handle?, made: Handle?, err: Outcome)
    requires err == AddOutcome(p0, f, mode, false, 0, 0, ctlOk)
    requires err == NotFound ==> s == null && made == null && p1 == p0 && l1 == l0
    requires err == Removed ==> s == null && made == null && p1 == p0 - {f}
    requires err == Found || err == NoHandle ==> AddEffect(p0, l0, p1, l1, f, mode, ctlOk, s, made)
    ensures mode == CheckRead || mode == CheckVnode ==>
      && made == null && p1 == p0 && l1 == l0
      && s == (if f in p0 then p0[f].r else null)
      && err == (if f !in p0 then NotFound else if s == null then NoHandle else Found)
    ensures mode == CheckWrite ==>
      && made == null && p1 == p0 && l1 == l0
      && s == (if f in p0 then p0[f].w else null)
      && err == (if f !in p0 then NotFound else if s == null then NoHandle else Found)
    ensures mode == Remove || mode == RemoveVnode ==>
      && s == null && made == null && p1 == p0 - {f}
      && err == (if f !in p0 then NotFound else Removed)
    ensures mode == CreateRead || mode == CreateVnode ==>
      if f in p0 && p0[f].r != null then
        s == p0[f].r && err == Found && made == null && p1 == p0 && l1 == l0
      else if !ctlOk then
        s == null && err == NoHandle && p1 == p0 && made != null && made !in l0 && l1 == l0[made := Freed]
      else
        && s == made != null && s !in l0 && err == Found
        && f in p1 && p1[f].r == s && p1[f].w == (if f in p0 then p0[f].w else null)
        && l1 == l0[s := OnRead(f)]
    ensures mode == CreateWrite ==>
      if f in p0 && p0[f].w != null then
        s == p0[f].w && err == Found && made == null && p1 == p0 && l1 == l0
      else if !ctlOk then
        s == null && err == NoHandle && p1 == p0 && made != null && made !in l0 && l1 == l0[made := Freed]
      else
        && s == made != null && s !in l0 && err == Found
        && f in p1 && p1[f].w == s && p1[f].r == (if f in p0 then p0[f].r else null)
        && l1 == l0[s := OnWrite(f)]
    ensures forall g :: g != f ==> (g in p1 <==> g in p0) && (g in p1 ==> p1[g] == p0[g])
  {
  }

  datatype CtlOp = CtlAdd | CtlMod | CtlDel

  datatype Event = Event(fd: int, events: set<PollBit>)

  // What the kernel has reported during a poll, and whether it last had nothing to report.
  class Reports {
    ghost var log: seq<Event>
    ghost var quiet: bool

    constructor ()
      ensures log == [] && !quiet
    {
      log, quiet := [], false;
    }
  }

  // The pairs after a number of events.
  function AfterEvents(pairs: map<int, Sides>, es: seq<Event>): map<int, Sides> {
    if es == [] then pairs
    else
      var before, last := AfterEvents(pairs, es[..|es| - 1]), es[|es| - 1];
      if last.fd in before then AfterEvent(before, last.fd, last.events) else before
  }

  lemma OneMoreEvent(pairs: map<int, Sides>, es: seq<Event>, e: Event)
    requires e.fd in AfterEvents(pairs, es)
    ensures AfterEvents(pairs, es + [e]) == AfterEvent(AfterEvents(pairs, es), e.fd, e.events)
  {
    assert (es + [e])[..|es|] == es;
  }

  // Whether an event tells the reading side of a descriptor something, or the writing side.
  predicate ForRead(e: Event, f: int) { e.fd == f && (In in e.events || Hup in e.events || Err in e.events) }

  predicate ForWrite(e: Event, f: int) { e.fd == f && (Out in e.events || Hup in e.events || Err in e.events) }

  // One event takes the handles it is for, and no others.
  lemma EventTakes(pairs: map<int, Sides>, e: Event, f: int)
    requires e.fd in pairs
    ensures var after := AfterEvent(pairs, e.fd, e.events);
            && (f in after ==> f in pairs)
            && (f in pairs && pairs[f].r != null ==> ((f in after && after[f].r == pairs[f].r) <==> !ForRead(e, f)))
            && (f in pairs && pairs[f].w != null ==> ((f in after && after[f].w == pairs[f].w) <==> !ForWrite(e, f)))
            && (f in after && after[f].r != pairs[f].r ==> after[f].r == null)
            && (f in after && after[f].w != pairs[f].w ==> after[f].w == null)
  {
    BitsMeet(e.events);
  }

  lemma BitsMeet(events: set<PollBit>)
    ensures events * {In, Hup, Err} != {} <==> In in events || Hup in events || Err in events
    ensures events * {Out, Hup, Err} != {} <==> Out in events || Hup in events || Err in events
  {
    assert forall b :: b in {In, Hup, Err} && b in events ==> b in events * {In, Hup, Err};
    assert forall b :: b in {Out, Hup, Err} && b in events ==> b in events * {Out, Hup, Err};
  }

  lemma {:induction false} EventsTake(pairs: map<int, Sides>, es: seq<Event>, f: int)
    requires f in pairs
    ensures var after := AfterEvents(pairs, es);
            && (pairs[f].r != null ==>
                 ((f in after && after[f].r == pairs[f].r) <==> forall e :: e in es ==> !ForRead(e, f)))
            && (pairs[f].w != null ==>
                 ((f in after && after[f].w == pairs[f].w) <==> forall e :: e in es ==> !ForWrite(e, f)))
            && (f in after && after[f].r != pairs[f].r ==> after[f].r == null)
            && (f in after && after[f].w != pairs[f].w ==> after[f].w == null)
    decreases |es|
  {
    hide AfterEvent, ForRead, ForWrite;
    if es != [] {
      var before, last := es[..|es| - 1], es[|es| - 1];
      EventsTake(pairs, before, f);
      assert es == before + [last] && forall e :: e in es <==> e in before || e == last;
      LastTakes(AfterEvents(pairs, before), last, f);
    }
  }

  // What the last of several events adds: if its descriptor has no pair any more, nothing.
  lemma LastTakes(before: map<int, Sides>, e: Event, f: int)
    ensures var after := if e.fd in before then AfterEvent(before, e.fd, e.events) else before;
            && (f in after ==> f in before)
            && (f in before && before[f].r != null ==> ((f in after && after[f].r == before[f].r) <==> !ForRead(e, f)))
            && (f in before && before[f].w != null ==> ((f in after && after[f].w == before[f].w) <==> !ForWrite(e, f)))
            && (f in after && after[f].r != before[f].r ==> after[f].r == null)
            && (f in after && after[f].w != before[f].w ==> after[f].w == null)
  {
    hide AfterEvent;
    if e.fd in before { EventTakes(before, e, f); }
  }

  // Where a handle is, told from the pairs.
  lemma PlacedBy(pairs: map<int, Sides>, place: map<Handle, Place>, chain: seq<Handle>, h: Handle, f: int)
    requires Conserved(pairs, place, chain) && h in place
    ensures place[h] == OnRead(f) <==> f in pairs && pairs[f].r == h
    ensures place[h] == OnWrite(f) <==> f in pairs && pairs[f].w == h
  {
  }

  lemma PollKeeps(p0: map<int, Sides>, l0: map<Handle, Place>, c0: seq<Handle>,
                  l1: map<Handle, Place>, c1: seq<Handle>, es: seq<Event>)
    requires Conserved(p0, l0, c0) && Conserved(AfterEvents(p0, es), l1, c1) && l0.Keys == l1.Keys
    ensures forall h :: h in l0 && l0[h].OnRead? ==>
              (l1[h] == l0[h] <==> forall e :: e in es ==> !ForRead(e, l0[h].fd))
    ensures forall h :: h in l0 && l0[h].OnWrite? ==>
              (l1[h] == l0[h] <==> forall e :: e in es ==> !ForWrite(e, l0[h].fd))
  {
    hide Conserved, AfterEvents, ForRead, ForWrite;
    forall h | h in l0 && l0[h].Registered()
      ensures l0[h].OnRead? ==> (l1[h] == l0[h] <==> forall e :: e in es ==> !ForRead(e, l0[h].fd))
      ensures l0[h].OnWrite? ==> (l1[h] == l0[h] <==> forall e :: e in es ==> !ForWrite(e, l0[h].fd))
    {
      var f := l0[h].fd;
      PlacedBy(p0, l0, c0, h, f);
      PlacedBy(AfterEvents(p0, es), l1, c1, h, f);
      EventsTake(p0, es, f);
    }
  }

  lemma OneEvent(pairs: map<int, Sides>, e: Event)
    requires e.fd in pairs
    ensures AfterEvents(pairs, [e]) == AfterEvent(pairs, e.fd, e.events)
  {
    assert [e][..0] == [] && AfterEvents(pairs, []) == pairs;
  }

  // The kernel's side: the interest set of one epoll descriptor.
  class Epoll {
    var interest: map<int, set<PollBit>>

    constructor ()
      ensures interest == map[]
    {
      interest := map[];
    }

    // epoll_ctl.  The kernel fails it with EPERM (`ok` false) or does it; no caller here can make
    // it fail with EEXIST or ENOENT.
    method Ctl(op: CtlOp, f: int, bits: set<PollBit>, ok: bool)
      requires op == CtlAdd <==> f !in interest
      modifies this
      ensures interest == if !ok then old(interest)
                          else if op == CtlDel then old(interest) - {f} else old(interest)[f := bits]
    {
      if ok {
        interest := if op == CtlDel then interest - {f} else interest[f := bits];
      }
    }

    // epoll_wait with a zero timeout, asking for one event.
    method Wait(k: Reports) returns (r: Option<Event>)
      modifies k
      ensures r.Some? ==> MayReport(interest, r.value.fd, r.value.events) && k.log == old(k.log) + [r.value]
      ensures r.None? ==> k.quiet && k.log == old(k.log)
    {
      var some: bool := *;
      var e: Event := *;
      r := if some && MayReport(interest, e.fd, e.events) then Some(e) else None;
      k.quiet := r.None?;
      if r.Some? { k.log := k.log + [r.value]; }
    }
  }

  class Ltps {
    var fd: int
    var signaled: Handle?
    const fdHandles: HashTable<Pair>
    const epoll: Epoll
    ghost var table: map<int, Pair>   // what fdHandles maps
    ghost var pairs: map<int, Sides>  // the handles in those pairs
    ghost var chain: seq<Handle>
    ghost var place: map<Handle, Place>
    ghost var repr: set<object>

    ghost predicate Framed()
      reads this, repr
    {
      && this in repr && fdHandles in repr
      && (fdHandles.buckets != null ==> fdHandles.buckets in repr)
      && fdHandles.Valid() && fdHandles.Model() == table
      && (forall f :: f in table ==> f >= 0 && table[f] in repr)
      && InjectiveMap(table)
      && table.Keys == pairs.Keys && Mirrors(table, pairs)
      && (forall h :: h in place ==> h in repr)
    }

    ghost function AutoModes(): map<Handle, AutoMode>
      reads `place, place.Keys
    {
      map h | h in place :: h.autoMode
    }

    lemma ModeAt(f: int)
      requires Midway() && f in table
      ensures pairs[f].r != null ==> pairs[f].r in AutoModes() && AutoModes()[pairs[f].r] == pairs[f].r.autoMode
      ensures pairs[f].w != null ==> pairs[f].w in AutoModes() && AutoModes()[pairs[f].w] == pairs[f].w.autoMode
      ensures AutoModes().Keys == place.Keys
    {
    }

    lemma ModesOfAll()
      ensures AutoModes().Keys == place.Keys
    {
    }

    // Everything that does not mention the kernel.
    ghost predicate TableValid()
      reads this, repr
    {
      && Framed() && epoll !in repr
      && Conserved(pairs, place, chain)
      && NoEmptyPair(pairs)
      && (forall h :: h in chain ==> h in repr) && Linked(signaled, chain)
    }

    ghost predicate Valid()
      reads this, repr, epoll
    {
      && TableValid()
      && KernelAgrees(pairs, epoll.interest)
      && (fd < 0 ==> epoll.interest == map[])
    }

    // rktio_ltps_open
    constructor ()
      ensures Valid() && fresh(repr) && fresh(epoll)
      ensures pairs == map[] && place == map[] && chain == [] && fd == -1
    {
      fd, signaled := -1, null;
      fdHandles := new HashTable<Pair>();
      table, pairs, chain, place := map[], map[], [], map[];
      epoll := new Epoll();
      new;
      repr := {this, fdHandles};
    }

    method ChainHandle(s: Handle)
      requires s !in chain && Linked(signaled, chain)
      modifies this`signaled, this`chain, s`next
      ensures Linked(signaled, chain) && chain == [s] + old(chain)
    {
      s.next := signaled;
      signaled := s;
      chain := [s] + chain;
      forall i | 0 <= i < |chain| ensures chain[i].next == ElementAfter(chain, i) {
        if i > 0 { assert old(chain)[i - 1].next == ElementAfter(old(chain), i - 1); }
      }
    }

    // ltps_signal_handle: chain the handle, or zero or free it, as its auto mode says.
    method SignalHandle(s: Handle)
      requires s in place && s !in chain && Linked(signaled, chain)
      modifies this`signaled, this`chain, this`place, s
      ensures Linked(signaled, chain)
      ensures place == old(place)[s := PlaceAfterSignal(old(s.autoMode))]
      ensures chain == SignaledChain(old(chain), s, old(s.autoMode))
      ensures match old(s.autoMode)
              case HandleNone => place[s] == Signaled && chain == [s] + old(chain)
              case HandleZero => place[s] == Zeroed && chain == old(chain) && s.data == 0
              case HandleFree => place[s] == Freed && chain == old(chain)
      ensures s.autoMode == old(s.autoMode) && AutoModes() == old(AutoModes())
      ensures old(Framed()) ==> Framed()
      ensures s.data == if s.autoMode == HandleZero then 0 else old(s.data)
    {
      hide Linked, Mirrors, InjectiveMap, HashTable.Valid, HashTable.Model;
      place := place[s := PlaceAfterSignal(s.autoMode)];
      match s.autoMode {
        case HandleNone =>
          ChainHandle(s);
        case HandleZero =>
          s.data := 0;
        case HandleFree =>
      }
    }

    // rktio_ltps_get_signaled_handle
    method GetSignaledHandle() returns (s: Handle?, err: Outcome)
      requires TableValid()
      modifies this`signaled, this`chain, this`place
      ensures TableValid() && (old(Valid()) ==> Valid())
      ensures s == null <==> old(chain) == []
      ensures err == if s == null then NotFound else Found
      ensures s == null ==> chain == [] && place == old(place)
      ensures s != null ==> [s] + chain == old(chain) && s in old(place) && place == old(place)[s := Returned]
    {
      hide Conserved, Linked, Mirrors, InjectiveMap;
      LinkedHead(signaled, chain);
      s := signaled;
      if s != null {
        PopSignaled(pairs, place, chain);
        LinkedTail(signaled, chain);
        signaled := s.next;
        chain := chain[1..];
        place := place[s := Returned];
        err := Found;
      } else {
        err := NotFound;
      }
    }

    // The table, the places and the chain, when a pair may just have lost its last handle.
    ghost predicate Midway()
      reads this, repr
    {
      && Framed() && epoll !in repr
      && Conserved(pairs, place, chain)
      && (forall h :: h in chain ==> h in repr) && Linked(signaled, chain)
    }

    // The pair of a descriptor, and where its handles are.
    lemma PairAt(f: int)
      requires Midway() && f in table
      ensures table[f] in repr && f >= 0 && epoll !in repr
      ensures this in repr && fdHandles in repr && (fdHandles.buckets != null ==> fdHandles.buckets in repr)
      ensures fdHandles.Valid() && fdHandles.Model() == table
      ensures f in pairs && pairs[f] == Sides(table[f].readHandle, table[f].writeHandle)
      ensures pairs[f].r != null ==> pairs[f].r in place && pairs[f].r in repr && pairs[f].r !in chain
      ensures pairs[f].w != null ==> pairs[f].w in place && pairs[f].w in repr && pairs[f].w !in chain
      ensures Conserved(pairs, place, chain) && forall h :: h in place ==> h in repr
    {
    }

    lemma ReportedFd(f: int, events: set<PollBit>)
      requires Valid() && MayReport(epoll.interest, f, events)
      ensures f in table && f in pairs && f >= 0
    {
    }

    lemma ReportedPair(f: int, events: set<PollBit>)
      requires Valid() && MayReport(epoll.interest, f, events)
      ensures f in table && f in pairs && f >= 0 && fd >= 0
      ensures Midway() && NoEmptyPair(pairs) && KernelAgrees(pairs, epoll.interest)
      ensures (events * {In, Hup, Err} != {} && pairs[f].r != null) || (events * {Out, Hup, Err} != {} && pairs[f].w != null)
    {
      ReportHits(pairs[f], epoll.interest[f], events);
    }

    method ForgetRead(ghost f: int, v: Pair)
      requires Framed() && f in table && table[f] == v
      modifies this`pairs, v`readHandle
      ensures Framed() && v.readHandle == null && pairs == old(pairs)[f := old(pairs)[f].(r := null)]
    {
      hide Mirrors, InjectiveMap, HashTable.Valid, HashTable.Model;
      SetRead(v, null, f, table, pairs);
      pairs := pairs[f := pairs[f].(r := null)];
    }

    method ForgetWrite(ghost f: int, v: Pair)
      requires Framed() && f in table && table[f] == v
      modifies this`pairs, v`writeHandle
      ensures Framed() && v.writeHandle == null && pairs == old(pairs)[f := old(pairs)[f].(w := null)]
    {
      hide Mirrors, InjectiveMap, HashTable.Valid, HashTable.Model;
      SetWrite(v, null, f, table, pairs);
      pairs := pairs[f := pairs[f].(w := null)];
    }

    // Lines 511-516: an event takes the read handle.
    method TakeRead(ghost f: int, v: Pair) returns (hit: bool)
      requires Midway() && f in table && table[f] == v
      modifies this`signaled, this`chain, this`place, this`pairs, v, v.readHandle
      ensures Midway() && hit == (old(v.readHandle) != null)
      ensures pairs == old(pairs)[f := old(pairs)[f].(r := null)]
      ensures place == if hit then old(place)[old(v.readHandle) := PlaceAfterSignal(old(v.readHandle.autoMode))] else old(place)
      ensures chain == if hit then SignaledChain(old(chain), old(v.readHandle), old(v.readHandle.autoMode)) else old(chain)
      ensures AutoModes() == old(AutoModes())
      ensures v.writeHandle == old(v.writeHandle)
    {
      hide Framed, Linked, Conserved, AutoModes;
      PairAt(f);
      hit := false;
      var s := v.readHandle;
      if s != null {
        ghost var m := s.autoMode;
        SignalRead(pairs, place, chain, f, m);
        SignalHandle(s);
        hit := true;
        ForgetRead(f, v);
      }
    }

    // Lines 519-524: an event takes the write handle.
    method TakeWrite(ghost f: int, v: Pair) returns (hit: bool)
      requires Midway() && f in table && table[f] == v
      modifies this`signaled, this`chain, this`place, this`pairs, v, v.writeHandle
      ensures Midway() && hit == (old(v.writeHandle) != null)
      ensures pairs == old(pairs)[f := old(pairs)[f].(w := null)]
      ensures place == if hit then old(place)[old(v.writeHandle) := PlaceAfterSignal(old(v.writeHandle.autoMode))] else old(place)
      ensures chain == if hit then SignaledChain(old(chain), old(v.writeHandle), old(v.writeHandle.autoMode)) else old(chain)
      ensures AutoModes() == old(AutoModes())
      ensures v.readHandle == old(v.readHandle)
    {
      hide Framed, Linked, Conserved, AutoModes;
      PairAt(f);
      hit := false;
      var s := v.writeHandle;
      if s != null {
        ghost var m := s.autoMode;
        SignalWrite(pairs, place, chain, f, m);
        SignalHandle(s);
        hit := true;
        ForgetWrite(f, v);
      }
    }

    // ltps_hash_remove, or rktio_hash_remove without a rehash: drop one descriptor.
    method DropFd(f: nat, dontRehash: bool)
      requires Framed() && f in table
      modifies this`repr, this`table, this`pairs, fdHandles, fdHandles.buckets
      ensures Framed() && table == old(table) - {f} && pairs == old(pairs) - {f}
      ensures repr >= old(repr) && fresh(repr - old(repr))
      ensures dontRehash ==>
        repr == old(repr) && fdHandles.buckets == old(fdHandles.buckets) && fdHandles.size == old(fdHandles.size)
        && (fdHandles.buckets != null ==> fdHandles.buckets[..] == AfterRemove(old(fdHandles.buckets[..]), f))
    {
      hide HashTable.Model;
      ghost var g := fdHandles.Remove(f, dontRehash);
      if fdHandles.buckets != null { repr := repr + {fdHandles.buckets}; }
      table := table - {f};
      pairs := pairs - {f};
    }

    // Lines 510-525: the handles an event takes.
    method Take(ghost f: int, v: Pair, events: set<PollBit>) returns (hit: bool)
      requires Midway() && f in table && table[f] == v
      requires (events * {In, Hup, Err} != {} && v.readHandle != null)
            || (events * {Out, Hup, Err} != {} && v.writeHandle != null)
      modifies this`signaled, this`chain, this`place, this`pairs, v, v.readHandle, v.writeHandle
      ensures Midway() && hit
      ensures pairs == old(pairs)[f := Taken(old(pairs)[f], events)]
      ensures RegisteredIn(place) < RegisteredIn(old(place))
      ensures OnlySignals(old(place), place, old(AutoModes())) && place.Keys == old(place).Keys
      ensures AutoModes() == old(AutoModes())
    {
      hide Midway, Conserved, OnlySignals, RegisteredIn, AutoModes;
      PairAt(f);
      ModeAt(f);
      hit := false;
      ghost var p0, l0, a0, c0 := pairs, place, AutoModes(), chain;
      ghost var read, write := events * {In, Hup, Err} != {}, events * {Out, Hup, Err} != {};
      if events * {In, Hup, Err} != {} {
        hit := TakeRead(f, v);
      }
      if events * {Out, Hup, Err} != {} {
        var h := TakeWrite(f, v);
        hit := hit || h;
      }
      EventConsumes(p0, l0, place, a0, c0, f, read, write);
    }

    method DropEmptyPair(f: nat)
      requires Midway() && f in table && pairs[f] == Sides(null, null)
      modifies this`repr, this`table, this`pairs, fdHandles, fdHandles.buckets
      ensures Midway() && pairs == old(pairs) - {f}
      ensures fresh(repr - old(repr)) && repr >= old(repr)
    {
      hide Framed, Conserved, Linked;
      PairAt(f);
      DropPair(pairs, place, chain, f);
      DropFd(f, false);
      assert Linked(signaled, chain);
    }

    lemma Settled()
      requires Midway() && NoEmptyPair(pairs) && KernelAgrees(pairs, epoll.interest)
      requires fd < 0 ==> epoll.interest == map[]
      ensures Valid()
    {
    }

    // Lines 366-369 and 413-416: a pair left with no handle goes.
    method DropEmpty(f: nat, v: Pair)
      requires Midway() && f in table && table[f] == v
      requires NoEmptyPairBut(pairs, f) && KernelMatches(pairs, epoll.interest) && (fd < 0 ==> epoll.interest == map[])
      modifies this`repr, this`table, this`pairs, fdHandles, fdHandles.buckets
      ensures Valid() && fresh(repr - old(repr)) && repr >= old(repr)
      ensures pairs == if old(pairs)[f] == Sides(null, null) then old(pairs) - {f} else old(pairs)
    {
      hide Midway, Valid, HashTable.Valid, HashTable.Model;
      PairAt(f);
      if v.readHandle == null && v.writeHandle == null {
        DropEmptyPair(f);
      }
      MatchesAgrees(pairs, epoll.interest);
      Settled();
    }

    // Lines 526-536: drop the pair when it is empty, and tell the kernel what is left of it.
    method Settle(f: nat, v: Pair)
      requires Midway() && f in table && table[f] == v && fd >= 0
      requires AgreesBut(pairs, epoll.interest, f)
      modifies this`repr, this`table, this`pairs, fdHandles, fdHandles.buckets, epoll
      ensures Valid() && fresh(repr - old(repr)) && repr >= old(repr)
      ensures pairs == if old(pairs)[f] == Sides(null, null) then old(pairs) - {f} else old(pairs)
    {
      hide Midway, Valid, HashTable.Valid, HashTable.Model;
      PairAt(f);
      if v.readHandle == null && v.writeHandle == null {
        DropEmptyPair(f);
        epoll.Ctl(CtlDel, f, {}, true);
      } else {
        epoll.Ctl(CtlMod, f, Mask(Sides(v.readHandle, v.writeHandle)), true);
      }
      Settled();
    }

    // Lines 509-536: one event, once its pair is found.
    method DispatchTo(key: nat, v: Pair, events: set<PollBit>) returns (hit: bool)
      requires Valid() && MayReport(epoll.interest, key, events) && key in table && table[key] == v
      modifies repr, epoll
      ensures Valid() && fresh(repr - old(repr)) && repr >= old(repr)
      ensures hit && pairs == AfterEvent(old(pairs), key, events)
      ensures RegisteredIn(place) < RegisteredIn(old(place))
      ensures OnlySignals(old(place), place, old(AutoModes())) && place.Keys == old(place).Keys
      ensures AutoModes() == old(AutoModes())
    {
      hide Valid, Midway, OnlySignals, AgreesBut, KernelAgrees, NoEmptyPair, MayReport, Mask, AfterEvent, Taken,
        RegisteredIn, AutoModes, Conserved, HashTable.Valid, HashTable.Model;
      ReportedPair(key, events);
      ghost var p0, r0 := pairs, repr;
      PairAt(key);
      hit := Take(key, v, events);
      TakenAgrees(p0, epoll.interest, key, events);
      assert repr == r0;
      Settle(key, v);
    }

    // Lines 507-536: one event.
    method Dispatch(key: nat, events: set<PollBit>) returns (hit: bool)
      requires Valid() && MayReport(epoll.interest, key, events)
      modifies repr, epoll
      ensures Valid() && fresh(repr - old(repr)) && repr >= old(repr)
      ensures hit && pairs == AfterEvent(old(pairs), key, events)
      ensures RegisteredIn(place) < RegisteredIn(old(place))
      ensures OnlySignals(old(place), place, old(AutoModes())) && place.Keys == old(place).Keys
      ensures AutoModes() == old(AutoModes())
      ensures forall h :: h in old(place) && old(place)[h].OnRead? ==>
        (place[h] == old(place)[h] <==> !(old(place)[h].fd == key && (In in events || Hup in events || Err in events)))
      ensures forall h :: h in old(place) && old(place)[h].OnWrite? ==>
        (place[h] == old(place)[h] <==> !(old(place)[h].fd == key && (Out in events || Hup in events || Err in events)))
    {
      hide Valid, Midway, HashTable.Valid, HashTable.Model, OnlySignals, KernelAgrees, MayReport, AfterEvent;
      ReportedPair(key, events);
      ghost var a0, r0 := AutoModes(), repr;
      PairAt(key);
      var found := fdHandles.Get(key);
      assert AutoModes() == a0 && repr == r0;
      ghost var p0, l0, c0 := pairs, place, chain;
      ValidConserved();
      hit := DispatchTo(key, found.value, events);
      ValidConserved();
      OneEvent(p0, Event(key, events));
      PollKeeps(p0, l0, c0, place, chain, [Event(key, events)]);
      assert forall e :: e in [Event(key, events)] <==> e == Event(key, events);
    }

    // The kernel is asked about every side that has a handle.
    lemma Interested(f: int)
      requires Valid()
      ensures f in pairs && pairs[f].r != null ==> f in epoll.interest && In in epoll.interest[f]
      ensures f in pairs && pairs[f].w != null ==> f in epoll.interest && Out in epoll.interest[f]
    {
    }

    lemma ValidConserved()
      requires Valid()
      ensures Conserved(pairs, place, chain)
    {
    }

    // rktio_ltps_poll: every event the kernel reports is dispatched, until it has none; the loop ends
    // because each takes at least one registered handle.
    method Poll(k: Reports) returns (hit: bool)
      requires Valid() && k !in repr && k.log == []
      modifies repr, epoll, k
      ensures Valid() && fresh(repr - old(repr)) && repr >= old(repr)
      ensures old(fd) >= 0 ==> k.quiet && pairs == AfterEvents(old(pairs), k.log)
      ensures hit <==> RegisteredIn(place) != RegisteredIn(old(place))
      ensures OnlySignals(old(place), place, old(AutoModes())) && place.Keys == old(place).Keys
      ensures !hit ==> pairs == old(pairs) && place == old(place) && chain == old(chain)
      ensures forall h :: h in old(place) && old(place)[h].OnRead? ==>
        (place[h] == old(place)[h] <==>
          forall e :: e in k.log && e.fd == old(place)[h].fd ==> In !in e.events && Hup !in e.events && Err !in e.events)
      ensures forall h :: h in old(place) && old(place)[h].OnWrite? ==>
        (place[h] == old(place)[h] <==>
          forall e :: e in k.log && e.fd == old(place)[h].fd ==> Out !in e.events && Hup !in e.events && Err !in e.events)
    {
      hide AfterEvents, AfterEvent, Valid, MayReport, OnlySignals, RegisteredIn, AutoModes;
      hit := false;
      ModesOfAll();
      NoSignals(place, AutoModes());
      if fd < 0 { return; }
      ghost var p0, l0, c0 := pairs, place, chain;
      ValidConserved();
      NoEvents(p0);
      while true
        invariant Valid() && fresh(repr - old(repr)) && repr >= old(repr)
        invariant OnlySignals(old(place), place, old(AutoModes())) && place.Keys == old(place).Keys
        invariant RegisteredIn(place) <= RegisteredIn(old(place))
        invariant pairs == AfterEvents(p0, k.log)
        invariant hit <==> RegisteredIn(place) != RegisteredIn(old(place))
        invariant !hit ==> pairs == old(pairs) && place == old(place) && chain == old(chain)
        invariant AutoModes() == old(AutoModes())
        decreases RegisteredIn(place)
      {
        ghost var log := k.log;
        var ev := epoll.Wait(k);
        if ev.None? { break; }
        ReportedFd(ev.value.fd, ev.value.events);
        OneMoreEvent(p0, log, ev.value);
        ghost var l := place;
        var h := Dispatch(ev.value.fd, ev.value.events);
        SignalsThen(old(place), l, place, old(AutoModes()));
        hit := true;
      }
      ValidConserved();
      PollKeeps(p0, l0, c0, place, chain, k.log);
    }

    lemma NoEvents(p: map<int, Sides>)
      ensures AfterEvents(p, []) == p
    {
    }

    // Line 274: a new pair into the table.
    method InstallPair(f: nat, v: Pair)
      requires Framed() && f !in table && v !in table.Values && v.readHandle == null && v.writeHandle == null
      modifies this`repr, this`table, this`pairs, fdHandles, fdHandles.buckets
      ensures Framed() && table == old(table)[f := v] && pairs == old(pairs)[f := Sides(null, null)]
      ensures repr >= old(repr) && fresh(repr - old(repr) - {v})
    {
      hide Mirrors, InjectiveMap, HashTable.Valid, HashTable.Model;
      MirrorsAdd(table, pairs, f, v);
      fdHandles.AbsentAllowed(f);
      ghost var grew := fdHandles.Set(f, v);
      table := table[f := v];
      pairs := pairs[f := Sides(null, null)];
      repr := repr + {v, fdHandles.buckets};
    }

    // Lines 272-275: the pair of a descriptor, made if there is none.
    method EnsurePair(f: nat) returns (v: Pair)
      requires Midway()
      modifies this`repr, this`table, this`pairs, fdHandles, fdHandles.buckets
      ensures Midway() && fresh(repr - old(repr)) && repr >= old(repr)
      ensures f in table && table[f] == v
      ensures pairs == if f in old(pairs) then old(pairs) else old(pairs)[f := Sides(null, null)]
    {
      hide Conserved, Linked, Mirrors, InjectiveMap, HashTable.Valid, HashTable.Model;
      var found := fdHandles.Get(f);
      if found.Some? {
        v := found.value;
      } else {
        v := new Pair();
        assert v !in table.Values;
        EmptyPair(pairs, place, chain, f);
        InstallPair(f, v);
      }
    }

    method RecordRead(ghost f: int, v: Pair, s: Handle)
      requires Framed() && f in table && table[f] == v
      modifies this`repr, this`place, this`pairs, v`readHandle
      ensures Framed() && v.readHandle == s && repr == old(repr) + {s}
      ensures pairs == old(pairs)[f := old(pairs)[f].(r := s)] && place == old(place)[s := OnRead(f)]
    {
      hide InjectiveMap, Mirrors, HashTable.Valid, HashTable.Model;
      SetRead(v, s, f, table, pairs);
      pairs := pairs[f := pairs[f].(r := s)];
      place := place[s := OnRead(f)];
      repr := repr + {s};
    }

    // Lines 335-336: a new read handle.
    method AttachRead(ghost f: int, v: Pair) returns (s: Handle)
      requires Midway() && f in table && table[f] == v && v.readHandle == null
      modifies this`repr, this`place, this`pairs, v
      ensures Midway() && fresh(s) && fresh(repr - old(repr)) && repr >= old(repr)
      ensures pairs == old(pairs)[f := old(pairs)[f].(r := s)] && place == old(place)[s := OnRead(f)]
      ensures v.readHandle == s && v.writeHandle == old(v.writeHandle) && s.autoMode == HandleNone
      ensures s !in old(place) && Conserved(old(pairs), old(place)[s := Freed], chain)
    {
      hide Framed, Linked, Conserved;
      PairAt(f);
      s := new Handle();
      AttachedRead(pairs, place, chain, f, s);
      RecordRead(f, v, s);
      assert Linked(signaled, chain);
    }

    // Lines 365 and 370: epoll_ctl said EPERM, so the new read handle goes.
    method DetachRead(ghost f: int, v: Pair, ghost s: Handle)
      requires Midway() && f in table && table[f] == v && v.readHandle == s
      requires Conserved(pairs[f := pairs[f].(r := null)], place[s := Freed], chain) && s in place
      modifies this`place, this`pairs, v
      ensures Midway() && place == old(place)[s := Freed]
      ensures pairs == old(pairs)[f := old(pairs[f]).(r := null)]
      ensures v.readHandle == null && v.writeHandle == old(v.writeHandle)
    {
      hide Conserved, Linked, InjectiveMap, Mirrors;
      SetRead(v, null, f, table, pairs);
      pairs := pairs[f := pairs[f].(r := null)];
      place := place[s := Freed];
    }

    method RecordWrite(ghost f: int, v: Pair, s: Handle)
      requires Framed() && f in table && table[f] == v
      modifies this`repr, this`place, this`pairs, v`writeHandle
      ensures Framed() && v.writeHandle == s && repr == old(repr) + {s}
      ensures pairs == old(pairs)[f := old(pairs)[f].(w := s)] && place == old(place)[s := OnWrite(f)]
    {
      hide InjectiveMap, Mirrors, HashTable.Valid, HashTable.Model;
      SetWrite(v, s, f, table, pairs);
      pairs := pairs[f := pairs[f].(w := s)];
      place := place[s := OnWrite(f)];
      repr := repr + {s};
    }

    // Lines 387-388: a new write handle.
    method AttachWrite(ghost f: int, v: Pair) returns (s: Handle)
      requires Midway() && f in table && table[f] == v && v.writeHandle == null
      modifies this`repr, this`place, this`pairs, v
      ensures Midway() && fresh(s) && fresh(repr - old(repr)) && repr >= old(repr)
      ensures pairs == old(pairs)[f := old(pairs)[f].(w := s)] && place == old(place)[s := OnWrite(f)]
      ensures v.writeHandle == s && v.readHandle == old(v.readHandle) && s.autoMode == HandleNone
      ensures s !in old(place) && Conserved(old(pairs), old(place)[s := Freed], chain)
    {
      hide Framed, Linked, Conserved;
      PairAt(f);
      s := new Handle();
      AttachedWrite(pairs, place, chain, f, s);
      RecordWrite(f, v, s);
      assert Linked(signaled, chain);
    }

    // Lines 412 and 417: epoll_ctl said EPERM, so the new write handle goes.
    method DetachWrite(ghost f: int, v: Pair, ghost s: Handle)
      requires Midway() && f in table && table[f] == v && v.writeHandle == s
      requires Conserved(pairs[f := pairs[f].(w := null)], place[s := Freed], chain) && s in place
      modifies this`place, this`pairs, v
      ensures Midway() && place == old(place)[s := Freed]
      ensures pairs == old(pairs)[f := old(pairs[f]).(w := null)]
      ensures v.writeHandle == null && v.readHandle == old(v.readHandle)
    {
      hide Conserved, Linked, InjectiveMap, Mirrors;
      SetWrite(v, null, f, table, pairs);
      pairs := pairs[f := pairs[f].(w := null)];
      place := place[s := Freed];
    }

    // Lines 363-371: epoll_ctl said EPERM, so the handle just made goes again.
    method UndoRead(f: nat, v: Pair, s: Handle, ghost p0: map<int, Sides>)
      requires Midway() && f in table && table[f] == v && v.readHandle == s && s in place
      requires pairs[f := pairs[f].(r := null)] == Ensured(p0, f)
      requires Conserved(Ensured(p0, f), place[s := Freed], chain)
      requires NoEmptyPair(p0) && KernelAgrees(p0, epoll.interest) && fd >= 0
      modifies this`repr, this`place, this`table, this`pairs, v, fdHandles, fdHandles.buckets
      ensures Valid() && fresh(repr - old(repr)) && repr >= old(repr)
      ensures pairs == p0 && place == old(place)[s := Freed]
    {
      hide Framed, Conserved, Linked, HashTable.Valid, HashTable.Model;
      DetachRead(f, v, s);
      DropEmpty(f, v);
    }

    // Lines 335-374: make the read handle of a pair that has none.
    method MakeRead(f: nat, v: Pair, ctlOk: bool, ghost p0: map<int, Sides>) returns (s: Handle?, ghost made: Handle)
      requires Midway() && f in table && table[f] == v && fd >= 0 && v.readHandle == null
      requires NoEmptyPair(p0) && KernelAgrees(p0, epoll.interest) && pairs == Ensured(p0, f)
      modifies this`repr, this`place, this`table, this`pairs, v, fdHandles, fdHandles.buckets, epoll
      ensures Valid() && fresh(repr - old(repr)) && repr >= old(repr)
      ensures fresh(made) && made !in old(place)
      ensures if ctlOk then s == made && pairs == old(pairs)[f := old(pairs[f]).(r := made)] && place == old(place)[made := OnRead(f)]
              else s == null && pairs == p0 && place == old(place)[made := Freed]
    {
      hide Framed, Conserved, Linked, HashTable.Valid, HashTable.Model;
      PairAt(f);
      ghost var p, l := pairs, place;
      s := AttachRead(f, v);
      made := s;
      var already := v.writeHandle != null;
      epoll.Ctl(if already then CtlMod else CtlAdd, f, {In} + (if already then {Out} else {}), ctlOk);
      if ctlOk {
        MatchesAgrees(pairs, epoll.interest);
      } else {
        SetTwice(p, f, pairs[f], pairs[f].(r := null));
        SetTwice(l, s, OnRead(f), Freed);
        UndoRead(f, v, s, p0);
        s := null;
      }
    }

    // Lines 331-381: report or make the read handle of a pair.
    method ReadSide(f: nat, v: Pair, mode: Mode, ctlOk: bool, ghost p0: map<int, Sides>)
      returns (s: Handle?, ghost made: Handle?)
      requires Midway() && f in table && table[f] == v && fd >= 0
      requires NoEmptyPair(p0) && KernelAgrees(p0, epoll.interest) && pairs == Ensured(p0, f)
      requires mode.IsRead() && !mode.IsRemove() && (mode.Creates() || f in p0)
      modifies this`repr, this`place, this`table, this`pairs, v, fdHandles, fdHandles.buckets, epoll
      ensures Valid() && fresh(repr - old(repr)) && repr >= old(repr)
      ensures made == null || fresh(made)
      ensures AddEffect(p0, old(place), pairs, place, f, mode, ctlOk, s, made)
    {
      hide Framed, Conserved, Linked;
      PairAt(f);
      s, made := v.readHandle, null;
      if s == null {
        if mode.Creates() {
          s, made := MakeRead(f, v, ctlOk, p0);
        }
      }
    }

    // Lines 410-418: epoll_ctl said EPERM, so the handle just made goes again.
    method UndoWrite(f: nat, v: Pair, s: Handle, ghost p0: map<int, Sides>)
      requires Midway() && f in table && table[f] == v && v.writeHandle == s && s in place
      requires pairs[f := pairs[f].(w := null)] == Ensured(p0, f)
      requires Conserved(Ensured(p0, f), place[s := Freed], chain)
      requires NoEmptyPair(p0) && KernelAgrees(p0, epoll.interest) && fd >= 0
      modifies this`repr, this`place, this`table, this`pairs, v, fdHandles, fdHandles.buckets
      ensures Valid() && fresh(repr - old(repr)) && repr >= old(repr)
      ensures pairs == p0 && place == old(place)[s := Freed]
    {
      hide Framed, Conserved, Linked, HashTable.Valid, HashTable.Model;
      DetachWrite(f, v, s);
      DropEmpty(f, v);
    }

    // Lines 387-421: make the write handle of a pair that has none.
    method MakeWrite(f: nat, v: Pair, ctlOk: bool, ghost p0: map<int, Sides>) returns (s: Handle?, ghost made: Handle)
      requires Midway() && f in table && table[f] == v && fd >= 0 && v.writeHandle == null
      requires NoEmptyPair(p0) && KernelAgrees(p0, epoll.interest) && pairs == Ensured(p0, f)
      modifies this`repr, this`place, this`table, this`pairs, v, fdHandles, fdHandles.buckets, epoll
      ensures Valid() && fresh(repr - old(repr)) && repr >= old(repr)
      ensures fresh(made) && made !in old(place)
      ensures if ctlOk then s == made && pairs == old(pairs)[f := old(pairs[f]).(w := made)] && place == old(place)[made := OnWrite(f)]
              else s == null && pairs == p0 && place == old(place)[made := Freed]
    {
      hide Framed, Conserved, Linked, HashTable.Valid, HashTable.Model;
      PairAt(f);
      ghost var p, l := pairs, place;
      s := AttachWrite(f, v);
      made := s;
      var already := v.readHandle != null;
      epoll.Ctl(if already then CtlMod else CtlAdd, f, {Out} + (if already then {In} else {}), ctlOk);
      if ctlOk {
        MatchesAgrees(pairs, epoll.interest);
      } else {
        SetTwice(p, f, pairs[f], pairs[f].(w := null));
        SetTwice(l, s, OnWrite(f), Freed);
        UndoWrite(f, v, s, p0);
        s := null;
      }
    }

    // Lines 384-428: report or make the write handle of a pair.
    method WriteSide(f: nat, v: Pair, mode: Mode, ctlOk: bool, ghost p0: map<int, Sides>)
      returns (s: Handle?, ghost made: Handle?)
      requires Midway() && f in table && table[f] == v && fd >= 0
      requires NoEmptyPair(p0) && KernelAgrees(p0, epoll.interest) && pairs == Ensured(p0, f)
      requires !mode.IsRead() && !mode.IsRemove() && (mode.Creates() || f in p0)
      modifies this`repr, this`place, this`table, this`pairs, v, fdHandles, fdHandles.buckets, epoll
      ensures Valid() && fresh(repr - old(repr)) && repr >= old(repr)
      ensures made == null || fresh(made)
      ensures AddEffect(p0, old(place), pairs, place, f, mode, ctlOk, s, made)
    {
      hide Framed, Conserved, Linked;
      PairAt(f);
      s, made := v.writeHandle, null;
      if s == null {
        if mode.Creates() {
          s, made := MakeWrite(f, v, ctlOk, p0);
        }
      }
    }

    // Line 284 or 715, then 286 or 717: one handle of a pair that is about to be dropped.
    method SignalSide(s: Handle?, ghost mid: map<int, Sides>, ghost f: int, ghost read: bool)
      requires f in mid && s == (if read then mid[f].r else mid[f].w)
      requires Conserved(mid, place, chain) && Linked(signaled, chain) && (forall h :: h in chain ==> h in repr)
      requires s != null ==> s in repr
      modifies this`signaled, this`chain, this`place, s
      ensures Conserved(mid[f := if read then mid[f].(r := null) else mid[f].(w := null)], place, chain)
      ensures Linked(signaled, chain) && (forall h :: h in chain ==> h in repr)
      ensures place == if s == null then old(place) else old(place)[s := PlaceAfterSignal(old(s.autoMode))]
      ensures AutoModes() == old(AutoModes()) && (old(Framed()) ==> Framed())
    {
      hide Conserved, Linked, Framed, AutoModes;
      NotChained(mid, place, chain, f);
      if s != null {
        if read { SignalRead(mid, place, chain, f, s.autoMode); } else { SignalWrite(mid, place, chain, f, s.autoMode); }
        SignalHandle(s);
      } else {
        assert mid[f := mid[f]] == mid;
      }
    }

    // Lines 284-287 and 715-718: signal the handles of a pair that is about to be dropped.
    method SignalBoth(ghost f: int, v: Pair)
      requires TableValid() && f in table && table[f] == v
      modifies this`signaled, this`chain, this`place, v.readHandle, v.writeHandle
      ensures Framed() && Linked(signaled, chain) && (forall h :: h in chain ==> h in repr)
      ensures Conserved(pairs - {f}, place, chain)
      ensures OnlySignals(old(place), place, old(AutoModes())) && place.Keys == old(place).Keys
      ensures RegisteredIn(place) < RegisteredIn(old(place))
      ensures AutoModes() == old(AutoModes())
    {
      hide Framed, Linked, Conserved, OnlySignals, RegisteredIn, AutoModes;
      PairAt(f);
      ModeAt(f);
      ghost var p0, l0, a0, c0 := pairs, place, AutoModes(), chain;
      ghost var p1 := p0[f := p0[f].(r := null)];
      SignalSide(v.readHandle, p0, f, true);
      SignalSide(v.writeHandle, p1, f, false);
      EventConsumes(p0, l0, place, a0, c0, f, true, true);
      DropPair(p1[f := p1[f].(w := null)], place, chain, f);
      assert p1[f := p1[f].(w := null)] - {f} == pairs - {f};
    }

    // Lines 284-289 and 715-720: signal what is registered for a descriptor, and drop its pair.
    method Discard(f: nat, v: Pair, dontRehash: bool)
      requires TableValid() && f in table && table[f] == v
      modifies repr
      ensures TableValid() && fresh(repr - old(repr)) && repr >= old(repr)
      ensures pairs == old(pairs) - {f} && fd == old(fd)
      ensures OnlySignals(old(place), place, old(AutoModes())) && place.Keys == old(place).Keys
      ensures RegisteredIn(place) < RegisteredIn(old(place)) && AutoModes() == old(AutoModes())
      ensures dontRehash ==>
        repr == old(repr) && fdHandles.buckets == old(fdHandles.buckets) && fdHandles.size == old(fdHandles.size)
        && (fdHandles.buckets != null ==> fdHandles.buckets[..] == AfterRemove(old(fdHandles.buckets[..]), f))
    {
      hide Framed, Conserved, Linked, OnlySignals, RegisteredIn, AutoModes, AfterRemove;
      PairAt(f);
      SignalBoth(f, v);
      DropFd(f, dontRehash);
      assert Linked(signaled, chain);
    }

    lemma TableAt(f: int)
      requires TableValid() && f in table
      ensures Midway()
    {
      hide Framed, Conserved, Linked;
    }

    lemma KernelWithout(before: map<int, Sides>, f: int)
      requires KernelAgrees(before, epoll.interest) && f in before && pairs == before - {f}
      ensures f in epoll.interest && KernelAgrees(pairs, epoll.interest - {f})
    {
      assert pairs.Keys == (epoll.interest - {f}).Keys;
    }

    // Lines 283-326: remove a descriptor, signaling what was registered for it.
    method RemoveFd(f: nat, v: Pair)
      requires Valid() && f in table && table[f] == v
      modifies repr, epoll
      ensures Valid() && fresh(repr - old(repr)) && repr >= old(repr)
      ensures pairs == old(pairs) - {f}
      ensures OnlySignals(old(place), place, old(AutoModes())) && place.Keys == old(place).Keys
      ensures RegisteredIn(place) < RegisteredIn(old(place))
    {
      hide Framed, Conserved, Linked, OnlySignals, RegisteredIn, AutoModes, KernelAgrees;
      TableAt(f);
      PairAt(f);
      ghost var p0 := pairs;
      Discard(f, v, false);
      KernelWithout(p0, f);
      epoll.Ctl(CtlDel, f, {}, true);
    }

    // Lines 247-259: the epoll descriptor is made by the first use.
    method EnsureFd(newFd: int) returns (ok: bool)
      requires Valid()
      modifies this`fd
      ensures Valid() && ok == (old(fd) >= 0 || newFd >= 0) && (ok <==> fd >= 0)
      ensures fd == if old(fd) >= 0 then old(fd) else newFd
    {
      hide Conserved, Linked, Mirrors, InjectiveMap, HashTable.Valid, HashTable.Model;
      if fd < 0 { fd := newFd; }
      ok := fd >= 0;
    }

    // Lines 272-275 and 327-428: look for a handle, or make one.
    method AddSide(f: nat, mode: Mode, ctlOk: bool) returns (s: Handle?, ghost made: Handle?)
      requires Valid() && fd >= 0 && !mode.IsRemove() && (mode.Creates() || f in table)
      modifies repr, epoll
      ensures Valid() && fresh(repr - old(repr)) && repr >= old(repr)
      ensures AddEffect(old(pairs), old(place), pairs, place, f, mode, ctlOk, s, made)
      ensures made == null || fresh(made)
    {
      hide Framed, Linked, Conserved, AddEffect;
      KnownFds();
      ghost var p0 := pairs;
      var v := EnsurePair(f);
      PairAt(f);
      if mode.IsRead() {
        s, made := ReadSide(f, v, mode, ctlOk, p0);
      } else {
        s, made := WriteSide(f, v, mode, ctlOk, p0);
      }
    }

    // Lines 262-432, once there is an epoll descriptor.
    method AddOpen(f: nat, mode: Mode, ctlOk: bool) returns (s: Handle?, err: Outcome, ghost made: Handle?)
      requires Valid() && fd >= 0
      modifies repr, epoll
      ensures Valid() && fresh(repr - old(repr)) && repr >= old(repr)
      ensures err == AddOutcome(old(pairs), f, mode, false, 0, 0, ctlOk)
      ensures err == NotFound ==> s == null && made == null && pairs == old(pairs) && place == old(place)
      ensures err == Removed ==>
        s == null && made == null && pairs == old(pairs) - {f}
        && OnlySignals(old(place), place, old(AutoModes())) && place.Keys == old(place).Keys
      ensures err == Found || err == NoHandle ==>
        AddEffect(old(pairs), old(place), pairs, place, f, mode, ctlOk, s, made)
      ensures made == null || fresh(made)
    {
      hide Valid, OnlySignals, RegisteredIn, AutoModes;
      ValidFds();
      ghost var a0 := AutoModes();
      var found := fdHandles.Get(f);
      assert AutoModes() == a0;
      if found.None? && mode.NeedsPair() { return null, NotFound, null; }
      if mode.IsRemove() {
        RemoveFd(f, found.value);
        return null, Removed, null;
      }
      s, made := AddSide(f, mode, ctlOk);
      err := if s == null then NoHandle else Found;
    }

    lemma ValidFds()
      requires Valid()
      ensures fdHandles.Valid() && fdHandles.Model() == table && table.Keys == pairs.Keys
      ensures this in repr && fdHandles in repr
    {
    }

    lemma KnownFds()
      requires Framed()
      ensures fdHandles.Valid() && fdHandles.Model() == table && table.Keys == pairs.Keys
      ensures this in repr && fdHandles in repr && (fdHandles.buckets != null ==> fdHandles.buckets in repr)
    {
    }

    // rktio_ltps_add.  `newFd` is what epoll_create returns if it is called, `ctlOk` whether
    // epoll_ctl succeeds rather than failing with EPERM; `made` is the handle allocated, if any.
    method Add(f: nat, mode: Mode, pendingOpen: bool, newFd: int, ctlOk: bool)
      returns (s: Handle?, err: Outcome, ghost made: Handle?)
      requires Valid()
      modifies repr, epoll
      ensures Valid() && fresh(repr - old(repr)) && repr >= old(repr)
      ensures err == AddOutcome(old(pairs), f, mode, pendingOpen, old(fd), newFd, ctlOk)
      ensures err == Unsupported || err == PosixError || err == NotFound ==>
        s == null && made == null && pairs == old(pairs) && place == old(place)
      ensures err == Removed ==>
        s == null && made == null && pairs == old(pairs) - {f}
        && OnlySignals(old(place), place, old(AutoModes())) && place.Keys == old(place).Keys
      ensures err == Found || err == NoHandle ==>
        AddEffect(old(pairs), old(place), pairs, place, f, mode, ctlOk, s, made)
      ensures made == null || fresh(made)
      // The same, mode by mode.
      ensures err == Unsupported <==> pendingOpen
      ensures err == PosixError <==> !pendingOpen && old(fd) < 0 && newFd < 0
      ensures err != Unsupported && err != PosixError && (mode == CheckRead || mode == CheckVnode) ==>
        && made == null && pairs == old(pairs) && place == old(place)
        && s == (if f in old(pairs) then old(pairs)[f].r else null)
        && err == (if f !in old(pairs) then NotFound else if s == null then NoHandle else Found)
      ensures err != Unsupported && err != PosixError && mode == CheckWrite ==>
        && made == null && pairs == old(pairs) && place == old(place)
        && s == (if f in old(pairs) then old(pairs)[f].w else null)
        && err == (if f !in old(pairs) then NotFound else if s == null then NoHandle else Found)
      ensures err != Unsupported && err != PosixError && (mode == Remove || mode == RemoveVnode) ==>
        && s == null && made == null && pairs == old(pairs) - {f}
        && err == (if f !in old(pairs) then NotFound else Removed)
      ensures err != Unsupported && err != PosixError && (mode == CreateRead || mode == CreateVnode) ==>
        if f in old(pairs) && old(pairs)[f].r != null then
          s == old(pairs)[f].r && err == Found && made == null && pairs == old(pairs) && place == old(place)
        else if !ctlOk then
          s == null && err == NoHandle && pairs == old(pairs)
          && made != null && made !in old(place) && place == old(place)[made := Freed]
        else
          && s == made != null && s !in old(place) && err == Found
          && f in pairs && pairs[f].r == s && pairs[f].w == (if f in old(pairs) then old(pairs)[f].w else null)
          && place == old(place)[s := OnRead(f)] && f in epoll.interest && In in epoll.interest[f]
      ensures err != Unsupported && err != PosixError && mode == CreateWrite ==>
        if f in old(pairs) && old(pairs)[f].w != null then
          s == old(pairs)[f].w && err == Found && made == null && pairs == old(pairs) && place == old(place)
        else if !ctlOk then
          s == null && err == NoHandle && pairs == old(pairs)
          && made != null && made !in old(place) && place == old(place)[made := Freed]
        else
          && s == made != null && s !in old(place) && err == Found
          && f in pairs && pairs[f].w == s && pairs[f].r == (if f in old(pairs) then old(pairs)[f].r else null)
          && place == old(place)[s := OnWrite(f)] && f in epoll.interest && Out in epoll.interest[f]
      ensures forall g :: g != f ==> (g in pairs <==> g in old(pairs)) && (g in pairs ==> pairs[g] == old(pairs)[g])
    {
      hide Framed, Conserved, Linked, KernelAgrees, NoEmptyPair, OnlySignals, AddEffect, AutoModes, RegisteredIn;
      if pendingOpen { return null, Unsupported, null; }
      ValidFds();
      var ok := EnsureFd(newFd);
      if !ok { return null, PosixError, null; }
      assert AutoModes() == old(AutoModes());
      ghost var p0, l0 := pairs, place;
      s, err, made := AddOpen(f, mode, ctlOk);
      AddIs(p0, l0, pairs, place, f, mode, ctlOk, s, made, err);
      Interested(f);
    }

    // Lines 711-720: one live slot's pair is signaled and removed, with no rehash to move the rest.
    method EvictSlot(i: nat, f: nat)
      requires TableValid() && i < fdHandles.size && fdHandles.buckets != null && fdHandles.buckets.Length == fdHandles.size
      requires Live(fdHandles.buckets[i]) && fdHandles.buckets[i].key == f && f in table
      modifies repr
      ensures TableValid() && repr == old(repr) && pairs == old(pairs) - {f} && fd == old(fd)
      ensures OnlySignals(old(place), place, old(AutoModes())) && place.Keys == old(place).Keys
      ensures AutoModes() == old(AutoModes())
      ensures fdHandles.buckets == old(fdHandles.buckets) && fdHandles.size == old(fdHandles.size)
      ensures !Live(fdHandles.buckets[i])
      ensures forall j :: 0 <= j < fdHandles.size && Live(fdHandles.buckets[j]) ==> old(Live(fdHandles.buckets[j]))
    {
      hide TableValid, Midway, HashTable.Model, OnlySignals, RegisteredIn, AutoModes, WellFormed, AfterRemove;
      TableAt(f);
      PairAt(f);
      ghost var bs, a0, r0 := fdHandles.buckets[..], AutoModes(), repr;
      RemoveOnlyEmpties(bs, i);
      var found := fdHandles.Get(f);
      assert AutoModes() == a0 && repr == r0;
      Discard(f, found.value, true);
      ghost var cs := fdHandles.buckets[..];
      assert !Live(cs[i]);
      assert forall j :: 0 <= j < |bs| && Live(cs[j]) ==> Live(bs[j]);
    }

    // rktio_ltps_remove_all: walks the raw slots, so nothing may move while it does.
    method RemoveAll()
      requires TableValid()
      modifies repr
      ensures TableValid() && repr == old(repr) && fd == old(fd)
      ensures this in repr && table == map[] && pairs == map[] && RegisteredIn(place) == {}
      ensures OnlySignals(old(place), place, old(AutoModes())) && place.Keys == old(place).Keys
    {
      hide Linked, Conserved, Mirrors, InjectiveMap, HashTable.Model, WellFormed;
      var sz := fdHandles.size;
      var i := 0;
      while i < sz
        invariant i <= sz == fdHandles.size
        invariant TableValid() && repr == old(repr) && fd == old(fd)
        invariant OnlySignals(old(place), place, old(AutoModes())) && place.Keys == old(place).Keys
        invariant AutoModes() == old(AutoModes())
        invariant sz > 0 ==> fdHandles.buckets != null && fdHandles.buckets.Length == sz
        invariant forall j :: 0 <= j < i ==> !Live(fdHandles.buckets[j])
      {
        var f := fdHandles.GetKey(i);
        if f != -1 {
          EvictSlot(i, f);
        }
        i := i + 1;
      }
      fdHandles.NoneLive();
      NoneRegistered(pairs, place, chain);
    }

    lemma NothingWaits()
      requires TableValid() && chain == [] && RegisteredIn(place) == {}
      ensures forall h :: h in place ==> !place[h].Registered() && place[h] != Signaled
    {
      forall h | h in place ensures !place[h].Registered() { assert h !in RegisteredIn(place); }
    }

    // The client is done with a handle it was given.
    method FreeReturned(s: Handle)
      requires TableValid() && s in place && place[s] == Returned
      modifies this`place
      ensures TableValid() && place == old(place)[s := Freed]
    {
      hide Linked, Mirrors, InjectiveMap, HashTable.Valid, HashTable.Model;
      ReturnedFreed(pairs, place, chain, s);
      place := place[s := Freed];
    }

    // rktio_ltps_close: afterwards no handle is registered or waiting in the chain.
    method Close()
      requires TableValid()
      modifies repr
      ensures table == map[] && chain == [] && place.Keys == old(place).Keys
      ensures forall h :: h in place ==> !place[h].Registered() && place[h] != Signaled
    {
      hide TableValid;
      RemoveAll();
      while true
        invariant TableValid() && this in repr && table == map[] && repr == old(repr) && place.Keys == old(place).Keys
        invariant RegisteredIn(place) == {}
        decreases |chain|
      {
        var s, err := GetSignaledHandle();
        if s == null { break; }
        FreeReturned(s);
      }
      NothingWaits();
    }
  }
}
