// Opening in a separate thread (rktio_file.c): the shared record, and the protocol by which the
// thread and any number of owners agree on who frees it.
module PendingOpens {
  import opened Options

  type Handle = nat

  // The part of the record that decides its life: how many own it, and whether the open is done.
  datatype Life = Life(refcount: int, done: bool)

  function Retained(l: Life): Life { l.(refcount := l.refcount + 1) }

  function Released(l: Life): Life { l.(refcount := l.refcount - 1) }

  function Finished(l: Life): Life { l.(done := true) }

  // What the owner that lets go has to do: free the record, or cancel the thread.
  predicate MustFree(l: Life) { l.done && l.refcount == 0 }

  predicate MustCancel(l: Life) { !l.done && l.refcount == 0 }

  // The handles in an array of places, in order.
  function Present(hs: seq<Option<Handle>>): seq<Handle> {
    if hs == [] then [] else (if hs[0].Some? then [hs[0].value] else []) + Present(hs[1..])
  }

  lemma {:induction false} PresentAppend(hs: seq<Option<Handle>>, h: Option<Handle>)
    ensures Present(hs + [h]) == Present(hs) + if h.Some? then [h.value] else []
  {
    if hs == [] {
      assert hs + [h] == [h] && [h][1..] == [];
    } else {
      PresentAppend(hs[1..], h);
      assert (hs + [h])[1..] == hs[1..] + [h];
    }
  }

  function FirstFree(hs: seq<Option<Handle>>): (i: nat)
    ensures i <= |hs| && (i < |hs| ==> hs[i].None?) && forall j :: 0 <= j < i ==> hs[j].Some?
  {
    if hs == [] || hs[0].None? then 0 else 1 + FirstFree(hs[1..])
  }

  function Attached(hs: seq<Option<Handle>>, h: Handle): seq<Option<Handle>> {
    var i := FirstFree(hs);
    if i < |hs| then hs[i := Some(h)] else hs + [Some(h)] + seq(if |hs| > 0 then |hs| - 1 else 0, _ => None)
  }

  function Detached(hs: seq<Option<Handle>>, h: Handle): seq<Option<Handle>> {
    seq(|hs|, i requires 0 <= i < |hs| => if hs[i] == Some(h) then None else hs[i])
  }

  lemma {:induction false} PresentIs(hs: seq<Option<Handle>>, x: Handle)
    ensures x in Present(hs) <==> Some(x) in hs
  {
    if hs != [] {
      PresentIs(hs[1..], x);
      assert Some(x) in hs <==> hs[0] == Some(x) || Some(x) in hs[1..];
    }
  }

  // Attaching adds the handle and loses none.
  lemma AttachedHas(hs: seq<Option<Handle>>, h: Handle, x: Handle)
    ensures x in Present(Attached(hs, h)) <==> x == h || x in Present(hs)
    ensures hs != [] ==> |Attached(hs, h)| == if None in hs then |hs| else 2 * |hs|
  {
    PresentIs(hs, x);
    PresentIs(Attached(hs, h), x);
    var i, after := FirstFree(hs), Attached(hs, h);
    assert after[i] == Some(h);
    if Some(x) in hs {
      var k :| 0 <= k < |hs| && hs[k] == Some(x);
      assert after[k] == Some(x);
    }
  }

  // Detaching removes the handle, however often it is there, and no other.
  lemma DetachedHas(hs: seq<Option<Handle>>, h: Handle, x: Handle)
    ensures x in Present(Detached(hs, h)) <==> x != h && x in Present(hs)
  {
    PresentIs(hs, x);
    PresentIs(Detached(hs, h), x);
    if x != h && Some(x) in hs {
      var k :| 0 <= k < |hs| && hs[k] == Some(x);
      assert Detached(hs, h)[k] == Some(x);
    }
  }

  // open_in_thread_t, without what stays as it was created; each method is one locked section.
  class OpenInThread {
    var done: bool
    var refcount: int
    var handles: array<Option<Handle>>

    function Value(): Life
      reads this
    {
      Life(refcount, done)
    }

    constructor (handle: Handle)
      ensures Value() == Life(1, false) && fresh(handles) && handles[..] == [Some(handle)]
    {
      done, refcount := false, 1;
      handles := new Option<Handle>[1](_ => Some(handle));
    }

    // The locked part of cleanup_open_thread: every attached handle is signaled, and the record is done.
    method Finish() returns (signaled: seq<Handle>, count: int)
      modifies this`done
      ensures Value() == Finished(old(Value())) && count == refcount
      ensures signaled == Present(handles[..])
    {
      signaled := [];
      var i := 0;
      while i < handles.Length
        invariant i <= handles.Length && signaled == Present(handles[..i])
      {
        PresentAppend(handles[..i], handles[i]);
        assert handles[..i + 1] == handles[..i] + [handles[i]];
        if handles[i].Some? { signaled := signaled + [handles[i].value]; }
        i := i + 1;
      }
      assert handles[..i] == handles[..];
      count := refcount;
      done := true;
    }

    // rktio_pending_open_attach: unless the open is done, the handle takes the first free place, or
    // one in a longer array.
    method Attach(h: Handle)
      requires handles.Length > 0
      modifies this`handles, handles
      ensures handles.Length > 0 && (handles == old(handles) || fresh(handles))
      ensures handles[..] == if done then old(handles[..]) else Attached(old(handles[..]), h)
    {
      if !done {
        var i := 0;
        ghost var hs := handles[..];
        assert hs[0..] == hs;
        while i < handles.Length && handles[i].Some?
          invariant i <= handles.Length && FirstFree(hs) == i + FirstFree(hs[i..])
        {
          assert hs[i..][1..] == hs[i + 1..];
          i := i + 1;
        }
        if i < handles.Length {
          handles[i] := Some(h);
        } else {
          var was := handles;
          var n := 2 * was.Length;
          handles := new Option<Handle>[n](i requires 0 <= i reads was => if i < was.Length then was[i] else None);
          handles[was.Length] := Some(h);
        }
        assert handles[..] == Attached(hs, h);
      }
    }

    // do_detach
    method Detach(h: Handle)
      modifies handles
      ensures handles[..] == Detached(old(handles[..]), h)
    {
      var i := 0;
      while i < handles.Length
        invariant i <= handles.Length
        invariant forall k :: 0 <= k < handles.Length ==>
                    handles[k] == if k < i && old(handles[k]) == Some(h) then None else old(handles[k])
      {
        if handles[i] == Some(h) { handles[i] := None; }
        i := i + 1;
      }
    }

    // rktio_pending_open_retain
    method Retain()
      modifies this`refcount
      ensures Value() == Retained(old(Value()))
    {
      refcount := refcount + 1;
    }

    // The locked part of do_pending_open_release: whether to free the record, and whether to cancel
    // the thread.
    method Release(h: Handle) returns (bye: bool, cancel: bool)
      modifies this`refcount, handles
      ensures Value() == Released(old(Value()))
      ensures (bye <==> MustFree(Value())) && (cancel <==> MustCancel(Value()))
      ensures handles[..] == if bye then old(handles[..]) else Detached(old(handles[..]), h)
    {
      refcount := refcount - 1;
      bye, cancel := done && refcount == 0, false;
      if !bye {
        Detach(h);
        if refcount == 0 { cancel := true; }
      }
    }
  }
}

// Every interleaving of the opening thread and the owners of one record.
module PendingOpenProtocol {
  import opened Options
  import opened PendingOpens

  // The thread: before it installs its cleanup handler, on its way to open, blocked in it, back from
  // it, in the cleanup (as the handler of a cancelation or not), after the locked section of the
  // cleanup with the count it read there, and finished, or terminated without any cleanup.
  datatype Thread =
    | Created
    | Prepared
    | Opening
    | Returned
    | Cleaning(canceled: bool)
    | Leaving(count: int, canceled: bool)
    | Ended
    | Killed

  // An owner: free to use the record, having seen that it is done, or about to free it.
  datatype Owner = Holding | SawDone | Freeing

  datatype State = State(life: Life, canceling: bool, freed: nat, thread: Thread, owners: map<nat, Owner>)

  datatype Step =
    | Prepare
    | Open
    | OpenReturns
    | Clean
    | Lock
    | Leave
    | Cancelation
    | Use(owner: nat)
    | See(owner: nat)
    | Unsee(owner: nat)
    | Retain(owner: nat, other: nat)
    | Release(owner: nat)
    | Free(owner: nat)

  // open_via_thread: one owner, and a thread.
  const INITIAL := State(Life(1, false), false, 0, Created, map[0 := Holding])

  predicate Has(s: State, owner: nat) { owner in s.owners && !s.owners[owner].Freeing? }

  // Where a requested cancelation can take effect. `masked` says whether the calls around `open`
  // turn cancelation off elsewhere, as their comment says. They pass PTHREAD_CANCEL_DISABLE to
  // pthread_setcanceltype, which has no such type: no cancelation is turned off.  Either way a
  // request that is pending when `open` is called takes effect there, as POSIX asks of `open`.
  predicate Cancelable(masked: bool, t: Thread) {
    if masked then t.Prepared? || t.Opening?
    else match t
      case Cleaning(canceled) => !canceled
      case Leaving(_, canceled) => !canceled
      case Ended => false
      case Killed => false
      case _ => true
  }

  predicate Enabled(masked: bool, s: State, step: Step) {
    match step
    case Prepare => s.thread.Created?
    case Open => s.thread.Prepared? && !s.canceling
    case OpenReturns => s.thread.Opening?
    case Clean => s.thread.Returned?
    case Lock => s.thread.Cleaning?
    case Leave => s.thread.Leaving?
    case Cancelation => s.canceling && Cancelable(masked, s.thread)
    case Use(o) => Has(s, o)
    case See(o) => o in s.owners && s.owners[o].Holding? && s.life.done
    case Unsee(o) => o in s.owners && s.owners[o].SawDone?
    case Retain(o, other) => Has(s, o) && other !in s.owners
    case Release(o) => Has(s, o)
    case Free(o) => o in s.owners && s.owners[o].Freeing?
  }

  function Apply(s: State, step: Step): State {
    match step
    case Prepare => s.(thread := Prepared)
    case Open => s.(thread := Opening)
    case OpenReturns => s.(thread := Returned)
    case Clean => s.(thread := Cleaning(false))
    case Lock =>
      if s.thread.Cleaning? then s.(life := Finished(s.life), thread := Leaving(s.life.refcount, s.thread.canceled)) else s
    case Leave => s.(thread := Ended, freed := if s.thread.Leaving? && s.thread.count == 0 then s.freed + 1 else s.freed)
    case Cancelation =>
      // The handler runs if it is installed and not already taken off to run.
      s.(thread := if s.thread.Prepared? || s.thread.Opening? || s.thread.Returned? then Cleaning(true) else Killed)
    case Use(o) => s
    case See(o) => s.(owners := s.owners[o := SawDone])
    case Unsee(o) => s.(owners := s.owners[o := Holding])
    case Retain(_, other) => s.(owners := s.owners[other := Holding], life := Retained(s.life))
    case Release(o) =>
      var l := Released(s.life);
      s.(life := l,
         owners := if MustFree(l) then s.owners[o := Freeing] else s.owners - {o},
         canceling := s.canceling || MustCancel(l))
    case Free(o) => s.(owners := s.owners - {o}, freed := s.freed + 1)
  }

  // The state after more steps, if every one of them was possible.
  function Continue(masked: bool, s: State, steps: seq<Step>): Option<State> {
    if steps == [] then Some(s)
    else
      var before := Continue(masked, s, steps[..|steps| - 1]);
      var step := steps[|steps| - 1];
      if before.Some? && Enabled(masked, before.value, step) then Some(Apply(before.value, step)) else None
  }

  function Run(masked: bool, steps: seq<Step>): Option<State> { Continue(masked, INITIAL, steps) }

  function Holders(owners: map<nat, Owner>): set<nat> { set o | o in owners && !owners[o].Freeing? }

  // The thread will not look at the record any more.
  predicate Through(t: Thread) { t.Ended? || t.Killed? || (t.Leaving? && t.count != 0) }

  ghost predicate Inv(masked: bool, s: State) {
    && s.life.refcount == |Holders(s.owners)|
    && (s.canceling ==> s.owners == map[])
    && (s.thread.Leaving? || s.thread.Ended? ==> s.life.done)
    && (s.life.done ==> s.thread.Leaving? || s.thread.Ended? || s.thread.Killed?)
    && (s.thread.Killed? ==> !masked && s.canceling)
    && (s.thread.Leaving? && s.thread.count == 0 ==> s.owners == map[] && s.freed == 0)
    && (s.thread.Cleaning? && s.thread.canceled ==> s.canceling)
    && (s.thread.Leaving? ==> s.thread.count >= 0 && (s.thread.canceled ==> s.thread.count == 0))
    && (forall o :: o in s.owners && s.owners[o].Freeing? ==> s.owners == map[o := Freeing] && s.life.done && s.freed == 0)
    && (forall o :: o in s.owners && s.owners[o].SawDone? ==> s.life.done)
    && s.freed <= 1
    && (s.freed == 1 ==> s.owners == map[] && Through(s.thread))
    && (s.owners == map[] && s.life.done && Through(s.thread) && !s.thread.Killed? ==> s.freed == 1)
    && (s.owners == map[] && !s.life.done ==> s.canceling)
  }

  lemma HoldersSet(owners: map<nat, Owner>, o: nat, pc: Owner)
    ensures Holders(owners[o := pc]) == (Holders(owners) - {o}) + if pc.Freeing? then {} else {o}
    ensures Holders(owners - {o}) == Holders(owners) - {o}
    ensures o in Holders(owners) <==> o in owners && !owners[o].Freeing?
  {
  }

  lemma OnlyHolder(owners: map<nat, Owner>, o: nat)
    requires o in owners && Holders(owners) - {o} == {} && forall x :: x in owners && x != o ==> !owners[x].Freeing?
    ensures forall x :: x in owners <==> x == o
  {
    assert forall x :: x in owners && x != o ==> x in Holders(owners) - {o};
  }

  lemma SizeWith(hs: set<nat>, o: nat)
    ensures |(hs - {o}) + {o}| == |hs - {o}| + 1 && |hs - {o}| == |hs| - if o in hs then 1 else 0
  {
    if o !in hs { assert hs - {o} == hs; }
  }

  lemma HoldersWith(owners: map<nat, Owner>, o: nat, pc: Owner)
    ensures |Holders(owners[o := pc])| == |Holders(owners) - {o}| + if pc.Freeing? then 0 else 1
    ensures |Holders(owners - {o})| == |Holders(owners) - {o}|
    ensures |Holders(owners) - {o}| == |Holders(owners)| - if o in owners && !owners[o].Freeing? then 1 else 0
    ensures o in owners && |Holders(owners) - {o}| == 0 && (forall x :: x in owners && x != o ==> !owners[x].Freeing?) ==>
              owners - {o} == map[] && owners[o := pc] == map[o := pc]
  {
    hide Holders;
    HoldersSet(owners, o, pc);
    SizeWith(Holders(owners), o);
    if o in owners && |Holders(owners) - {o}| == 0 && (forall x :: x in owners && x != o ==> !owners[x].Freeing?) {
      OnlyHolder(owners, o);
    }
  }

  lemma SomeHolder(s: State)
    requires s.life.refcount == |Holders(s.owners)| == 0
    ensures forall o :: o in s.owners ==> s.owners[o].Freeing?
  {
    assert forall o :: o in s.owners && !s.owners[o].Freeing? ==> o in Holders(s.owners);
  }

  lemma SeeKeeps(masked: bool, s: State, step: Step)
    requires Inv(masked, s) && Enabled(masked, s, step) && (step.See? || step.Unsee?)
    ensures Inv(masked, Apply(s, step))
  {
    var pc := if step.See? then SawDone else Holding;
    HoldersWith(s.owners, step.owner, pc);
    assert s.owners[step.owner := pc] != map[];
  }

  lemma RetainKeeps(masked: bool, s: State, o: nat, other: nat)
    requires Inv(masked, s) && Enabled(masked, s, Retain(o, other))
    ensures Inv(masked, Apply(s, Retain(o, other)))
  {
    hide Holders;
    HoldersWith(s.owners, other, Holding);
    var owners := s.owners[other := Holding];
    assert other in owners && o in s.owners;
    assert forall x :: x in owners ==> x == other || (x in s.owners && owners[x] == s.owners[x]);
  }

  lemma ReleaseKeeps(masked: bool, s: State, o: nat)
    requires Inv(masked, s) && Enabled(masked, s, Release(o))
    ensures Inv(masked, Apply(s, Release(o)))
  {
    HoldersWith(s.owners, o, Freeing);
    var left := s.owners - {o};
    assert forall x :: x in left <==> x in s.owners && x != o;
    if left == map[] { assert Holders(left) == {}; }
  }

  lemma FreeKeeps(masked: bool, s: State, o: nat)
    requires Inv(masked, s) && Enabled(masked, s, Free(o))
    ensures Inv(masked, Apply(s, Free(o)))
  {
    HoldersWith(s.owners, o, Freeing);
    assert s.owners - {o} == map[];
  }

  lemma ThreadKeeps(masked: bool, s: State, step: Step)
    requires Inv(masked, s) && Enabled(masked, s, step)
    requires step.Prepare? || step.Open? || step.OpenReturns? || step.Clean? || step.Lock? || step.Leave? || step.Cancelation?
    ensures Inv(masked, Apply(s, step))
  {
    hide Holders;
    if s.owners == map[] { NoHolders(); }
    if s.life.refcount == 0 { SomeHolder(s); }
  }

  lemma NoHolders()
    ensures Holders(map[]) == {}
  {
  }

  lemma StepKeepsInv(masked: bool, s: State, step: Step)
    requires Inv(masked, s) && Enabled(masked, s, step)
    ensures Inv(masked, Apply(s, step))
  {
    hide Inv, Holders;
    match step
    case See(_) => SeeKeeps(masked, s, step);
    case Unsee(_) => SeeKeeps(masked, s, step);
    case Retain(o, other) => RetainKeeps(masked, s, o, other);
    case Release(o) => ReleaseKeeps(masked, s, o);
    case Free(o) => FreeKeeps(masked, s, o);
    case Use(_) =>
    case _ => ThreadKeeps(masked, s, step);
  }

  lemma {:induction false} ContinueInv(masked: bool, s: State, steps: seq<Step>)
    requires Inv(masked, s) && Continue(masked, s, steps).Some?
    ensures Inv(masked, Continue(masked, s, steps).value)
    decreases |steps|
  {
    hide Inv, Enabled, Apply;
    if steps != [] {
      var before := steps[..|steps| - 1];
      ContinueInv(masked, s, before);
      StepKeepsInv(masked, Continue(masked, s, before).value, steps[|steps| - 1]);
    }
  }

  lemma RunInv(masked: bool, steps: seq<Step>)
    requires Run(masked, steps).Some?
    ensures Inv(masked, Run(masked, steps).value)
  {
    hide Inv;
    InitialInv(masked);
    ContinueInv(masked, INITIAL, steps);
  }

  lemma InitialInv(masked: bool)
    ensures Inv(masked, INITIAL)
  {
    assert Holders(map[0 := Holding]) == {0};
    assert 0 in INITIAL.owners;
  }

  // Whatever cancelation does: the record is freed at most once, the count is that of the owners, and
  // once it is freed nothing happens that touches it: at most the thread leaves without freeing, or is
  // canceled.
  lemma RecordSafe(masked: bool, steps: seq<Step>)
    requires Run(masked, steps).Some?
    ensures var s := Run(masked, steps).value;
            && s.freed <= 1
            && s.life.refcount == |Holders(s.owners)|
            && forall step :: Enabled(masked, s, step) && s.freed > 0 ==>
                 step == Cancelation || (step == Leave && s.thread.Leaving? && s.thread.count != 0)
  {
    RunInv(masked, steps);
  }

  // The thread is canceled only while it exists and nobody owns the record.
  lemma CancelSafe(masked: bool, steps: seq<Step>)
    requires Run(masked, steps).Some? && Run(masked, steps).value.canceling
    ensures Run(masked, steps).value.owners == map[] && Run(masked, steps).value.life.refcount == 0
  {
    RunInv(masked, steps);
    NoHolders();
  }

  // The thread finished, no owner is left, and the record was not freed.
  predicate Leaked(s: State) { s.owners == map[] && (s.thread.Ended? || s.thread.Killed?) && s.freed == 0 }

  lemma {:induction false} FirstStep(s: State, step: Step, more: seq<Step>)
    requires Enabled(false, s, step)
    ensures Continue(false, s, [step] + more) == Continue(false, Apply(s, step), more)
    decreases |more|
  {
    hide Enabled, Apply;
    var all := [step] + more;
    if more == [] {
      assert all[..0] == [];
    } else {
      FirstStep(s, step, more[..|more| - 1]);
      assert all[..|all| - 1] == [step] + more[..|more| - 1];
    }
  }

  // While a cancelation is pending and the open is not done, the thread can come to a point where the
  // cancelation ends it without any cleanup.
  lemma {:induction false} CancelationLeaks(s: State, n: nat) returns (more: seq<Step>)
    requires s.canceling && s.owners == map[] && !s.life.done && s.freed == 0
    requires s.thread in [Created, Cleaning(false), Returned, Opening] && n == Ahead(s.thread)
    ensures Continue(false, s, more).Some? && Leaked(Continue(false, s, more).value)
    decreases n
  {
    if n == 0 {
      more := [Cancelation];
      FirstStep(s, Cancelation, []);
      assert [Cancelation] + [] == more;
    } else {
      var step := if s.thread == Opening then OpenReturns else Clean;
      more := CancelationLeaks(Apply(s, step), n - 1);
      FirstStep(s, step, more);
      more := [step] + more;
    }
  }

  // How far the thread is from such a point.
  function Ahead(t: Thread): nat {
    match t
    case Opening => 2
    case Returned => 1
    case _ => 0
  }

  // Canceled between the handler and `open`: the request takes effect before `open`, and the handler
  // frees the record.
  predicate Handled(s: State) {
    && s.canceling && s.owners == map[] && s.life.refcount == 0
    && match s.thread
       case Prepared => s.freed == 0
       case Cleaning(canceled) => canceled && s.freed == 0
       case Leaving(count, canceled) => canceled && count == 0 && s.freed == 0
       case Ended => s.freed == 1
       case _ => false
  }

  lemma {:induction false} StaysHandled(s: State, more: seq<Step>)
    requires Handled(s) && Continue(false, s, more).Some?
    ensures Handled(Continue(false, s, more).value) && !Leaked(Continue(false, s, more).value)
    decreases |more|
  {
    hide Enabled, Apply;
    if more != [] {
      StaysHandled(s, more[..|more| - 1]);
      HandledStep(Continue(false, s, more[..|more| - 1]).value, more[|more| - 1]);
    }
  }

  lemma HandledStep(s: State, step: Step)
    requires Handled(s) && Enabled(false, s, step)
    ensures Handled(Apply(s, step))
  {
  }

  // Once the open is done no cancelation is ever asked for, so the record is freed in the end.
  lemma DoneNeverLeaks(s: State, more: seq<Step>)
    requires Inv(false, s) && s.life.done && !s.canceling && Continue(false, s, more).Some?
    ensures var t := Continue(false, s, more).value;
            !Leaked(t) && (t.owners == map[] && t.thread.Ended? ==> t.freed == 1) && !t.thread.Killed?
  {
    hide Inv;
    ContinueInv(false, s, more);
    StaysUncanceled(s, more);
    UncanceledIsFreed(Continue(false, s, more).value);
  }

  lemma {:induction false} StaysUncanceled(s: State, more: seq<Step>)
    requires s.life.done && !s.canceling && Continue(false, s, more).Some?
    ensures Continue(false, s, more).value.life.done && !Continue(false, s, more).value.canceling
    decreases |more|
  {
    hide Enabled;
    if more != [] { StaysUncanceled(s, more[..|more| - 1]); }
  }

  lemma UncanceledIsFreed(s: State)
    requires Inv(false, s) && !s.canceling
    ensures !Leaked(s) && !s.thread.Killed? && (s.owners == map[] && s.thread.Ended? ==> s.freed == 1)
  {
  }

  // Whether the record is sure to be freed when its last owner lets go in this state: the open is
  // done, which rktio_pending_open_poll tells, or the thread has its handler and is not in `open` yet.
  predicate SureToFree(s: State) { s.life.done || s.thread.Prepared? }

  // The code as it is: when an owner lets go and no other is left, no way to go on leaks the record
  // if and only if it is sure to be freed.
  lemma LastReleaseFrees(steps: seq<Step>, o: nat)
    requires Run(false, steps).Some? && Has(Run(false, steps).value, o)
    requires Holders(Run(false, steps).value.owners) == {o}
    ensures var s := Run(false, steps).value;
            var t := Apply(s, Release(o));
            (forall more :: Continue(false, t, more).Some? ==> !Leaked(Continue(false, t, more).value)) <==> SureToFree(s)
  {
    hide Continue;
    RunInv(false, steps);
    var s := Run(false, steps).value;
    var t := Apply(s, Release(o));
    StepKeepsInv(false, s, Release(o));
    if s.life.done {
      forall more | Continue(false, t, more).Some? ensures !Leaked(Continue(false, t, more).value) {
        DoneNeverLeaks(t, more);
      }
    } else {
      OnlyOwner(s, o);
      if s.thread.Prepared? {
        forall more | Continue(false, t, more).Some? ensures !Leaked(Continue(false, t, more).value) {
          StaysHandled(t, more);
        }
      } else {
        var more := CancelationLeaks(t, Ahead(t.thread));
        assert Continue(false, t, more).Some? && Leaked(Continue(false, t, more).value);
      }
    }
  }

  lemma OnlyOwner(s: State, o: nat)
    requires Inv(false, s) && Has(s, o) && Holders(s.owners) == {o} && !s.life.done
    ensures s.life.refcount == 1 && s.owners - {o} == map[] && s.freed == 0
    ensures s.thread in [Created, Cleaning(false), Returned, Opening, Prepared]
  {
    forall x | x in s.owners ensures x == o { assert x in Holders(s.owners); }
  }

  lemma {:induction false} ContinueSplit(s: State, steps: seq<Step>, i: nat)
    requires i <= |steps| && Continue(false, s, steps).Some?
    ensures Continue(false, s, steps[..i]).Some?
    ensures Continue(false, s, steps) == Continue(false, Continue(false, s, steps[..i]).value, steps[i..])
    decreases |steps|
  {
    hide Enabled, Apply;
    if i == |steps| {
      assert steps[..i] == steps && steps[i..] == [];
    } else {
      var n := |steps| - 1;
      ContinueSplit(s, steps[..n], i);
      assert steps[..n][..i] == steps[..i] && steps[i..][..n - i] == steps[..n][i..];
    }
  }

  // In particular a run leaks only if its last owner let go when the record was not sure to be freed.
  lemma LeakNeedsCancelation(steps: seq<Step>)
    requires Run(false, steps).Some? && Leaked(Run(false, steps).value)
    ensures exists i, o :: 0 <= i < |steps| && steps[i] == Release(o) && LeaksAt(steps, i, o)
  {
    hide Inv, Continue;
    RunInv(false, steps);
    if !Run(false, steps).value.canceling { UncanceledIsFreed(Run(false, steps).value); }
    SomebodyCanceled(steps);
    var i, o :| 0 <= i < |steps| && steps[i] == Release(o) && CancelsAt(steps, i, o);
    if Run(false, steps[..i]).value.thread.Prepared? { PreparedFrees(steps, i, o); }
    assert LeaksAt(steps, i, o);
  }

  lemma PreparedFrees(steps: seq<Step>, i: nat, o: nat)
    requires Run(false, steps).Some? && i < |steps| && steps[i] == Release(o) && CancelsAt(steps, i, o)
    requires Run(false, steps[..i]).value.thread.Prepared?
    ensures !Leaked(Run(false, steps).value)
  {
    hide Inv;
    var before := Run(false, steps[..i]).value;
    ContinueSplit(INITIAL, steps, i + 1);
    assert steps[..i + 1][..i] == steps[..i];
    RunInv(false, steps[..i]);
    OnlyOwner(before, o);
    StaysHandled(Apply(before, Release(o)), steps[i + 1..]);
  }

  lemma {:induction false} SomebodyCanceled(steps: seq<Step>)
    requires Run(false, steps).Some? && Run(false, steps).value.canceling
    ensures exists i, o :: 0 <= i < |steps| && steps[i] == Release(o) && CancelsAt(steps, i, o)
    decreases |steps|
  {
    hide Inv;
    var n := |steps| - 1;
    var before := Run(false, steps[..n]).value;
    RunInv(false, steps[..n]);
    if before.canceling {
      SomebodyCanceled(steps[..n]);
      var i, o :| 0 <= i < n && steps[..n][i] == Release(o) && CancelsAt(steps[..n], i, o);
      assert steps[..n][..i] == steps[..i];
      assert steps[i] == Release(o) && CancelsAt(steps, i, o);
    } else {
      Canceling(before, steps[n]);
      assert CancelsAt(steps, n, steps[n].owner);
    }
  }

  lemma Canceling(s: State, step: Step)
    requires Inv(false, s) && Enabled(false, s, step) && !s.canceling && Apply(s, step).canceling
    ensures step.Release? && !s.life.done && Holders(s.owners) == {step.owner}
  {
    OneLeft(Holders(s.owners), step.owner);
  }

  lemma OneLeft(s: set<nat>, x: nat)
    requires |s| == 1 && x in s
    ensures s == {x}
  {
    assert |s - {x}| == 0;
  }

  // Step i is the release that asks for the cancelation.
  ghost predicate CancelsAt(steps: seq<Step>, i: nat, o: nat)
    requires i < |steps|
  {
    var before := Run(false, steps[..i]);
    before.Some? && !before.value.life.done && Holders(before.value.owners) == {o}
  }

  ghost predicate LeaksAt(steps: seq<Step>, i: nat, o: nat)
    requires i < |steps|
  {
    CancelsAt(steps, i, o) && !SureToFree(Run(false, steps[..i]).value)
  }

  // Had the calls turned cancelation off outside `open`, as their comment says, the record would be
  // freed in the end in every run; as they do not, it can leak.
  lemma FreedInTheEnd(masked: bool)
    ensures (forall steps :: Run(masked, steps).Some? ==> !Leaked(Run(masked, steps).value)) <==> masked
  {
    if masked {
      forall steps | Run(masked, steps).Some? ensures !Leaked(Run(masked, steps).value) {
        RunInv(masked, steps);
      }
    } else {
      LeakingRun();
      assert exists steps :: Run(false, steps).Some? && Leaked(Run(false, steps).value);
    }
  }

  // The last owner lets go when `open` has returned: the cancelation can take effect in the
  // cleanup itself, which then never gets to free the record.
  lemma LeakingRun()
    ensures var steps := [Prepare, Open, OpenReturns, Clean, Release(0), Cancelation];
            Run(false, steps).Some? && Leaked(Run(false, steps).value)
  {
    hide Run;
    var s := INITIAL.(thread := Cleaning(false));
    var runs := [[], [Prepare], [Prepare, Open], [Prepare, Open, OpenReturns], [Prepare, Open, OpenReturns, Clean],
                 [Prepare, Open, OpenReturns, Clean, Release(0)], [Prepare, Open, OpenReturns, Clean, Release(0), Cancelation]];
    NextState(runs[0], INITIAL, Prepare, INITIAL.(thread := Prepared), runs[1]);
    NextState(runs[1], INITIAL.(thread := Prepared), Open, INITIAL.(thread := Opening), runs[2]);
    NextState(runs[2], INITIAL.(thread := Opening), OpenReturns, INITIAL.(thread := Returned), runs[3]);
    NextState(runs[3], INITIAL.(thread := Returned), Clean, s, runs[4]);
    var t := s.(life := Life(0, false), owners := s.owners - {0}, canceling := true);
    NextState(runs[4], s, Release(0), t, runs[5]);
    NextState(runs[5], t, Cancelation, t.(thread := Killed), runs[6]);
    assert map[0 := Holding] - {0} == map[];
  }

  lemma NextState(steps: seq<Step>, s: State, step: Step, t: State, more: seq<Step>)
    requires Run(false, steps) == Some(s) || (steps == [] && s == INITIAL)
    requires Enabled(false, s, step) && t == Apply(s, step) && more == steps + [step]
    ensures Run(false, more) == Some(t)
  {
    RunOn(false, steps, step);
  }

  // A cancelation that finds the handler installed is as good as the open being done: the handler
  // frees the record.
  lemma HandlerFrees(steps: seq<Step>)
    requires Run(false, steps).Some? && Run(false, steps).value.canceling
    requires Run(false, steps).value.thread in [Prepared, Opening, Returned]
    ensures var t := Continue(false, Run(false, steps).value, [Cancelation, Lock, Leave]);
            t.Some? && t.value.thread == Ended && t.value.freed == 1
  {
    RunInv(false, steps);
    var s := Run(false, steps).value;
    NoHolders();
    var t := Apply(s, Cancelation);
    var u := Apply(t, Lock);
    assert t.thread == Cleaning(true) && u.thread == Leaving(0, true);
    FirstStep(s, Cancelation, [Lock, Leave]);
    FirstStep(t, Lock, [Leave]);
    FirstStep(u, Leave, []);
    assert [Cancelation, Lock, Leave] == [Cancelation] + [Lock, Leave];
    assert [Lock, Leave] == [Lock] + [Leave] && [Leave] == [Leave] + [];
  }

  // The next step of the thread towards being done, and how many there are.
  function Onward(t: Thread): Step {
    match t
    case Created => Prepare
    case Prepared => Open
    case Opening => OpenReturns
    case Returned => Clean
    case _ => Lock
  }

  function Far(t: Thread): nat {
    match t
    case Created => 5
    case Prepared => 4
    case Opening => 3
    case Returned => 2
    case Cleaning(_) => 1
    case _ => 0
  }

  lemma OnwardIsCloser(masked: bool, s: State, o: nat)
    requires Inv(masked, s) && o in s.owners && s.owners[o] == Holding && !s.life.done
    ensures Enabled(masked, s, Onward(s.thread)) && Far(Apply(s, Onward(s.thread)).thread) < Far(s.thread)
    ensures Apply(s, Onward(s.thread)).owners == s.owners
  {
    hide Holders;
  }

  // Whatever the others do, an owner that waits can always come to see that the open is done, in at
  // most five steps of the thread and one of its own.
  lemma {:induction false} CanSee(masked: bool, steps: seq<Step>, o: nat) returns (more: seq<Step>)
    requires Run(masked, steps).Some? && o in Run(masked, steps).value.owners && Run(masked, steps).value.owners[o] == Holding
    ensures |more| <= 1 + Far(Run(masked, steps).value.thread) <= 6
    ensures Run(masked, steps + more).Some?
    ensures var t := Run(masked, steps + more).value;
            t.life.done && o in t.owners && t.owners[o] == SawDone
    decreases Far(Run(masked, steps).value.thread)
  {
    hide Inv, Run;
    RunInv(masked, steps);
    var s := Run(masked, steps).value;
    if s.life.done {
      more := [See(o)];
      RunOn(masked, steps, See(o));
    } else {
      OnwardIsCloser(masked, s, o);
      RunOn(masked, steps, Onward(s.thread));
      more := CanSee(masked, steps + [Onward(s.thread)], o);
      assert steps + [Onward(s.thread)] + more == steps + ([Onward(s.thread)] + more);
      more := [Onward(s.thread)] + more;
    }
  }

  lemma RunOn(masked: bool, steps: seq<Step>, step: Step)
    requires Run(masked, steps).Some? && Enabled(masked, Run(masked, steps).value, step)
    ensures Run(masked, steps + [step]) == Some(Apply(Run(masked, steps).value, step))
  {
    hide Enabled, Apply;
    assert (steps + [step])[..|steps|] == steps;
  }

  // The thread is never stuck: unless it is over it can go on, by itself or canceled, and no owner can
  // keep it from doing so.
  lemma ThreadGoesOn(masked: bool, steps: seq<Step>)
    requires Run(masked, steps).Some?
    ensures var s := Run(masked, steps).value;
            s.thread.Ended? || s.thread.Killed? ||
            exists step :: step in [Prepare, Open, OpenReturns, Clean, Lock, Leave, Cancelation] && Enabled(masked, s, step)
  {
    var s := Run(masked, steps).value;
    var order := [Prepare, Open, OpenReturns, Clean, Lock, Leave, Cancelation];
    assert order[0] == Prepare && order[1] == Open && order[2] == OpenReturns && order[3] == Clean && order[4] == Lock && order[5] == Leave;
    assert order[6] == Cancelation;
    match s.thread
    case Created => assert Enabled(masked, s, order[0]);
    case Prepared => assert Enabled(masked, s, if s.canceling then order[6] else order[1]);
    case Opening => assert Enabled(masked, s, order[2]);
    case Returned => assert Enabled(masked, s, order[3]);
    case Cleaning(_) => assert Enabled(masked, s, order[4]);
    case Leaving(_, _) => assert Enabled(masked, s, order[5]);
    case _ =>
  }
}
