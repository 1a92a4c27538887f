// Sleeping in a background thread (rktio_sleep.c): the hand-over between the client and the worker
// through two semaphores, a signal pipe and shared fields.
module BackgroundSleep {
  import opened Options

  // The worker: not there, waiting for sleeping_sema, having taken it, in poll, past it, about to
  // write its byte, about to post done_sema, and finished.
  datatype Worker = NoThread | Idle | Woken | Polling | Flushing | Waking | Posting | Exited

  // The client: between sleeps, in rktio_start_sleep before and after it writes the fields, between
  // start and end, in rktio_end_sleep waiting for done_sema and flushing, and in rktio_stop_background.
  datatype Client = Outside | Setting | Handing | Sleeping | Awaiting | Clearing | Joining | Over

  // `fields` numbers the last values written to nsecs, fds, lt and woke_fd, `using` is what the worker
  // took them to be when it began to sleep.
  datatype State = State(
    present: bool, worker: Worker, client: Client,
    sleepingSema: nat, doneSema: nat, stop: bool, pipe: nat,
    fields: nat, using: nat, starts: nat, wakes: nat, ends: nat)

  const INITIAL := State(false, NoThread, Outside, 0, 0, false, 0, 0, 0, 0, 0, 0)

  datatype Step =
    | Allocate
    | Begin
    | SetFields
    | PostSleeping
    | SignalEnd(full: bool)
    | WaitDone
    | Flush
    | Stop
    | Join
    | Signal(full: bool)
    | Take
    | Look(noSleep: bool)
    | PollReturns(other: bool)
    | WorkerFlush
    | Wake
    | PostDone

  // A byte for the signal pipe, unless it is full.
  function Put(pipe: nat, full: bool): nat { if full then pipe else pipe + 1 }

  // rktio_flush_signals_received reads at most ten bytes.
  function Drained(pipe: nat): nat { if pipe <= 10 then 0 else pipe - 10 }

  predicate Enabled(s: State, step: Step) {
    match step
    case Allocate => s.client.Outside? && !s.present
    case Begin => s.client.Outside? && s.present
    case SetFields => s.client.Setting?
    case PostSleeping => s.client.Handing?
    case SignalEnd(full) => s.client.Sleeping? && (full ==> s.pipe > 0)
    case WaitDone => s.client.Awaiting? && s.doneSema > 0
    case Flush => s.client.Clearing?
    case Stop => s.client.Outside? && s.present
    case Join => s.client.Joining? && s.worker.Exited?
    case Signal(full) => full ==> s.pipe > 0
    case Take => s.worker.Idle? && s.sleepingSema > 0
    case Look(_) => s.worker.Woken?
    // poll returns for the pipe, or for a descriptor, a timeout or an interrupt.
    case PollReturns(other) => s.worker.Polling? && (other || s.pipe > 0)
    case WorkerFlush => s.worker.Flushing?
    case Wake => s.worker.Waking?
    case PostDone => s.worker.Posting?
  }

  // `created` is whether pthread_create succeeds.
  function Apply(created: bool, s: State, step: Step): State
    requires Enabled(s, step)
  {
    match step
    case Allocate =>
      if created then s.(present := true, worker := Idle, client := Setting) else s.(present := true)
    case Begin => s.(client := Setting)
    case SetFields => s.(client := Handing, fields := s.fields + 1)
    case PostSleeping => s.(client := Sleeping, sleepingSema := s.sleepingSema + 1, starts := s.starts + 1)
    case SignalEnd(full) => s.(client := Awaiting, pipe := Put(s.pipe, full))
    case WaitDone => s.(client := Clearing, doneSema := s.doneSema - 1)
    case Flush => s.(client := Outside, pipe := Drained(s.pipe), ends := s.ends + 1)
    case Stop => s.(client := Joining, stop := true, sleepingSema := s.sleepingSema + 1)
    case Join => s.(client := Over)
    case Signal(full) => s.(pipe := Put(s.pipe, full))
    case Take => s.(worker := Woken, sleepingSema := s.sleepingSema - 1)
    case Look(noSleep) =>
      if s.stop then s.(worker := Exited) else s.(worker := if noSleep then Waking else Polling, using := s.fields)
    case PollReturns(_) => s.(worker := Flushing)
    case WorkerFlush => s.(worker := Waking, pipe := Drained(s.pipe))
    case Wake => s.(worker := Posting, wakes := s.wakes + 1)
    case PostDone => s.(worker := Idle, doneSema := s.doneSema + 1)
  }

  function Continue(created: bool, s: State, steps: seq<Step>): Option<State> {
    if steps == [] then Some(s)
    else
      var before := Continue(created, s, steps[..|steps| - 1]);
      var step := steps[|steps| - 1];
      if before.Some? && Enabled(before.value, step) then Some(Apply(created, before.value, step)) else None
  }

  function Run(created: bool, steps: seq<Step>): Option<State> { Continue(created, INITIAL, steps) }

  // ---- the invariant when the thread was created

  // The worker has a sleep to do.
  predicate Busy(w: Worker) { w.Woken? || w.Polling? || w.Flushing? || w.Waking? || w.Posting? }

  // It may read the fields.
  predicate Reads(w: Worker) { w.Polling? || w.Flushing? || w.Waking? }

  // A sleep is between start and the end of its wait.
  predicate Between(c: Client) { c.Sleeping? || c.Awaiting? }

  function Num(b: bool): nat { if b then 1 else 0 }

  // The sleep has not ended yet, and the worker has not yet written its byte for it.
  predicate Unsaid(s: State) { Between(s.client) && s.doneSema == 0 && !s.worker.Posting? }

  predicate Inv(s: State) {
    && (s.present <==> !s.worker.NoThread?)
    && (!s.present ==> s.client.Outside?)
    // one token goes around: handed over, being worked on, or handed back
    && (if Between(s.client) then s.sleepingSema + Num(Busy(s.worker)) + s.doneSema == 1 && !s.worker.Exited?
        else if s.client.Joining? || s.client.Over? then
          s.doneSema == 0 && s.sleepingSema + Num(!s.worker.Idle?) == 1 && (s.worker.Idle? || s.worker.Woken? || s.worker.Exited?)
        else s.sleepingSema == 0 && s.doneSema == 0 && (s.worker.Idle? || s.worker.NoThread?))
    && (s.stop <==> s.client.Joining? || s.client.Over?)
    && (s.client.Over? ==> s.worker.Exited?)
    // a waiting client has made sure that a poll yet to return does
    && (s.client.Awaiting? && (s.sleepingSema == 1 || s.worker.Woken? || s.worker.Polling?) ==> s.pipe > 0)
    && (Reads(s.worker) ==> s.using == s.fields)
    && s.starts == s.wakes + Num(Unsaid(s))
    && s.starts == s.ends + Num(Between(s.client) || s.client.Clearing?)
    && s.fields == s.starts + Num(s.client.Handing?)
  }

  lemma StepKeepsInv(s: State, step: Step)
    requires Inv(s) && Enabled(s, step)
    ensures Inv(Apply(true, s, step))
  {
  }

  lemma {:induction false} RunInv(steps: seq<Step>)
    requires Run(true, steps).Some?
    ensures Inv(Run(true, steps).value)
    decreases |steps|
  {
    hide Apply, Enabled;
    if steps != [] {
      RunInv(steps[..|steps| - 1]);
      StepKeepsInv(Run(true, steps[..|steps| - 1]).value, steps[|steps| - 1]);
    }
  }

  // Between sleeps every start has been ended, and has had exactly one byte written for it.
  lemma OneWakePerStart(steps: seq<Step>)
    requires Run(true, steps).Some?
    ensures var s := Run(true, steps).value;
            && (s.client.Outside? ==> s.wakes == s.starts == s.ends)
            && s.starts - 1 <= s.wakes <= s.starts
  {
    hide Continue, Apply;
    RunInv(steps);
  }

  // The client writes the fields only when the worker neither reads them nor will before the next
  // hand-over, and the worker sleeps with the fields of the sleep it was handed, which were written
  // for that sleep.
  lemma FieldsExclusive(steps: seq<Step>)
    requires Run(true, steps).Some?
    ensures var s := Run(true, steps).value;
            && (Enabled(s, SetFields) ==> s.worker.Idle? && s.sleepingSema == 0)
            && (Reads(s.worker) ==> s.using == s.fields == s.starts && Between(s.client))
  {
    hide Continue, Apply;
    RunInv(steps);
  }

  // ---- waiting ends

  // The next step of the worker that needs nobody else: in poll, the one for the signal pipe.
  function NextOfWorker(s: State): Option<Step> {
    match s.worker
    case Idle => if s.sleepingSema > 0 then Some(Take) else None
    case Woken => Some(Look(false))
    case Polling => if s.pipe > 0 then Some(PollReturns(false)) else None
    case Flushing => Some(WorkerFlush)
    case Waking => Some(Wake)
    case Posting => Some(PostDone)
    case _ => None
  }

  // How many worker steps are left until a client that waits can go on.
  function Rank(s: State): nat {
    if s.doneSema > 0 then 0
    else match s.worker
      case Idle => 6
      case Woken => 5
      case Polling => 4
      case Flushing => 3
      case Waking => 2
      case Posting => 1
      case _ => 0
  }

  predicate IsWorkers(step: Step) {
    step.Take? || step.Look? || step.PollReturns? || step.WorkerFlush? || step.Wake? || step.PostDone?
  }

  // The client is stuck: it waits, and neither it nor the worker can take a step by itself.
  predicate Stuck(s: State) { s.client.Awaiting? && s.doneSema == 0 && NextOfWorker(s).None? }

  // No run gets stuck, in particular with the worker in poll on an empty pipe, exactly when the thread
  // could be created. (When it could not, the next start reports success all the same.)
  lemma NeverStuck(created: bool)
    ensures (forall steps :: Run(created, steps).Some? ==> !Stuck(Run(created, steps).value)) <==> created
  {
    if created {
      forall steps | Run(created, steps).Some? ensures !Stuck(Run(created, steps).value) {
        RunInv(steps);
      }
    } else {
      StuckRun();
    }
  }

  // While the client waits, every worker step brings it closer, and no other step takes it away.
  lemma WaitEnds(steps: seq<Step>, step: Step)
    requires Run(true, steps).Some? && Run(true, steps).value.client.Awaiting? && Enabled(Run(true, steps).value, step)
    ensures var s := Run(true, steps).value;
            var s' := Apply(true, s, step);
            && Rank(s) <= 6 && (Rank(s) == 0 <==> Enabled(s, WaitDone))
            && (Rank(s) > 0 ==> NextOfWorker(s).Some? && Enabled(s, NextOfWorker(s).value))
            && (s.worker.Polling? ==> s.pipe > 0)
            && (IsWorkers(step) ==> Rank(s') < Rank(s))
            && (!IsWorkers(step) && step != WaitDone ==> Rank(s') == Rank(s) && s'.client.Awaiting?)
  {
    RunInv(steps);
  }

  // Stopping between sleeps ends as well: the worker is on its way out.
  lemma JoinEnds(steps: seq<Step>)
    requires Run(true, steps).Some? && Run(true, steps).value.client.Joining?
    ensures var s := Run(true, steps).value;
            s.worker.Exited? || (s.worker.Idle? && Enabled(s, Take)) || (s.worker.Woken? && Apply(true, s, Look(false)).worker.Exited?)
  {
    RunInv(steps);
  }

  // ---- sleeps follow each other

  // A byte is dropped only when the pipe holds one already, so it holds one afterwards; reading it
  // takes ten bytes, or what there is.
  lemma PipeIs(s: State, full: bool)
    ensures Enabled(s, Signal(full)) <==> (s.pipe == 0 ==> !full)
    ensures Enabled(s, SignalEnd(full)) <==> s.client == Sleeping && (s.pipe == 0 ==> !full)
    ensures Enabled(s, PollReturns(false)) <==> s.worker == Polling && s.pipe != 0
    ensures Enabled(s, Signal(full)) ==> 0 < Put(s.pipe, full) <= s.pipe + 1
    ensures Put(s.pipe, full) == s.pipe <==> full
    ensures Drained(s.pipe) + (if s.pipe < 10 then s.pipe else 10) == s.pipe
  {
  }

  lemma {:induction false} Chain(created: bool, s: State, path: seq<Step>, states: seq<State>)
    requires |states| == |path| + 1 && states[0] == s
    requires forall i :: 0 <= i < |path| ==> Enabled(states[i], path[i]) && states[i + 1] == Apply(created, states[i], path[i])
    ensures Continue(created, s, path) == Some(states[|path|])
    decreases |path|
  {
    hide Enabled, Apply;
    if path != [] { Chain(created, s, path[..|path| - 1], states[..|path|]); }
  }

  lemma {:induction false} ContinueAppend(created: bool, s: State, a: seq<Step>, b: seq<Step>)
    requires Continue(created, s, a).Some?
    ensures Continue(created, s, a + b) == Continue(created, Continue(created, s, a).value, b)
    decreases |b|
  {
    hide Enabled, Apply;
    if b == [] {
      assert a + b == a;
    } else {
      ContinueAppend(created, s, a, b[..|b| - 1]);
      assert (a + b)[..|a + b| - 1] == a + b[..|b| - 1];
    }
  }

  // One sleep, and its end by the client.
  function Starting(): seq<Step> { [Begin, SetFields, PostSleeping, Take, Look(false)] }

  function Hearing(): seq<Step> { [SignalEnd(false), PollReturns(false), WorkerFlush] }

  function Telling(): seq<Step> { [Wake, PostDone] }

  function Ending(): seq<Step> { Hearing() + Telling() + [WaitDone, Flush] }

  function Started(s: State): State {
    s.(client := Sleeping, worker := Polling, fields := s.fields + 1, using := s.fields + 1, starts := s.starts + 1)
  }

  lemma StartsPolling(s: State)
    requires s.client == Outside && s.present && s.worker == Idle && s.sleepingSema == 0 && !s.stop
    ensures Continue(true, s, Starting()) == Some(Started(s))
  {
    var s1 := s.(client := Setting);
    var s2 := s1.(client := Handing, fields := s.fields + 1);
    var s3 := s2.(client := Sleeping, sleepingSema := 1, starts := s.starts + 1);
    var s4 := s3.(worker := Woken, sleepingSema := 0);
    Chain(true, s, Starting(), [s, s1, s2, s3, s4, Started(s)]);
  }

  lemma HearsEnd(s: State)
    requires s.client == Sleeping && s.worker == Polling
    ensures Continue(true, s, Hearing()) == Some(s.(client := Awaiting, worker := Waking, pipe := Drained(s.pipe + 1)))
  {
    hide Drained;
    var s1 := s.(client := Awaiting, pipe := s.pipe + 1);
    var s2 := s1.(worker := Flushing);
    Chain(true, s, Hearing(), [s, s1, s2, s2.(worker := Waking, pipe := Drained(s.pipe + 1))]);
  }

  lemma TellsEnd(s: State)
    requires s.worker == Waking && s.doneSema == 0
    ensures Continue(true, s, Telling()) == Some(s.(worker := Idle, wakes := s.wakes + 1, doneSema := 1))
  {
    var s1 := s.(worker := Posting, wakes := s.wakes + 1);
    Chain(true, s, Telling(), [s, s1, s1.(worker := Idle, doneSema := 1)]);
  }

  lemma GoesOn(s: State)
    requires s.client == Awaiting && s.doneSema == 1
    ensures Continue(true, s, [WaitDone, Flush]) ==
              Some(s.(client := Outside, doneSema := 0, pipe := Drained(s.pipe), ends := s.ends + 1))
  {
    hide Drained;
    var s1 := s.(client := Clearing, doneSema := 0);
    Chain(true, s, [WaitDone, Flush], [s, s1, s1.(client := Outside, pipe := Drained(s.pipe), ends := s.ends + 1)]);
  }

  lemma EndsPolling(s: State)
    requires s.client == Sleeping && s.worker == Polling && s.doneSema == 0
    ensures Continue(true, s, Ending()) == Some(s.(client := Outside, worker := Idle, pipe := Drained(Drained(s.pipe + 1)),
                                                   wakes := s.wakes + 1, ends := s.ends + 1))
  {
    hide Drained, Hearing, Telling, Continue;
    HearsEnd(s);
    var t := Continue(true, s, Hearing()).value;
    TellsEnd(t);
    ContinueAppend(true, s, Hearing(), Telling());
    GoesOn(Continue(true, t, Telling()).value);
    ContinueAppend(true, s, Hearing() + Telling(), [WaitDone, Flush]);
  }

  // Between sleeps, after whatever run, a sleep can be started and ended: the worker polls, with fields
  // written for this sleep, until the signal of the end, and says so with one byte.
  lemma SleepsFollow(steps: seq<Step>)
    requires Run(true, steps).Some? && Run(true, steps).value.client == Outside && Run(true, steps).value.present
    ensures var s := Run(true, steps).value;
            var t := Continue(true, s, Starting());
            && t.Some? && t.value.worker == Polling && t.value.client == Sleeping
            && t.value.using == t.value.fields == s.fields + 1
    ensures var s := Run(true, steps).value;
            var t := Continue(true, s, Starting() + Ending());
            && t.Some? && t.value.client == Outside && t.value.worker == Idle && t.value.pipe <= s.pipe
            && t.value.starts == s.starts + 1 && t.value.wakes == s.wakes + 1 && t.value.ends == s.ends + 1
  {
    hide Run, Continue, Starting, Ending;
    RunInv(steps);
    var s := Run(true, steps).value;
    StartsPolling(s);
    EndsPolling(Started(s));
    ContinueAppend(true, s, Starting(), Ending());
  }

  // The first sleep starts the thread, and stopping between sleeps ends it.
  lemma FirstAndLast(steps: seq<Step>, s: State, noSleep: bool)
    requires Run(true, steps) == Some(s) && s.client == Outside
    ensures !s.present ==> Enabled(s, Allocate) && Apply(true, s, Allocate) == s.(present := true, worker := Idle, client := Setting)
    ensures s.present ==>
      var t := Continue(true, s, [Stop, Take, Look(noSleep), Join]);
      t.Some? && t.value.client == Over && t.value.worker == Exited && t.value.wakes == s.wakes
  {
    hide Run;
    RunInv(steps);
    if s.present {
      var s1 := s.(client := Joining, stop := true, sleepingSema := 1);
      var s2 := s1.(worker := Woken, sleepingSema := 0);
      var s3 := s2.(worker := Exited);
      Chain(true, s, [Stop, Take, Look(noSleep), Join], [s, s1, s2, s3, s3.(client := Over)]);
    }
  }

  // ---- when the thread could not be created

  lemma RunMore(created: bool, steps: seq<Step>, step: Step)
    requires Run(created, steps).Some? && Enabled(Run(created, steps).value, step)
    ensures Run(created, steps + [step]) == Some(Apply(created, Run(created, steps).value, step))
  {
    assert (steps + [step])[..|steps|] == steps;
  }

  function StuckSteps(): seq<Step> { [Allocate] + [Begin] + [SetFields] + [PostSleeping] + [SignalEnd(false)] }

  lemma StuckRun()
    ensures Run(false, StuckSteps()).Some? && Stuck(Run(false, StuckSteps()).value)
  {
    RunMore(false, [], Allocate);
    assert [] + [Allocate] == [Allocate];
    RunMore(false, [Allocate], Begin);
    RunMore(false, [Allocate] + [Begin], SetFields);
    RunMore(false, [Allocate] + [Begin] + [SetFields], PostSleeping);
    RunMore(false, [Allocate] + [Begin] + [SetFields] + [PostSleeping], SignalEnd(false));
  }

  // Without a thread, a client that waits waits forever, whatever happens.
  lemma {:induction false} StuckForever(s: State, steps: seq<Step>, created: bool)
    requires s.client.Awaiting? && s.worker.NoThread? && s.doneSema == 0
    ensures Continue(created, s, steps).Some? ==>
              var t := Continue(created, s, steps).value; t.client.Awaiting? && t.worker.NoThread? && t.doneSema == 0
    decreases |steps|
  {
    if steps != [] {
      StuckForever(s, steps[..|steps| - 1], created);
    }
  }
}
