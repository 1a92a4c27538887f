// Every interleaving of clients, children and the SIGCHLD worker of rktio_process.c.
module ChildProtocol {
  import opened Options
  import opened ChildTables

  // ---- a table by process number

  ghost predicate Distinct(rs: seq<Record>) {
    forall i, j :: 0 <= i < j < |rs| ==> rs[i].pid != rs[j].pid
  }

  function Lookup(rs: seq<Record>, pid: nat): Option<Record> {
    var i := Find(rs, pid);
    if i < |rs| then Some(rs[i]) else None
  }

  lemma LookupAt(rs: seq<Record>, i: nat)
    requires Distinct(rs) && i < |rs|
    ensures Find(rs, rs[i].pid) == i && Lookup(rs, rs[i].pid) == Some(rs[i])
  {
  }

  lemma LookupCons(r: Record, rs: seq<Record>, p: nat)
    ensures Lookup([r] + rs, p) == if p == r.pid then Some(r) else Lookup(rs, p)
  {
    assert ([r] + rs)[1..] == rs;
  }

  lemma LookupSet(rs: seq<Record>, i: nat, r: Record, p: nat)
    requires Distinct(rs) && i < |rs| && r.pid == rs[i].pid
    ensures Distinct(rs[i := r])
    ensures Lookup(rs[i := r], p) == if p == r.pid then Some(r) else Lookup(rs, p)
  {
    var k := Find(rs, p);
    if p == r.pid {
      LookupAt(rs[i := r], i);
    } else if k < |rs| {
      assert rs[i := r][k] == rs[k];
      LookupAt(rs[i := r], k);
    }
  }

  lemma LookupWithout(rs: seq<Record>, i: nat, p: nat)
    requires Distinct(rs) && i < |rs|
    ensures Distinct(Without(rs, i))
    ensures Lookup(Without(rs, i), p) == if p == rs[i].pid then None else Lookup(rs, p)
  {
    var ws := Without(rs, i);
    var m, k := Find(ws, p), Find(rs, p);
    if m < |ws| {
      LookupAt(rs, if m < i then m else m + 1);
    }
    if k < |rs| && k != i {
      var at := if k < i then k else k - 1;
      assert ws[at] == rs[k];
      LookupAt(ws, at);
    }
  }

  // ---- the records that count for a group

  function Counted(r: Record): multiset<Handle> {
    if r.done then multiset{} else GroupOf(r)
  }

  function GroupsOf(rs: seq<Record>): multiset<Handle> {
    if rs == [] then multiset{} else Counted(rs[0]) + GroupsOf(rs[1..])
  }

  lemma {:induction false} GroupsSplit(rs: seq<Record>, i: nat)
    requires i < |rs|
    ensures GroupsOf(rs) == Counted(rs[i]) + GroupsOf(Without(rs, i))
    decreases i
  {
    hide Counted;
    var ws := Without(rs, i);
    if i == 0 {
      assert ws == rs[1..];
    } else {
      GroupsSplit(rs[1..], i - 1);
      assert ws[1..] == Without(rs[1..], i - 1) && ws[0] == rs[0];
      Commute(Counted(rs[0]), Counted(rs[i]), GroupsOf(ws[1..]));
    }
  }

  lemma Commute(a: multiset<Handle>, b: multiset<Handle>, c: multiset<Handle>)
    ensures a + (b + c) == b + (a + c)
  {
  }

  lemma GroupsSet(rs: seq<Record>, i: nat, r: Record)
    requires i < |rs|
    ensures GroupsOf(rs) - Counted(rs[i]) + Counted(r) == GroupsOf(rs[i := r])
  {
    GroupsSplit(rs, i);
    GroupsSplit(rs[i := r], i);
    assert Without(rs[i := r], i) == Without(rs, i);
  }

  // Each handle counts once for every undone record of a group child.
  ghost predicate TableOk(t: Table) {
    Distinct(t.children) && Distinct(t.unused) && t.groups == GroupsOf(t.children)
  }

  // ---- what each operation does to a table

  lemma AddStatusEffect(t: Table, pid: nat, status: int)
    requires TableOk(t)
    requires Lookup(t.children, pid).None? || !Lookup(t.children, pid).value.done
    ensures TableOk(AddStatus(t, pid, status)) && AddStatus(t, pid, status).unused == t.unused
    ensures forall p :: Lookup(AddStatus(t, pid, status).children, p) ==
              if p != pid then Lookup(t.children, p)
              else if Lookup(t.children, pid).None? then Some(Record(pid, status, true, false, None))
              else Some(Lookup(t.children, pid).value.(status := status, done := true))
  {
    hide Find;
    var cs, i := t.children, Find(t.children, pid);
    if i == |cs| {
      ConsEffect(Record(pid, status, true, false, None), cs);
      NoneAdded(t.groups);
    } else {
      SetEffect(cs, i, cs[i].(status := status, done := true));
      NoneAdded(t.groups - GroupOf(cs[i]));
    }
  }

  lemma NoneAdded(m: multiset<Handle>)
    ensures m + multiset{} == m && multiset{} + m == m
  {
  }

  lemma ConsEffect(r: Record, rs: seq<Record>)
    requires Distinct(rs) && Lookup(rs, r.pid).None?
    ensures Distinct([r] + rs) && GroupsOf([r] + rs) == Counted(r) + GroupsOf(rs)
    ensures forall p :: Lookup([r] + rs, p) == if p == r.pid then Some(r) else Lookup(rs, p)
  {
    hide Counted;
    forall p ensures Lookup([r] + rs, p) == if p == r.pid then Some(r) else Lookup(rs, p) { LookupCons(r, rs, p); }
    assert ([r] + rs)[1..] == rs;
  }

  lemma SetEffect(rs: seq<Record>, i: nat, r: Record)
    requires Distinct(rs) && i < |rs| && r.pid == rs[i].pid
    ensures Distinct(rs[i := r]) && GroupsOf(rs[i := r]) == GroupsOf(rs) - Counted(rs[i]) + Counted(r)
    ensures forall p :: Lookup(rs[i := r], p) == if p == r.pid then Some(r) else Lookup(rs, p)
  {
    hide Counted, Distinct, Lookup;
    forall p ensures Lookup(rs[i := r], p) == if p == r.pid then Some(r) else Lookup(rs, p) { LookupSet(rs, i, r, p); }
    LookupSet(rs, i, r, 0);
    GroupsSet(rs, i, r);
  }

  lemma WithoutEffect(rs: seq<Record>, i: nat)
    requires Distinct(rs) && i < |rs|
    ensures Distinct(Without(rs, i)) && GroupsOf(Without(rs, i)) == GroupsOf(rs) - Counted(rs[i])
    ensures forall p :: Lookup(Without(rs, i), p) == if p == rs[i].pid then None else Lookup(rs, p)
  {
    hide Counted, Distinct, Lookup;
    forall p ensures Lookup(Without(rs, i), p) == if p == rs[i].pid then None else Lookup(rs, p) { LookupWithout(rs, i, p); }
    LookupWithout(rs, i, 0);
    GroupsSplit(rs, i);
    assert Counted(rs[i]) + GroupsOf(Without(rs, i)) - Counted(rs[i]) == GroupsOf(Without(rs, i));
  }

  lemma ClaimEffect(t: Table, pid: nat)
    requires TableOk(t) && Claimable(t, pid).Some?
    ensures TableOk(ClaimStatus(t, pid)) && ClaimStatus(t, pid).unused == t.unused
    ensures forall p :: Lookup(ClaimStatus(t, pid).children, p) == if p == pid then None else Lookup(t.children, p)
  {
    hide Find;
    var cs, i := t.children, Find(t.children, pid);
    WithoutEffect(cs, i);
    assert t.groups - multiset{} == t.groups;
  }

  lemma RegisterEffect(t: Table, pid: nat, inGroup: bool, handle: Handle)
    requires TableOk(t)
    ensures TableOk(RegisterChild(t, pid, inGroup, handle)) && RegisterChild(t, pid, inGroup, handle).unused == t.unused
    ensures forall p :: Lookup(RegisterChild(t, pid, inGroup, handle).children, p) ==
              if p == pid && Lookup(t.children, p).None? then Some(Record(pid, 0, false, inGroup, Some(handle)))
              else Lookup(t.children, p)
  {
    hide Find;
    if Find(t.children, pid) == |t.children| {
      ConsEffect(Record(pid, 0, false, inGroup, Some(handle)), t.children);
      assert t.groups + multiset{} == multiset{} + t.groups;
    }
  }

  lemma ForgetEffect(t: Table, pid: nat)
    requires TableOk(t) && Lookup(t.children, pid).Some? && Lookup(t.unused, pid).None?
    ensures TableOk(ForgetChild(t, pid))
    ensures forall p :: Lookup(ForgetChild(t, pid).children, p) == if p == pid then None else Lookup(t.children, p)
    ensures forall p :: Lookup(ForgetChild(t, pid).unused, p).Some? <==>
              (p == pid && !Lookup(t.children, pid).value.done) || Lookup(t.unused, p).Some?
    ensures Lookup(t.children, pid).value.done ==> ForgetChild(t, pid).unused == t.unused
  {
    hide Find;
    var cs, i := t.children, Find(t.children, pid);
    WithoutEffect(cs, i);
    if cs[i].done {
      assert t.groups - multiset{} == t.groups;
    } else {
      ConsEffect(cs[i].(handle := None), t.unused);
    }
  }

  lemma DropUnusedEffect(t: Table, k: nat)
    requires TableOk(t) && k < |t.unused|
    ensures TableOk(t.(unused := Without(t.unused, k)))
    ensures forall p :: Lookup(Without(t.unused, k), p) == if p == t.unused[k].pid then None else Lookup(t.unused, p)
  {
    forall p ensures Lookup(Without(t.unused, k), p) == if p == t.unused[k].pid then None else Lookup(t.unused, p) {
      LookupWithout(t.unused, k, p);
    }
    LookupWithout(t.unused, k, 0);
  }

  // ---- the protocol

  // A child as the kernel sees it; a reaped one is gone, but its status is remembered here.
  datatype Os = Running | Zombie(w: WaitStatus) | Reaped(w: WaitStatus)

  // Where its client is: between fork and registration, holding the process object (`early` when
  // the record was already there at registration), between its own waitpid and adding the status,
  // or done with the child.
  datatype Client =
    | Forked(inGroup: bool, handle: Handle)
    | Owned(inGroup: bool, handle: Handle, early: bool)
    | Polling(inGroup: bool, handle: Handle)
    | Claimed(status: int)
    | Forgotten

  datatype Proc = Proc(os: Os, client: Client)

  // The worker holds the wait lock unless it is asleep; k is its place in the unused list, and
  // Adding is between its waitpid and adding the status.
  datatype Worker = Asleep | Scanning(k: nat) | Adding(pid: nat, w: WaitStatus)

  // pending is pending_children; starting counts clients between centralized_starting_child and
  // fork, ending those that have yet to call centralized_ended_child.
  datatype State = State(table: Table, procs: map<nat, Proc>, worker: Worker, pending: int, starting: nat, ending: nat)

  datatype Step =
    | Start
    | ForkFails
    | Fork(pid: nat, inGroup: bool, handle: Handle)
    | Exit(pid: nat, w: WaitStatus)
    | Register(pid: nat)
    | PollWait(pid: nat)
    | PollAdd(pid: nat)
    | Claim(pid: nat)
    | Forget(pid: nat)
    | Kill(pid: nat)
    | End
    | WorkerWakes
    | WorkerChecksUnused
    | WorkerChecksOwn(pid: nat)
    | WorkerAdds
    | WorkerSleeps

  const INITIAL := State(Table([], [], multiset{}), map[], Asleep, 0, 0, 0)

  predicate IsClient(s: State, pid: nat) { pid in s.procs && s.procs[pid].client.Owned? }

  // The kernel may give a number out when no child has it, and (the assumption) no client still
  // waits for the status of the last one that did.
  predicate Free(s: State, pid: nat) {
    pid in s.procs ==> s.procs[pid].os.Reaped? && (s.procs[pid].client.Claimed? || s.procs[pid].client.Forgotten?)
  }

  // When a step can happen. Start, ForkFails, Forget, Kill and End take the wait lock.
  predicate Enabled(s: State, step: Step) {
    match step
    case Start => s.worker.Asleep?
    case ForkFails => s.starting > 0 && s.worker.Asleep?
    case Fork(pid, _, _) => s.starting > 0 && Free(s, pid)
    case Exit(pid, _) => pid in s.procs && s.procs[pid].os.Running?
    case Register(pid) => pid in s.procs && s.procs[pid].client.Forked?
    case PollWait(pid) => IsClient(s, pid) && s.procs[pid].os.Zombie?
    case PollAdd(pid) => pid in s.procs && s.procs[pid].client.Polling? && s.procs[pid].os.Reaped?
    case Claim(pid) => IsClient(s, pid) && Claimable(s.table, pid).Some?
    case Forget(pid) => IsClient(s, pid) && s.worker.Asleep?
    case Kill(pid) => IsClient(s, pid) && s.worker.Asleep? && Claimable(s.table, pid).None?
    case End => s.ending > 0 && s.worker.Asleep?
    case WorkerWakes => s.worker.Asleep?
    case WorkerChecksUnused => s.worker.Scanning? && s.worker.k < |s.table.unused|
    case WorkerChecksOwn(pid) =>
      && s.worker.Scanning? && s.worker.k == |s.table.unused| && s.pending != 0
      && pid in s.procs && s.procs[pid].os.Zombie?
    case WorkerAdds => s.worker.Adding?
    case WorkerSleeps => s.worker.Scanning? && s.worker.k == |s.table.unused|
  }

  function SetOs(s: State, pid: nat, os: Os): State
    requires pid in s.procs
  {
    s.(procs := s.procs[pid := s.procs[pid].(os := os)])
  }

  function SetClient(s: State, pid: nat, client: Client): State
    requires pid in s.procs
  {
    s.(procs := s.procs[pid := s.procs[pid].(client := client)])
  }

  function Apply(s: State, step: Step): State
    requires Enabled(s, step)
  {
    match step
    case Start => s.(pending := s.pending + 1, starting := s.starting + 1)
    case ForkFails => s.(pending := s.pending - 1, starting := s.starting - 1)
    case Fork(pid, inGroup, handle) =>
      s.(procs := s.procs[pid := Proc(Running, Forked(inGroup, handle))], starting := s.starting - 1)
    case Exit(pid, w) => SetOs(s, pid, Zombie(w))
    case Register(pid) =>
      var c := s.procs[pid].client;
      SetClient(s, pid, Owned(c.inGroup, c.handle, Lookup(s.table.children, pid).Some?))
        .(table := RegisterChild(s.table, pid, c.inGroup, c.handle))
    case PollWait(pid) =>
      var c := s.procs[pid].client;
      SetClient(SetOs(s, pid, Reaped(s.procs[pid].os.w)), pid, Polling(c.inGroup, c.handle))
    case PollAdd(pid) =>
      var c := s.procs[pid].client;
      SetClient(s, pid, Owned(c.inGroup, c.handle, false))
        .(table := AddStatus(s.table, pid, ExtractChildStatus(s.procs[pid].os.w)))
    case Claim(pid) =>
      SetClient(s, pid, Claimed(Claimable(s.table, pid).value)).(table := ClaimStatus(s.table, pid), ending := s.ending + 1)
    case Forget(pid) =>
      SetClient(s, pid, Forgotten).(table := ForgetChild(s.table, pid), ending := s.ending + 1)
    case Kill(pid) => s
    case End => s.(pending := s.pending - 1, ending := s.ending - 1)
    case WorkerWakes => s.(worker := Scanning(0))
    case WorkerChecksUnused =>
      var k := s.worker.k;
      var pid := s.table.unused[k].pid;
      if pid in s.procs && s.procs[pid].os.Zombie? then
        SetOs(s, pid, Reaped(s.procs[pid].os.w)).(table := s.table.(unused := Without(s.table.unused, k)))
      else s.(worker := Scanning(k + 1))
    case WorkerChecksOwn(pid) =>
      var w := s.procs[pid].os.w;
      var s' := SetOs(s, pid, Reaped(w));
      var i := Find(s.table.unused, pid);
      if i < |s.table.unused| then
        s'.(table := s.table.(unused := Without(s.table.unused, i)), worker := Scanning(|s.table.unused| - 1))
      else s'.(worker := Adding(pid, w))
    case WorkerAdds =>
      s.(table := AddStatus(s.table, s.worker.pid, ExtractChildStatus(s.worker.w)), worker := Scanning(|s.table.unused|))
    case WorkerSleeps => s.(worker := Asleep)
  }

  // The state after a run, if every step was possible.
  function Run(steps: seq<Step>): Option<State> {
    if steps == [] then Some(INITIAL)
    else
      var before := Run(steps[..|steps| - 1]);
      var step := steps[|steps| - 1];
      if before.Some? && Enabled(before.value, step) then Some(Apply(before.value, step)) else None
  }

  // ---- the invariant

  // The worker has reaped this child and not yet added its status.
  predicate InFlight(s: State, pid: nat) { s.worker.Adding? && s.worker.pid == pid }

  // The one record a child has, if any.
  function Expected(s: State, pid: nat): Option<Record> {
    if pid !in s.procs then None
    else
      var os := s.procs[pid].os;
      var reported := os.Reaped? && !InFlight(s, pid);
      match s.procs[pid].client
      case Forked(_, _) =>
        if reported then Some(Record(pid, ExtractChildStatus(os.w), true, false, None)) else None
      case Owned(g, h, early) =>
        if reported then Some(Record(pid, ExtractChildStatus(os.w), true, if early then false else g, if early then None else Some(h)))
        else Some(Record(pid, 0, false, g, Some(h)))
      case Polling(g, h) => Some(Record(pid, 0, false, g, Some(h)))
      case _ => None
  }

  predicate IsUnused(s: State, pid: nat) {
    pid in s.procs && s.procs[pid].client.Forgotten? && !s.procs[pid].os.Reaped?
  }

  predicate ProcOk(s: State, pid: nat)
    requires pid in s.procs
  {
    var os := s.procs[pid].os;
    match s.procs[pid].client
    case Forked(_, _) => true
    case Owned(_, _, early) => early ==> os.Reaped? && !InFlight(s, pid)
    case Polling(_, _) => os.Reaped? && !InFlight(s, pid)
    case Claimed(status) => os.Reaped? && status == ExtractChildStatus(os.w)
    case Forgotten => true
  }

  predicate WorkerOk(s: State) {
    match s.worker
    case Asleep => true
    case Scanning(k) => k <= |s.table.unused|
    case Adding(pid, w) =>
      pid in s.procs && s.procs[pid].os == Reaped(w) && (s.procs[pid].client.Forked? || s.procs[pid].client.Owned?)
  }

  // Children whose clients have neither claimed a status nor forgotten them.
  predicate IsLive(p: Proc) { p.client.Forked? || p.client.Owned? || p.client.Polling? }

  function Live(procs: map<nat, Proc>): set<nat> { set p | p in procs && IsLive(procs[p]) }

  ghost predicate Records(s: State) {
    && TableOk(s.table)
    && (forall p :: Lookup(s.table.children, p) == Expected(s, p))
    && (forall p :: Lookup(s.table.unused, p).Some? <==> IsUnused(s, p))
  }

  ghost predicate Kept(s: State) {
    Records(s) && (forall p :: p in s.procs ==> ProcOk(s, p)) && WorkerOk(s)
  }

  ghost predicate Inv(s: State) {
    && Kept(s)
    && s.pending == s.starting + s.ending + |Live(s.procs)|
  }

  lemma LiveSet(procs: map<nat, Proc>, pid: nat, proc: Proc)
    ensures |Live(procs[pid := proc])| ==
            |Live(procs)| + (if IsLive(proc) then 1 else 0) - (if pid in procs && IsLive(procs[pid]) then 1 else 0)
  {
    var before, after := Live(procs), Live(procs[pid := proc]);
    assert after - {pid} == before - {pid};
    SizeWithout(before, pid);
    SizeWithout(after, pid);
  }

  lemma SizeWithout(s: set<nat>, x: nat)
    ensures |s - {x}| == |s| - if x in s then 1 else 0
  {
    if x !in s { assert s - {x} == s; }
  }

  lemma InitialInv()
    ensures Inv(INITIAL)
  {
    assert Live(map[]) == {};
  }

  lemma RegisterKeeps(s: State, pid: nat)
    requires Kept(s) && Enabled(s, Register(pid))
    ensures Kept(Apply(s, Register(pid)))
  {
    hide RegisterChild, TableOk, Live, Lookup, ExtractChildStatus;
    RegisterEffect(s.table, pid, s.procs[pid].client.inGroup, s.procs[pid].client.handle);
  }

  lemma PollAddKeeps(s: State, pid: nat)
    requires Kept(s) && Enabled(s, PollAdd(pid))
    ensures Kept(Apply(s, PollAdd(pid)))
  {
    hide AddStatus, TableOk, Live, ExtractChildStatus;
    AddStatusEffect(s.table, pid, ExtractChildStatus(s.procs[pid].os.w));
  }

  lemma ClaimKeeps(s: State, pid: nat)
    requires Kept(s) && Enabled(s, Claim(pid))
    ensures Kept(Apply(s, Claim(pid)))
  {
    hide ClaimStatus, TableOk, Live, ExtractChildStatus;
    ClaimEffect(s.table, pid);
    assert Lookup(s.table.children, pid) == Expected(s, pid) && ProcOk(s, pid);
  }

  lemma ForgetKeeps(s: State, pid: nat)
    requires Kept(s) && Enabled(s, Forget(pid))
    ensures Kept(Apply(s, Forget(pid)))
  {
    hide ForgetChild, TableOk, Live, ExtractChildStatus;
    ForgetEffect(s.table, pid);
  }

  // The worker's place in the unused list is at a child that is not reaped.
  lemma UnusedAt(s: State, i: nat)
    requires Records(s) && i < |s.table.unused|
    ensures IsUnused(s, s.table.unused[i].pid)
  {
    hide Expected;
    LookupAt(s.table.unused, i);
  }

  lemma CheckUnusedKeeps(s: State)
    requires Kept(s) && Enabled(s, WorkerChecksUnused)
    ensures Kept(Apply(s, WorkerChecksUnused))
  {
    hide TableOk, Live, ExtractChildStatus, Lookup;
    UnusedAt(s, s.worker.k);
    DropUnusedEffect(s.table, s.worker.k);
  }

  lemma CheckOwnKeeps(s: State, pid: nat)
    requires Kept(s) && Enabled(s, WorkerChecksOwn(pid))
    ensures Kept(Apply(s, WorkerChecksOwn(pid)))
  {
    hide TableOk, Live, ExtractChildStatus;
    assert ProcOk(s, pid) && (Lookup(s.table.unused, pid).Some? <==> IsUnused(s, pid));
    var i := Find(s.table.unused, pid);
    if i < |s.table.unused| { DropUnusedEffect(s.table, i); }
  }

  lemma WorkerAddKeeps(s: State)
    requires Kept(s) && Enabled(s, WorkerAdds)
    ensures Kept(Apply(s, WorkerAdds))
  {
    hide AddStatus, TableOk, Live, ExtractChildStatus, Lookup;
    AddStatusEffect(s.table, s.worker.pid, ExtractChildStatus(s.worker.w));
  }

  lemma ForkKeeps(s: State, pid: nat, inGroup: bool, handle: Handle)
    requires Kept(s) && Enabled(s, Fork(pid, inGroup, handle))
    ensures Kept(Apply(s, Fork(pid, inGroup, handle)))
  {
    hide TableOk, Live, ExtractChildStatus, Lookup;
  }

  // Steps of the kernel and of the client that leave the table alone.
  lemma ExitKeeps(s: State, pid: nat, w: WaitStatus)
    requires Kept(s) && Enabled(s, Exit(pid, w))
    ensures Kept(Apply(s, Exit(pid, w)))
  {
    hide TableOk, Live, ExtractChildStatus, Lookup;
  }

  lemma PollWaitKeeps(s: State, pid: nat)
    requires Kept(s) && Enabled(s, PollWait(pid))
    ensures Kept(Apply(s, PollWait(pid)))
  {
    hide TableOk, Live, ExtractChildStatus, Lookup;
  }

  lemma OthersKeep(s: State, step: Step)
    requires Kept(s) && Enabled(s, step)
    requires step.Start? || step.ForkFails? || step.Kill? || step.End? || step.WorkerWakes? || step.WorkerSleeps?
    ensures Kept(Apply(s, step))
  {
    hide TableOk, Live, ExtractChildStatus, Lookup, Claimable;
  }

  lemma StepKeeps(s: State, step: Step)
    requires Kept(s) && Enabled(s, step)
    ensures Kept(Apply(s, step))
  {
    hide Kept, Enabled, Apply;
    match step
    case Fork(pid, inGroup, handle) => ForkKeeps(s, pid, inGroup, handle);
    case Exit(pid, w) => ExitKeeps(s, pid, w);
    case Register(pid) => RegisterKeeps(s, pid);
    case PollWait(pid) => PollWaitKeeps(s, pid);
    case PollAdd(pid) => PollAddKeeps(s, pid);
    case Claim(pid) => ClaimKeeps(s, pid);
    case Forget(pid) => ForgetKeeps(s, pid);
    case WorkerChecksUnused => CheckUnusedKeeps(s);
    case WorkerChecksOwn(pid) => CheckOwnKeeps(s, pid);
    case WorkerAdds => WorkerAddKeeps(s);
    case _ => OthersKeep(s, step);
  }

  lemma StepKeepsPending(s: State, step: Step)
    requires Inv(s) && Enabled(s, step)
    ensures var s' := Apply(s, step); s'.pending == s'.starting + s'.ending + |Live(s'.procs)|
  {
    hide Kept, Live, TableOk, AddStatus, RegisterChild, ClaimStatus, ForgetChild, ExtractChildStatus, Claimable, Lookup, Find;
    var s' := Apply(s, step);
    match step {
      case Fork(pid, _, _) => LiveSet(s.procs, pid, s'.procs[pid]);
      case Exit(pid, _) => LiveSet(s.procs, pid, s'.procs[pid]);
      case Register(pid) => LiveSet(s.procs, pid, s'.procs[pid]);
      case PollWait(pid) =>
        var r := s.procs[pid].(os := Reaped(s.procs[pid].os.w));
        LiveSet(s.procs, pid, r);
        LiveSet(s.procs[pid := r], pid, s'.procs[pid]);
      case PollAdd(pid) => LiveSet(s.procs, pid, s'.procs[pid]);
      case Claim(pid) => LiveSet(s.procs, pid, s'.procs[pid]);
      case Forget(pid) => LiveSet(s.procs, pid, s'.procs[pid]);
      case WorkerChecksUnused =>
        var pid := s.table.unused[s.worker.k].pid;
        if pid in s.procs { LiveSet(s.procs, pid, s'.procs[pid]); }
      case WorkerChecksOwn(pid) => LiveSet(s.procs, pid, s'.procs[pid]);
      case _ =>
    }
  }

  lemma StepKeepsInv(s: State, step: Step)
    requires Inv(s) && Enabled(s, step)
    ensures Inv(Apply(s, step))
  {
    StepKeeps(s, step);
    StepKeepsPending(s, step);
  }

  // ---- what holds in every state a run can reach

  lemma {:induction false} RunInv(steps: seq<Step>)
    requires Run(steps).Some?
    ensures Inv(Run(steps).value)
    decreases |steps|
  {
    hide Inv, Enabled, Apply;
    if steps == [] {
      InitialInv();
    } else {
      RunInv(steps[..|steps| - 1]);
      StepKeepsInv(Run(steps[..|steps| - 1]).value, steps[|steps| - 1]);
    }
  }

  // Somebody has waited for the child and not yet recorded what came of it.
  predicate Unrecorded(s: State, pid: nat)
    requires pid in s.procs
  {
    InFlight(s, pid) || s.procs[pid].client.Polling?
  }

  // While a client may want the status of a child: it can be claimed, and is what the kernel said,
  // exactly from when the child has been waited for and that is recorded. The child has one record,
  // except that one still to be registered has none before then.
  lemma StatusReported(steps: seq<Step>, pid: nat)
    requires Run(steps).Some? && pid in Run(steps).value.procs && IsLive(Run(steps).value.procs[pid])
    ensures var s := Run(steps).value;
            var os := s.procs[pid].os;
            var recorded := os.Reaped? && !Unrecorded(s, pid);
            && Claimable(s.table, pid) == (if recorded then Some(ExtractChildStatus(os.w)) else None)
            && (!s.procs[pid].client.Forked? || recorded <==> OneRecord(s.table.children, pid))
    ensures var s := Run(steps).value;
            var os := s.procs[pid].os;
            os.Reaped? && !Unrecorded(s, pid) ==>
              match os.w
              case Exited(code) => Claimable(s.table, pid) == Some(code)
              case Signaled(signal) => Claimable(s.table, pid) == Some(signal + 128)
              case Stopped => Claimable(s.table, pid) == Some(-1)
    ensures var cs := Run(steps).value.table.children;
            forall i, j :: 0 <= i < |cs| && 0 <= j < |cs| && cs[i].pid == cs[j].pid ==> i == j
  {
    hide Run, Inv, ExtractChildStatus, OneRecord, Claimable;
    RunInv(steps);
    var s := Run(steps).value;
    RecordedStatus(s, pid);
    if s.procs[pid].os.Reaped? { StatusOf(s.procs[pid].os.w); }
  }

  lemma RecordedStatus(s: State, pid: nat)
    requires Inv(s) && pid in s.procs && IsLive(s.procs[pid])
    ensures var os := s.procs[pid].os;
            var recorded := os.Reaped? && !Unrecorded(s, pid);
            && Claimable(s.table, pid) == (if recorded then Some(ExtractChildStatus(os.w)) else None)
            && (!s.procs[pid].client.Forked? || recorded <==> OneRecord(s.table.children, pid))
    ensures var cs := s.table.children;
            forall i, j :: 0 <= i < |cs| && 0 <= j < |cs| && cs[i].pid == cs[j].pid ==> i == j
  {
    hide ExtractChildStatus, Live;
    var cs := s.table.children;
    assert Lookup(cs, pid) == Expected(s, pid) && ProcOk(s, pid);
    if Lookup(cs, pid).Some? { assert cs[Find(cs, pid)].pid == pid; }
  }

  // What a client has claimed is how its child ended, and 0 is success: exit code 0 and nothing else.
  lemma ClaimedIsHowItEnded(steps: seq<Step>, pid: nat, status: int)
    requires Run(steps).Some? && pid in Run(steps).value.procs && Run(steps).value.procs[pid].client == Claimed(status)
    ensures var os := Run(steps).value.procs[pid].os;
            && os.Reaped?
            && (os.w.Exited? ==> status == os.w.code)
            && (os.w.Signaled? ==> status == os.w.signal + 128)
            && (os.w == Stopped ==> status == -1)
            && (status == 0 <==> os.w == Exited(0))
  {
    hide Run, ExtractChildStatus, Records;
    RunInv(steps);
    var s := Run(steps).value;
    assert ProcOk(s, pid) && s.procs[pid].os.Reaped?;
    StatusOf(s.procs[pid].os.w);
  }

  ghost predicate OneRecord(rs: seq<Record>, pid: nat) {
    exists i :: 0 <= i < |rs| && rs[i].pid == pid && forall j :: 0 <= j < |rs| && rs[j].pid == pid ==> j == i
  }

  // A signal is never sent to the number of a child that has been reaped, which might by then be
  // another process.
  lemma KillSafe(steps: seq<Step>, pid: nat)
    requires Run(steps).Some? && Enabled(Run(steps).value, Kill(pid))
    ensures !Run(steps).value.procs[pid].os.Reaped?
  {
    hide Claimable;
    StatusReported(steps, pid);
  }

  // Every number on the unused list is of an unreaped child, so waiting for it cannot fail, and
  // every forgotten child is reaped or still on the list.
  lemma UnusedUnreaped(steps: seq<Step>)
    requires Run(steps).Some?
    ensures var s := Run(steps).value;
            && (forall i :: 0 <= i < |s.table.unused| ==> IsUnused(s, s.table.unused[i].pid))
            && (forall p :: p in s.procs && s.procs[p].client.Forgotten? ==>
                  s.procs[p].os.Reaped? || exists i :: 0 <= i < |s.table.unused| && s.table.unused[i].pid == p)
  {
    hide Expected, Live, TableOk;
    RunInv(steps);
    var s := Run(steps).value;
    forall i | 0 <= i < |s.table.unused| ensures IsUnused(s, s.table.unused[i].pid) { UnusedAt(s, i); }
    forall p | p in s.procs && s.procs[p].client.Forgotten? && !s.procs[p].os.Reaped?
      ensures exists i :: 0 <= i < |s.table.unused| && s.table.unused[i].pid == p
    {
      assert IsUnused(s, p) && Lookup(s.table.unused, p).Some?;
      assert s.table.unused[Find(s.table.unused, p)].pid == p;
    }
  }

  // A group child whose termination is not recorded yet.
  predicate Awaited(s: State, pid: nat, handle: Handle) {
    && pid in s.procs && (s.procs[pid].client.Owned? || s.procs[pid].client.Polling?)
    && s.procs[pid].client.inGroup && s.procs[pid].client.handle == handle
    && (s.procs[pid].client.Owned? ==> !(s.procs[pid].os.Reaped? && !InFlight(s, pid)))
  }

  predicate CountsFor(r: Record, handle: Handle) { !r.done && r.inGroup && r.handle == Some(handle) }

  function CountedPids(rs: seq<Record>, handle: Handle): (s: set<nat>)
    ensures forall p :: p in s <==> exists i :: 0 <= i < |rs| && rs[i].pid == p && CountsFor(rs[i], handle)
  {
    set i | 0 <= i < |rs| && CountsFor(rs[i], handle) :: rs[i].pid
  }

  lemma {:induction false} CountedSize(rs: seq<Record>, handle: Handle)
    requires Distinct(rs)
    ensures GroupsOf(rs)[handle] == |CountedPids(rs, handle)|
  {
    if rs != [] {
      CountedSize(rs[1..], handle);
      CountedCons(rs, handle);
      var rest := CountedPids(rs[1..], handle);
      assert forall i :: 0 <= i < |rs[1..]| ==> rs[1..][i] == rs[i + 1];
      assert rs[0].pid !in rest;
      assert Counted(rs[0])[handle] == if CountsFor(rs[0], handle) then 1 else 0;
    }
  }

  lemma CountedCons(rs: seq<Record>, handle: Handle)
    requires rs != []
    ensures CountedPids(rs, handle) == CountedPids(rs[1..], handle) + if CountsFor(rs[0], handle) then {rs[0].pid} else {}
  {
    hide CountsFor;
    var all, rest := CountedPids(rs, handle), CountedPids(rs[1..], handle);
    forall p | p in rest ensures p in all {
      var i :| 0 <= i < |rs[1..]| && rs[1..][i].pid == p && CountsFor(rs[1..][i], handle);
      assert rs[i + 1] == rs[1..][i];
    }
    forall p | p in all && !(p == rs[0].pid && CountsFor(rs[0], handle)) ensures p in rest {
      var i :| 0 <= i < |rs| && rs[i].pid == p && CountsFor(rs[i], handle);
      assert rs[1..][i - 1] == rs[i];
    }
  }

  lemma CountedAwaited(s: State, p: nat, handle: Handle)
    requires Records(s)
    ensures p in CountedPids(s.table.children, handle) <==> Awaited(s, p, handle)
    ensures Awaited(s, p, handle) ==> p in s.procs
  {
    hide ExtractChildStatus;
    var cs := s.table.children;
    assert Lookup(cs, p) == Expected(s, p);
    if p in CountedPids(cs, handle) {
      var i :| 0 <= i < |cs| && cs[i].pid == p && CountsFor(cs[i], handle);
      LookupAt(cs, i);
    }
    if Awaited(s, p, handle) {
      var i := Find(cs, p);
      assert cs[i].pid == p && CountsFor(cs[i], handle);
    }
  }

  // Each handle is counted once for every group child of its that is not yet recorded as done.
  lemma GroupCounts(steps: seq<Step>, handle: Handle)
    requires Run(steps).Some?
    ensures var s := Run(steps).value;
            s.table.groups[handle] == |set p | p in s.procs && Awaited(s, p, handle)|
  {
    hide Run, Live, ExtractChildStatus, Expected, Awaited;
    RunInv(steps);
    var s := Run(steps).value;
    var cs := s.table.children;
    CountedSize(cs, handle);
    forall p ensures p in CountedPids(cs, handle) <==> Awaited(s, p, handle) { CountedAwaited(s, p, handle); }
    forall p ensures p in CountedPids(cs, handle) ==> p in s.procs { CountedAwaited(s, p, handle); }
    assert CountedPids(cs, handle) == set p | p in s.procs && Awaited(s, p, handle);
  }

  // While a client may still want a child's status, the worker does wait for its children.
  lemma PendingWhileLive(steps: seq<Step>, pid: nat)
    requires Run(steps).Some? && pid in Run(steps).value.procs && IsLive(Run(steps).value.procs[pid])
    ensures Run(steps).value.pending > 0
  {
    RunInv(steps);
    var live := Live(Run(steps).value.procs);
    assert pid in live;
    SizeWithout(live, pid);
  }

  // ... so when it has been through the unused list, it can take any terminated child of theirs.
  lemma OwnTaken(steps: seq<Step>, pid: nat)
    requires Run(steps).Some? && pid in Run(steps).value.procs && IsLive(Run(steps).value.procs[pid])
    requires Run(steps).value.procs[pid].os.Zombie?
    requires Run(steps).value.worker == Scanning(|Run(steps).value.table.unused|)
    ensures Enabled(Run(steps).value, WorkerChecksOwn(pid))
  {
    hide Run;
    PendingWhileLive(steps, pid);
  }

  lemma {:induction false} PrefixRuns(steps: seq<Step>, n: nat)
    requires Run(steps).Some? && n <= |steps|
    ensures Run(steps[..n]).Some?
    ensures n < |steps| ==> Enabled(Run(steps[..n]).value, steps[n])
    ensures n < |steps| ==> Run(steps[..n + 1]) == Some(Apply(Run(steps[..n]).value, steps[n]))
    decreases |steps| - n
  {
    hide Enabled, Apply;
    if n == |steps| {
      assert steps[..n] == steps;
    } else {
      PrefixRuns(steps, n + 1);
      assert steps[..n + 1][..n] == steps[..n];
    }
  }

  predicate ForgottenZombie(s: State, pid: nat) {
    pid in s.procs && s.procs[pid].client.Forgotten? && s.procs[pid].os.Zombie?
  }

  predicate IsReaped(s: State, pid: nat) { pid in s.procs && s.procs[pid].os.Reaped? }

  // The worker has yet to come to such a child in the unused list.
  ghost predicate Ahead(s: State, pid: nat) {
    ForgottenZombie(s, pid) && s.worker.Scanning? && exists i :: s.worker.k <= i < |s.table.unused| && s.table.unused[i].pid == pid
  }

  lemma AheadAtWaking(s: State, pid: nat)
    requires Records(s) && ForgottenZombie(s, pid) && Enabled(s, WorkerWakes)
    ensures Ahead(Apply(s, WorkerWakes), pid)
  {
    hide TableOk, Expected;
    assert IsUnused(s, pid) && Lookup(s.table.unused, pid).Some?;
    assert s.table.unused[Find(s.table.unused, pid)].pid == pid;
  }

  lemma StillAhead(s: State, step: Step, pid: nat)
    requires Ahead(s, pid) && Enabled(s, step)
    ensures step != WorkerSleeps
    ensures Ahead(Apply(s, step), pid) || IsReaped(Apply(s, step), pid)
  {
    hide AddStatus, ClaimStatus, RegisterChild, ForgetChild, ExtractChildStatus, Claimable;
    var us, k := s.table.unused, s.worker.k;
    var i :| k <= i < |us| && us[i].pid == pid;
    var s' := Apply(s, step);
    if step == WorkerChecksUnused {
      if i > k && s'.table.unused != us {
        assert s'.table.unused[i - 1] == us[i];
      }
    } else {
      SameUnused(s, step);
      assert s'.table.unused[i].pid == pid;
    }
  }

  // Who is not the worker adds to the unused list only while it sleeps.
  lemma SameUnused(s: State, step: Step)
    requires Enabled(s, step) && s.worker.Scanning? && s.worker.k < |s.table.unused| && step != WorkerChecksUnused
    ensures Apply(s, step).table.unused == s.table.unused
  {
    hide ExtractChildStatus, Claimable, Find;
  }

  lemma {:induction false} TurnSoFar(steps: seq<Step>, i: nat, n: nat, pid: nat)
    requires Run(steps).Some? && i < n <= |steps| && steps[i] == WorkerWakes
    requires Run(steps[..i]).Some? && ForgottenZombie(Run(steps[..i]).value, pid)
    ensures Run(steps[..n]).Some?
    ensures Ahead(Run(steps[..n]).value, pid)
         || exists k :: i < k <= n && Run(steps[..k]).Some? && IsReaped(Run(steps[..k]).value, pid)
    decreases n
  {
    hide Run, Inv, Enabled, Apply, Ahead, IsReaped, ForgottenZombie;
    PrefixRuns(steps, n - 1);
    var s := Run(steps[..n - 1]).value;
    if n - 1 > i {
      TurnSoFar(steps, i, n - 1, pid);
      if Ahead(s, pid) { StillAhead(s, steps[n - 1], pid); }
    } else {
      RunInv(steps[..i]);
      KeptRecords(s);
      AheadAtWaking(s, pid);
    }
  }

  lemma KeptRecords(s: State)
    requires Inv(s)
    ensures Records(s)
  {
  }

  // A child forgotten by its client that has terminated when the worker wakes is reaped before the
  // worker sleeps again.
  lemma TurnReapsForgotten(steps: seq<Step>, i: nat, j: nat, pid: nat)
    requires Run(steps).Some? && i < j < |steps| && steps[i] == WorkerWakes && steps[j] == WorkerSleeps
    requires Run(steps[..i]).Some? && ForgottenZombie(Run(steps[..i]).value, pid)
    ensures exists k :: i < k <= j && Run(steps[..k]).Some? && IsReaped(Run(steps[..k]).value, pid)
  {
    hide Run, Enabled, Apply, Ahead, IsReaped, ForgottenZombie;
    PrefixRuns(steps, j);
    TurnSoFar(steps, i, j, pid);
    var s := Run(steps[..j]).value;
    if Ahead(s, pid) { StillAhead(s, WorkerSleeps, pid); }
  }

  lemma RunThen(steps: seq<Step>, step: Step)
    requires Run(steps).Some? && Enabled(Run(steps).value, step)
    ensures Run(steps + [step]) == Some(Apply(Run(steps).value, step))
  {
    hide Enabled, Apply;
    assert (steps + [step])[..|steps + [step]| - 1] == steps;
  }

  // What is to be done next for the client of a child that has terminated, and how much there is.
  function Next(s: State, pid: nat): Step
    requires pid in s.procs
  {
    if InFlight(s, pid) then WorkerAdds
    else match s.procs[pid].client
      case Forked(_, _) => Register(pid)
      case Polling(_, _) => PollAdd(pid)
      case _ => if s.procs[pid].os.Zombie? then PollWait(pid) else Claim(pid)
  }

  function Distance(s: State, pid: nat): nat
    requires pid in s.procs
  {
    if !IsLive(s.procs[pid]) then 0
    else 1 + (if InFlight(s, pid) then 1 else 0) + (if s.procs[pid].os.Zombie? then 2 else 0)
           + (if s.procs[pid].client.Owned? then 0 else 1)
  }

  lemma NextIsCloser(s: State, pid: nat)
    requires Inv(s) && pid in s.procs && IsLive(s.procs[pid]) && !s.procs[pid].os.Running?
    ensures Enabled(s, Next(s, pid))
    ensures var s' := Apply(s, Next(s, pid));
            && pid in s'.procs && !s'.procs[pid].os.Running? && s'.procs[pid].os.w == s.procs[pid].os.w
            && (IsLive(s'.procs[pid]) || s'.procs[pid].client.Claimed?)
            && Distance(s', pid) < Distance(s, pid)
  {
    hide AddStatus, RegisterChild, ClaimStatus, Lookup, ExtractChildStatus, Find, Live, Claimable;
    RecordedStatus(s, pid);
    assert ProcOk(s, pid);
  }

  // Whatever has happened, a client that has neither claimed nor forgotten its terminated child can
  // still get its status, in at most five steps of its own and the worker's.
  lemma {:induction false} CanClaim(steps: seq<Step>, pid: nat) returns (more: seq<Step>)
    requires Run(steps).Some? && pid in Run(steps).value.procs && !Run(steps).value.procs[pid].os.Running?
    requires IsLive(Run(steps).value.procs[pid]) || Run(steps).value.procs[pid].client.Claimed?
    ensures |more| <= Distance(Run(steps).value, pid) <= 5
    ensures Run(steps + more).Some? && pid in Run(steps + more).value.procs
    ensures var p := Run(steps + more).value.procs[pid];
            && p.os.Reaped? && p.os.w == Run(steps).value.procs[pid].os.w
            && match p.os.w
               case Exited(code) => p.client == Claimed(code)
               case Signaled(signal) => p.client == Claimed(signal + 128)
               case Stopped => p.client == Claimed(-1)
    decreases Distance(Run(steps).value, pid)
  {
    hide Run, Inv, Enabled, Apply, Next, Distance;
    var s := Run(steps).value;
    AtMostFive(steps, pid);
    if IsLive(s.procs[pid]) {
      RunInv(steps);
      NextIsCloser(s, pid);
      RunThen(steps, Next(s, pid));
      more := CanClaim(steps + [Next(s, pid)], pid);
      assert steps + [Next(s, pid)] + more == steps + ([Next(s, pid)] + more);
      more := [Next(s, pid)] + more;
    } else {
      more := [];
      assert steps + [] == steps;
      ClaimedIsHowItEnded(steps, pid, s.procs[pid].client.status);
    }
  }

  lemma AtMostFive(steps: seq<Step>, pid: nat)
    requires Run(steps).Some? && pid in Run(steps).value.procs
    ensures Distance(Run(steps).value, pid) <= 5
  {
    hide Run;
  }

  // Nobody else is ever stuck either: a client that has started can fork, with any number that is
  // free, or give up; one that is done can end; the worker can go on or sleep.
  lemma OthersGoOn(s: State, pid: nat, inGroup: bool, handle: Handle)
    requires WorkerOk(s)
    ensures s.starting > 0 && s.worker.Asleep? ==> Enabled(s, ForkFails)
    ensures s.starting > 0 && pid !in s.procs ==> Enabled(s, Fork(pid, inGroup, handle))
    ensures s.starting > 0 && pid in s.procs && s.procs[pid].os.Reaped? && !IsLive(s.procs[pid]) ==> Enabled(s, Fork(pid, inGroup, handle))
    ensures s.ending > 0 && s.worker.Asleep? ==> Enabled(s, End)
    ensures !s.worker.Asleep? ==> Enabled(s, WorkerChecksUnused) || Enabled(s, WorkerSleeps) || Enabled(s, WorkerAdds)
  {
  }

  predicate IsClaimed(s: State, pid: nat) { pid in s.procs && s.procs[pid].client.Claimed? }

  lemma ClaimClaims(s: State, pid: nat)
    requires Enabled(s, Claim(pid))
    ensures IsClaimed(Apply(s, Claim(pid)), pid)
  {
    hide Find, ClaimStatus;
  }

  lemma KeepsClaimed(s: State, step: Step, pid: nat)
    requires Enabled(s, step) && IsClaimed(s, pid)
    requires !(step.Fork? && step.pid == pid)
    ensures IsClaimed(Apply(s, step), pid)
  {
    hide Find, AddStatus, RegisterChild, ClaimStatus, ForgetChild, ExtractChildStatus, Claimable;
  }

  lemma NotClaimable(s: State, pid: nat)
    requires IsClaimed(s, pid)
    ensures !Enabled(s, Claim(pid))
  {
  }

  // Until its number is given out again, a child that was claimed stays claimed.
  lemma {:induction false} StaysClaimed(steps: seq<Step>, i: nat, n: nat, pid: nat)
    requires Run(steps).Some? && i < n <= |steps| && steps[i] == Claim(pid)
    requires forall k :: i < k < n ==> !(steps[k].Fork? && steps[k].pid == pid)
    ensures Run(steps[..n]).Some? && IsClaimed(Run(steps[..n]).value, pid)
    decreases n
  {
    hide Run, Enabled, Apply, IsClaimed;
    PrefixRuns(steps, n - 1);
    var s := Run(steps[..n - 1]).value;
    if n - 1 > i {
      StaysClaimed(steps, i, n - 1, pid);
      KeepsClaimed(s, steps[n - 1], pid);
    } else {
      ClaimClaims(s, pid);
    }
  }

  // A child's status is claimed at most once: between two claims its number was given out anew.
  lemma ClaimedOnce(steps: seq<Step>, i: nat, j: nat, pid: nat)
    requires Run(steps).Some? && i < j < |steps| && steps[i] == Claim(pid) && steps[j] == Claim(pid)
    ensures exists k :: i < k < j && steps[k].Fork? && steps[k].pid == pid
  {
    hide Run, Enabled, Apply, IsClaimed;
    PrefixRuns(steps, j);
    if forall k :: i < k < j ==> !(steps[k].Fork? && steps[k].pid == pid) {
      StaysClaimed(steps, i, j, pid);
      NotClaimable(Run(steps[..j]).value, pid);
    }
  }
}
