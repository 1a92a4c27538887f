// The worker that waits for children in rktio_process.c, against a kernel in which children may
// terminate at any moment.
module ChildWorkers {
  import opened Options
  import opened ChildTables

  // The children nobody has waited for yet, those of them that have terminated, how each child ends
  // when it does, and the process group of this process.
  class Kernel {
    var unreaped: set<nat>
    var zombies: set<nat>
    const fate: nat -> WaitStatus
    const ownGroup: set<nat>

    ghost predicate Valid()
      reads this
    {
      zombies <= unreaped
    }

    // Any children may terminate.
    method Elapse()
      requires Valid()
      modifies this`zombies
      ensures Valid() && old(zombies) <= zombies
    {
      var more: set<nat> := *;
      zombies := zombies + more * unreaped;
    }

    // waitpid for one child of this process, without waiting.
    method WaitFor(pid: nat) returns (reaped: bool)
      requires Valid() && pid in unreaped
      modifies this
      ensures Valid() && old(zombies) - {pid} <= zombies && (pid in old(zombies) ==> reaped)
      ensures unreaped == if reaped then old(unreaped) - {pid} else old(unreaped)
    {
      Elapse();
      reaped := pid in zombies;
      if reaped { unreaped, zombies := unreaped - {pid}, zombies - {pid}; }
    }

    // waitpid for any child of the own process group, without waiting.
    method WaitForOwn() returns (pid: Option<nat>)
      requires Valid()
      modifies this
      ensures Valid() && (pid.None? ==> unreaped == old(unreaped) && old(zombies) <= zombies && zombies !! ownGroup)
      ensures pid.Some? ==> pid.value in old(unreaped) && pid.value in ownGroup
      ensures pid.Some? ==> unreaped == old(unreaped) - {pid.value} && old(zombies) - {pid.value} <= zombies
    {
      Elapse();
      var own := zombies * ownGroup;
      if own == {} {
        pid := None;
        assert forall x :: x in zombies && x in ownGroup ==> x in own;
      } else {
        var p :| p in own;
        pid := Some(p);
        unreaped, zombies := unreaped - {p}, zombies - {p};
      }
    }
  }

  // What the worker does with the children it has waited for.
  function ReapAll(t: Table, ps: seq<nat>, fate: nat -> WaitStatus): Table {
    if ps == [] then t
    else
      var last := ps[|ps| - 1];
      ReapedOwn(ReapAll(t, ps[..|ps| - 1], fate), last, ExtractChildStatus(fate(last)))
  }

  lemma ReapMore(t: Table, ps: seq<nat>, fate: nat -> WaitStatus, p: nat)
    ensures ReapAll(t, ps + [p], fate) == ReapedOwn(ReapAll(t, ps, fate), p, ExtractChildStatus(fate(p)))
  {
    assert (ps + [p])[..|ps|] == ps;
  }

  function Pids(rs: seq<Record>): (s: set<nat>)
    ensures forall p :: p in s <==> exists i :: 0 <= i < |rs| && rs[i].pid == p
  {
    set i | 0 <= i < |rs| :: rs[i].pid
  }

  // The unused list has each child once, and none that has been waited for.
  ghost predicate Watched(unused: seq<Record>, unreaped: set<nat>) {
    && (forall i, j :: 0 <= i < j < |unused| ==> unused[i].pid != unused[j].pid)
    && (forall i :: 0 <= i < |unused| ==> unused[i].pid in unreaped)
  }

  lemma WithoutAt(rs: seq<Record>, k: nat, i: nat)
    requires k < |rs| && i < |rs| - 1
    ensures Without(rs, k)[i] == rs[if i < k then i else i + 1]
  {
  }

  lemma WatchedAt(unused: seq<Record>, unreaped: set<nat>, k: nat)
    requires Watched(unused, unreaped) && k < |unused|
    ensures Find(unused, unused[k].pid) == k && unused[k].pid in unreaped
    ensures Watched(Without(unused, k), unreaped - {unused[k].pid})
  {
    hide Find, Without;
    var ws := Without(unused, k);
    forall i, j | 0 <= i < j < |ws| ensures ws[i].pid != ws[j].pid {
      WithoutAt(unused, k, i);
      WithoutAt(unused, k, j);
    }
    forall i | 0 <= i < |ws| ensures ws[i].pid in unreaped - {unused[k].pid} {
      WithoutAt(unused, k, i);
    }
  }

  lemma WatchedWithout(unused: seq<Record>, unreaped: set<nat>, pid: nat)
    requires Watched(unused, unreaped) && Find(unused, pid) == |unused|
    ensures Watched(unused, unreaped - {pid}) && pid !in Pids(unused)
  {
  }

  // The children reaped from `before` on, in order, each once.
  ghost predicate Waited(before: set<nat>, after: set<nat>, ps: seq<nat>) {
    && after <= before
    && (forall p :: p in before && p !in after <==> p in ps)
    && (forall i, j :: 0 <= i < j < |ps| ==> ps[i] != ps[j])
  }

  lemma WaitedMore(before: set<nat>, after: set<nat>, ps: seq<nat>, p: nat)
    requires Waited(before, after, ps) && p in after
    ensures p !in ps && Waited(before, after - {p}, ps + [p])
  {
  }

  // The part of the pass that goes through the unused list (lines 279-323): whoever on it had
  // terminated when the pass began is waited for and dropped.
  method CheckUnused(kernel: Kernel, cs: ChildStatuses) returns (ghost ps: seq<nat>)
    requires kernel.Valid() && cs.Valid() && Watched(cs.unused, kernel.unreaped)
    modifies kernel, cs`unused
    ensures kernel.Valid() && cs.Valid() && Watched(cs.unused, kernel.unreaped)
    ensures Waited(old(kernel.unreaped), kernel.unreaped, ps)
    ensures cs.Contents() == ReapAll(old(cs.Contents()), ps, kernel.fate)
    ensures forall p :: p in old(kernel.zombies) ==> p in ps || p in kernel.zombies
    ensures forall p :: p in old(kernel.zombies) && p in old(Pids(cs.unused)) ==> p in ps
  {
    hide Counts, Pids, Watched, Waited, ReapAll;
    ghost var t0, z0, u0, p0 := cs.Contents(), kernel.zombies, kernel.unreaped, Pids(cs.unused);
    ps := [];
    NoneReaped(t0, kernel.fate, u0);
    var k := 0;
    while k < |cs.unused|
      invariant k <= |cs.unused| && kernel.Valid() && cs.Valid() && Watched(cs.unused, kernel.unreaped)
      invariant Waited(u0, kernel.unreaped, ps) && cs.Contents() == ReapAll(t0, ps, kernel.fate)
      invariant forall j :: 0 <= j < k ==> cs.unused[j].pid !in z0
      invariant forall p :: p in z0 ==> p in ps || p in kernel.zombies
      invariant forall p :: p in p0 ==> p in ps || p in Pids(cs.unused)
      decreases |cs.unused| - k
    {
      var pid := cs.unused[k].pid;
      OneDropped(cs.unused, k);
      WatchedAt(cs.unused, kernel.unreaped, k);
      WaitedMore(u0, kernel.unreaped, ps, pid);
      ReapMore(t0, ps, kernel.fate, pid);
      var reaped := kernel.WaitFor(pid);
      if reaped {
        cs.unused := cs.unused[..k] + cs.unused[k + 1..];
        ps := ps + [pid];
      } else {
        k := k + 1;
      }
    }
    NotListed(cs.unused, z0);
  }

  lemma OneDropped(unused: seq<Record>, k: nat)
    requires k < |unused|
    ensures forall p :: p in Pids(unused) ==> p == unused[k].pid || p in Pids(Without(unused, k))
  {
    hide Without;
    forall p | p in Pids(unused) && p != unused[k].pid ensures p in Pids(Without(unused, k)) {
      var i :| 0 <= i < |unused| && unused[i].pid == p;
      WithoutAt(unused, k, if i < k then i else i - 1);
    }
  }

  lemma {:induction false} ReapJoin(t: Table, ps: seq<nat>, qs: seq<nat>, fate: nat -> WaitStatus)
    ensures ReapAll(t, ps + qs, fate) == ReapAll(ReapAll(t, ps, fate), qs, fate)
    decreases |qs|
  {
    hide ReapedOwn;
    if qs == [] {
      assert ps + qs == ps;
    } else {
      var n := |qs| - 1;
      ReapJoin(t, ps, qs[..n], fate);
      assert (ps + qs)[..|ps + qs| - 1] == ps + qs[..n];
    }
  }

  lemma WaitedJoin(a: set<nat>, b: set<nat>, c: set<nat>, ps: seq<nat>, qs: seq<nat>)
    requires Waited(a, b, ps) && Waited(b, c, qs)
    ensures Waited(a, c, ps + qs)
  {
    var all := ps + qs;
    forall p ensures p in a && p !in c <==> p in all {
      assert p in all <==> p in ps || p in qs;
    }
    forall i, j | 0 <= i < j < |all| ensures all[i] != all[j] {
      if i < |ps| <= j { assert all[i] in ps && all[j] in qs; }
    }
  }

  lemma NoneReaped(t: Table, fate: nat -> WaitStatus, unreaped: set<nat>)
    ensures ReapAll(t, [], fate) == t && Waited(unreaped, unreaped, [])
  {
  }

  lemma NotListed(unused: seq<Record>, z: set<nat>)
    requires forall j :: 0 <= j < |unused| ==> unused[j].pid !in z
    ensures Pids(unused) !! z
  {
  }

  // The part that waits for the own process group (lines 286-352): whoever in the group had
  // terminated is waited for; a status is recorded unless nobody wants it.
  method CheckOwn(kernel: Kernel, cs: ChildStatuses, pendingChildren: bool) returns (ghost ps: seq<nat>)
    requires kernel.Valid() && cs.Valid() && Watched(cs.unused, kernel.unreaped)
    modifies kernel, cs`children, cs`unused, cs`woken, cs.groupSignals, cs.groupSignals.signalFds
    ensures kernel.Valid() && cs.Valid() && Watched(cs.unused, kernel.unreaped)
    ensures Waited(old(kernel.unreaped), kernel.unreaped, ps)
    ensures cs.Contents() == ReapAll(old(cs.Contents()), ps, kernel.fate)
    ensures forall p :: p in old(kernel.zombies) ==> p in ps || p in kernel.zombies
    ensures pendingChildren ==> kernel.zombies !! kernel.ownGroup
    ensures !pendingChildren ==> ps == []
  {
    hide Counts, Pids, Watched, Waited, ReapAll;
    ghost var t0, z0, u0 := cs.Contents(), kernel.zombies, kernel.unreaped;
    ps := [];
    NoneReaped(t0, kernel.fate, u0);
    while pendingChildren
      invariant kernel.Valid() && cs.Valid() && Watched(cs.unused, kernel.unreaped)
      invariant cs.groupSignals.signalFds == old(cs.groupSignals.signalFds)
      invariant Waited(u0, kernel.unreaped, ps) && cs.Contents() == ReapAll(t0, ps, kernel.fate)
      invariant forall p :: p in z0 ==> p in ps || p in kernel.zombies
      invariant !pendingChildren ==> ps == []
      decreases |kernel.unreaped|
    {
      ghost var unreaped := kernel.unreaped;
      var r := kernel.WaitForOwn();
      if r.None? { return; }
      WaitedMore(u0, unreaped, ps, r.value);
      ReapMore(t0, ps, kernel.fate, r.value);
      WatchedReaped(cs.unused, unreaped, r.value);
      Fewer(unreaped, r.value);
      cs.WorkerReapedOwn(r.value, ExtractChildStatus(kernel.fate(r.value)));
      ps := ps + [r.value];
    }
  }

  lemma Fewer(s: set<nat>, p: nat)
    requires p in s
    ensures |s - {p}| < |s|
  {
  }

  lemma WatchedReaped(unused: seq<Record>, unreaped: set<nat>, pid: nat)
    requires Watched(unused, unreaped)
    ensures var i := Find(unused, pid);
            Watched(if i < |unused| then Without(unused, i) else unused, unreaped - {pid})
  {
    var i := Find(unused, pid);
    if i < |unused| { WatchedAt(unused, unreaped, i); } else { WatchedWithout(unused, unreaped, pid); }
  }

  // One turn of the worker, when it has got a SIGCHLD (lines 269-354): every handle with a group child
  // is woken; whoever was on the unused list, or is wanted and in the own group, and had terminated, is
  // waited for exactly once; and the tables change as ReapAll says.
  method SignalWorkerTurn(kernel: Kernel, cs: ChildStatuses, pendingChildren: bool) returns (woken: seq<Handle>, ghost ps: seq<nat>)
    requires kernel.Valid() && cs.Valid() && Watched(cs.unused, kernel.unreaped)
    modifies kernel, cs`children, cs`unused, cs`woken, cs.groupSignals, cs.groupSignals.signalFds
    ensures kernel.Valid() && cs.Valid() && Watched(cs.unused, kernel.unreaped)
    ensures forall h :: h in woken <==> h in old(cs.groupSignals.groups)
    ensures Waited(old(kernel.unreaped), kernel.unreaped, ps)
    ensures cs.Contents() == ReapAll(old(cs.Contents()), ps, kernel.fate)
    ensures forall p :: p in old(kernel.zombies) && p in old(Pids(cs.unused)) ==> p in ps
    ensures pendingChildren ==> forall p :: p in old(kernel.zombies) && p in kernel.ownGroup ==> p in ps
  {
    hide Counts, Watched, Waited, ReapAll, Pids;
    woken := cs.groupSignals.SignalAll();
    ghost var before, u0 := cs.unused, kernel.unreaped;
    ghost var ps0 := CheckUnused(kernel, cs);
    ghost var t1, u1 := cs.Contents(), kernel.unreaped;
    ghost var ps1 := CheckOwn(kernel, cs, pendingChildren);
    ps := ps0 + ps1;
    ReapJoin(old(cs.Contents()), ps0, ps1, kernel.fate);
    WaitedJoin(u0, u1, kernel.unreaped, ps0, ps1);
  }

  lemma AddedIsClaimable(t: Table, pid: nat, status: int)
    ensures Claimable(AddStatus(t, pid, status), pid) == Some(status)
  {
    var i := Find(t.children, pid);
    if i < |t.children| {
      var cs := AddStatus(t, pid, status).children;
      assert cs[i].pid == pid && forall j :: 0 <= j < i ==> cs[j].pid != pid;
      assert Find(cs, pid) == i;
    }
  }

  // centralized_get_child_status: a terminated child is waited for by number if that is allowed, its
  // status is recorded, and then whatever is recorded as done is taken.
  method GetChildStatus(kernel: Kernel, cs: ChildStatuses, pid: nat, canCheckGroup: bool) returns (found: bool, status: int)
    requires kernel.Valid() && cs.Valid()
    modifies kernel, cs`children, cs`woken, cs.groupSignals, cs.groupSignals.signalFds
    ensures kernel.Valid() && cs.Valid()
    ensures var reaped := pid in old(kernel.unreaped) && pid !in kernel.unreaped;
            var t0 := old(cs.Contents());
            var t := if reaped then AddStatus(t0, pid, ExtractChildStatus(kernel.fate(pid))) else t0;
            && (canCheckGroup && pid in old(kernel.zombies) ==> reaped) && (!canCheckGroup ==> !reaped)
            && kernel.unreaped == (if reaped then old(kernel.unreaped) - {pid} else old(kernel.unreaped))
            && cs.Contents() == ClaimStatus(t, pid)
            && (if found then Some(status) else None) == Claimable(t, pid)
    ensures pid in old(kernel.unreaped) && pid !in kernel.unreaped ==>
              found && match kernel.fate(pid)
                       case Exited(code) => status == code
                       case Signaled(signal) => status == signal + 128
                       case Stopped => status == -1
  {
    hide Counts, AddStatus, ClaimStatus, Claimable, ExtractChildStatus;
    if canCheckGroup && pid in kernel.unreaped {
      var reaped := kernel.WaitFor(pid);
      if reaped {
        AddedIsClaimable(cs.Contents(), pid, ExtractChildStatus(kernel.fate(pid)));
        StatusOf(kernel.fate(pid));
        cs.AddChildStatus(pid, ExtractChildStatus(kernel.fate(pid)));
      }
    }
    found, status := cs.GetChildStatus(pid);
  }
}
