// The SIGCHLD dispatch of rktio_process.c: the records of terminated and awaited children, and the
// handles to wake for children in process groups.
module ChildTables {
  import opened Options

  // What waitpid reports.
  datatype WaitStatus = Exited(code: nat) | Signaled(signal: nat) | Stopped

  function ExtractChildStatus(w: WaitStatus): int {
    match w
    case Exited(code) => code
    case Signaled(signal) => signal + 128
    case Stopped => -1
  }

  lemma StatusOf(w: WaitStatus)
    ensures match w
            case Exited(code) => ExtractChildStatus(w) == code
            case Signaled(signal) => ExtractChildStatus(w) == signal + 128
            case Stopped => ExtractChildStatus(w) == -1
  {
  }

  // A signal handle of some rktio instance.
  type Handle = nat

  // Child_Status
  datatype Record = Record(pid: nat, status: int, done: bool, inGroup: bool, handle: Option<Handle>)

  // The two lists and the group handles, as values.
  datatype Table = Table(children: seq<Record>, unused: seq<Record>, groups: multiset<Handle>)

  function Find(rs: seq<Record>, pid: nat): (i: nat)
    ensures i <= |rs| && (i < |rs| ==> rs[i].pid == pid) && forall j :: 0 <= j < i ==> rs[j].pid != pid
  {
    if rs == [] || rs[0].pid == pid then 0 else 1 + Find(rs[1..], pid)
  }

  function Without(rs: seq<Record>, i: nat): (r: seq<Record>)
    requires i < |rs|
    ensures |r| == |rs| - 1
  {
    rs[..i] + rs[i + 1..]
  }

  // The handles a record counts for in the group list.
  function GroupOf(r: Record): multiset<Handle> {
    if r.inGroup && r.handle.Some? then multiset{r.handle.value} else multiset{}
  }

  function AddStatus(t: Table, pid: nat, status: int): Table {
    var i := Find(t.children, pid);
    if i == |t.children| then t.(children := [Record(pid, status, true, false, None)] + t.children)
    else
      var r := t.children[i];
      t.(children := t.children[i := r.(status := status, done := true)], groups := t.groups - GroupOf(r))
  }

  // The status of a child whose record is done; the record is dropped.
  function Claimable(t: Table, pid: nat): Option<int> {
    var i := Find(t.children, pid);
    if i < |t.children| && t.children[i].done then Some(t.children[i].status) else None
  }

  function ClaimStatus(t: Table, pid: nat): Table {
    if Claimable(t, pid).Some? then t.(children := Without(t.children, Find(t.children, pid))) else t
  }

  function RegisterChild(t: Table, pid: nat, inGroup: bool, handle: Handle): Table {
    if Find(t.children, pid) < |t.children| then t
    else
      var r := Record(pid, 0, false, inGroup, Some(handle));
      t.(children := [r] + t.children, groups := t.groups + GroupOf(r))
  }

  function ForgetChild(t: Table, pid: nat): Table {
    var i := Find(t.children, pid);
    if i == |t.children| then t
    else
      var r := t.children[i];
      var cs := Without(t.children, i);
      if r.done then t.(children := cs)
      else Table(cs, [r.(handle := None)] + t.unused, t.groups - GroupOf(r))
  }

  // What the worker does with a child of its own process group that it has reaped.
  function ReapedOwn(t: Table, pid: nat, status: int): Table {
    var i := Find(t.unused, pid);
    if i < |t.unused| then t.(unused := Without(t.unused, i)) else AddStatus(t, pid, status)
  }

  // ---- the handles to wake at every SIGCHLD

  datatype GroupSignalFd = GroupSignalFd(handle: Handle, refcount: nat)

  ghost predicate Counts(es: seq<GroupSignalFd>, groups: multiset<Handle>) {
    && (forall i, j :: 0 <= i < j < |es| && es[i].refcount > 0 && es[j].refcount > 0 ==> es[i].handle != es[j].handle)
    && (forall i :: 0 <= i < |es| && es[i].refcount > 0 ==> groups[es[i].handle] == es[i].refcount)
    && (forall h :: h in groups ==> HasSlot(es, h))
  }

  ghost predicate HasSlot(es: seq<GroupSignalFd>, h: Handle) {
    exists i :: 0 <= i < |es| && es[i].refcount > 0 && es[i].handle == h
  }

  class GroupSignals {
    var signalFds: array<GroupSignalFd>
    ghost var groups: multiset<Handle>

    ghost predicate Valid()
      reads this, signalFds
    {
      Counts(signalFds[..], groups)
    }

    constructor ()
      ensures Valid() && groups == multiset{} && fresh(signalFds)
    {
      signalFds, groups := new GroupSignalFd[0], multiset{};
    }

    // The slot that counts for a handle, or the number of slots; and how many slots count at all
    // before it.
    method FindHandle(handle: Handle) returns (i: nat, count: nat)
      requires Valid()
      ensures i <= signalFds.Length && count <= i
      ensures i < signalFds.Length ==> signalFds[i].refcount > 0 && signalFds[i].handle == handle
      ensures i == signalFds.Length ==> handle !in groups
      ensures count == i ==> forall k :: 0 <= k < i ==> signalFds[k].refcount > 0
      ensures count < i ==> exists k :: 0 <= k < i && signalFds[k].refcount == 0
    {
      i, count := 0, 0;
      while i < signalFds.Length
        invariant i <= signalFds.Length && count <= i
        invariant forall k :: 0 <= k < i && signalFds[k].refcount > 0 ==> signalFds[k].handle != handle
        invariant count == i ==> forall k :: 0 <= k < i ==> signalFds[k].refcount > 0
        invariant count < i ==> exists k :: 0 <= k < i && signalFds[k].refcount == 0
      {
        if signalFds[i].refcount != 0 {
          if signalFds[i].handle == handle { return; }
          count := count + 1;
        }
        i := i + 1;
      }
      assert forall k :: 0 <= k < |signalFds[..]| ==> signalFds[..][k] == signalFds[k];
    }

    // Lines 511-520: a full array is replaced by a longer one.
    method Grow(count: nat)
      requires Valid() && count == signalFds.Length
      modifies this`signalFds
      ensures Valid() && fresh(signalFds) && signalFds.Length == 2 * (count + 4) && signalFds[count].refcount == 0
    {
      hide Counts;
      var n := (signalFds.Length + 4) * 2;
      var a := new GroupSignalFd[n](i requires 0 <= i reads this, signalFds =>
        if i < signalFds.Length then signalFds[i] else GroupSignalFd(0, 0));
      GrownCounts(signalFds[..], a[..], groups);
      signalFds := a;
    }

    method Add(handle: Handle)
      requires Valid()
      modifies this, signalFds
      ensures Valid() && groups == old(groups) + multiset{handle}
      ensures signalFds == old(signalFds) || fresh(signalFds)
    {
      hide Counts;
      var i, count := FindHandle(handle);
      if i < signalFds.Length {
        ghost var es := signalFds[..];
        signalFds[i] := signalFds[i].(refcount := signalFds[i].refcount + 1);
        SlotCount(es, i, groups);
        SlotSet(es, i, handle, es[i].refcount + 1, groups);
        assert groups + multiset{handle} == groups[handle := es[i].refcount + 1];
        assert signalFds[..] == es[i := GroupSignalFd(handle, es[i].refcount + 1)];
        groups := groups + multiset{handle};
        return;
      }
      if count == signalFds.Length { Grow(count); }
      i := 0;
      while signalFds[i].refcount != 0
        invariant i < signalFds.Length
        invariant exists k :: i <= k < signalFds.Length && signalFds[k].refcount == 0
        decreases signalFds.Length - i
      {
        i := i + 1;
      }
      ghost var es := signalFds[..];
      signalFds[i] := GroupSignalFd(handle, 1);
      SlotSet(es, i, handle, 1, groups);
      assert groups + multiset{handle} == groups[handle := 1];
      groups := groups + multiset{handle};
      assert signalFds[..] == es[i := GroupSignalFd(handle, 1)];
    }

    method Remove(handle: Handle)
      requires Valid()
      modifies this, signalFds
      ensures Valid() && groups == old(groups) - multiset{handle} && signalFds == old(signalFds)
    {
      hide Counts;
      var i, _ := FindHandle(handle);
      if i < signalFds.Length {
        ghost var es := signalFds[..];
        signalFds[i] := signalFds[i].(refcount := signalFds[i].refcount - 1);
        SlotCount(es, i, groups);
        SlotSet(es, i, handle, es[i].refcount - 1, groups);
        assert groups - multiset{handle} == groups[handle := es[i].refcount - 1];
        assert signalFds[..] == es[i := GroupSignalFd(handle, es[i].refcount - 1)];
      } else {
        assert groups - multiset{handle} == groups;
      }
      groups := groups - multiset{handle};
    }

    // do_group_signal_fds: every handle that some group child counts for is signaled once.
    method SignalAll() returns (woken: seq<Handle>)
      requires Valid()
      ensures forall h :: h in woken <==> h in groups
      ensures forall i, j :: 0 <= i < j < |woken| ==> woken[i] != woken[j]
    {
      woken := [];
      var i := 0;
      while i < signalFds.Length
        invariant i <= signalFds.Length
        invariant forall h :: h in woken <==> exists k :: 0 <= k < i && signalFds[..][k].refcount > 0 && signalFds[..][k].handle == h
        invariant forall j, k :: 0 <= j < k < |woken| ==> woken[j] != woken[k]
      {
        ghost var es := signalFds[..];
        assert es[i] == signalFds[i];
        if signalFds[i].refcount != 0 {
          assert signalFds[i].handle !in woken;
          woken := woken + [signalFds[i].handle];
        }
        i := i + 1;
      }
    }
  }

  // A slot of handle h set to count n times, when h has no other.
  lemma SlotSet(es: seq<GroupSignalFd>, i: nat, h: Handle, n: nat, groups: multiset<Handle>)
    requires Counts(es, groups) && i < |es|
    requires if es[i].refcount > 0 then es[i].handle == h else h !in groups
    ensures Counts(es[i := GroupSignalFd(h, n)], groups[h := n])
  {
    var es' := es[i := GroupSignalFd(h, n)];
    forall x | x in groups[h := n] ensures HasSlot(es', x) {
      if x == h {
        assert es'[i].handle == x;
      } else {
        KeepsSlot(es, i, GroupSignalFd(h, n), x);
      }
    }
    forall k | 0 <= k < |es| && k != i && es[k].refcount > 0 ensures es[k].handle != h {
      assert es[k].handle in groups;
    }
  }

  lemma KeepsSlot(es: seq<GroupSignalFd>, i: nat, e: GroupSignalFd, x: Handle)
    requires HasSlot(es, x) && i < |es| && (es[i].refcount > 0 ==> es[i].handle != x)
    ensures HasSlot(es[i := e], x)
  {
    var k :| 0 <= k < |es| && es[k].refcount > 0 && es[k].handle == x;
    assert es[i := e][k] == es[k];
  }

  lemma GrownCounts(es: seq<GroupSignalFd>, es': seq<GroupSignalFd>, groups: multiset<Handle>)
    requires Counts(es, groups) && |es| <= |es'|
    requires forall k :: 0 <= k < |es'| ==> es'[k] == if k < |es| then es[k] else GroupSignalFd(0, 0)
    ensures Counts(es', groups)
  {
    forall h | h in groups ensures HasSlot(es', h) {
      assert HasSlot(es, h);
      var k :| 0 <= k < |es| && es[k].refcount > 0 && es[k].handle == h;
      assert es'[k] == es[k];
    }
  }

  lemma SlotCount(es: seq<GroupSignalFd>, i: nat, groups: multiset<Handle>)
    requires Counts(es, groups) && i < |es| && es[i].refcount > 0
    ensures groups[es[i].handle] == es[i].refcount
  {
  }

  // ---- the lists

  class ChildStatuses {
    var children: seq<Record>
    var unused: seq<Record>
    const groupSignals: GroupSignals
    var woken: seq<Handle>  // rktio_signal_received_at calls, in order

    ghost predicate Valid()
      reads this, groupSignals, groupSignals.signalFds
    {
      groupSignals.Valid()
    }

    ghost function Contents(): Table
      reads this, groupSignals
    {
      Table(children, unused, groupSignals.groups)
    }

    constructor ()
      ensures Valid() && Contents() == Table([], [], multiset{}) && fresh(groupSignals) && fresh(groupSignals.signalFds)
    {
      groupSignals := new GroupSignals();
      children, unused, woken := [], [], [];
    }

    // The search loops.
    method Search(rs: seq<Record>, pid: nat) returns (i: nat)
      ensures i == Find(rs, pid)
    {
      i := 0;
      while i < |rs|
        invariant i <= |rs| && Find(rs, pid) == i + Find(rs[i..], pid)
      {
        if rs[i].pid == pid { break; }
        assert rs[i..][1..] == rs[i + 1..];
        i := i + 1;
      }
    }

    method AddChildStatus(pid: nat, status: int)
      requires Valid()
      modifies this`children, this`woken, groupSignals, groupSignals.signalFds
      ensures Valid() && groupSignals.signalFds == old(groupSignals.signalFds)
      ensures Contents() == AddStatus(old(Contents()), pid, status)
      ensures var i := Find(old(children), pid);
              woken == old(woken) + if i < |old(children)| && old(children)[i].handle.Some? then [old(children)[i].handle.value] else []
    {
      hide Counts;
      var i := Search(children, pid);
      if i == |children| {
        children := [Record(pid, status, true, false, None)] + children;
      } else {
        var st := children[i];
        children := children[i := st.(status := status, done := true)];
        if st.handle.Some? && st.inGroup { groupSignals.Remove(st.handle.value); }
        if st.handle.Some? { woken := woken + [st.handle.value]; }
      }
    }

    method RawGetChildStatus(pid: nat, doneOnly: bool, doRemove: bool) returns (found: bool, status: int)
      modifies this`children
      ensures var i := Find(old(children), pid);
              && (found <==> i < |old(children)| && (!doneOnly || old(children)[i].done))
              && (found ==> status == old(children)[i].status)
              && children == if found && doRemove then Without(old(children), i) else old(children)
    {
      found, status := false, 0;
      var i := Search(children, pid);
      if i < |children| && (!doneOnly || children[i].done) {
        found, status := true, children[i].status;
        if doRemove { children := children[..i] + children[i + 1..]; }
      }
    }

    // The locked part of centralized_get_child_status.
    method GetChildStatus(pid: nat) returns (found: bool, status: int)
      requires Valid()
      modifies this`children
      ensures Valid() && Contents() == ClaimStatus(old(Contents()), pid)
      ensures (if found then Some(status) else None) == Claimable(old(Contents()), pid)
    {
      found, status := RawGetChildStatus(pid, true, true);
    }

    method RegisterPid(pid: nat, inGroup: bool, handle: Handle) returns (found: bool, status: int)
      requires Valid()
      modifies this`children, groupSignals, groupSignals.signalFds
      ensures Valid() && (groupSignals.signalFds == old(groupSignals.signalFds) || fresh(groupSignals.signalFds))
      ensures Contents() == RegisterChild(old(Contents()), pid, inGroup, handle)
      ensures found <==> Find(old(children), pid) < |old(children)|
      ensures found ==> status == old(children)[Find(old(children), pid)].status
    {
      hide Counts;
      found, status := RawGetChildStatus(pid, false, false);
      if !found {
        children := [Record(pid, 0, false, inGroup, Some(handle))] + children;
        if inGroup { groupSignals.Add(handle); }
      }
    }

    // centralized_done_with_process_id
    method DoneWithProcessId(pid: nat)
      requires Valid()
      modifies this`children, this`unused, groupSignals, groupSignals.signalFds
      ensures Valid() && groupSignals.signalFds == old(groupSignals.signalFds)
      ensures Contents() == ForgetChild(old(Contents()), pid)
    {
      hide Counts;
      var i := Search(children, pid);
      if i < |children| {
        var st := children[i];
        if !st.done {
          unused := [st.(handle := None)] + unused;
          if st.handle.Some? && st.inGroup { groupSignals.Remove(st.handle.value); }
        }
        var _, _ := RawGetChildStatus(pid, false, true);
      }
    }

    // Lines 324-345: the worker has reaped a child that was not looked for by its number.
    method WorkerReapedOwn(pid: nat, status: int)
      requires Valid()
      modifies this`children, this`unused, this`woken, groupSignals, groupSignals.signalFds
      ensures Valid() && groupSignals.signalFds == old(groupSignals.signalFds)
      ensures Contents() == ReapedOwn(old(Contents()), pid, status)
    {
      hide Counts;
      var i := Search(unused, pid);
      if i == |unused| {
        AddChildStatus(pid, status);
      } else {
        unused := unused[..i] + unused[i + 1..];
      }
    }
  }
}
