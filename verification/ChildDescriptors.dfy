// Moving a child's descriptors to 0, 1 and 2 between fork and exec (rktio_process.c).
module ChildDescriptors {
  // An open descriptor: the open file it refers to, and whether exec closes it.
  datatype Entry<F> = Entry(file: F, cloexec: bool)

  // A process's descriptor table, with dup2 and close as POSIX defines them (retried on EINTR).
  class Descriptors<F> {
    var files: map<nat, Entry<F>>

    method Dup2(src: nat, target: nat)
      requires src in files && src != target
      modifies this
      ensures files == old(files)[target := Entry(old(files)[src].file, false)]
    {
      files := files[target := Entry(files[src].file, false)];
    }

    // rktio_reliably_close: closing what is not open does nothing.
    method ReliablyClose(fd: nat)
      modifies this
      ensures files == old(files) - {fd}
    {
      files := files - {fd};
    }

    // reliably_copy_or_move_fd: the source must still be open.
    method ReliablyCopyOrMove(src: nat, target: nat, move: bool)
      requires src in files
      modifies this
      ensures files == Moved(old(files), src, target, move)
    {
      if src != target {
        Dup2(src, target);
        if move { ReliablyClose(src); }
      }
    }

    method CloseNonStandard(fd: nat)
      modifies this
      ensures files == if fd > 2 then old(files) - {fd} else old(files)
    {
      if fd != 0 && fd != 1 && fd != 2 { ReliablyClose(fd); }
    }

    method DisableCloexec(fd: nat)
      requires fd in files
      modifies this
      ensures files == old(files)[fd := Entry(old(files)[fd].file, false)]
    {
      if files[fd].cloexec { files := files[fd := Entry(files[fd].file, false)]; }
    }

    // rktio_close_fds_after_fork: below i, only the three to skip stay.
    method CloseAfterFork(n: nat, skip1: nat, skip2: nat, skip3: nat)
      modifies this
      ensures forall fd :: fd in files <==> fd in old(files) && (fd >= n || fd == skip1 || fd == skip2 || fd == skip3)
      ensures forall fd :: fd in files ==> files[fd] == old(files)[fd]
    {
      var i := n;
      while i > 0
        invariant i <= n
        invariant forall fd :: fd in files <==> fd in old(files) && (!(i <= fd < n) || fd == skip1 || fd == skip2 || fd == skip3)
        invariant forall fd :: fd in files ==> files[fd] == old(files)[fd]
      {
        i := i - 1;
        if i != skip1 && i != skip2 && i != skip3 { ReliablyClose(i); }
      }
    }

    // The first descriptor from `from` on that is neither a nor b.
    static method FindUnused(from: nat, a: nat, b: nat) returns (fd: nat)
      ensures fd == FirstUnused(from, a, b)
    {
      fd := from;
      while fd == a || fd == b
        invariant from <= fd <= from + 2
        invariant (fd > from ==> from == a || from == b) && (fd > from + 1 ==> from + 1 == a || from + 1 == b)
        decreases from + 2 - fd
      {
        fd := fd + 1;
      }
    }

    // The files a child is to have as its standard ones are still where the child looks for them.
    ghost predicate Holding(inFd: nat, outFd: nat, errFd: nat, f0: F, f1: F, f2: F)
      reads this
    {
      && inFd in files && files[inFd].file == f0
      && outFd in files && files[outFd].file == f1
      && errFd in files && files[errFd].file == f2
    }

    // Lines 1671-1690: get out and err away from 0 and 1 when those are to hold something else.
    method MoveAside(inFd: nat, outFd: nat, errFd: nat, ghost f0: F, ghost f1: F, ghost f2: F) returns (outFd': nat, errFd': nat)
      requires Holding(inFd, outFd, errFd, f0, f1, f2)
      modifies this
      ensures Holding(inFd, outFd', errFd', f0, f1, f2)
      ensures (outFd', errFd') == Aside(inFd, outFd, errFd)
      ensures outFd' == 0 ==> inFd == 0
      ensures errFd' == 0 ==> inFd == 0
      ensures errFd' == 1 ==> outFd' == 1
      ensures Elsewhere({inFd, outFd, errFd, outFd', errFd'}, old(files), files)
      ensures outFd' != outFd ==> outFd <= 2 || outFd !in files
      ensures errFd' != errFd ==> errFd <= 2 || errFd !in files
    {
      outFd', errFd' := outFd, errFd;
      if (errFd' == 0 && errFd' != inFd) || (errFd' == 1 && errFd' != outFd') {
        var newErrFd := FindUnused(2, inFd, outFd');
        ReliablyCopyOrMove(errFd', newErrFd, errFd' != inFd);
        if outFd' == errFd' { outFd' := newErrFd; }
        errFd' := newErrFd;
      }
      if outFd' == 0 && outFd' != inFd {
        var newOutFd := FindUnused(1, inFd, errFd');
        ReliablyCopyOrMove(outFd', newOutFd, outFd' != inFd);
        outFd' := newOutFd;
      }
    }

    // Lines 1661-1696: afterwards 0, 1 and 2 are the files that were at in, out and err, whatever
    // the three were, and no copy of them is left elsewhere.
    method Standardize(inFd: nat, outFd: nat, errFd: nat)
      requires inFd in files && outFd in files && errFd in files
      modifies this
      ensures 0 in files && files[0].file == old(files[inFd].file)
      ensures 1 in files && files[1].file == old(files[outFd].file)
      ensures 2 in files && files[2].file == old(files[errFd].file)
      ensures forall fd :: fd > 2 ==> (fd in files <==> fd in old(files) && fd !in Touched(inFd, outFd, errFd))
      ensures forall fd :: fd in files && fd > 2 ==> files[fd] == old(files)[fd]
    {
      var outFd', errFd' := MoveAside(inFd, outFd, errFd, files[inFd].file, files[outFd].file, files[errFd].file);
      Assign(inFd, outFd', errFd');
    }

    // Lines 1694-1696.
    method Assign(inFd: nat, outFd: nat, errFd: nat)
      requires inFd in files && outFd in files && errFd in files
      requires (outFd == 0 || errFd == 0 ==> inFd == 0) && (errFd == 1 ==> outFd == 1)
      modifies this
      ensures 0 in files && files[0].file == old(files[inFd].file)
      ensures 1 in files && files[1].file == old(files[outFd].file)
      ensures 2 in files && files[2].file == old(files[errFd].file)
      ensures forall fd :: fd > 2 ==> (fd in files <==> fd in old(files) && fd != inFd && fd != outFd && fd != errFd)
      ensures forall fd :: fd in files && fd > 2 ==> files[fd] == old(files)[fd]
    {
      hide Moved;
      ghost var m := files;
      MovedIn(m, inFd, outFd, errFd);
      ReliablyCopyOrMove(inFd, 0, inFd != outFd && inFd != errFd);
      ghost var m1 := files;
      MovedOut(m1, inFd, outFd, errFd);
      ReliablyCopyOrMove(outFd, 1, outFd > 0 && outFd != errFd);
      MovedErr(files, errFd);
      ReliablyCopyOrMove(errFd, 2, errFd > 1);
    }

    // Lines 1699-1707: the standard descriptors are not closed, whatever the pipes' numbers were.
    method CloseOthers(others: seq<nat>)
      modifies this
      ensures forall fd :: fd in files <==> fd in old(files) && (fd <= 2 || fd !in others)
      ensures forall fd :: fd in files ==> files[fd] == old(files)[fd]
    {
      var i := 0;
      while i < |others|
        invariant i <= |others|
        invariant forall fd :: fd in files <==> fd in old(files) && (fd <= 2 || fd !in others[..i])
        invariant forall fd :: fd in files ==> files[fd] == old(files)[fd]
      {
        CloseNonStandard(others[i]);
        i := i + 1;
      }
      assert others[..i] == others;
    }

    // Lines 1709-1713.
    method KeepStandard()
      requires 0 in files && 1 in files && 2 in files
      modifies this
      ensures forall fd :: fd in files <==> fd in old(files)
      ensures forall fd :: fd in files && fd > 2 ==> files[fd] == old(files)[fd]
      ensures files[0] == Entry(old(files)[0].file, false)
      ensures files[1] == Entry(old(files)[1].file, false)
      ensures files[2] == Entry(old(files)[2].file, false)
    {
      DisableCloexec(0);
      DisableCloexec(1);
      DisableCloexec(2);
    }

    // Lines 1660-1716, and what exec then leaves: the three files, and every descriptor from
    // closeLen on that is not closed by exec and that the moves did not pass through.  `others` are
    // the parent's ends of the pipes made for the child.
    method PrepareChild(inFd: nat, outFd: nat, errFd: nat, others: seq<nat>, closeLen: nat)
      requires inFd in files && outFd in files && errFd in files
      modifies this
      ensures 0 in AfterExec(files) && files[0].file == old(files[inFd].file)
      ensures 1 in AfterExec(files) && files[1].file == old(files[outFd].file)
      ensures 2 in AfterExec(files) && files[2].file == old(files[errFd].file)
      ensures forall fd :: fd > 2 ==>
        (fd in AfterExec(files) <==> Inherited(old(files), Touched(inFd, outFd, errFd), others, closeLen, fd))
      ensures forall fd :: fd in AfterExec(files) && fd > 2 ==> fd in old(files) && files[fd] == old(files)[fd]
      ensures (forall fd :: !Inherited(old(files), Touched(inFd, outFd, errFd), others, closeLen, fd))
        <==> AfterExec(files) == map[0 := Entry(old(files[inFd].file), false),
                                     1 := Entry(old(files[outFd].file), false),
                                     2 := Entry(old(files[errFd].file), false)]
    {
      hide Touched;
      ghost var before := files;
      ghost var f0, f1, f2 := files[inFd].file, files[outFd].file, files[errFd].file;
      Standardize(inFd, outFd, errFd);
      CloseOthers(others);
      KeepStandard();
      CloseAfterFork(closeLen, 0, 1, 2);
      OnlyThree(AfterExec(files), Entry(f0, false), Entry(f1, false), Entry(f2, false));
      assert forall fd :: fd > 2 ==>
        (fd in AfterExec(files) <==> Inherited(before, Touched(inFd, outFd, errFd), others, closeLen, fd));
    }
  }

  // What reliably_copy_or_move_fd leaves.
  function Moved<F>(files: map<nat, Entry<F>>, src: nat, target: nat, move: bool): map<nat, Entry<F>>
    requires src in files
  {
    if src == target then files
    else
      var after := files[target := Entry(files[src].file, false)];
      if move then after - {src} else after
  }

  // `after` has kept `file` at `fd`.
  ghost predicate Has<F>(after: map<nat, Entry<F>>, fd: nat, file: F) { fd in after && after[fd].file == file }

  // Above 2, only the number moved away from is gone.
  ghost predicate Without<F>(before: map<nat, Entry<F>>, after: map<nat, Entry<F>>, gone: set<nat>) {
    && (forall fd :: fd > 2 ==> (fd in after <==> fd in before && fd !in gone))
    && (forall fd :: fd > 2 && fd in after ==> after[fd] == before[fd])
  }

  lemma MovedIn<F>(m: map<nat, Entry<F>>, inFd: nat, outFd: nat, errFd: nat)
    requires inFd in m && outFd in m && errFd in m
    requires outFd == 0 || errFd == 0 ==> inFd == 0
    ensures var r := Moved(m, inFd, 0, inFd != outFd && inFd != errFd);
            && Has(r, 0, m[inFd].file) && Has(r, outFd, m[outFd].file) && Has(r, errFd, m[errFd].file)
            && Without(m, r, if inFd != outFd && inFd != errFd then {inFd} else {})
  {
  }

  lemma MovedOut<F>(m: map<nat, Entry<F>>, inFd: nat, outFd: nat, errFd: nat)
    requires 0 in m && outFd in m && errFd in m && (errFd == 1 ==> outFd == 1)
    ensures var r := Moved(m, outFd, 1, outFd > 0 && outFd != errFd);
            && Has(r, 0, m[0].file) && Has(r, 1, m[outFd].file) && Has(r, errFd, m[errFd].file)
            && Without(m, r, if outFd != errFd then {outFd} else {})
  {
  }

  lemma MovedErr<F>(m: map<nat, Entry<F>>, errFd: nat)
    requires 0 in m && 1 in m && errFd in m
    ensures var r := Moved(m, errFd, 2, errFd > 1);
            Has(r, 0, m[0].file) && Has(r, 1, m[1].file) && Has(r, 2, m[errFd].file) && Without(m, r, {errFd})
  {
  }

  // exec closes what is marked for it.
  function AfterExec<F>(files: map<nat, Entry<F>>): map<nat, Entry<F>> {
    map fd | fd in files && !files[fd].cloexec :: files[fd]
  }

  function FirstUnused(from: nat, a: nat, b: nat): nat {
    if from != a && from != b then from
    else if from + 1 != a && from + 1 != b then from + 1
    else from + 2
  }

  // Where out and err are after line 1690.
  function Aside(inFd: nat, outFd: nat, errFd: nat): (nat, nat) {
    var moved := (errFd == 0 && errFd != inFd) || (errFd == 1 && errFd != outFd);
    var err := if moved then FirstUnused(2, inFd, outFd) else errFd;
    var out := if moved && outFd == errFd then err else outFd;
    (if out == 0 && out != inFd then FirstUnused(1, inFd, err) else out, err)
  }

  // The numbers written or closed besides 0, 1 and 2.
  function Touched(inFd: nat, outFd: nat, errFd: nat): set<nat> {
    {inFd, outFd, errFd, Aside(inFd, outFd, errFd).0, Aside(inFd, outFd, errFd).1}
  }

  predicate Inherited<F>(before: map<nat, Entry<F>>, touched: set<nat>, others: seq<nat>, closeLen: nat, fd: nat) {
    fd > 2 && fd >= closeLen && fd in before && !before[fd].cloexec && fd !in touched && fd !in others
  }

  // A descriptor above every open one as the limit, or close-on-exec on all but the three files:
  // nothing else is inherited.
  lemma OnlyThreeInherited<F>(before: map<nat, Entry<F>>, inFd: nat, outFd: nat, errFd: nat, others: seq<nat>, closeLen: nat)
    requires (forall fd :: fd in before ==> fd < closeLen)
          || (forall fd :: fd in before && fd > 2 && fd != inFd && fd != outFd && fd != errFd ==> before[fd].cloexec)
    ensures forall fd :: !Inherited(before, Touched(inFd, outFd, errFd), others, closeLen, fd)
  {
  }

  // The moves can run over a descriptor that was to be inherited: with in at 2, out at 3 and err at 0,
  // err passes through 4.
  lemma DescriptorRunOver(f: int)
    ensures var before := map[0 := Entry(f, false), 2 := Entry(f, false), 3 := Entry(f, false), 4 := Entry(f, false)];
            4 in AfterExec(before) && !Inherited(before, Touched(2, 3, 0), [], 0, 4)
  {
  }

  // Outside `touched`, the table is as it was.
  ghost predicate Elsewhere<F>(touched: set<nat>, before: map<nat, Entry<F>>, after: map<nat, Entry<F>>) {
    forall fd :: fd !in touched ==> (fd in after <==> fd in before) && (fd in after ==> after[fd] == before[fd])
  }

  lemma OnlyThree<T>(m: map<nat, T>, x: T, y: T, z: T)
    requires 0 in m && 1 in m && 2 in m && m[0] == x && m[1] == y && m[2] == z
    ensures (forall fd :: fd > 2 ==> fd !in m) <==> m == map[0 := x, 1 := y, 2 := z]
  {
  }
}
