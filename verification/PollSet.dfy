// The poll variant of file-descriptor sets (rktio_poll_set.c): an array of descriptors and the
// events to wait for, as a map from descriptors to event masks.
module PollSets {
  type Events = bv16

  const POLLIN: Events := 1

  // struct pollfd, without what poll writes into it.
  datatype PollFd = PollFd(fd: int, events: Events)

  // ---- the map

  function Find(es: seq<PollFd>, n: int): (i: nat)
    ensures i <= |es| && (i < |es| ==> es[i].fd == n) && forall j :: 0 <= j < i ==> es[j].fd != n
  {
    if es == [] || es[0].fd == n then 0 else 1 + Find(es[1..], n)
  }

  // The events waited for on a descriptor.
  function Mask(es: seq<PollFd>, n: int): Events {
    var i := Find(es, n);
    if i < |es| then es[i].events else 0
  }

  ghost predicate Distinct(es: seq<PollFd>) {
    forall i, j :: 0 <= i < j < |es| ==> es[i].fd != es[j].fd
  }

  ghost predicate Ordered(es: seq<PollFd>) {
    forall i, j :: 0 <= i < j < |es| ==> es[i].fd < es[j].fd
  }

  lemma MaskAt(es: seq<PollFd>, i: nat)
    requires Distinct(es) && i < |es|
    ensures Find(es, es[i].fd) == i && Mask(es, es[i].fd) == es[i].events
  {
  }

  lemma MaskSet(es: seq<PollFd>, i: nat, events: Events, n: int)
    requires Distinct(es) && i < |es|
    ensures Distinct(es[i := es[i].(events := events)])
    ensures Mask(es[i := es[i].(events := events)], n) == if n == es[i].fd then events else Mask(es, n)
  {
    var es', k := es[i := es[i].(events := events)], Find(es, n);
    if k < |es| {
      MaskAt(es', k);
    }
  }

  lemma MaskAppend(es: seq<PollFd>, e: PollFd, n: int)
    requires Distinct(es) && Find(es, e.fd) == |es|
    ensures Distinct(es + [e])
    ensures Mask(es + [e], n) == if n == e.fd then e.events else Mask(es, n)
  {
    var k := Find(es, n);
    if k < |es| {
      MaskAt(es + [e], k);
    } else if n == e.fd {
      MaskAt(es + [e], |es|);
    }
  }

  // ---- cleaning

  function Cleaned(es: seq<PollFd>): (r: seq<PollFd>)
    ensures |r| <= |es|
    ensures forall i :: 0 <= i < |r| ==> r[i] in es && r[i].events != 0
  {
    if es == [] then [] else (if es[0].events != 0 then [es[0]] else []) + Cleaned(es[1..])
  }

  lemma CleanedNone(es: seq<PollFd>)
    ensures Cleaned(es[..0]) == []
  {
  }

  lemma {:induction false} CleanedAppend(es: seq<PollFd>, e: PollFd)
    ensures Cleaned(es + [e]) == Cleaned(es) + if e.events != 0 then [e] else []
  {
    var last := if e.events != 0 then [e] else [];
    if es == [] {
      assert es + [e] == [e] && [e][1..] == [];
    } else {
      CleanedAppend(es[1..], e);
      assert (es + [e])[1..] == es[1..] + [e];
      var head := if es[0].events != 0 then [es[0]] else [];
      assert head + (Cleaned(es[1..]) + last) == (head + Cleaned(es[1..])) + last;
    }
  }

  lemma MaskStep(e: PollFd, es: seq<PollFd>, n: int)
    ensures Mask([e] + es, n) == if n == e.fd then e.events else Mask(es, n)
  {
    assert ([e] + es)[1..] == es;
  }

  lemma MaskRest(es: seq<PollFd>, n: int)
    requires es != []
    ensures Mask(es, n) == if n == es[0].fd then es[0].events else Mask(es[1..], n)
  {
  }

  lemma MaskAbsent(es: seq<PollFd>, n: int)
    requires forall e :: e in es ==> e.fd != n
    ensures Mask(es, n) == 0
  {
    assert forall i :: 0 <= i < |es| ==> es[i] in es;
  }

  lemma DistinctCons(e: PollFd, es: seq<PollFd>)
    requires Distinct(es) && forall x :: x in es ==> x.fd != e.fd
    ensures Distinct([e] + es)
  {
    assert forall i :: 0 <= i < |es| ==> es[i] in es;
  }

  // Cleaning changes no mask.
  lemma {:induction false} CleanedMask(es: seq<PollFd>, n: int)
    requires Distinct(es)
    ensures Distinct(Cleaned(es)) && Mask(Cleaned(es), n) == Mask(es, n)
  {
    hide Mask;
    if es != [] {
      var e, rest := es[0], Cleaned(es[1..]);
      CleanedMask(es[1..], n);
      MaskRest(es, n);
      forall x | x in rest ensures x.fd != e.fd {
        assert x in es[1..];
      }
      if e.events != 0 {
        DistinctCons(e, rest);
        MaskStep(e, rest, n);
      } else {
        assert Cleaned(es) == rest;
        if n == e.fd { MaskAbsent(rest, n); }
      }
    }
  }

  // ---- sorting

  function Insert(e: PollFd, es: seq<PollFd>): (r: seq<PollFd>)
    ensures multiset(r) == multiset(es) + multiset{e} && |r| == |es| + 1
  {
    if es == [] || e.fd <= es[0].fd then [e] + es
    else
      assert es == [es[0]] + es[1..];
      [es[0]] + Insert(e, es[1..])
  }

  function SortByFd(es: seq<PollFd>): (r: seq<PollFd>)
    ensures multiset(r) == multiset(es) && |r| == |es|
  {
    if es == [] then []
    else
      assert es == [es[0]] + es[1..];
      Insert(es[0], SortByFd(es[1..]))
  }

  lemma {:induction false} InsertOrdered(e: PollFd, es: seq<PollFd>)
    requires Ordered(es) && forall i :: 0 <= i < |es| ==> es[i].fd != e.fd
    ensures Ordered(Insert(e, es))
  {
    if es != [] && es[0].fd < e.fd {
      InsertOrdered(e, es[1..]);
      var rest := Insert(e, es[1..]);
      forall i | 0 <= i < |rest| ensures es[0].fd < rest[i].fd {
        assert rest[i] in multiset(rest);
        assert rest[i] == e || rest[i] in es[1..];
      }
    }
  }

  lemma {:induction false} SortOrdered(es: seq<PollFd>)
    requires Distinct(es)
    ensures Ordered(SortByFd(es))
  {
    if es != [] {
      SortOrdered(es[1..]);
      var rest := SortByFd(es[1..]);
      forall i | 0 <= i < |rest| ensures rest[i].fd != es[0].fd {
        assert rest[i] in multiset(rest);
        assert rest[i] in es[1..];
      }
      InsertOrdered(es[0], rest);
    }
  }

  // A reordering changes no mask.
  lemma SameMask(es: seq<PollFd>, es': seq<PollFd>, n: int)
    requires Distinct(es) && Distinct(es') && multiset(es) == multiset(es')
    ensures Mask(es, n) == Mask(es', n)
  {
    if Find(es, n) < |es| { Present(es, es', n); }
    if Find(es', n) < |es'| { Present(es', es, n); }
  }

  lemma Present(es: seq<PollFd>, es': seq<PollFd>, n: int)
    requires Distinct(es') && multiset(es) == multiset(es') && Find(es, n) < |es|
    ensures Find(es', n) < |es'| && Mask(es', n) == Mask(es, n)
  {
    assert es[Find(es, n)] in multiset(es');
    var k :| 0 <= k < |es'| && es'[k] == es[Find(es, n)];
    MaskAt(es', k);
  }

  lemma SortMask(es: seq<PollFd>, n: int)
    requires Distinct(es)
    ensures Ordered(SortByFd(es)) && Mask(SortByFd(es), n) == Mask(es, n)
  {
    SortOrdered(es);
    SameMask(SortByFd(es), es, n);
  }

  // ---- merging

  function Merged(a: seq<PollFd>, b: seq<PollFd>): (r: seq<PollFd>)
    ensures |a| <= |r| <= |a| + |b|
    decreases |a| + |b|
  {
    if a == [] then b
    else if b == [] then a
    else if a[0].fd == b[0].fd then [PollFd(a[0].fd, a[0].events | b[0].events)] + Merged(a[1..], b[1..])
    else if a[0].fd < b[0].fd then [a[0]] + Merged(a[1..], b)
    else [b[0]] + Merged(a, b[1..])
  }

  // The bits of both.
  function Or(x: Events, y: Events): Events { x | y }

  lemma OrNone(x: Events)
    ensures Or(x, 0) == x && Or(0, x) == x
  {
  }

  lemma NoMaskBelow(es: seq<PollFd>, n: int)
    requires Ordered(es) && (es != [] ==> n < es[0].fd)
    ensures Mask(es, n) == 0
  {
  }

  // The merge of ordered arrays is ordered, without duplicates, and has the pointwise union of masks.
  lemma {:induction false} MergedIs(a: seq<PollFd>, b: seq<PollFd>, n: int)
    requires Ordered(a) && Ordered(b)
    ensures Ordered(Merged(a, b)) && Mask(Merged(a, b), n) == Or(Mask(a, n), Mask(b, n))
    ensures Merged(a, b) != [] ==>
              Merged(a, b)[0].fd == if a == [] then b[0].fd else if b == [] || a[0].fd < b[0].fd then a[0].fd else b[0].fd
    decreases |a| + |b|
  {
    hide Mask, Or;
    if a == [] {
      OrNone(Mask(b, n));
      NoMask([], n);
    } else if b == [] {
      OrNone(Mask(a, n));
      NoMask([], n);
    } else {
      var a', b' := if a[0].fd <= b[0].fd then a[1..] else a, if b[0].fd <= a[0].fd then b[1..] else b;
      MergedIs(a', b', n);
      var rest := Merged(a', b');
      var head := Merged(a, b)[0];
      assert Merged(a, b) == [head] + rest;
      Consed(head, rest);
      MaskStep(head, rest, n);
      MergeHead(a, b, n);
    }
  }

  lemma NoMask(es: seq<PollFd>, n: int)
    requires es == []
    ensures Mask(es, n) == 0
  {
  }

  lemma Consed(e: PollFd, es: seq<PollFd>)
    requires Ordered(es) && (es != [] ==> e.fd < es[0].fd)
    ensures Ordered([e] + es)
  {
  }

  lemma MergeHead(a: seq<PollFd>, b: seq<PollFd>, n: int)
    requires Ordered(a) && Ordered(b) && a != [] && b != []
    ensures var a', b' := if a[0].fd <= b[0].fd then a[1..] else a, if b[0].fd <= a[0].fd then b[1..] else b;
            var head := Merged(a, b)[0];
            Or(Mask(a, n), Mask(b, n)) == if n == head.fd then head.events else Or(Mask(a', n), Mask(b', n))
  {
    hide Mask;
    MaskRest(a, n);
    MaskRest(b, n);
    if a[0].fd < b[0].fd {
      if n == a[0].fd { NoMaskBelow(b, n); OrNone(a[0].events); }
    } else if b[0].fd < a[0].fd {
      if n == b[0].fd { NoMaskBelow(a, n); OrNone(b[0].events); }
    }
  }

  // The bits of x that are not in flag.
  function Less(x: Events, flag: Events): Events { x & !flag }

  // Bit by bit: waited for in one or the other, and waited for unless in the flag.
  lemma OrIs(x: Events, y: Events, i: Events, p: Events, q: Events, r: Events)
    requires i < 16 && p == (x >> i) & 1 && q == (y >> i) & 1 && r == Or(x, y)
    ensures (r >> i) & 1 == if p == 1 || q == 1 then 1 else 0
  {
    BitOfOr(x, y, i, p, q, r);
    SmallBits(p, q);
  }

  lemma LessIs(x: Events, y: Events, i: Events, p: Events, q: Events, r: Events)
    requires i < 16 && p == (x >> i) & 1 && q == (y >> i) & 1 && r == Less(x, y)
    ensures (r >> i) & 1 == if p == 1 && q == 0 then 1 else 0
  {
    BitOfLess(x, y, i, p, q, r);
    SmallBits(p, q);
  }

  lemma BitOfOr(x: Events, y: Events, i: Events, p: Events, q: Events, r: Events)
    requires i < 16 && p == (x >> i) & 1 && q == (y >> i) & 1 && r == x | y
    ensures (r >> i) & 1 == p | q && p <= 1 && q <= 1
  {
  }

  lemma BitOfLess(x: Events, y: Events, i: Events, p: Events, q: Events, r: Events)
    requires i < 16 && p == (x >> i) & 1 && q == (y >> i) & 1 && r == x & !y
    ensures (r >> i) & 1 == p & (q ^ 1) && p <= 1 && q <= 1
  {
  }

  lemma SmallBits(p: Events, q: Events)
    requires p <= 1 && q <= 1
    ensures p | q == (if p == 1 || q == 1 then 1 else 0)
    ensures p & (q ^ 1) == if p == 1 && q == 0 then 1 else 0
  {
  }

  // events -= events & flag
  function Subtracted(x: Events, flag: Events): Events { x - (x & flag) }

  lemma SubtractedBits(x: Events, flag: Events)
    ensures x - (x & flag) == x & !flag
  {
  }

  lemma Cleared(x: Events, flag: Events)
    ensures Subtracted(x, flag) == Less(x, flag)
  {
    SubtractedBits(x, flag);
  }

  lemma LessNone(x: Events)
    ensures Less(x, 0) == x && Less(0, x) == 0
  {
  }

  ghost predicate SameMasks(es: seq<PollFd>, es': seq<PollFd>) { forall x :: Mask(es, x) == Mask(es', x) }

  lemma SameMasksTrans(a: seq<PollFd>, b: seq<PollFd>, c: seq<PollFd>)
    requires SameMasks(a, b) && SameMasks(b, c)
    ensures SameMasks(a, c)
  {
    hide Mask;
  }

  // es waits for what a and b wait for.
  ghost predicate Unites(es: seq<PollFd>, a: seq<PollFd>, b: seq<PollFd>) { forall x :: Mask(es, x) == Or(Mask(a, x), Mask(b, x)) }

  lemma UnitesAll(a: seq<PollFd>, b: seq<PollFd>, a0: seq<PollFd>, b0: seq<PollFd>)
    requires Ordered(a) && Ordered(b) && SameMasks(a, a0) && SameMasks(b, b0)
    ensures Ordered(Merged(a, b)) && Unites(Merged(a, b), a0, b0)
  {
    hide Mask, Or;
    MergedIs(a, b, 0);
    forall x ensures Mask(Merged(a, b), x) == Or(Mask(a0, x), Mask(b0, x)) { MergedIs(a, b, x); }
  }

  lemma UnitesNothing(a: seq<PollFd>, a0: seq<PollFd>, b: seq<PollFd>, b0: seq<PollFd>)
    requires SameMasks(a, a0) && SameMasks(b, b0) && b == []
    ensures Unites(a, a0, b0)
  {
    hide Mask, Or;
    forall x ensures Mask(a, x) == Or(Mask(a0, x), Mask(b0, x)) {
      NoMask(b, x);
      OrNone(Mask(a, x));
    }
  }

  lemma MergeStep(a: seq<PollFd>, b: seq<PollFd>, i: nat, si: nat)
    requires i < |a| && si < |b|
    ensures Merged(a[i..], b[si..]) ==
            if a[i].fd == b[si].fd then [PollFd(a[i].fd, a[i].events | b[si].events)] + Merged(a[i + 1..], b[si + 1..])
            else if a[i].fd < b[si].fd then [a[i]] + Merged(a[i + 1..], b[si..])
            else [b[si]] + Merged(a[i..], b[si + 1..])
  {
    assert a[i..][1..] == a[i + 1..] && b[si..][1..] == b[si + 1..];
  }

  lemma MergedRest(done: seq<PollFd>, a: seq<PollFd>, b: seq<PollFd>)
    requires a == [] || b == []
    ensures done + Merged(a, b) == done + a + b
  {
    assert Merged(a, b) == a + b;
  }

  lemma Moved(done: seq<PollFd>, next: PollFd, rest: seq<PollFd>)
    ensures done + ([next] + rest) == (done + [next]) + rest
  {
  }

  // rktio_fd_set_data_t: the first count cells hold the set, and there is always a spare one.
  class PollData {
    var pfd: array<PollFd>
    var size: nat
    var count: nat
    var skipSleep: bool

    ghost predicate Valid()
      reads this, pfd
    {
      pfd.Length == size + 1 && count <= size && size > 0 && Distinct(pfd[..count])
    }

    ghost function Contents(): seq<PollFd>
      requires count <= pfd.Length
      reads this, pfd
    {
      pfd[..count]
    }

    constructor ()
      ensures Valid() && Contents() == [] && !skipSleep && fresh(pfd)
    {
      size, count, skipSleep := 32, 0, false;
      pfd := new PollFd[33](_ => PollFd(0, 0));
    }

    // rktio_fdzero
    method FdZero()
      requires Valid()
      modifies this`count, this`skipSleep
      ensures Valid() && Contents() == [] && !skipSleep
    {
      count, skipSleep := 0, false;
    }

    // find_fd_pos
    method FindFdPos(n: int) returns (pos: nat)
      requires Valid()
      ensures pos == Find(Contents(), n)
    {
      pos := 0;
      ghost var es := Contents();
      while pos < count && pfd[pos].fd != n
        invariant pos <= count && Find(es, n) == pos + Find(es[pos..], n)
      {
        assert es[pos..][1..] == es[pos + 1..];
        pos := pos + 1;
      }
    }

    // rktio_fdclr
    method FdClr(flag: Events, n: int)
      requires Valid()
      modifies pfd
      ensures Valid()
      ensures forall x :: Mask(Contents(), x) == if x == n then Less(old(Mask(Contents(), x)), flag) else old(Mask(Contents(), x))
    {
      hide Mask, Less;
      if flag == 0 {
        forall x ensures Less(Mask(Contents(), x), flag) == Mask(Contents(), x) { LessNone(Mask(Contents(), x)); }
        return;
      }
      var pos := FindFdPos(n);
      ghost var es := Contents();
      if pos < count {
        var was := pfd[pos].events;
        pfd[pos] := pfd[pos].(events := Subtracted(was, flag));
        Cleared(was, flag);
        MaskAt(es, pos);
        assert Contents() == es[pos := es[pos].(events := Less(was, flag))];
        forall x ensures Mask(Contents(), x) == if x == n then Less(was, flag) else Mask(es, x) {
          MaskSet(es, pos, Less(was, flag), x);
        }
        MaskSet(es, pos, Less(was, flag), 0);
      } else {
        Unlisted(es, n);
        LessNone(flag);
      }
    }

    // Lines 146-155: make room for one more.
    method Grow()
      requires Valid()
      modifies this`pfd, this`size
      ensures Valid() && count < size && Contents() == old(Contents()) && (pfd == old(pfd) || fresh(pfd))
      ensures size == if count < old(size) then old(size) else 2 * old(size)
    {
      if count >= size {
        var newSize := size * 2;
        var newPfd := new PollFd[newSize + 1](i requires 0 <= i reads this, pfd =>
          if i < pfd.Length then pfd[i] else PollFd(0, 0));
        assert newPfd[..count] == pfd[..count];
        pfd, size := newPfd, newSize;
      }
    }

    // rktio_fdset
    method FdSet(flag: Events, n: int)
      requires Valid()
      modifies this`pfd, this`size, this`count, pfd
      ensures Valid() && (pfd == old(pfd) || fresh(pfd))
      ensures forall x :: Mask(Contents(), x) == if x == n then Or(old(Mask(Contents(), x)), flag) else old(Mask(Contents(), x))
    {
      hide Mask;
      if flag == 0 {
        forall x ensures Or(Mask(Contents(), x), flag) == Mask(Contents(), x) { OrNone(Mask(Contents(), x)); }
        return;
      }
      var pos := FindFdPos(n);
      ghost var es := Contents();
      if pos < count {
        var was := pfd[pos].events;
        pfd[pos] := pfd[pos].(events := Or(was, flag));
        MaskAt(es, pos);
        assert Contents() == es[pos := es[pos].(events := Or(was, flag))];
        forall x ensures Mask(Contents(), x) == if x == n then Or(was, flag) else Mask(es, x) {
          MaskSet(es, pos, Or(was, flag), x);
        }
        MaskSet(es, pos, Or(was, flag), 0);
        return;
      }
      Grow();
      pfd[count] := PollFd(n, flag);
      count := count + 1;
      assert Contents() == es + [PollFd(n, flag)];
      MaskAppend(es, PollFd(n, flag), 0);
      Unlisted(es, n);
      OrNone(flag);
      forall x ensures Mask(Contents(), x) == if x == n then flag else Mask(es, x) {
        MaskAppend(es, PollFd(n, flag), x);
      }
    }

    // The loop of rktio_clean_fd_set: move the entries with events to the front.
    method Compact() returns (j: nat)
      requires count <= pfd.Length
      modifies pfd
      ensures j <= count && pfd[..j] == Cleaned(old(Contents()))
    {
      hide Cleaned;
      ghost var es := Contents();
      var i := 0;
      j := 0;
      CleanedNone(es);
      while i < count
        invariant j <= i <= count == |es|
        invariant pfd[..j] == Cleaned(es[..i])
        invariant pfd[i..count] == es[i..]
      {
        CleanedAppend(es[..i], es[i]);
        assert es[..i + 1] == es[..i] + [es[i]] && pfd[i] == pfd[i..count][0] == es[i];
        ghost var done, rest := pfd[..j], pfd[i..count][1..];
        assert rest == es[i + 1..];
        if pfd[i].events != 0 {
          if j < i { pfd[j] := pfd[i]; }
          assert pfd[..j + 1] == done + [es[i]];
          j := j + 1;
        }
        assert pfd[i + 1..count] == rest;
        i := i + 1;
      }
      assert es[..i] == es;
    }

    // rktio_clean_fd_set
    method Clean()
      requires Valid()
      modifies this`count, pfd
      ensures Valid() && Contents() == Cleaned(old(Contents())) && SameMasks(Contents(), old(Contents()))
    {
      hide Mask, Cleaned;
      ghost var es := Contents();
      count := Compact();
      CleanedMask(es, 0);
      forall x ensures Mask(Contents(), x) == Mask(es, x) { CleanedMask(es, x); }
    }

    // What qsort with cmp_fd does to the set.
    method QSort()
      requires Valid()
      modifies pfd
      ensures Valid() && Ordered(Contents()) && Contents() == SortByFd(old(Contents())) && SameMasks(Contents(), old(Contents()))
    {
      hide Mask;
      ghost var es := Contents();
      var sorted := SortByFd(pfd[..count]);
      forall i | 0 <= i < count { pfd[i] := sorted[i]; }
      assert Contents() == sorted;
      SortOrdered(es);
      forall x ensures Mask(Contents(), x) == Mask(es, x) { SortMask(es, x); }
    }

    // Lines 214-230: merge while both have entries left.
    method MergeBoth(pfds: array<PollFd>, src: PollData) returns (i: nat, si: nat, j: nat)
      requires count <= pfd.Length && src.count <= src.pfd.Length
      requires pfds != pfd && pfds != src.pfd && pfds.Length >= count + src.count
      modifies pfds
      ensures i <= count && si <= src.count && j <= i + si && (i == count || si == src.count)
      ensures pfds[..j] + Merged(Contents()[i..], src.Contents()[si..]) == Merged(Contents(), src.Contents())
    {
      hide Merged;
      ghost var a, b := Contents(), src.Contents();
      i, si, j := 0, 0, 0;
      assert a[0..] == a && b[0..] == b;
      while i < count && si < src.count
        invariant i <= count && si <= src.count && j <= i + si
        invariant pfds[..j] + Merged(a[i..], b[si..]) == Merged(a, b)
      {
        ghost var done := pfds[..j];
        MergeStep(a, b, i, si);
        var next;
        if pfd[i].fd == src.pfd[si].fd {
          next := PollFd(pfd[i].fd, pfd[i].events | src.pfd[si].events);
          i, si := i + 1, si + 1;
        } else if pfd[i].fd < src.pfd[si].fd {
          next := pfd[i];
          i := i + 1;
        } else {
          next := src.pfd[si];
          si := si + 1;
        }
        Moved(done, next, Merged(a[i..], b[si..]));
        Store(pfds, j, next);
        j := j + 1;
      }
    }

    static method Store(pfds: array<PollFd>, j: nat, next: PollFd)
      requires j < pfds.Length
      modifies pfds
      ensures pfds[..j + 1] == old(pfds[..j]) + [next]
    {
      pfds[j] := next;
    }

    // The loops for what is left of one.
    static method CopyRest(pfds: array<PollFd>, j: nat, from: array<PollFd>, i: nat, n: nat) returns (j': nat)
      requires i <= n <= from.Length && pfds != from && j + (n - i) <= pfds.Length
      modifies pfds
      ensures j' == j + (n - i) && pfds[..j'] == old(pfds[..j]) + from[i..n]
    {
      var k := i;
      j' := j;
      while k < n
        invariant i <= k <= n && j' == j + (k - i)
        invariant pfds[..j'] == old(pfds[..j]) + from[i..k]
      {
        pfds[j'] := from[k];
        k, j' := k + 1, j' + 1;
      }
    }

    method MergeInto(pfds: array<PollFd>, src: PollData) returns (j: nat)
      requires count <= pfd.Length && src.count <= src.pfd.Length
      requires pfds != pfd && pfds != src.pfd && pfds.Length >= count + src.count
      modifies pfds
      ensures j <= count + src.count && pfds[..j] == Merged(Contents(), src.Contents())
    {
      hide Merged;
      var i, si;
      i, si, j := MergeBoth(pfds, src);
      ghost var done := pfds[..j];
      j := CopyRest(pfds, j, pfd, i, count);
      j := CopyRest(pfds, j, src.pfd, si, src.count);
      ghost var ra, rb := Contents()[i..], src.Contents()[si..];
      assert ra == pfd[i..count] && rb == src.pfd[si..src.count];
      MergedRest(done, ra, rb);
    }

    // Lines 240-248: the merged array becomes the set's, or is copied into it.
    method Install(pfds: array<PollFd>, j: nat, nc: nat)
      requires pfds.Length == nc + 1 && j <= nc && nc > 0 && pfds != pfd && Ordered(pfds[..j])
      requires pfd.Length == size + 1 && size > 0
      modifies this`pfd, this`size, this`count, pfd
      ensures Valid() && Contents() == pfds[..j] == old(pfds[..j]) && (pfd == old(pfd) || pfd == pfds)
    {
      if nc > size {
        pfd, size := pfds, nc;
      } else {
        forall k | 0 <= k < j { pfd[k] := pfds[k]; }
      }
      count := j;
    }

    // rktio_merge_fd_sets: afterwards the set has the pointwise union of the masks, in order of
    // descriptors unless there was nothing to merge.
    method Merge(src: PollData)
      requires Valid() && src.Valid() && src != this && src.pfd != pfd
      modifies this, pfd, src`count, src.pfd
      ensures Valid() && src.Valid() && (pfd == old(pfd) || fresh(pfd))
      ensures Unites(Contents(), old(Contents()), old(src.Contents())) && SameMasks(src.Contents(), old(src.Contents()))
      ensures skipSleep == (old(skipSleep) || src.skipSleep)
      ensures if src.count == 0 then Contents() == Cleaned(old(Contents())) else Ordered(Contents())
    {
      hide SameMasks, Unites, Cleaned, Merged, SortByFd;
      ghost var m, ms := Contents(), src.Contents();
      Clean();
      src.Clean();
      ghost var mc, msc := Contents(), src.Contents();
      if src.skipSleep { skipSleep := true; }
      if src.count == 0 {
        UnitesNothing(mc, m, msc, ms);
        return;
      }
      QSort();
      src.QSort();
      ghost var a, b := Contents(), src.Contents();
      SameMasksTrans(a, mc, m);
      SameMasksTrans(b, msc, ms);
      UnitesAll(a, b, m, ms);
      var nc := count + src.count;
      var pfds := new PollFd[nc + 1];
      var j := MergeInto(pfds, src);
      Install(pfds, j, nc);
    }

    // What rktio_sleep hands to poll: the set, and in the spare cell the signal pipe.
    method SleepArgument(externalEventFd: int) returns (n: nat)
      requires Valid()
      modifies pfd
      ensures Valid() && Contents() == old(Contents()) && n <= pfd.Length
      ensures pfd[..n] == Contents() + if externalEventFd != 0 then [PollFd(externalEventFd, 0x0001)] else []
    {
      n := count;
      if externalEventFd != 0 {
        pfd[n] := PollFd(externalEventFd, POLLIN);
        n := n + 1;
      }
    }
  }

  lemma Unlisted(es: seq<PollFd>, n: int)
    requires Find(es, n) == |es|
    ensures Mask(es, n) == 0
  {
  }
}
