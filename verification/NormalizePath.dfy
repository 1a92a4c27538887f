// Rewriting a path to normal form (NormalizePath in scribble-common.js).
module NormalizePaths {
  // The first slash of s from i on, or the end.
  function NextSlash(s: string, i: nat): (k: nat)
    requires i <= |s|
    ensures i <= k <= |s| && (k < |s| ==> s[k] == '/') && forall j :: i <= j < k ==> s[j] != '/'
    decreases |s| - i
  {
    if i == |s| || s[i] == '/' then i else NextSlash(s, i + 1)
  }

  // ---- the three rules; the last two replace the leftmost match

  // Every run of slashes by one.
  function Squeeze(s: string): (r: string)
    ensures |r| <= |s|
    ensures |r| == |s| ==> r == s
  {
    if s == "" then ""
    else if |s| > 1 && s[0] == '/' && s[1] == '/' then Squeeze(s[1..])
    else [s[0]] + Squeeze(s[1..])
  }

  // s starts with a segment of one dot.
  predicate DotAt(s: string) { |s| >= 2 && s[0] == '/' && s[1] == '.' && (|s| == 2 || s[2] == '/') }

  function DropDot(s: string): (r: string)
    ensures |r| <= |s|
    ensures |r| == |s| ==> r == s
  {
    if s == "" then ""
    else if DotAt(s) then (if |s| == 2 then "/" else "/" + s[3..])
    else [s[0]] + DropDot(s[1..])
  }

  // s starts with a segment of two dots.
  predicate UpAt(s: string) { |s| >= 3 && s[0] == '/' && s[1] == '.' && s[2] == '.' && (|s| == 3 || s[3] == '/') }

  // s starts with a segment and, after it, one of two dots.
  predicate PairAt(s: string) { s != "" && s[0] == '/' && UpAt(s[NextSlash(s, 1)..]) }

  function DropPair(s: string): (r: string)
    ensures |r| <= |s|
    ensures |r| == |s| ==> r == s
  {
    if s == "" then ""
    else if PairAt(s) then AfterPair(s, NextSlash(s, 1))
    else [s[0]] + DropPair(s[1..])
  }

  // A slash, and what is left after a segment of two dots at k.
  function AfterPair(s: string, k: nat): (r: string)
    requires k + 3 <= |s|
    ensures |r| < |s|
  {
    if |s| == k + 3 then "/" else "/" + s[k + 4..]
  }

  function Rule(i: nat, s: string): (r: string)
    requires i < 3
    ensures |r| <= |s| && (|r| == |s| ==> r == s)
  {
    if i == 0 then Squeeze(s) else if i == 1 then DropDot(s) else DropPair(s)
  }

  // A rule until it changes nothing; it ends because every change makes the path shorter.
  function Exhaust(i: nat, s: string): (r: string)
    requires i < 3
    ensures Rule(i, r) == r
    decreases |s|
  {
    var t := Rule(i, s);
    if t == s then s else Exhaust(i, t)
  }

  function Normalize(path: string): string { Exhaust(2, Exhaust(1, Exhaust(0, path))) }

  method NormalizePath(path: string) returns (r: string)
    ensures r == Normalize(path)
  {
    r := path;
    var i := 0;
    ghost var s := path;
    while i < 3
      invariant i <= 3
      invariant i == 0 ==> r == path
      invariant i == 1 ==> r == Exhaust(0, path)
      invariant i == 2 ==> r == Exhaust(1, Exhaust(0, path))
      invariant i == 3 ==> r == Normalize(path)
    {
      ghost var start := r;
      var tmp := Rule(i, r);
      while tmp != r
        invariant tmp == Rule(i, r) && Exhaust(i, r) == Exhaust(i, start)
        decreases |r|
      {
        r := tmp;
        tmp := Rule(i, r);
      }
      i := i + 1;
    }
  }

  // ---- where a path leads

  // One segment further, from the directories above; above the root is the root.
  function Enter(dirs: seq<string>, segment: string): seq<string> {
    if segment == "" || segment == "." then dirs
    else if segment == ".." then (if dirs == [] then [] else dirs[..|dirs| - 1])
    else dirs + [segment]
  }

  // s is a sequence of segments with a slash before each.
  predicate Rooted(s: string) { s == "" || s[0] == '/' }

  function Follow(dirs: seq<string>, s: string): seq<string>
    requires Rooted(s)
    decreases |s|
  {
    if s == "" then dirs
    else
      var k := NextSlash(s, 1);
      Follow(Enter(dirs, s[1..k]), s[k..])
  }

  predicate Absolute(path: string) { path != "" && path[0] == '/' }

  function Location(path: string): seq<string>
    requires Absolute(path)
  {
    Follow([], path)
  }

  // ---- normal form

  // No empty segment but the last.
  predicate NoDouble(s: string)
    requires Rooted(s)
    decreases |s|
  {
    s == "" || var k := NextSlash(s, 1); (k == 1 ==> |s| == 1) && NoDouble(s[k..])
  }

  predicate NoDot(s: string)
    requires Rooted(s)
    decreases |s|
  {
    s == "" || (!DotAt(s) && NoDot(s[NextSlash(s, 1)..]))
  }

  // No segment of two dots but the first.
  predicate NoPair(s: string)
    requires Rooted(s)
    decreases |s|
  {
    s == "" || (!PairAt(s) && NoPair(s[NextSlash(s, 1)..]))
  }

  predicate Normal(s: string) { Absolute(s) && NoDouble(s) && NoDot(s) && NoPair(s) }

  // ---- segments at a time

  lemma NextInFront(s: string, k: nat, t: string)
    requires s != "" && k == NextSlash(s, 1) && Rooted(t)
    ensures NextSlash(s[..k] + t, 1) == k
    ensures (s[..k] + t)[1..k] == s[1..k] && (s[..k] + t)[k..] == t
  {
  }

  // A segment goes through a rule as it is unless the rule applies to it.
  lemma {:induction false} DotPasses(s: string, i: nat, k: nat)
    requires 1 <= i <= |s| && k == NextSlash(s, i)
    ensures DropDot(s[i..]) == s[i..k] + DropDot(s[k..])
    decreases k - i
  {
    if i == k {
      assert s[i..k] == "";
    } else {
      DotPasses(s, i + 1, k);
      ghost var t := s[i..];
      assert t[0] == s[i] && t[1..] == s[i + 1..];
      DotLater(t);
      Attached(s, i, k, DropDot(s[k..]));
    }
  }

  lemma DotSegment(s: string)
    requires s != "" && Rooted(s)
    ensures var k := NextSlash(s, 1);
            DropDot(s) == if DotAt(s) then (if |s| == 2 then "/" else s[2..]) else s[..k] + DropDot(s[k..])
    ensures Rooted(DropDot(s)) && DropDot(s) != ""
  {
    hide NextSlash;
    var k := NextSlash(s, 1);
    if DotAt(s) {
      DotHere(s);
    } else {
      DotLater(s);
      DotPasses(s, 1, k);
      Headed(s, k, DropDot(s[k..]));
    }
  }

  lemma DotHere(s: string)
    requires DotAt(s)
    ensures DropDot(s) == if |s| == 2 then "/" else s[2..]
  {
    if |s| > 2 { assert s[2..] == "/" + s[3..]; }
  }

  lemma DotLater(s: string)
    requires s != "" && !DotAt(s)
    ensures DropDot(s) == [s[0]] + DropDot(s[1..])
  {
  }

  lemma Headed(s: string, k: nat, t: string)
    requires 1 <= k <= |s|
    ensures [s[0]] + (s[1..k] + t) == s[..k] + t && (s[..k] + t)[0] == s[0]
  {
    assert s[..k] == [s[0]] + s[1..k];
  }

  lemma {:induction false} PairPasses(s: string, i: nat, k: nat)
    requires 1 <= i <= |s| && k == NextSlash(s, i)
    ensures DropPair(s[i..]) == s[i..k] + DropPair(s[k..])
    decreases k - i
  {
    hide PairAt, DropPair;
    if i == k {
      assert s[i..k] == "";
    } else {
      PairPasses(s, i + 1, k);
      ghost var t := s[i..];
      assert t[0] == s[i] && t[1..] == s[i + 1..];
      NoPairHere(t);
      PairLater(t);
      Attached(s, i, k, DropPair(s[k..]));
    }
  }

  lemma Attached(s: string, i: nat, k: nat, t: string)
    requires i < k <= |s|
    ensures [s[i]] + (s[i + 1..k] + t) == s[i..k] + t
  {
    assert s[i..k] == [s[i]] + s[i + 1..k];
  }

  lemma NoPairHere(t: string)
    requires t == "" || t[0] != '/'
    ensures !PairAt(t)
  {
  }

  lemma PairSegment(s: string)
    requires s != "" && Rooted(s)
    ensures var k := NextSlash(s, 1);
            DropPair(s) == if PairAt(s) then (if |s| == k + 3 then "/" else s[k + 3..]) else s[..k] + DropPair(s[k..])
    ensures Rooted(DropPair(s)) && DropPair(s) != ""
  {
    hide NextSlash;
    var k := NextSlash(s, 1);
    if PairAt(s) {
      PairHere(s);
    } else {
      PairLater(s);
      PairPasses(s, 1, k);
      Headed(s, k, DropPair(s[k..]));
    }
  }

  lemma PairHere(s: string)
    requires PairAt(s)
    ensures var k := NextSlash(s, 1);
            k + 3 <= |s| && DropPair(s) == (if |s| == k + 3 then "/" else s[k + 3..])
    ensures Rooted(DropPair(s)) && DropPair(s) != ""
  {
    hide NextSlash, AfterPair, UpAt;
    var k := NextSlash(s, 1);
    UpBounds(s[k..]);
    AfterPairIs(s, k);
  }

  lemma UpBounds(u: string)
    requires UpAt(u)
    ensures |u| >= 3 && (|u| > 3 ==> u[3] == '/')
  {
  }

  lemma AfterPairIs(s: string, k: nat)
    requires k + 3 <= |s| && (k + 3 < |s| ==> s[k + 3] == '/')
    ensures AfterPair(s, k) == if |s| == k + 3 then "/" else s[k + 3..]
  {
    if |s| > k + 3 { Behind(s, k + 3); }
  }

  lemma Behind(s: string, i: nat)
    requires i < |s|
    ensures [s[i]] + s[i + 1..] == s[i..]
  {
  }

  lemma PairLater(s: string)
    requires s != "" && !PairAt(s)
    ensures DropPair(s) == [s[0]] + DropPair(s[1..])
  {
    hide PairAt;
  }

  lemma {:induction false} SqueezePasses(s: string, i: nat, k: nat)
    requires 1 <= i <= |s| && k == NextSlash(s, i)
    ensures Squeeze(s[i..]) == s[i..k] + Squeeze(s[k..])
    decreases k - i
  {
    if i == k {
      assert s[i..k] == "";
    } else {
      SqueezePasses(s, i + 1, k);
      ghost var t := s[i..];
      assert t[0] == s[i] && t[1..] == s[i + 1..];
      SqueezeLater(t);
      Attached(s, i, k, Squeeze(s[k..]));
    }
  }

  lemma SqueezeLater(t: string)
    requires t != "" && (t[0] != '/' || |t| == 1 || t[1] != '/')
    ensures Squeeze(t) == [t[0]] + Squeeze(t[1..])
  {
  }

  lemma SqueezeSegment(s: string)
    requires s != "" && Rooted(s)
    ensures var k := NextSlash(s, 1);
            Squeeze(s) == if k == 1 < |s| then Squeeze(s[1..]) else s[..k] + Squeeze(s[k..])
  {
    var k := NextSlash(s, 1);
    if !(k == 1 < |s|) {
      SqueezePasses(s, 1, k);
      SqueezeLater(s);
      Headed(s, k, Squeeze(s[k..]));
    }
  }

  // ---- each rule leads to the same place and does what it is for

  lemma {:induction false} SqueezeKeeps(s: string, dirs: seq<string>)
    requires Rooted(s)
    ensures Rooted(Squeeze(s)) && (s != "" ==> Squeeze(s) != "")
    ensures Follow(dirs, Squeeze(s)) == Follow(dirs, s) && NoDouble(Squeeze(s))
    decreases |s|
  {
    if s != "" {
      var k := NextSlash(s, 1);
      SqueezeSegment(s);
      if k == 1 < |s| {
        SqueezeKeeps(s[1..], dirs);
        assert s[1..k] == "";
      } else {
        SqueezeKeeps(s[k..], Enter(dirs, s[1..k]));
        NextInFront(s, k, Squeeze(s[k..]));
      }
    }
  }

  lemma {:induction false} DotKeeps(s: string, dirs: seq<string>)
    requires Rooted(s) && NoDouble(s)
    ensures Rooted(DropDot(s)) && Follow(dirs, DropDot(s)) == Follow(dirs, s) && NoDouble(DropDot(s))
    decreases |s|
  {
    if s != "" {
      var k := NextSlash(s, 1);
      DotSegment(s);
      if DotAt(s) {
        assert k == 2 && s[1..2] == ".";
      } else {
        DotKeeps(s[k..], Enter(dirs, s[1..k]));
        NextInFront(s, k, DropDot(s[k..]));
        if k < |s| { DotSegment(s[k..]); }
      }
    }
  }

  // The directory a segment of two dots leaves is the one before it, or there is none to leave.
  lemma {:induction false} PairKeeps(s: string, dirs: seq<string>)
    requires Rooted(s) && NoDouble(s) && NoDot(s)
    requires dirs == [] || !UpAt(s)
    ensures Rooted(DropPair(s)) && NoDouble(DropPair(s)) && NoDot(DropPair(s))
    ensures Follow(dirs, DropPair(s)) == Follow(dirs, s)
    ensures UpAt(DropPair(s)) ==> UpAt(s) || dirs == [] || PairAt(s)
    decreases |s|
  {
    if s != "" {
      var k := NextSlash(s, 1);
      PairSegment(s);
      if PairAt(s) {
        PairFollowed(s, dirs);
      } else {
        PairKeeps(s[k..], Enter(dirs, s[1..k]));
        NextInFront(s, k, DropPair(s[k..]));
        if k < |s| { PairSegment(s[k..]); }
      }
    }
  }

  lemma PairFollowed(s: string, dirs: seq<string>)
    requires Rooted(s) && NoDouble(s) && NoDot(s) && PairAt(s) && (dirs == [] || !UpAt(s))
    ensures var k := NextSlash(s, 1);
            && Follow(dirs, s) == Follow(dirs, s[k + 3..]) && Rooted(s[k + 3..])
            && NoDouble(s[k + 3..]) && NoDot(s[k + 3..])
  {
    var k := NextSlash(s, 1);
    var t := s[k..];
    UpSegment(t);
    assert t[3..] == s[k + 3..];
    var name := s[1..k];
    Named(s);
    assert Follow(dirs, s) == Follow(Enter(dirs, name), t);
    assert Follow(Enter(dirs, name), t) == Follow(Enter(Enter(dirs, name), ".."), t[3..]);
    assert Enter(Enter(dirs, name), "..") == dirs;
  }

  lemma UpSegment(t: string)
    requires UpAt(t)
    ensures NextSlash(t, 1) == 3 && t[1..3] == ".." && Rooted(t[3..])
  {
  }

  // The first segment is a name, or two dots.
  lemma Named(s: string)
    requires Rooted(s) && NoDouble(s) && NoDot(s) && PairAt(s)
    ensures var name := s[1..NextSlash(s, 1)];
            name != "" && name != "." && (name == ".." ==> UpAt(s))
  {
    hide NoDouble, NoDot;
    var k := NextSlash(s, 1);
    var name := s[1..k];
    assert k < |s|;
    assert name != "" by { Unfold(s); }
    if name == "." {
      assert s[1] == name[0] && DotAt(s);
      Unfold(s);
    }
    if name == ".." { assert s[1] == name[0] && s[2] == name[1] && UpAt(s); }
  }

  lemma Unfold(s: string)
    requires Rooted(s) && NoDouble(s) && NoDot(s) && s != ""
    ensures !DotAt(s) && (NextSlash(s, 1) == 1 ==> |s| == 1)
  {
  }

  // ---- NormalizePath as a whole

  // A rule that changes nothing has nothing to change.
  lemma {:induction false} DotDone(s: string)
    requires Rooted(s) && DropDot(s) == s
    ensures NoDot(s)
    decreases |s|
  {
    if s != "" {
      var k := NextSlash(s, 1);
      DotSegment(s);
      assert s == s[..k] + s[k..];
      assert !DotAt(s);
      SameTail(s[..k], DropDot(s[k..]), s[k..]);
      DotDone(s[k..]);
    }
  }

  lemma SameTail(x: string, t: string, u: string)
    requires x + t == x + u
    ensures t == u
  {
    assert t == (x + t)[|x|..] && u == (x + u)[|x|..];
  }

  lemma {:induction false} PairDone(s: string)
    requires Rooted(s) && DropPair(s) == s
    ensures NoPair(s)
    decreases |s|
  {
    if s != "" {
      var k := NextSlash(s, 1);
      PairSegment(s);
      if PairAt(s) { PairHere(s); }
      assert s == s[..k] + s[k..];
      assert !PairAt(s);
      SameTail(s[..k], DropPair(s[k..]), s[k..]);
      PairDone(s[k..]);
    }
  }

  lemma {:induction false} ExhaustSqueeze(s: string)
    requires Absolute(s)
    ensures Absolute(Exhaust(0, s)) && Location(Exhaust(0, s)) == Location(s) && NoDouble(Exhaust(0, s))
    decreases |s|
  {
    SqueezeKeeps(s, []);
    if Squeeze(s) != s { ExhaustSqueeze(Squeeze(s)); }
  }

  lemma {:induction false} ExhaustDot(s: string)
    requires Absolute(s) && NoDouble(s)
    ensures Absolute(Exhaust(1, s)) && Location(Exhaust(1, s)) == Location(s)
    ensures NoDouble(Exhaust(1, s)) && NoDot(Exhaust(1, s))
    decreases |s|
  {
    DotKeeps(s, []);
    DotSegment(s);
    if DropDot(s) == s { DotDone(s); } else { ExhaustDot(DropDot(s)); }
  }

  lemma {:induction false} ExhaustPair(s: string)
    requires Absolute(s) && NoDouble(s) && NoDot(s)
    ensures Absolute(Exhaust(2, s)) && Location(Exhaust(2, s)) == Location(s) && Normal(Exhaust(2, s))
    decreases |s|
  {
    PairKeeps(s, []);
    PairSegment(s);
    if DropPair(s) == s { PairDone(s); } else { ExhaustPair(DropPair(s)); }
  }

  // An absolute path is brought to normal form, and leads to where it did.
  lemma NormalizeCorrect(path: string)
    requires Absolute(path)
    ensures Normal(Normalize(path)) && Location(Normalize(path)) == Location(path)
  {
    ExhaustSqueeze(path);
    ExhaustDot(Exhaust(0, path));
    ExhaustPair(Exhaust(1, Exhaust(0, path)));
  }

  // ---- normal paths stay as they are

  lemma {:induction false} SqueezeNormal(s: string)
    requires Rooted(s) && NoDouble(s)
    ensures Squeeze(s) == s
    decreases |s|
  {
    if s != "" {
      var k := NextSlash(s, 1);
      SqueezeSegment(s);
      SqueezeNormal(s[k..]);
      assert s[..k] + s[k..] == s;
    }
  }

  lemma {:induction false} DotNormal(s: string)
    requires Rooted(s) && NoDot(s)
    ensures DropDot(s) == s
    decreases |s|
  {
    if s != "" {
      var k := NextSlash(s, 1);
      DotSegment(s);
      DotNormal(s[k..]);
      assert s[..k] + s[k..] == s;
    }
  }

  lemma {:induction false} PairNormal(s: string)
    requires Rooted(s) && NoPair(s)
    ensures DropPair(s) == s
    decreases |s|
  {
    if s != "" {
      var k := NextSlash(s, 1);
      PairSegment(s);
      PairNormal(s[k..]);
      assert s[..k] + s[k..] == s;
    }
  }

  // The normal paths are exactly those that NormalizePath leaves alone, and what it gives is one.
  lemma NormalExactly(path: string)
    requires Absolute(path)
    ensures Normal(path) <==> Normalize(path) == path
    ensures Normalize(Normalize(path)) == Normalize(path)
  {
    NormalizeCorrect(path);
    NormalStays(Normalize(path));
    if Normal(path) { NormalStays(path); }
  }

  lemma NormalStays(path: string)
    requires Normal(path)
    ensures Normalize(path) == path
  {
    SqueezeNormal(path);
    DotNormal(path);
    PairNormal(path);
  }

  // ---- a normal path spells out its location

  // The segments of s but an empty last one.
  function Spelled(s: string): seq<string>
    requires Rooted(s)
    decreases |s|
  {
    if s == "" || |s| == 1 then []
    else
      var k := NextSlash(s, 1);
      [s[1..k]] + Spelled(s[k..])
  }

  // Unless it starts by leaving the root, following a normal path is reading its segments.
  lemma {:induction false} NormalSpells(s: string, dirs: seq<string>)
    requires Rooted(s) && NoDouble(s) && NoDot(s) && NoPair(s) && !UpAt(s)
    ensures Follow(dirs, s) == dirs + Spelled(s)
    decreases |s|
  {
    if s == "" {
    } else if |s| == 1 {
      assert s[1..1] == "" && s[1..] == "";
    } else {
      var k := NextSlash(s, 1);
      var name := s[1..k];
      NotSpecial(s);
      assert Follow(dirs, s) == Follow(dirs + [name], s[k..]);
      assert Spelled(s) == [name] + Spelled(s[k..]);
      NormalSpells(s[k..], dirs + [name]);
      assert dirs + [name] + Spelled(s[k..]) == dirs + ([name] + Spelled(s[k..]));
    }
  }

  lemma NotSpecial(s: string)
    requires Rooted(s) && NoDouble(s) && NoDot(s) && NoPair(s) && !UpAt(s) && |s| > 1
    ensures var name := s[1..NextSlash(s, 1)];
            name != "" && name != "." && name != ".." && !UpAt(s[NextSlash(s, 1)..])
  {
    var k := NextSlash(s, 1);
    var name := s[1..k];
    if |name| >= 1 { assert name[0] == s[1]; }
    if |name| >= 2 { assert name[1] == s[2]; }
  }

  // So two paths that do not start by leaving the root lead to the same place exactly when their
  // normal forms have the same segments.
  lemma SameLocation(p: string, q: string)
    requires Absolute(p) && Absolute(q) && !UpAt(Normalize(p)) && !UpAt(Normalize(q))
    ensures Normal(Normalize(p)) && Normal(Normalize(q))
    ensures Location(p) == Location(q) <==> Spelled(Normalize(p)) == Spelled(Normalize(q))
  {
    hide Normalize;
    NormalizeCorrect(p);
    NormalizeCorrect(q);
    NormalSpells(Normalize(p), []);
    NormalSpells(Normalize(q), []);
    assert [] + Spelled(Normalize(p)) == Spelled(Normalize(p));
    assert [] + Spelled(Normalize(q)) == Spelled(Normalize(q));
  }

  // ---- directory names

  predicate EndsInSlash(s: string) { s != "" && s[|s| - 1] == '/' }

  lemma {:induction false} SqueezeKeepsEnd(s: string)
    requires EndsInSlash(s)
    ensures EndsInSlash(Squeeze(s))
  {
    if |s| > 1 { SqueezeKeepsEnd(s[1..]); }
  }

  lemma {:induction false} DotKeepsEnd(s: string)
    requires EndsInSlash(s)
    ensures EndsInSlash(DropDot(s))
  {
    if DotAt(s) {
      DotHere(s);
    } else {
      DotLater(s);
      if |s| > 1 { DotKeepsEnd(s[1..]); }
    }
  }

  lemma {:induction false} PairKeepsEnd(s: string)
    requires EndsInSlash(s)
    ensures EndsInSlash(DropPair(s))
  {
    hide PairAt, NextSlash;
    if PairAt(s) {
      PairHere(s);
    } else {
      PairLater(s);
      if |s| > 1 { PairKeepsEnd(s[1..]); }
    }
  }

  lemma RuleKeepsEnd(i: nat, s: string)
    requires i < 3 && EndsInSlash(s)
    ensures EndsInSlash(Rule(i, s))
  {
    SqueezeKeepsEnd(s);
    DotKeepsEnd(s);
    PairKeepsEnd(s);
  }

  lemma {:induction false} ExhaustKeepsEnd(i: nat, s: string)
    requires i < 3 && EndsInSlash(s)
    ensures EndsInSlash(Exhaust(i, s))
    decreases |s|
  {
    RuleKeepsEnd(i, s);
    if Rule(i, s) != s { ExhaustKeepsEnd(i, Rule(i, s)); }
  }

  // A directory name, as SetPLTRoot stores, stays one.
  lemma DirectoryStaysOne(path: string)
    requires EndsInSlash(path)
    ensures EndsInSlash(Normalize(path))
  {
    ExhaustKeepsEnd(0, path);
    ExhaustKeepsEnd(1, Exhaust(0, path));
    ExhaustKeepsEnd(2, Exhaust(1, Exhaust(0, path)));
  }
}
