// The probe sequence of the open-addressed table: start at `key mod size`, step by an odd
// distance, wrap at a power of two.  The arithmetic here is what lets a probe loop stop as soon
// as it is back at its start.
module Probing {

  ghost predicate IsPowerOfTwo(n: nat) {
    n == 1 || (n > 0 && n % 2 == 0 && IsPowerOfTwo(n / 2))
  }

  lemma PowerOfTwoDoubles(n: nat)
    requires IsPowerOfTwo(n)
    ensures IsPowerOfTwo(2 * n)
  {
    assert 2 * n / 2 == n;
  }

  // `key & mask` for a mask of low bits.
  function Start(key: nat, size: nat): (s: nat)
    requires size > 0
    ensures s < size
  {
    key % size
  }

  // `((key >> 3) & mask) | 1`: always odd, and below an even size.
  function Step(key: nat, size: nat): (d: nat)
    requires size > 0
    ensures d % 2 == 1
    ensures size % 2 == 0 ==> d < size
    ensures d <= size
  {
    var s := key / 8 % size;
    if s % 2 == 0 then s + 1 else s
  }

  // `(hc + d) & mask`, for hc below the size and d at most the size.
  function Advance(hc: nat, d: nat, size: nat): (r: nat)
    requires hc < size && d <= size
    ensures r < size
  {
    if hc + d < size then hc + d else hc + d - size
  }

  // The loop variable after n rounds of `hc = (hc + d) & mask`.
  function Walk(start: nat, d: nat, n: nat, size: nat): (p: nat)
    requires start < size && d <= size
    ensures p < size
  {
    if n == 0 then start else Advance(Walk(start, d, n - 1, size), d, size)
  }

  // The slot a search for `key` looks at after n steps.
  function Probe(key: nat, n: nat, size: nat): (p: nat)
    requires size > 0
    ensures p < size
  {
    Walk(Start(key, size), Step(key, size), n, size)
  }

  // ---- the bit operators, digit by digit

  function And(x: nat, y: nat): nat {
    if x == 0 || y == 0 then 0 else 2 * And(x / 2, y / 2) + (if x % 2 == 1 && y % 2 == 1 then 1 else 0)
  }

  function Or(x: nat, y: nat): nat {
    if x == 0 && y == 0 then 0 else 2 * Or(x / 2, y / 2) + (if x % 2 == 1 || y % 2 == 1 then 1 else 0)
  }

  // Masking with one less than a power of two is the remainder.
  lemma {:induction false} MaskIsRemainder(x: nat, size: nat)
    requires IsPowerOfTwo(size)
    ensures And(x, size - 1) == x % size
  {
    if size > 1 {
      var h := size / 2;
      assert (size - 1) / 2 == h - 1 && (size - 1) % 2 == 1;
      MaskIsRemainder(x / 2, h);
      LastDigit(x, h);
    }
  }

  lemma LastDigit(x: nat, h: nat)
    requires h > 0
    ensures x % (2 * h) == 2 * (x / 2 % h) + x % 2
  {
    var q, r := x / 2 / h, x / 2 % h;
    assert x / 2 == h * q + r;
    assert x == (2 * h) * q + (2 * r + x % 2);
    RemainderIs(x, 2 * h, q, 2 * r + x % 2);
  }

  lemma {:induction false} OrZero(x: nat)
    ensures Or(x, 0) == x
  {
    if x > 0 { OrZero(x / 2); }
  }

  // Lines 83, 85 and 93: the start of a probe, its step, and the next slot, as the code computes them.
  lemma ProbeIsMasked(key: nat, hc: nat, d: nat, size: nat)
    requires IsPowerOfTwo(size) && hc < size && d <= size
    ensures Start(key, size) == And(key, size - 1)
    ensures Step(key, size) == Or(And(key / 8, size - 1), 1)
    ensures Advance(hc, d, size) == And(hc + d, size - 1)
  {
    MaskIsRemainder(key, size);
    MaskIsRemainder(key / 8, size);
    MaskIsRemainder(hc + d, size);
    OrZero(key / 8 % size / 2);
    AdvanceIsMask(hc, d, size);
  }

  // `Advance` is the masked sum.
  lemma AdvanceIsMask(hc: nat, d: nat, size: nat)
    requires hc < size && d <= size
    ensures Advance(hc, d, size) == (hc + d) % size
  {
    var x := hc + d;
    if x >= size {
      assert x == size * 1 + (x - size);
      RemainderIs(x, size, 1, x - size);
    } else {
      RemainderIs(x, size, 0, x);
    }
  }

  lemma RemainderIs(x: nat, m: nat, q: nat, r: nat)
    requires m > 0 && x == m * q + r && r < m
    ensures x % m == r
  {
    assert x == m * (x / m) + x % m;
    assert m * (q - x / m) == x % m - r;
    ZeroMultiple(m, q - x / m);
  }

  lemma MulAtLeast(m: nat, x: int)
    requires x >= 1
    ensures m * x >= m
  {
  }

  lemma MulSub(x: int, y: int, z: int)
    ensures (x - y) * z == x * z - y * z && z * (x - y) == z * x - z * y
  {
  }

  lemma ZeroMultiple(m: int, x: int)
    requires m > 0 && -m < m * x < m
    ensures m * x == 0
  {
    if x >= 1 { MulAtLeast(m, x); } else if x <= -1 { MulAtLeast(m, -x); }
  }

  // The walk is start + n * d up to a multiple of the size.
  lemma {:induction false} WalkClosedForm(start: nat, d: nat, n: nat, size: nat) returns (q: nat)
    requires start < size && d <= size
    ensures Walk(start, d, n, size) + size * q == start + n * d
  {
    if n == 0 {
      q := 0;
    } else {
      q := WalkClosedForm(start, d, n - 1, size);
      assert n * d == (n - 1) * d + d;
      if Walk(start, d, n - 1, size) + d >= size {
        assert size * (q + 1) == size * q + size;
        q := q + 1;
      }
    }
  }

  lemma OddTimesOdd(n: int, d: int)
    requires n % 2 == 1 && d % 2 == 1
    ensures n * d % 2 == 1
  {
    var a, b := n / 2, d / 2;
    assert n * d == (2 * a + 1) * (2 * b + 1) == 2 * (2 * a * b + a + b) + 1;
  }

  // An odd factor can be cancelled from a multiple of a power of two.
  lemma {:induction false} OddFactorCancels(n: int, d: int, q: int, size: nat) returns (r: int)
    requires IsPowerOfTwo(size) && d % 2 == 1
    requires n * d == size * q
    ensures n == size * r
    decreases size
  {
    if size == 1 {
      r := n;
    } else {
      var h := size / 2;
      assert n * d == 2 * (h * q);
      assert n % 2 == 0 by {
        if n % 2 == 1 {
          OddTimesOdd(n, d);
        }
      }
      var m := n / 2;
      assert n * d == 2 * (m * d) by { assert n == 2 * m; }
      r := OddFactorCancels(m, d, q, h);
    }
  }

  lemma SamePlace(w: int, start: int, i: int, j: int, d: int, a: int, b: int, size: int) returns (n: int, q: int)
    requires w + size * a == start + i * d
    requires w + size * b == start + j * d
    ensures n == j - i && n * d == size * q
  {
    n, q := j - i, b - a;
    MulSub(j, i, d);
    MulSub(b, a, size);
  }

  lemma WalkInjective(start: nat, d: nat, i: nat, j: nat, size: nat)
    requires start < size && d <= size && IsPowerOfTwo(size) && d % 2 == 1 && i < j
    requires Walk(start, d, i, size) == Walk(start, d, j, size)
    ensures j - i >= size
  {
    var a := WalkClosedForm(start, d, i, size);
    var b := WalkClosedForm(start, d, j, size);
    var n, q := SamePlace(Walk(start, d, i, size), start, i, j, d, a, b, size);
    var r := OddFactorCancels(n, d, q, size);
    PositiveMultiple(n, size, r);
  }

  // Two different step counts below the size never meet: the probe revisits a slot only after
  // `size` steps.
  lemma ProbeInjective(key: nat, i: nat, j: nat, size: nat)
    requires IsPowerOfTwo(size) && size > 1
    requires i < j
    requires Probe(key, i, size) == Probe(key, j, size)
    ensures j - i >= size
  {
    WalkInjective(Start(key, size), Step(key, size), i, j, size);
  }

  lemma PositiveMultiple(n: int, size: nat, r: int)
    requires 0 < n == size * r
    ensures n >= size
  {
    if r >= 1 { MulAtLeast(size, r); } else { MulAtLeast(size, 1 - r); }
  }

  // ... and after exactly `size` steps it is back at its start.
  lemma WalkWraps(start: nat, d: nat, size: nat)
    requires start < size && d <= size
    ensures Walk(start, d, size, size) == start
  {
    var q := WalkClosedForm(start, d, size, size);
    MulSub(d, q, size);
    ZeroMultiple(size, d - q);
  }

  // The loop test `hc == init_hc` after n >= 1 steps holds exactly at n == size.
  lemma ProbeReturn(key: nat, n: nat, size: nat)
    requires IsPowerOfTwo(size) && size > 1 && 0 < n <= size
    ensures Probe(key, n, size) == Probe(key, 0, size) <==> n == size
  {
    WalkWraps(Start(key, size), Step(key, size), size);
    if n < size && Probe(key, n, size) == Probe(key, 0, size) {
      ProbeInjective(key, 0, n, size);
    }
  }

  ghost function Visited(key: nat, n: nat, size: nat): set<nat>
    requires size > 0
  {
    set i: nat | i < n :: Probe(key, i, size)
  }

  lemma NewlyVisited(key: nat, n: nat, size: nat)
    requires IsPowerOfTwo(size) && size > 1 && n < size
    ensures Probe(key, n, size) !in Visited(key, n, size)
    ensures Visited(key, n + 1, size) == Visited(key, n, size) + {Probe(key, n, size)}
  {
    hide Probe, IsPowerOfTwo;
    if Probe(key, n, size) in Visited(key, n, size) {
      var i: nat :| i < n && Probe(key, i, size) == Probe(key, n, size);
      ProbeInjective(key, i, n, size);
    }
  }

  lemma {:induction false} VisitedCount(key: nat, n: nat, size: nat)
    requires IsPowerOfTwo(size) && size > 1 && n <= size
    ensures |Visited(key, n, size)| == n
  {
    hide Probe, IsPowerOfTwo;
    if n > 0 {
      VisitedCount(key, n - 1, size);
      NewlyVisited(key, n - 1, size);
    }
  }

  ghost function Below(n: nat): (s: set<nat>)
    ensures |s| == n
    ensures forall p: nat :: p in s <==> p < n
  {
    if n == 0 then {} else Below(n - 1) + {n - 1}
  }

  lemma SubsetOfSameSize(a: set<nat>, b: set<nat>)
    requires a <= b && |a| == |b|
    ensures a == b
  {
    assert b == a + (b - a);
    assert |b| == |a| + |b - a|;
  }

  // Every slot is visited within the first `size` probes.
  lemma ProbeSurjective(key: nat, p: nat, size: nat) returns (n: nat)
    requires IsPowerOfTwo(size) && size > 1 && p < size
    ensures n < size && Probe(key, n, size) == p
  {
    VisitedCount(key, size, size);
    SubsetOfSameSize(Visited(key, size, size), Below(size));
    assert p in Below(size);
    n :| n < size && Probe(key, n, size) == p;
  }
}
