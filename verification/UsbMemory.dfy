/** kernel/usb/memory.cpp: a bump allocator with alignment and boundary constraints, in 64-bit arithmetic. */
module UsbMemory {
  import opened Arithmetic
  import opened Bits
  import opened Options

  const POOL_SIZE := 4096 * 32

  /** 64-bit unsigned arithmetic. */
  function Wrap(x: nat): (r: nat)
    ensures r < Pow2(64) && (x < Pow2(64) ==> r == x)
  {
    Residue(x, Pow2(64));
    x % Pow2(64)
  }

  lemma Residue(x: nat, m: nat)
    requires m >= 1
    ensures x % m < m && (x < m ==> x % m == x)
  {
    if x < m { DivUnique(x, m, 0, x); }
  }

  /** Alignments and boundaries: powers of two in 32 bits. */
  ghost predicate PowerOfTwo(a: nat) { exists k: nat :: k <= 31 && a == Pow2(k) }

  ghost predicate ZeroOrPower(a: nat) { a == 0 || PowerOfTwo(a) }

  /** Rounding up with a mask. */
  function Ceil(value: nat, alignment: nat): nat
    requires 1 <= alignment <= Pow2(64)
  {
    And(Wrap(value + alignment - 1), Not(alignment - 1, 64))
  }

  ghost predicate Multiple(x: int, a: int) { a > 0 && x % a == 0 }

  /** m is the least multiple of a that is at least v. */
  ghost predicate LeastMultiple(m: nat, v: nat, a: nat) {
    v <= m < v + a && Multiple(m, a)
  }

  lemma Power(a: nat)
    requires PowerOfTwo(a)
    ensures 1 <= a <= Pow2(31) < Pow2(64)
  {
    hide Pow2;
    var k: nat :| k <= 31 && a == Pow2(k);
    PowMonotone(k, 31);
    PowMonotone(31, 64);
  }

  /** The mask form is arithmetic rounding up. */
  lemma CeilRoundsUp(v: nat, a: nat)
    requires PowerOfTwo(a) && v + a <= Pow2(64)
    ensures 1 <= a <= Pow2(64) && LeastMultiple(Ceil(v, a), v, a) && Ceil(v, a) == (v + a - 1) / a * a
  {
    hide Pow2, And;
    Power(a);
    var k: nat :| k <= 31 && a == Pow2(k);
    var x := v + a - 1;
    ClearLow(x, 64, k);
    assert Ceil(v, a) == x - x % a;
    FloorIsMultiple(x, a);
  }

  lemma FloorIsMultiple(x: nat, a: nat)
    requires a >= 1
    ensures 0 <= x - x % a == x / a * a && (x - x % a) % a == 0 && x - a < x - x % a <= x
  {
    var q := x / a;
    assert x == a * q + x % a;
    DivUnique(a * q, a, q, 0);
    assert q >= 0 && a * q == q * a >= 0;
  }

  /** Between a number and its least multiple there is no other multiple. */
  lemma LeastIsLeast(m: nat, v: nat, a: nat, n: nat)
    requires LeastMultiple(m, v, a) && Multiple(n, a) && v <= n
    ensures m <= n
  {
    if n < m {
      var i, j := m / a, n / a;
      assert m == a * i && n == a * j;
      assert 0 < a * (i - j) < a by { assert a * (i - j) == m - n; }
      Far(a, i - j);
      assert false;
    }
  }

  // ----- the allocator -----

  datatype Request = Request(size: nat, alignment: nat, boundary: nat)

  /** The pointer after the alignment step. */
  function Aligned(ptr: nat, alignment: nat): nat
    requires alignment <= Pow2(64)
  {
    if alignment > 0 then Ceil(ptr, alignment) else ptr
  }

  /** The pointer after the boundary step. */
  function Placed(p: nat, size: nat, boundary: nat): nat
    requires boundary <= Pow2(64)
  {
    if boundary > 0 && Ceil(p, boundary) < Wrap(p + size) then Ceil(p, boundary) else p
  }

  /** AllocMem: the new pointer, which moves also on failure, and the block. */
  function Allocate(base: nat, ptr: nat, q: Request): (nat, Option<nat>)
    requires q.alignment <= Pow2(64) && q.boundary <= Pow2(64)
  {
    var p := Placed(Aligned(ptr, q.alignment), q.size, q.boundary);
    if base + POOL_SIZE < Wrap(p + q.size) then (p, None) else (Wrap(p + q.size), Some(p))
  }

  // ----- one call -----

  /** No multiple of the boundary lies strictly inside the block. */
  ghost predicate Crosses(p: int, size: int, boundary: int) {
    exists m: int :: p < m < p + size && Multiple(m, boundary)
  }

  /** An address the request can be served at. */
  ghost predicate Admissible(p: int, q: Request) {
    (q.alignment > 0 ==> Multiple(p, q.alignment)) && (q.boundary > 0 ==> !Crosses(p, q.size, q.boundary))
  }

  ghost predicate Sane(q: Request) { ZeroOrPower(q.alignment) && ZeroOrPower(q.boundary) }

  lemma SaneBounds(q: Request)
    requires Sane(q)
    ensures q.alignment <= Pow2(31) < Pow2(64) && q.boundary <= Pow2(31) < Pow2(64)
  {
    hide Pow2, PowerOfTwo;
    PowMonotone(31, 64);
    if q.alignment > 0 { Power(q.alignment); }
    if q.boundary > 0 { Power(q.boundary); }
  }

  /** The pointer stays below the first multiple of 2^31 beyond the pool, also across failures. */
  ghost function Ceiling(base: nat): (c: nat)
    ensures base + POOL_SIZE <= c && Multiple(c, Pow2(31))
  {
    FloorIsMultiple(base + POOL_SIZE + Pow2(31) - 1, Pow2(31));
    base + POOL_SIZE + Pow2(31) - 1 - (base + POOL_SIZE + Pow2(31) - 1) % Pow2(31)
  }

  ghost predicate InRange(base: nat, ptr: nat) {
    base <= ptr <= Ceiling(base) && Ceiling(base) + Pow2(31) < Pow2(64)
  }

  /** A pool anywhere in the lower quarter of the address space starts in range. */
  lemma PoolStartsInRange(base: nat)
    requires base + POOL_SIZE <= Pow2(62)
    ensures InRange(base, base)
  {
    hide Pow2;
    FloorIsMultiple(base + POOL_SIZE + Pow2(31) - 1, Pow2(31));
    PowMonotone(31, 62);
    PowStep(63, 64);
    PowStep(62, 63);
  }

  lemma {:induction false} PowerDivides(j: nat, k: nat)
    requires j <= k
    ensures Pow2(k) % Pow2(j) == 0
  {
    if j == k {
      DivUnique(Pow2(k), Pow2(j), 1, 0);
    } else {
      PowerDivides(j, k - 1);
      var c := Pow2(k - 1) / Pow2(j);
      assert Pow2(k) == Pow2(j) * (2 * c);
      DivUnique(Pow2(k), Pow2(j), 2 * c, 0);
    }
  }

  /** Of two powers of two the smaller divides the larger, and so every multiple of it. */
  lemma MultiplesNest(x: nat, a: nat, b: nat)
    requires PowerOfTwo(a) && PowerOfTwo(b) && b <= a && Multiple(x, a)
    ensures Multiple(x, b)
  {
    hide Pow2;
    var j: nat :| j <= 31 && b == Pow2(j);
    var k: nat :| k <= 31 && a == Pow2(k);
    if k < j { PowMonotone(k, j); }
    PowerDivides(j, k);
    TransitiveMultiple(x, a, b);
  }

  lemma TransitiveMultiple(x: nat, a: nat, b: nat)
    requires a > 0 && b > 0 && x % a == 0 && a % b == 0
    ensures x % b == 0
  {
    var i, j := x / a, a / b;
    assert x == a * i && a == b * j;
    assert x == b * (j * i);
    DivUnique(x, b, j * i, 0);
  }

  /** Rounding a pointer up keeps it in range. */
  lemma CeilInRange(base: nat, ptr: nat, a: nat)
    requires InRange(base, ptr) && PowerOfTwo(a)
    ensures 1 <= a <= Pow2(64) && LeastMultiple(Ceil(ptr, a), ptr, a) && InRange(base, Ceil(ptr, a))
  {
    hide Pow2, PowerOfTwo, Ceil, Ceiling;
    Power(a);
    CeilRoundsUp(ptr, a);
    assert PowerOfTwo(Pow2(31)) by { IsPower(31); }
    MultiplesNest(Ceiling(base), Pow2(31), a);
    LeastIsLeast(Ceil(ptr, a), ptr, a, Ceiling(base));
  }

  lemma IsPower(k: nat)
    requires k <= 31
    ensures PowerOfTwo(Pow2(k))
  {
  }

  /** Where a request is placed: in range, at or above the pointer, at a multiple of the alignment. */
  lemma Placement(base: nat, ptr: nat, q: Request)
    requires InRange(base, ptr) && Sane(q)
    ensures q.alignment <= Pow2(64) && q.boundary <= Pow2(64)
    ensures var p1 := Aligned(ptr, q.alignment); var p := Placed(p1, q.size, q.boundary);
      && InRange(base, p1) && InRange(base, p) && ptr <= p1 <= p
      && (if q.alignment > 0 then LeastMultiple(p1, ptr, q.alignment) && Multiple(p, q.alignment) else p1 == ptr)
      && (p != p1 ==> q.boundary > 0 && LeastMultiple(p, p1, q.boundary) && p < Wrap(p1 + q.size))
      && (q.boundary > 0 && p == p1 ==>
            exists m: nat :: LeastMultiple(m, p1, q.boundary) && (m == p1 || m >= Wrap(p1 + q.size)))
  {
    hide Pow2, PowerOfTwo, Ceil, Ceiling, Wrap, LeastMultiple, InRange;
    SaneBounds(q);
    if q.alignment > 0 { CeilInRange(base, ptr, q.alignment); }
    var p1 := Aligned(ptr, q.alignment);
    AtLeast(p1, ptr, q.alignment);
    if q.boundary > 0 {
      CeilInRange(base, p1, q.boundary);
      var m := Ceil(p1, q.boundary);
      AtLeast(m, p1, q.boundary);
      if q.alignment > 0 { BothMultiples(m, p1, q.alignment, q.boundary); }
    }
  }

  lemma AtLeast(m: nat, v: nat, a: nat)
    ensures LeastMultiple(m, v, a) ==> v <= m && Multiple(m, a)
  {
  }

  /** The next boundary above an aligned address is aligned too. */
  lemma BothMultiples(m: nat, p: nat, a: nat, b: nat)
    requires PowerOfTwo(a) && PowerOfTwo(b) && Multiple(p, a) && LeastMultiple(m, p, b)
    ensures Multiple(m, a)
  {
    hide PowerOfTwo;
    if b <= a {
      MultiplesNest(p, a, b);
      LeastIsLeast(m, p, b, p);
    } else {
      MultiplesNest(m, b, a);
    }
  }

  /** If the request is no larger than its boundary and the sum does not wrap, the allocator serves
      it at the least admissible address at or above the pointer, and fails only if no admissible
      address leaves the block inside the pool. */
  lemma ServesLeastAdmissible(base: nat, ptr: nat, q: Request)
    requires InRange(base, ptr) && Sane(q) && (q.boundary > 0 ==> q.size <= q.boundary)
    requires Ceiling(base) + q.size < Pow2(64)
    ensures q.alignment <= Pow2(64) && q.boundary <= Pow2(64)
    ensures var (next, r) := Allocate(base, ptr, q);
      match r
      case Some(p) => && ptr <= p && Admissible(p, q) && p + q.size <= base + POOL_SIZE && next == p + q.size
                      && forall x: nat :: ptr <= x < p ==> !Admissible(x, q)
      case None => InRange(base, next) && forall x: nat :: ptr <= x && x + q.size <= base + POOL_SIZE ==>
        !Admissible(x, q)
  {
    hide Pow2, PowerOfTwo, Ceil, Ceiling, Aligned, Placed, Admissible, LeastMultiple, Multiple;
    Placement(base, ptr, q);
    var p1 := Aligned(ptr, q.alignment);
    var p := Placed(p1, q.size, q.boundary);
    PlacedIsAdmissible(p1, p, q);
    forall x: nat | ptr <= x < p ensures !Admissible(x, q) {
      BelowIsInadmissible(ptr, p1, p, q, x);
    }
  }

  lemma PlacedIsAdmissible(p1: nat, p: nat, q: Request)
    requires q.alignment > 0 ==> Multiple(p, q.alignment)
    requires q.boundary > 0 ==> q.size <= q.boundary
    requires p != p1 ==> q.boundary > 0 && LeastMultiple(p, p1, q.boundary)
    requires q.boundary > 0 && p == p1 ==>
      exists m: nat :: LeastMultiple(m, p1, q.boundary) && (m == p1 || m >= p1 + q.size)
    ensures Admissible(p, q)
  {
    if q.boundary > 0 && Crosses(p, q.size, q.boundary) {
      var c: int :| p < c < p + q.size && Multiple(c, q.boundary);
      if p != p1 {
        NoneBetween(p, c, q.boundary);
      } else {
        var m: nat :| LeastMultiple(m, p1, q.boundary) && (m == p1 || m >= p1 + q.size);
        if m == p1 { NoneBetween(p, c, q.boundary); } else { LeastIsLeast(m, p1, q.boundary, c); }
      }
      assert false;
    }
  }

  /** Multiples are at least their unit apart. */
  lemma NoneBetween(m: nat, n: nat, a: nat)
    requires Multiple(m, a) && Multiple(n, a) && m < n
    ensures n >= m + a
  {
    var i, j := m / a, n / a;
    assert m == a * i && n == a * j;
    assert a * (j - i) == n - m;
    Far(a, j - i);
  }

  lemma BelowIsInadmissible(ptr: nat, p1: nat, p: nat, q: Request, x: nat)
    requires ptr <= x < p
    requires if q.alignment > 0 then LeastMultiple(p1, ptr, q.alignment) else p1 == ptr
    requires p != p1 ==> q.boundary > 0 && LeastMultiple(p, p1, q.boundary) && p < p1 + q.size
    ensures !Admissible(x, q)
  {
    if q.alignment > 0 && Multiple(x, q.alignment) { LeastIsLeast(p1, ptr, q.alignment, x); }
    assert p1 <= x ==> x < p < x + q.size && Multiple(p, q.boundary);
  }

  /** Without a limit on the size the sum can wrap: a served block lies in the pool exactly if the
      request is no larger than the pool, */
  lemma InPoolIff(base: nat, ptr: nat, q: Request)
    requires InRange(base, ptr) && Sane(q)
    ensures q.alignment <= Pow2(64) && q.boundary <= Pow2(64)
    ensures var r := Allocate(base, ptr, q).1; r.Some? ==>
      (base <= r.value && r.value + q.size <= base + POOL_SIZE <==> q.size <= POOL_SIZE)
  {
    hide Pow2, PowerOfTwo, Ceil, Ceiling, Aligned, Placed, LeastMultiple, Multiple;
    Placement(base, ptr, q);
    PoolIsSmall();
  }

  lemma PoolIsSmall()
    ensures POOL_SIZE < Pow2(31)
  {
    assert Pow2(9) == 512;
    assert Pow2(18) == 0x4_0000;
    PowMonotone(18, 31);
  }

  /** and for every pointer there is a request whose end does. */
  lemma HugeRequestsWrap(base: nat, ptr: nat)
    requires InRange(base, ptr)
    ensures POOL_SIZE < Pow2(64) - ptr && Allocate(base, ptr, Request(Pow2(64) - ptr, 0, 0)) == (0, Some(ptr))
  {
    hide Pow2;
    PoolIsSmall();
    DivUnique(Pow2(64), Pow2(64), 1, 0);
  }

  // ----- whole runs -----

  datatype Served = Served(at: nat, request: Request)

  /** No larger than the pool, or too large for it without wrapping the sum. */
  ghost predicate Reasonable(base: nat, q: Request) {
    Sane(q) && (q.size <= POOL_SIZE || Ceiling(base) + q.size < Pow2(64))
  }

  ghost predicate AllReasonable(base: nat, requests: seq<Request>) {
    forall i :: 0 <= i < |requests| ==> Reasonable(base, requests[i])
  }

  ghost function Run(base: nat, ptr: nat, requests: seq<Request>): (nat, seq<Served>)
    requires AllReasonable(base, requests)
    decreases |requests|
  {
    if requests == [] then (ptr, [])
    else
      SaneBounds(requests[0]);
      var (p, r) := Allocate(base, ptr, requests[0]);
      var (q, rest) := Run(base, p, requests[1..]);
      (q, if r.Some? then [Served(r.value, requests[0])] + rest else rest)
  }

  /** In the pool above `low`, aligned, and inside one boundary unit if it fits one. */
  ghost predicate Good(base: nat, low: nat, b: Served) {
    && low <= b.at && b.at + b.request.size <= base + POOL_SIZE
    && (b.request.alignment > 0 ==> Multiple(b.at, b.request.alignment))
    && (b.request.boundary > 0 && b.request.size <= b.request.boundary ==>
         !Crosses(b.at, b.request.size, b.request.boundary))
  }

  ghost predicate AllGood(base: nat, low: nat, blocks: seq<Served>) {
    && (forall i :: 0 <= i < |blocks| ==> Good(base, low, blocks[i]))
    && (forall i, j :: 0 <= i < j < |blocks| ==> blocks[i].at + blocks[i].request.size <= blocks[j].at)
  }

  /** One call on any request: the pointer stays in range, and a served block is good. */
  lemma ServesWell(base: nat, ptr: nat, q: Request)
    requires InRange(base, ptr) && Reasonable(base, q)
    ensures q.alignment <= Pow2(64) && q.boundary <= Pow2(64)
    ensures var (next, r) := Allocate(base, ptr, q);
      && ptr <= next && InRange(base, next)
      && (r.Some? ==> Good(base, ptr, Served(r.value, q)) && next == r.value + q.size)
  {
    hide Pow2, PowerOfTwo, Ceil, Aligned, Placed, Ceiling, Multiple, Crosses, LeastMultiple;
    Placement(base, ptr, q);
    PoolIsSmall();
    if q.boundary > 0 && q.size <= q.boundary { ServesLeastAdmissible(base, ptr, q); }
  }

  /** Over every run of reasonable requests, served or not, every block is aligned, lies in the pool
      above where the run began, is disjoint from all earlier ones, and crosses no boundary unless
      it is larger than its boundary. */
  lemma {:induction false} RunIsGood(base: nat, ptr: nat, requests: seq<Request>)
    requires InRange(base, ptr)
    requires AllReasonable(base, requests)
    ensures InRange(base, Run(base, ptr, requests).0) && AllGood(base, ptr, Run(base, ptr, requests).1)
    decreases |requests|
  {
    hide Pow2, PowerOfTwo, Ceil, Ceiling, Aligned, Placed, Multiple, Crosses, Allocate;
    if requests != [] {
      var q, rest := requests[0], requests[1..];
      ServesWell(base, ptr, q);
      var (p, r) := Allocate(base, ptr, q);
      RunIsGood(base, p, rest);
      var blocks := Run(base, p, rest).1;
      assert forall i :: 0 <= i < |blocks| ==> Good(base, ptr, blocks[i]);
      if r.Some? { Prepended(base, ptr, Served(r.value, q), p, blocks); }
    }
  }

  lemma Prepended(base: nat, low: nat, b: Served, p: nat, blocks: seq<Served>)
    requires Good(base, low, b) && p == b.at + b.request.size && AllGood(base, p, blocks)
    ensures AllGood(base, low, [b] + blocks)
  {
    hide Multiple, Crosses;
    assert forall i :: 0 < i < |blocks| + 1 ==> ([b] + blocks)[i] == blocks[i - 1];
  }

  class Allocator {
    const base: nat
    var allocPtr: nat

    constructor (base: nat)
      requires Ceiling(base) + Pow2(31) < Pow2(64)
      ensures this.base == base && allocPtr == base && InRange(base, allocPtr)
    {
      this.base, allocPtr := base, base;
    }

    method AllocMem(size: nat, alignment: nat, boundary: nat) returns (r: Option<nat>)
      requires alignment <= Pow2(64) && boundary <= Pow2(64)
      modifies this
      ensures (allocPtr, r) == Allocate(base, old(allocPtr), Request(size, alignment, boundary))
    {
      hide Pow2, Ceil, Wrap;
      if alignment > 0 { allocPtr := Ceil(allocPtr, alignment); }
      if boundary > 0 {
        var nextBoundary := Ceil(allocPtr, boundary);
        if nextBoundary < Wrap(allocPtr + size) { allocPtr := nextBoundary; }
      }
      if base + POOL_SIZE < Wrap(allocPtr + size) { return None; }
      r := Some(allocPtr);
      allocPtr := Wrap(allocPtr + size);
    }
  }
}
