/** What the PCI enumeration contains: exactly the functions that bridges lead to. */
module PciReach {
  import opened PciScan
  import opened Trbs

  /** A function the scan of its bus looks at: function 0, or another one of a multi-function device. */
  predicate OnBus(c: Config, b: nat, d: nat, f: nat) {
    && d < 32 && !Absent(c, b, d, 0)
    && (f == 0 || (1 <= f < 8 && !SingleFunction(HeaderType(c, b, d, 0)) && !Absent(c, b, d, f)))
  }

  predicate InTask(c: Config, t: Task, b: nat, d: nat, f: nat) {
    match t
    case BusFrom(tb, td) => b == tb && td <= d && OnBus(c, b, d, f)
    case FunctionsFrom(tb, td, tf) => b == tb && d == td && tf <= f < 8 && !Absent(c, b, d, f)
  }

  ghost predicate InTasks(c: Config, tasks: seq<Task>, b: nat, d: nat, f: nat) {
    exists i :: 0 <= i < |tasks| && InTask(c, tasks[i], b, d, f)
  }

  /** A function's bus lies behind an entry of r. */
  ghost predicate BehindSome(c: Config, r: seq<Device>, b: nat) {
    exists i :: 0 <= i < |r| && LeadsTo(c, r[i], b)
  }

  predicate LeadsTo(c: Config, e: Device, b: nat) {
    IsBridge(e.classCode) && SecondaryBus(c, e.bus, e.device, e.function_) == b
  }

  lemma {:induction false} InTasksConcat(c: Config, s: seq<Task>, t: seq<Task>, b: nat, d: nat, f: nat)
    ensures InTasks(c, s + t, b, d, f) <==> InTasks(c, s, b, d, f) || InTasks(c, t, b, d, f)
  {
    hide InTask;
    if InTasks(c, s, b, d, f) {
      var i :| 0 <= i < |s| && InTask(c, s[i], b, d, f);
      assert (s + t)[i] == s[i];
    }
    if InTasks(c, t, b, d, f) {
      var i :| 0 <= i < |t| && InTask(c, t[i], b, d, f);
      assert (s + t)[|s| + i] == t[i];
    }
  }

  /** What the first task holds is split between its first function and what replaces it. */
  lemma SplitTask(c: Config, t: Task, b: nat, d: nat, f: nat)
    ensures match t
      case BusFrom(tb, td) =>
        InTask(c, t, b, d, f) <==>
          td < 32 && (InTask(c, BusFrom(tb, td + 1), b, d, f)
            || (!Absent(c, tb, td, 0) && ((b, d, f) == (tb, td, 0) || InTasks(c, Others(c, tb, td), b, d, f))))
      case FunctionsFrom(tb, td, tf) =>
        InTask(c, t, b, d, f) <==>
          tf < 8 && (InTask(c, FunctionsFrom(tb, td, tf + 1), b, d, f)
            || (!Absent(c, tb, td, tf) && (b, d, f) == (tb, td, tf)))
  {
    hide Absent, HeaderType, SingleFunction;
    if t.BusFrom? {
      OthersHold(c, t.bus, t.device, b, d, f);
    }
  }

  lemma OthersHold(c: Config, tb: nat, td: nat, b: nat, d: nat, f: nat)
    ensures InTasks(c, Others(c, tb, td), b, d, f) <==>
      !SingleFunction(HeaderType(c, tb, td, 0)) && InTask(c, FunctionsFrom(tb, td, 1), b, d, f)
  {
    hide Absent, HeaderType, SingleFunction, InTask;
    var o := Others(c, tb, td);
    if o != [] { assert o[0] == FunctionsFrom(tb, td, 1); }
  }

  lemma BehindHolds(c: Config, tb: nat, td: nat, tf: nat, b: nat, d: nat, f: nat)
    ensures InTasks(c, Behind(c, tb, td, tf), b, d, f) <==> LeadsTo(c, Entry(c, tb, td, tf), b) && OnBus(c, b, d, f)
  {
    hide Absent, HeaderType, SingleFunction, SecondaryBus, ReadClassCode, OnBus;
    var o := Behind(c, tb, td, tf);
    if o != [] { assert o[0] == BusFrom(SecondaryBus(c, tb, td, tf), 0); }
  }

  /** A finished enumeration from `tasks` holds (b, d, f) exactly if a task does or a bridge in it leads there. */
  ghost predicate Exact(c: Config, tasks: seq<Task>, r: seq<Device>, b: nat, d: nat, f: nat) {
    Entry(c, b, d, f) in r <==> InTasks(c, tasks, b, d, f) || (BehindSome(c, r, b) && OnBus(c, b, d, f))
  }

  lemma BehindSomeCons(c: Config, e: Device, r: seq<Device>, b: nat)
    ensures BehindSome(c, [e] + r, b) <==> LeadsTo(c, e, b) || BehindSome(c, r, b)
  {
    hide LeadsTo;
    assert ([e] + r)[0] == e;
    if BehindSome(c, r, b) {
      var i :| 0 <= i < |r| && LeadsTo(c, r[i], b);
      assert ([e] + r)[i + 1] == r[i];
    }
  }

  /** One emitted entry: the rest of the enumeration covers what is behind it and what else remains. */
  lemma EmitExact(c: Config, tb: nat, td: nat, tf: nat, more: seq<Task>, r: seq<Device>, b: nat, d: nat, f: nat)
    requires Exact(c, Behind(c, tb, td, tf) + more, r, b, d, f)
    ensures Entry(c, b, d, f) in [Entry(c, tb, td, tf)] + r <==>
      (b, d, f) == (tb, td, tf) || InTasks(c, more, b, d, f)
        || (BehindSome(c, [Entry(c, tb, td, tf)] + r, b) && OnBus(c, b, d, f))
  {
    hide InTask, OnBus, LeadsTo, BehindSome, InTasks, Behind, HeaderType, VendorId, ReadClassCode;
    InTasksConcat(c, Behind(c, tb, td, tf), more, b, d, f);
    BehindHolds(c, tb, td, tf, b, d, f);
    BehindSomeCons(c, Entry(c, tb, td, tf), r, b);
  }

  /** Soundness and completeness of a finished enumeration, entry by entry. */
  lemma {:induction false} DfsExact(c: Config, tasks: seq<Task>, n: nat, b: nat, d: nat, f: nat)
    requires |Dfs(c, tasks, n)| < n
    ensures Exact(c, tasks, Dfs(c, tasks, n), b, d, f)
    decreases n, Work(tasks)
  {
    hide InTask, OnBus, Entry, Behind, Others, BehindSome, InTasks, Absent;
    if tasks == [] {
      NothingHeld(c, b, d, f);
      DfsOfNothing(c, n);
    } else {
      var t, rest := tasks[0], tasks[1..];
      assert tasks == [t] + rest;
      InTasksConcat(c, [t], rest, b, d, f);
      Single(c, t, b, d, f);
      SplitTask(c, t, b, d, f);
      match t
      case BusFrom(tb, td) =>
        if td >= 32 { DfsExact(c, rest, n, b, d, f); }
        else {
          var next := [BusFrom(tb, td + 1)] + rest;
          assert next[1..] == rest;
          InTasksConcat(c, [BusFrom(tb, td + 1)], rest, b, d, f);
          Single(c, BusFrom(tb, td + 1), b, d, f);
          if Absent(c, tb, td, 0) { DfsExact(c, next, n, b, d, f); }
          else {
            var more := Others(c, tb, td) + next;
            DfsExact(c, Behind(c, tb, td, 0) + more, n - 1, b, d, f);
            InTasksConcat(c, Others(c, tb, td), next, b, d, f);
            EmitExact(c, tb, td, 0, more, Dfs(c, Behind(c, tb, td, 0) + more, n - 1), b, d, f);
          }
        }
      case FunctionsFrom(tb, td, tf) =>
        if tf >= 8 { DfsExact(c, rest, n, b, d, f); }
        else {
          var next := [FunctionsFrom(tb, td, tf + 1)] + rest;
          assert next[1..] == rest;
          InTasksConcat(c, [FunctionsFrom(tb, td, tf + 1)], rest, b, d, f);
          Single(c, FunctionsFrom(tb, td, tf + 1), b, d, f);
          if Absent(c, tb, td, tf) { DfsExact(c, next, n, b, d, f); }
          else {
            DfsExact(c, Behind(c, tb, td, tf) + next, n - 1, b, d, f);
            EmitExact(c, tb, td, tf, next, Dfs(c, Behind(c, tb, td, tf) + next, n - 1), b, d, f);
          }
        }
    }
  }

  lemma NothingHeld(c: Config, b: nat, d: nat, f: nat)
    ensures !InTasks(c, [], b, d, f) && !BehindSome(c, [], b)
  {
  }

  lemma Single(c: Config, t: Task, b: nat, d: nat, f: nat)
    ensures InTasks(c, [t], b, d, f) <==> InTask(c, t, b, d, f)
  {
    assert [t][0] == t;
  }

  // ----- reachability -----

  /** A function of bus b1 is a bridge to bus b. */
  predicate Hop(c: Config, b1: nat, d1: nat, f1: nat, b: nat) {
    OnBus(c, b1, d1, f1) && LeadsTo(c, Entry(c, b1, d1, f1), b)
  }

  /** k bridges lead from one of the buses `roots` to bus b. */
  ghost predicate ReachedIn(c: Config, roots: set<nat>, b: nat, k: nat)
    decreases k
  {
    if k == 0 then b in roots
    else exists b1: nat, d1: nat, f1: nat :: ReachedIn(c, roots, b1, k - 1) && Hop(c, b1, d1, f1, b)
  }

  ghost predicate Reached(c: Config, roots: set<nat>, b: nat) { exists k: nat :: ReachedIn(c, roots, b, k) }

  lemma ReachedNext(c: Config, roots: set<nat>, b1: nat, d1: nat, f1: nat, b: nat)
    requires Reached(c, roots, b1) && Hop(c, b1, d1, f1, b)
    ensures Reached(c, roots, b)
  {
    hide Hop;
    var k: nat :| ReachedIn(c, roots, b1, k);
    assert ReachedIn(c, roots, b, k + 1);
  }

  /** A task whose functions are all reachable. */
  ghost predicate GoodTask(c: Config, roots: set<nat>, t: Task) {
    && Reached(c, roots, t.bus)
    && (t.FunctionsFrom? ==>
         t.fn >= 1 && t.device < 32 && !Absent(c, t.bus, t.device, 0)
           && !SingleFunction(HeaderType(c, t.bus, t.device, 0)))
  }

  ghost predicate GoodTasks(c: Config, roots: set<nat>, tasks: seq<Task>) {
    forall i :: 0 <= i < |tasks| ==> GoodTask(c, roots, tasks[i])
  }

  ghost predicate GoodEntry(c: Config, roots: set<nat>, e: Device) {
    Reached(c, roots, e.bus) && OnBus(c, e.bus, e.device, e.function_) && e == Entry(c, e.bus, e.device, e.function_)
  }

  lemma BehindIsGood(c: Config, roots: set<nat>, b: nat, d: nat, f: nat)
    requires Reached(c, roots, b) && OnBus(c, b, d, f)
    ensures GoodTasks(c, roots, Behind(c, b, d, f)) && GoodEntry(c, roots, Entry(c, b, d, f))
  {
    hide OnBus, Reached, SecondaryBus, HeaderType, ReadClassCode, VendorId;
    if IsBridge(ReadClassCode(c, b, d, f)) {
      ReachedNext(c, roots, b, d, f, SecondaryBus(c, b, d, f));
    }
  }

  lemma GoodConcat(c: Config, roots: set<nat>, s: seq<Task>, t: seq<Task>)
    requires GoodTasks(c, roots, s) && GoodTasks(c, roots, t)
    ensures GoodTasks(c, roots, s + t)
  {
    hide GoodTask;
  }

  /** Every entry of the enumeration, however far it is taken, is on a bus that bridges lead to. */
  lemma {:induction false} DfsIsReachable(c: Config, roots: set<nat>, tasks: seq<Task>, n: nat, i: nat)
    requires GoodTasks(c, roots, tasks) && i < |Dfs(c, tasks, n)|
    ensures GoodEntry(c, roots, Dfs(c, tasks, n)[i])
    decreases n, Work(tasks)
  {
    hide Absent, Reached, GoodEntry, Entry, Behind, SingleFunction, HeaderType;
    var t, rest := tasks[0], tasks[1..];
    assert GoodTask(c, roots, t) && GoodTasks(c, roots, rest);
    match t
    case BusFrom(b, d) =>
      if d >= 32 { DfsIsReachable(c, roots, rest, n, i); }
      else {
        var next := [BusFrom(b, d + 1)] + rest;
        assert next[1..] == rest && GoodTasks(c, roots, next);
        if Absent(c, b, d, 0) { DfsIsReachable(c, roots, next, n, i); }
        else {
          assert GoodTasks(c, roots, Others(c, b, d));
          GoodConcat(c, roots, Others(c, b, d), next);
          BehindIsGood(c, roots, b, d, 0);
          GoodConcat(c, roots, Behind(c, b, d, 0), Others(c, b, d) + next);
          if i > 0 { DfsIsReachable(c, roots, Behind(c, b, d, 0) + (Others(c, b, d) + next), n - 1, i - 1); }
        }
      }
    case FunctionsFrom(b, d, f) =>
      if f >= 8 { DfsIsReachable(c, roots, rest, n, i); }
      else {
        var next := [FunctionsFrom(b, d, f + 1)] + rest;
        assert next[1..] == rest && GoodTasks(c, roots, next);
        if Absent(c, b, d, f) { DfsIsReachable(c, roots, next, n, i); }
        else {
          BehindIsGood(c, roots, b, d, f);
          GoodConcat(c, roots, Behind(c, b, d, f), next);
          if i > 0 { DfsIsReachable(c, roots, Behind(c, b, d, f) + next, n - 1, i - 1); }
        }
      }
  }

  /** Whole buses are left to scan, nothing else. */
  predicate WholeBuses(tasks: seq<Task>) { forall i :: 0 <= i < |tasks| ==> tasks[i] == BusFrom(tasks[i].bus, 0) }

  function Buses(tasks: seq<Task>): set<nat> { set t | t in tasks :: t.bus }

  /** Every function on a reachable bus is in a finished enumeration. */
  lemma {:induction false} ReachableIsListed(c: Config, tasks: seq<Task>, n: nat, b: nat, k: nat, d: nat, f: nat)
    requires WholeBuses(tasks) && |Dfs(c, tasks, n)| < n && ReachedIn(c, Buses(tasks), b, k) && OnBus(c, b, d, f)
    ensures Entry(c, b, d, f) in Dfs(c, tasks, n)
    decreases k
  {
    hide OnBus, Dfs, Entry, LeadsTo;
    var r := Dfs(c, tasks, n);
    DfsExact(c, tasks, n, b, d, f);
    if k == 0 {
      var i :| 0 <= i < |tasks| && tasks[i].bus == b;
      assert InTask(c, tasks[i], b, d, f);
    } else {
      var b1: nat, d1: nat, f1: nat :| ReachedIn(c, Buses(tasks), b1, k - 1) && Hop(c, b1, d1, f1, b);
      ReachableIsListed(c, tasks, n, b1, k - 1, d1, f1);
      var i :| 0 <= i < |r| && r[i] == Entry(c, b1, d1, f1);
      assert BehindSome(c, r, b);
    }
  }

  lemma WholeBusesAreGood(c: Config, tasks: seq<Task>)
    requires WholeBuses(tasks)
    ensures GoodTasks(c, Buses(tasks), tasks)
  {
    forall i | 0 <= i < |tasks| ensures GoodTask(c, Buses(tasks), tasks[i]) {
      assert ReachedIn(c, Buses(tasks), tasks[i].bus, 0);
    }
  }

  /** A scan of any buses that does not report Full has listed exactly the functions on buses that
      bridges lead to from there. */
  lemma ScanIsExact(c: Config, tasks: seq<Task>, b: nat, d: nat, f: nat)
    requires WholeBuses(tasks) && |Dfs(c, tasks, CAPACITY + 1)| <= CAPACITY
    ensures Entry(c, b, d, f) in Dfs(c, tasks, CAPACITY + 1) <==> Reached(c, Buses(tasks), b) && OnBus(c, b, d, f)
  {
    hide OnBus, Dfs;
    var r := Dfs(c, tasks, CAPACITY + 1);
    if Entry(c, b, d, f) in r {
      var i :| 0 <= i < |r| && r[i] == Entry(c, b, d, f);
      WholeBusesAreGood(c, tasks);
      DfsIsReachable(c, Buses(tasks), tasks, CAPACITY + 1, i);
    }
    if Reached(c, Buses(tasks), b) && OnBus(c, b, d, f) {
      var k: nat :| ReachedIn(c, Buses(tasks), b, k);
      ReachableIsListed(c, tasks, CAPACITY + 1, b, k, d, f);
    }
  }

  // ----- scan_all_bus -----

  /** A bus scan_all_bus starts from. */
  predicate IsRoot(c: Config, b: nat) {
    if SingleFunction(HeaderType(c, 0, 0, 0)) then b == 0 else 1 <= b < 8 && !Absent(c, 0, 0, b)
  }

  lemma {:induction false} RootsFromAre(c: Config, fn: nat)
    requires fn <= 8
    ensures WholeBuses(RootsFrom(c, fn))
    ensures forall b: nat :: b in Buses(RootsFrom(c, fn)) <==> fn <= b < 8 && !Absent(c, 0, 0, b)
    decreases 8 - fn
  {
    hide Absent, Buses, WholeBuses, Bus;
    if fn < 8 {
      RootsFromAre(c, fn + 1);
      BusesCons(fn, RootsFrom(c, fn + 1));
    } else {
      NoBuses();
    }
  }

  lemma NoBuses()
    ensures Buses([]) == {} && WholeBuses([])
  {
  }

  lemma BusesCons(b: nat, rest: seq<Task>)
    ensures Buses(Bus(b) + rest) == {b} + Buses(rest) && (WholeBuses(rest) ==> WholeBuses(Bus(b) + rest))
  {
    forall x: nat ensures x in Buses(Bus(b) + rest) <==> x == b || x in Buses(rest) {
      assert BusFrom(b, 0) in Bus(b) + rest;
      if x in Buses(rest) {
        var t :| t in rest && t.bus == x;
        assert t in Bus(b) + rest;
      }
    }
  }

  lemma RootsAre(c: Config)
    ensures WholeBuses(Roots(c)) && forall b: nat :: b in Buses(Roots(c)) <==> IsRoot(c, b)
  {
    hide Absent;
    RootsFromAre(c, 1);
    BusesCons(0, []);
    assert Bus(0) + [] == Bus(0);
  }

  /** What several buses reach is what each of them reaches. */
  lemma {:induction false} ReachedFromSome(c: Config, roots: set<nat>, b: nat, k: nat)
    ensures ReachedIn(c, roots, b, k) <==> exists r: nat :: r in roots && ReachedIn(c, {r}, b, k)
    decreases k
  {
    hide Hop;
    if k == 0 {
      if b in roots { assert ReachedIn(c, {b}, b, 0); }
    } else {
      if ReachedIn(c, roots, b, k) {
        var b1: nat, d1: nat, f1: nat :| ReachedIn(c, roots, b1, k - 1) && Hop(c, b1, d1, f1, b);
        ReachedFromSome(c, roots, b1, k - 1);
        var r: nat :| r in roots && ReachedIn(c, {r}, b1, k - 1);
        assert ReachedIn(c, {r}, b, k);
      }
      if r: nat :| r in roots && ReachedIn(c, {r}, b, k) {
        var b1: nat, d1: nat, f1: nat :| ReachedIn(c, {r}, b1, k - 1) && Hop(c, b1, d1, f1, b);
        ReachedFromSome(c, roots, b1, k - 1);
      }
    }
  }

  /** A scan of all buses that does not report Full lists a function exactly if the scan of its bus
      would look at it and bridges lead to that bus from a bus scan_all_bus starts from. */
  lemma AllBusScanIsExact(c: Config, b: nat, d: nat, f: nat)
    requires |Dfs(c, Roots(c), CAPACITY + 1)| <= CAPACITY
    ensures Entry(c, b, d, f) in Dfs(c, Roots(c), CAPACITY + 1) <==>
      OnBus(c, b, d, f) && exists r: nat :: IsRoot(c, r) && Reached(c, {r}, b)
  {
    hide OnBus, Dfs, IsRoot, ReachedIn, Roots;
    RootsAre(c);
    ScanIsExact(c, Roots(c), b, d, f);
    if Reached(c, Buses(Roots(c)), b) {
      var k: nat :| ReachedIn(c, Buses(Roots(c)), b, k);
      ReachedFromSome(c, Buses(Roots(c)), b, k);
      var r: nat :| r in Buses(Roots(c)) && ReachedIn(c, {r}, b, k);
      assert IsRoot(c, r) && Reached(c, {r}, b);
    }
    if r: nat :| IsRoot(c, r) && Reached(c, {r}, b) {
      var k: nat :| ReachedIn(c, {r}, b, k);
      ReachedFromSome(c, Buses(Roots(c)), b, k);
    }
  }

  /** So the functions of bus 0 are listed exactly below a single-function host bridge, or when some
      present function's bus leads back to bus 0. */
  lemma BusZeroListedIff(c: Config, d: nat, f: nat)
    requires |Dfs(c, Roots(c), CAPACITY + 1)| <= CAPACITY && OnBus(c, 0, d, f)
    ensures Entry(c, 0, d, f) in Dfs(c, Roots(c), CAPACITY + 1) <==>
      SingleFunction(HeaderType(c, 0, 0, 0)) || exists r: nat :: 1 <= r < 8 && !Absent(c, 0, 0, r) && Reached(c, {r}, 0)
  {
    hide OnBus, Dfs, Roots, Absent;
    AllBusScanIsExact(c, 0, d, f);
    assert ReachedIn(c, {0}, 0, 0);
    assert Reached(c, {0}, 0);
  }

  /** A host bridge with several functions in its header but only function 0 present, and a device 1. */
  function MissedWord(address: nat): Word {
    if address == 0x8000_0000 then 0x1234          // vendor of device 0
    else if address == 0x8000_000c then 0x80_0000  // its header type
    else if address == 0x8000_0800 then 0x5678     // vendor of device 1
    else 0xffff_ffff
  }

  /** There the scan succeeds and finds nothing, though bus 0 has devices. */
  lemma BusZeroCanBeMissed() returns (c: Config)
    ensures OnBus(c, 0, 0, 0) && OnBus(c, 0, 1, 0) && Dfs(c, Roots(c), CAPACITY + 1) == []
  {
    c := MissedWord;
    assert c(0x8000_0000) == 0x1234 && c(0x8000_000c) == 0x80_0000 && c(0x8000_0800) == 0x5678;
    assert HeaderType(c, 0, 0, 0) == 0x80;
    forall b: nat | 1 <= b < 8 ensures Absent(c, 0, 0, b) {
      assert MakeAddress(0, 0, b, 0) == 0x8000_0000 + 0x100 * b;
      assert c(MakeAddress(0, 0, b, 0)) == 0xffff_ffff;
    }
    RootsFromAre(c, 1);
    DfsOfNothing(c, CAPACITY + 1);
  }
}
