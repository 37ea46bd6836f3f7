/** kernel/pci.cpp: the recursive scan of the PCI configuration space into a table of 32 devices. */
module PciScan {
  import opened Trbs

  const CAPACITY := 32

  datatype ClassCode = ClassCode(base: nat, sub: nat, interface: nat)

  datatype Device = Device(bus: nat, device: nat, function_: nat, headerType: nat, vendorId: nat, classCode: ClassCode)

  /** The configuration space: the word behind each address that can be written to the address port. */
  type Config = nat -> Word

  function MakeAddress(bus: nat, device: nat, fn: nat, reg: nat): nat {
    0x8000_0000 + 0x1_0000 * bus + 0x800 * device + 0x100 * fn + reg
  }

  function VendorId(c: Config, bus: nat, device: nat, fn: nat): nat { c(MakeAddress(bus, device, fn, 0)) % 0x1_0000 }

  function HeaderType(c: Config, bus: nat, device: nat, fn: nat): nat {
    c(MakeAddress(bus, device, fn, 0x0c)) / 0x1_0000 % 0x100
  }

  function ReadClassCode(c: Config, bus: nat, device: nat, fn: nat): ClassCode {
    var data := c(MakeAddress(bus, device, fn, 0x08));
    ClassCode(data / 0x100_0000, data / 0x1_0000 % 0x100, data / 0x100 % 0x100)
  }

  function SecondaryBus(c: Config, bus: nat, device: nat, fn: nat): nat {
    c(MakeAddress(bus, device, fn, 0x18)) / 0x100 % 0x100
  }

  predicate Absent(c: Config, bus: nat, device: nat, fn: nat) { VendorId(c, bus, device, fn) == 0xffff }

  predicate SingleFunction(headerType: nat) { headerType / 0x80 % 2 == 0 }

  predicate IsBridge(cc: ClassCode) { cc.base == 0x06 && cc.sub == 0x04 }

  function Entry(c: Config, bus: nat, device: nat, fn: nat): Device {
    Device(bus, device, fn, HeaderType(c, bus, device, fn), VendorId(c, bus, device, fn),
      ReadClassCode(c, bus, device, fn))
  }

  // ----- the depth-first enumeration -----

  /** What is left to visit: the devices of a bus from some number on, or functions of a device. */
  datatype Task = BusFrom(bus: nat, device: nat) | FunctionsFrom(bus: nat, device: nat, fn: nat)

  function Bus(bus: nat): seq<Task> { [BusFrom(bus, 0)] }

  /** The bus behind a function, to visit right after it. */
  function Behind(c: Config, bus: nat, device: nat, fn: nat): seq<Task> {
    if IsBridge(ReadClassCode(c, bus, device, fn)) then Bus(SecondaryBus(c, bus, device, fn)) else []
  }

  /** The other functions of a device. */
  function Others(c: Config, bus: nat, device: nat): seq<Task> {
    if SingleFunction(HeaderType(c, bus, device, 0)) then [] else [FunctionsFrom(bus, device, 1)]
  }

  function Work(tasks: seq<Task>): nat {
    if tasks == [] then 0
    else Work(tasks[1..]) + match tasks[0]
      case BusFrom(_, d) => if d < 32 then 33 - d else 1
      case FunctionsFrom(_, _, f) => if f < 8 then 9 - f else 1
  }

  /** The first n entries of the enumeration, which need not end: a bridge may lead back to its own bus. */
  function Dfs(c: Config, tasks: seq<Task>, n: nat): (r: seq<Device>)
    ensures |r| <= n
    decreases n, Work(tasks)
  {
    if n == 0 || tasks == [] then []
    else
      var rest := tasks[1..];
      match tasks[0]
      case BusFrom(b, d) =>
        if d >= 32 then Dfs(c, rest, n)
        else
          var next := [BusFrom(b, d + 1)] + rest;
          assert next[1..] == rest;
          if Absent(c, b, d, 0) then Dfs(c, next, n)
          else [Entry(c, b, d, 0)] + Dfs(c, Behind(c, b, d, 0) + (Others(c, b, d) + next), n - 1)
      case FunctionsFrom(b, d, f) =>
        if f >= 8 then Dfs(c, rest, n)
        else
          var next := [FunctionsFrom(b, d, f + 1)] + rest;
          assert next[1..] == rest;
          if Absent(c, b, d, f) then Dfs(c, next, n)
          else [Entry(c, b, d, f)] + Dfs(c, Behind(c, b, d, f) + next, n - 1)
  }

  /** The first entries of the longer enumeration, all of them if they are fewer than n. */
  predicate Begins(short: seq<Device>, n: nat, long: seq<Device>) {
    short <= long && (|long| > n ==> |short| == n) && (|short| < n ==> long == short)
  }

  lemma BeginsCons(e: Device, short: seq<Device>, n: nat, long: seq<Device>)
    requires Begins(short, n, long)
    ensures Begins([e] + short, n + 1, [e] + long)
  {
  }

  /** Asking for more entries does not change the first ones, so there is one enumeration. */
  lemma {:induction false} DfsIsPrefix(c: Config, tasks: seq<Task>, n: nat, m: nat)
    requires n <= m
    ensures Begins(Dfs(c, tasks, n), n, Dfs(c, tasks, m))
    decreases n, Work(tasks)
  {
    hide Absent, Entry, Behind, Others;
    if n > 0 && tasks != [] {
      var rest := tasks[1..];
      match tasks[0]
      case BusFrom(b, d) =>
        if d >= 32 { DfsIsPrefix(c, rest, n, m); }
        else {
          var next := [BusFrom(b, d + 1)] + rest;
          assert next[1..] == rest;
          if Absent(c, b, d, 0) { DfsIsPrefix(c, next, n, m); }
          else {
            var more := Behind(c, b, d, 0) + (Others(c, b, d) + next);
            DfsIsPrefix(c, more, n - 1, m - 1);
            BeginsCons(Entry(c, b, d, 0), Dfs(c, more, n - 1), n - 1, Dfs(c, more, m - 1));
          }
        }
      case FunctionsFrom(b, d, f) =>
        if f >= 8 { DfsIsPrefix(c, rest, n, m); }
        else {
          var next := [FunctionsFrom(b, d, f + 1)] + rest;
          assert next[1..] == rest;
          if Absent(c, b, d, f) { DfsIsPrefix(c, next, n, m); }
          else {
            var more := Behind(c, b, d, f) + next;
            DfsIsPrefix(c, more, n - 1, m - 1);
            BeginsCons(Entry(c, b, d, f), Dfs(c, more, n - 1), n - 1, Dfs(c, more, m - 1));
          }
        }
    }
  }

  // ----- the scan -----

  datatype Error = Success | Full

  class Table {
    const config: Config
    const devices: array<Device>
    var num: nat

    ghost predicate Valid()
      reads this
    {
      devices.Length == CAPACITY && num <= CAPACITY
    }

    /** With `tasks` left to do, the table holds the start of `all`, the first 33 entries. */
    ghost predicate Halfway(all: seq<Device>, tasks: seq<Task>)
      reads this, devices
    {
      Valid() && all == devices[..num] + Dfs(config, tasks, CAPACITY + 1 - num)
    }

    /** The table holds the first 32 entries and there is another one. */
    ghost predicate Overfull(all: seq<Device>)
      reads this, devices
    {
      Valid() && num == CAPACITY && |all| == CAPACITY + 1 && devices[..num] == all[..num]
    }

    ghost predicate Done(err: Error, all: seq<Device>, rest: seq<Task>)
      reads this, devices
    {
      if err == Success then Halfway(all, rest) else Overfull(all)
    }

    constructor (config: Config)
      ensures this.config == config && Valid() && num == 0 && fresh(devices)
    {
      this.config := config;
      devices := new Device[CAPACITY](_ => Device(0, 0, 0, 0, 0, ClassCode(0, 0, 0)));
      num := 0;
    }

    method AddDevice(bus: nat, device: nat, fn: nat, headerType: nat, classCode: ClassCode) returns (err: Error)
      requires Valid()
      modifies this, devices
      ensures Valid() && err == (if old(num) == CAPACITY then Full else Success)
      ensures devices[..num] == old(devices[..num]) +
        if err == Success then [Device(bus, device, fn, headerType, VendorId(config, bus, device, fn), classCode)]
          else []
    {
      if num == devices.Length { return Full; }
      devices[num] := Device(bus, device, fn, headerType, VendorId(config, bus, device, fn), classCode);
      num := num + 1;
      return Success;
    }

    method ScanFunction(bus: nat, device: nat, fn: nat, ghost all: seq<Device>, ghost rest: seq<Task>)
      returns (err: Error)
      requires Valid()
      requires num <= CAPACITY && all == devices[..num] + ([Entry(config, bus, device, fn)] +
        if num < CAPACITY then Dfs(config, Behind(config, bus, device, fn) + rest, CAPACITY - num) else [])
      modifies this, devices
      ensures num >= old(num) && Done(err, all, rest)
      decreases CAPACITY - num, 0
    {
      hide Dfs, Absent;
      var headerType := HeaderType(config, bus, device, fn);
      var classCode := ReadClassCode(config, bus, device, fn);
      ghost var was := devices[..num];
      err := AddDevice(bus, device, fn, headerType, classCode);
      if err != Success { return; }
      assert devices[..num] == was + [Entry(config, bus, device, fn)];
      if classCode.base == 0x06 && classCode.sub == 0x04 {
        err := ScanBus(SecondaryBus(config, bus, device, fn), all, rest);
      } else {
        assert Behind(config, bus, device, fn) + rest == rest;
      }
    }

    method ScanDevice(bus: nat, device: nat, ghost all: seq<Device>, ghost rest: seq<Task>) returns (err: Error)
      requires device < 32 && !Absent(config, bus, device, 0)
      requires Halfway(all, [BusFrom(bus, device)] + rest)
      modifies this, devices
      ensures num >= old(num) && Done(err, all, [BusFrom(bus, device + 1)] + rest)
      decreases CAPACITY - num, 1
    {
      hide Entry, Behind, Dfs, VendorId, Overfull, HeaderType, SingleFunction;
      ghost var next := [BusFrom(bus, device + 1)] + rest;
      EmitsFirst(config, bus, device, rest, CAPACITY + 1 - num);
      err := ScanFunction(bus, device, 0, all, Others(config, bus, device) + next);
      if err != Success { return; }
      if SingleFunction(HeaderType(config, bus, device, 0)) {
        assert Others(config, bus, device) + next == next;
        return;
      }
      var fn := 1;
      while fn < 8
        invariant 1 <= fn <= 8 && num >= old(num) && Halfway(all, [FunctionsFrom(bus, device, fn)] + next)
      {
        EmitsFunction(config, bus, device, fn, next, CAPACITY + 1 - num);
        if VendorId(config, bus, device, fn) != 0xffff {
          err := ScanFunction(bus, device, fn, all, [FunctionsFrom(bus, device, fn + 1)] + next);
          if err != Success { return; }
        }
        fn := fn + 1;
      }
      EmitsFunction(config, bus, device, fn, next, CAPACITY + 1 - num);
      return Success;
    }

    method ScanBus(bus: nat, ghost all: seq<Device>, ghost rest: seq<Task>) returns (err: Error)
      requires Halfway(all, Bus(bus) + rest)
      modifies this, devices
      ensures num >= old(num) && Done(err, all, rest)
      decreases CAPACITY - num, 2
    {
      hide Dfs, Entry, Behind, Others;
      var device := 0;
      while device < 32
        invariant 0 <= device <= 32 && num >= old(num) && Halfway(all, [BusFrom(bus, device)] + rest)
      {
        SkipsDevice(config, bus, device, rest, CAPACITY + 1 - num);
        if VendorId(config, bus, device, 0) != 0xffff {
          err := ScanDevice(bus, device, all, rest);
          if err != Success { return; }
        }
        device := device + 1;
      }
      SkipsDevice(config, bus, device, rest, CAPACITY + 1 - num);
      return Success;
    }

    /** A scan from an empty table leaves the first 32 entries of the depth-first enumeration, or all
        of them, and reports Full exactly if there is a 33rd. It ends on every configuration space. */
    method ScanBusFromEmpty(bus: nat) returns (err: Error)
      requires Valid() && num == 0
      modifies this, devices
      ensures Valid() && IsStartOf(devices[..num], err, Dfs(config, Bus(bus), CAPACITY + 1))
    {
      hide Dfs;
      assert Bus(bus) + [] == Bus(bus) && devices[..num] == [];
      ghost var all := Dfs(config, Bus(bus), CAPACITY + 1);
      err := ScanBus(bus, all, []);
      assert Dfs(config, [], CAPACITY + 1 - num) == [] by { DfsOfNothing(config, CAPACITY + 1 - num); }
    }

    /** scan_all_bus: bus 0 below a single-function host bridge; otherwise one bus for each of the
        host bridge's functions 1 to 7 that is present. */
    method ScanAllBus() returns (err: Error)
      requires Valid()
      modifies this, devices
      ensures Valid() && IsStartOf(devices[..num], err, Dfs(config, Roots(config), CAPACITY + 1))
    {
      hide Dfs, VendorId;
      num := 0;
      ghost var all := Dfs(config, Roots(config), CAPACITY + 1);
      if SingleFunction(HeaderType(config, 0, 0, 0)) {
        err := ScanBusFromEmpty(0);
        return;
      }
      assert devices[..num] == [];
      var fn := 1;
      while fn < 8
        invariant 1 <= fn <= 8 && Halfway(all, RootsFrom(config, fn))
      {
        if VendorId(config, 0, 0, fn) != 0xffff {
          err := ScanBus(fn, all, RootsFrom(config, fn + 1));
          if err != Success { return; }
        }
        fn := fn + 1;
      }
      DfsOfNothing(config, CAPACITY + 1 - num);
      return Success;
    }
  }

  /** The buses scan_all_bus starts from. */
  function Roots(c: Config): seq<Task> {
    if SingleFunction(HeaderType(c, 0, 0, 0)) then Bus(0) else RootsFrom(c, 1)
  }

  function RootsFrom(c: Config, fn: nat): seq<Task>
    decreases 8 - fn
  {
    if fn >= 8 then [] else if Absent(c, 0, 0, fn) then RootsFrom(c, fn + 1) else Bus(fn) + RootsFrom(c, fn + 1)
  }

  /** The table is the start of the enumeration, cut at 32 entries; err tells whether it was cut. */
  predicate IsStartOf(table: seq<Device>, err: Error, all: seq<Device>) {
    (err == Full <==> |all| > CAPACITY) && table == all[..if |all| < CAPACITY then |all| else CAPACITY]
  }

  lemma DfsOfNothing(c: Config, n: nat)
    ensures Dfs(c, [], n) == []
  {
  }

  lemma EmitsFirst(c: Config, b: nat, d: nat, rest: seq<Task>, n: nat)
    requires n > 0 && d < 32 && !Absent(c, b, d, 0)
    ensures Dfs(c, [BusFrom(b, d)] + rest, n) ==
      [Entry(c, b, d, 0)] +
        if n > 1 then Dfs(c, Behind(c, b, d, 0) + (Others(c, b, d) + ([BusFrom(b, d + 1)] + rest)), n - 1) else []
  {
    hide Absent, Entry, Behind, Others;
    assert ([BusFrom(b, d)] + rest)[1..] == rest;
  }

  lemma EmitsFunction(c: Config, b: nat, d: nat, f: nat, rest: seq<Task>, n: nat)
    requires n > 0
    ensures Dfs(c, [FunctionsFrom(b, d, f)] + rest, n) ==
      if f >= 8 then Dfs(c, rest, n)
      else if Absent(c, b, d, f) then Dfs(c, [FunctionsFrom(b, d, f + 1)] + rest, n)
      else
        [Entry(c, b, d, f)] +
          if n > 1 then Dfs(c, Behind(c, b, d, f) + ([FunctionsFrom(b, d, f + 1)] + rest), n - 1) else []
  {
    hide Absent, Entry, Behind;
    assert ([FunctionsFrom(b, d, f)] + rest)[1..] == rest;
  }

  lemma SkipsDevice(c: Config, b: nat, d: nat, rest: seq<Task>, n: nat)
    requires n > 0
    ensures d >= 32 ==> Dfs(c, [BusFrom(b, d)] + rest, n) == Dfs(c, rest, n)
    ensures d < 32 && Absent(c, b, d, 0) ==> Dfs(c, [BusFrom(b, d)] + rest, n) == Dfs(c, [BusFrom(b, d + 1)] + rest, n)
  {
    hide Absent, Entry, Behind, Others;
    assert ([BusFrom(b, d)] + rest)[1..] == rest;
  }
}
