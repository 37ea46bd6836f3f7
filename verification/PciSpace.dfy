/**
 * The configuration space as devices provide it: each function has a header of bytes, reached through
 * the address port. What the driver reads there are the header's own fields, and what a scan lists is
 * said in terms of headers alone.
 */
module PciSpace {
  import opened Arithmetic
  import opened Options
  import opened Trbs
  import opened PciScan
  import opened PciReach

  type Byte = x: nat | x < 0x100
  type Half = x: nat | x < 0x1_0000

  /** The first 28 bytes of a header; the bus numbers are those of a PCI-to-PCI bridge. */
  datatype Header = Header(
    vendor: Half, deviceId: Half, command: Half, status: Half,
    revision: Byte, interface: Byte, sub: Byte, base: Byte,
    cacheLine: Byte, latency: Byte, layout: Byte, multiFunction: bool, bist: Byte,
    bar0: Word, bar1: Word,
    primary: Byte, secondary: Byte, subordinate: Byte, secondaryLatency: Byte
  )

  function HalfBytes(h: Half): seq<Byte> { [h % 0x100, h / 0x100] }

  /** The header type byte: bit 7 tells of several functions, the others the layout of the rest. */
  function TypeByte(h: Header): Byte { h.layout % 0x80 + if h.multiFunction then 0x80 else 0 }

  /** A header as it lies in configuration space, byte 0 first (section 6.1 of the PCI Local Bus
      specification 3.0 and section 3.2 of the PCI-to-PCI Bridge specification 1.2). */
  function HeaderBytes(h: Header): (s: seq<nat>)
    ensures |s| == 28 && forall i :: 0 <= i < 28 ==> s[i] < 0x100
  {
    HalfBytes(h.vendor) + HalfBytes(h.deviceId) + HalfBytes(h.command) + HalfBytes(h.status)
      + [h.revision, h.interface, h.sub, h.base]
      + [h.cacheLine, h.latency, TypeByte(h), h.bist]
      + WordBytes(h.bar0) + WordBytes(h.bar1)
      + [h.primary, h.secondary, h.subordinate, h.secondaryLatency]
  }

  /** The functions there are, by bus, device and function number. */
  type Machine = (nat, nat, nat) -> Option<Header>

  /** A present function has a vendor. */
  ghost predicate Proper(m: Machine) { forall b, d, f :: m(b, d, f).Some? ==> m(b, d, f).value.vendor != 0xffff }

  /** The little-endian word at an aligned register. */
  function RegisterWord(bytes: seq<nat>, reg: nat): Word
    requires reg + 4 <= |bytes| && forall i :: 0 <= i < |bytes| ==> bytes[i] < 0x100
  {
    bytes[reg] + 0x100 * bytes[reg + 1] + 0x1_0000 * bytes[reg + 2] + 0x100_0000 * bytes[reg + 3]
  }

  /** What the data port gives for an address (configuration mechanism 1, section 3.2.2.3.2 of the PCI
      Local Bus specification): bits 16 to 23 are the bus, 11 to 15 the device, 8 to 10 the function
      and 2 to 7 the register; where nothing answers all bits are set. */
  function PortRead(m: Machine, address: nat): Word {
    var function_ := m(address / 0x1_0000 % 0x100, address / 0x800 % 0x20, address / 0x100 % 8);
    var reg := address % 0x100 / 4 * 4;
    if address / 0x8000_0000 != 1 || function_.None? || reg + 4 > 28 then 0xffff_ffff
    else RegisterWord(HeaderBytes(function_.value), reg)
  }

  function SpaceOf(m: Machine): Config { (address: nat) => PortRead(m, address) }

  // ----- the driver's reads -----

  /** The address the driver writes selects the function and register it means. */
  lemma AddressSelects(b: nat, d: nat, f: nat, reg: nat)
    requires b < 0x100 && d < 0x20 && f < 8 && reg < 0x100 && reg % 4 == 0
    ensures var a := MakeAddress(b, d, f, reg);
      && a / 0x8000_0000 == 1 && a / 0x1_0000 % 0x100 == b && a / 0x800 % 0x20 == d && a / 0x100 % 8 == f
      && a % 0x100 / 4 * 4 == reg
  {
    var a := MakeAddress(b, d, f, reg);
    DivUnique(a, 0x8000_0000, 1, a - 0x8000_0000);
    DivUnique(a, 0x1_0000, 0x8000 + b, 0x800 * d + 0x100 * f + reg);
    DivUnique(0x8000 + b, 0x100, 0x80, b);
    DivUnique(a, 0x800, 0x10_0000 + 0x20 * b + d, 0x100 * f + reg);
    DivUnique(0x10_0000 + 0x20 * b + d, 0x20, 0x8000 + b, d);
    DivUnique(a, 0x100, 0x80_0000 + 0x100 * b + 8 * d + f, reg);
    DivUnique(0x80_0000 + 0x100 * b + 8 * d + f, 8, 0x10_0000 + 0x20 * b + d, f);
    DivMod(reg, 4);
  }

  /** The bytes of a register's word. */
  lemma RegisterBytes(bytes: seq<nat>, reg: nat)
    requires reg + 4 <= |bytes| && forall i :: 0 <= i < |bytes| ==> bytes[i] < 0x100
    ensures var w := RegisterWord(bytes, reg);
      && w % 0x1_0000 == bytes[reg] + 0x100 * bytes[reg + 1] && w / 0x100 % 0x100 == bytes[reg + 1]
      && w / 0x1_0000 % 0x100 == bytes[reg + 2] && w / 0x100_0000 == bytes[reg + 3]
  {
    var w, a, b, c, d := RegisterWord(bytes, reg), bytes[reg], bytes[reg + 1], bytes[reg + 2], bytes[reg + 3];
    DivUnique(w, 0x1_0000, c + 0x100 * d, a + 0x100 * b);
    DivUnique(c + 0x100 * d, 0x100, d, c);
    DivUnique(w, 0x100, b + 0x100 * (c + 0x100 * d), a);
    DivUnique(b + 0x100 * (c + 0x100 * d), 0x100, c + 0x100 * d, b);
    DivUnique(w, 0x100_0000, d, a + 0x100 * b + 0x1_0000 * c);
  }

  lemma ReadsRegister(m: Machine, b: nat, d: nat, f: nat, reg: nat)
    requires b < 0x100 && d < 0x20 && f < 8 && reg % 4 == 0 && reg + 4 <= 28
    ensures SpaceOf(m)(MakeAddress(b, d, f, reg)) ==
      if m(b, d, f).None? then 0xffff_ffff else RegisterWord(HeaderBytes(m(b, d, f).value), reg)
  {
    hide RegisterWord, HeaderBytes, MakeAddress;
    AddressSelects(b, d, f, reg);
  }

  /** Of a present function the driver reads the header's own fields. */
  lemma ReadsFields(m: Machine, b: nat, d: nat, f: nat)
    requires b < 0x100 && d < 0x20 && f < 8 && m(b, d, f).Some?
    ensures var c, h := SpaceOf(m), m(b, d, f).value;
      && VendorId(c, b, d, f) == h.vendor && HeaderType(c, b, d, f) == TypeByte(h)
      && ReadClassCode(c, b, d, f) == ClassCode(h.base, h.sub, h.interface) && SecondaryBus(c, b, d, f) == h.secondary
      && (SingleFunction(HeaderType(c, b, d, f)) <==> !h.multiFunction)
  {
    hide MakeAddress, SpaceOf, RegisterWord;
    var h := m(b, d, f).value;
    var bytes := HeaderBytes(h);
    FieldsAt(h);
    ReadsRegister(m, b, d, f, 0);
    RegisterBytes(bytes, 0);
    ReadsRegister(m, b, d, f, 0x08);
    RegisterBytes(bytes, 0x08);
    ReadsRegister(m, b, d, f, 0x0c);
    RegisterBytes(bytes, 0x0c);
    ReadsRegister(m, b, d, f, 0x18);
    RegisterBytes(bytes, 0x18);
    DivMod(h.vendor, 0x100);
  }

  lemma FieldsAt(h: Header)
    ensures var s := HeaderBytes(h);
      && s[0] == h.vendor % 0x100 && s[1] == h.vendor / 0x100
      && s[9] == h.interface && s[10] == h.sub && s[11] == h.base && s[14] == TypeByte(h) && s[25] == h.secondary
  {
    hide WordBytes, TypeByte;
  }

  lemma ReadsNothing(m: Machine, b: nat, d: nat, f: nat)
    requires b < 0x100 && d < 0x20 && f < 8 && m(b, d, f).None?
    ensures Absent(SpaceOf(m), b, d, f)
  {
    hide MakeAddress, SpaceOf;
    ReadsRegister(m, b, d, f, 0);
  }

  // ----- what a scan lists, in headers -----

  /** A function that is there and that a scan of its bus looks at. */
  predicate Visible(m: Machine, b: nat, d: nat, f: nat) {
    && b < 0x100 && d < 0x20 && f < 8 && m(b, d, 0).Some? && m(b, d, f).Some?
    && (f == 0 || m(b, d, 0).value.multiFunction)
  }

  /** A visible function is a PCI-to-PCI bridge (class 6, subclass 4) to bus `to`. */
  predicate BridgesTo(m: Machine, b: nat, d: nat, f: nat, to: nat) {
    Visible(m, b, d, f) && m(b, d, f).value.base == 6 && m(b, d, f).value.sub == 4 && m(b, d, f).value.secondary == to
  }

  /** k bridges lead from bus `root` to bus b. */
  ghost predicate BridgedIn(m: Machine, root: nat, b: nat, k: nat)
    decreases k
  {
    if k == 0 then b == root
    else exists b1: nat, d1: nat, f1: nat :: BridgedIn(m, root, b1, k - 1) && BridgesTo(m, b1, d1, f1, b)
  }

  ghost predicate Bridged(m: Machine, root: nat, b: nat) { exists k: nat :: BridgedIn(m, root, b, k) }

  /** A bus scan_all_bus starts from: bus 0 if function 0 of device 0 is its only one, otherwise one bus
      for each of its functions 1 to 7 that is there. */
  predicate StartsFrom(m: Machine, b: nat) {
    if m(0, 0, 0).Some? && !m(0, 0, 0).value.multiFunction then b == 0 else 1 <= b < 8 && m(0, 0, b).Some?
  }

  /** The table's entry for a function says what its header says. */
  function EntryOf(m: Machine, b: nat, d: nat, f: nat): Device
    requires m(b, d, f).Some?
  {
    var h := m(b, d, f).value;
    Device(b, d, f, TypeByte(h), h.vendor, ClassCode(h.base, h.sub, h.interface))
  }

  lemma VisibleIsOnBus(m: Machine, b: nat, d: nat, f: nat)
    requires Proper(m) && b < 0x100
    ensures OnBus(SpaceOf(m), b, d, f) <==> Visible(m, b, d, f)
    ensures Visible(m, b, d, f) ==> Entry(SpaceOf(m), b, d, f) == EntryOf(m, b, d, f)
  {
    hide SpaceOf, HeaderType, VendorId, ReadClassCode, SingleFunction, TypeByte;
    if d < 0x20 {
      IsThere(m, b, d, 0);
      if f < 8 { IsThere(m, b, d, f); }
    }
  }

  lemma IsThere(m: Machine, b: nat, d: nat, f: nat)
    requires Proper(m) && b < 0x100 && d < 0x20 && f < 8
    ensures Absent(SpaceOf(m), b, d, f) <==> m(b, d, f).None?
    ensures m(b, d, f).Some? ==> Entry(SpaceOf(m), b, d, f) == EntryOf(m, b, d, f)
    ensures m(b, d, f).Some? ==> (SingleFunction(HeaderType(SpaceOf(m), b, d, f)) <==> !m(b, d, f).value.multiFunction)
  {
    hide SpaceOf, HeaderType, VendorId, ReadClassCode, SingleFunction, TypeByte;
    if m(b, d, f).None? { ReadsNothing(m, b, d, f); } else { ReadsFields(m, b, d, f); }
  }

  /** A function leads to another bus exactly if its header is that of a bridge to it. */
  lemma HopIsBridge(m: Machine, b1: nat, d1: nat, f1: nat, b: nat)
    requires Proper(m) && b1 < 0x100
    ensures Hop(SpaceOf(m), b1, d1, f1, b) <==> BridgesTo(m, b1, d1, f1, b)
  {
    hide SpaceOf, HeaderType, VendorId, ReadClassCode, SingleFunction, TypeByte, SecondaryBus, OnBus, Visible;
    VisibleIsOnBus(m, b1, d1, f1);
    if Visible(m, b1, d1, f1) {
      VisibleIsThere(m, b1, d1, f1);
      ReadsFields(m, b1, d1, f1);
    }
  }

  lemma VisibleIsThere(m: Machine, b: nat, d: nat, f: nat)
    requires Visible(m, b, d, f)
    ensures b < 0x100 && d < 0x20 && f < 8 && m(b, d, f).Some?
  {
  }

  lemma {:induction false} ReachedIsBridged(m: Machine, root: nat, b: nat, k: nat)
    requires Proper(m) && root < 0x100
    ensures ReachedIn(SpaceOf(m), {root}, b, k) <==> BridgedIn(m, root, b, k)
    ensures BridgedIn(m, root, b, k) ==> b < 0x100
    decreases k
  {
    hide SpaceOf, Hop, BridgesTo, Proper;
    if k > 0 {
      if BridgedIn(m, root, b, k) {
        var b1: nat, d1: nat, f1: nat :| BridgedIn(m, root, b1, k - 1) && BridgesTo(m, b1, d1, f1, b);
        ReachedIsBridged(m, root, b1, k - 1);
        HopIsBridge(m, b1, d1, f1, b);
        BridgeIsByte(m, b1, d1, f1, b);
      }
      if ReachedIn(SpaceOf(m), {root}, b, k) {
        var b1: nat, d1: nat, f1: nat :| ReachedIn(SpaceOf(m), {root}, b1, k - 1) && Hop(SpaceOf(m), b1, d1, f1, b);
        ReachedIsBridged(m, root, b1, k - 1);
        HopIsBridge(m, b1, d1, f1, b);
      }
    }
  }

  lemma BridgeIsByte(m: Machine, b1: nat, d1: nat, f1: nat, b: nat)
    requires BridgesTo(m, b1, d1, f1, b)
    ensures b < 0x100
  {
  }

  lemma RootIsStart(m: Machine, b: nat)
    requires Proper(m)
    ensures IsRoot(SpaceOf(m), b) <==> StartsFrom(m, b)
  {
    hide SpaceOf, HeaderType, VendorId, SingleFunction;
    IsThere(m, 0, 0, 0);
    if m(0, 0, 0).None? { AllOnesIsMulti(m); }
    if b < 8 { IsThere(m, 0, 0, b); }
  }

  /** Without a function 0 all bits of the header type are set, and it reads as a multi-function device. */
  lemma AllOnesIsMulti(m: Machine)
    requires m(0, 0, 0).None?
    ensures !SingleFunction(HeaderType(SpaceOf(m), 0, 0, 0))
  {
    hide MakeAddress, SpaceOf;
    ReadsRegister(m, 0, 0, 0, 0x0c);
  }

  /** A scan_all_bus that does not report Full leaves a table with exactly the visible functions on the
      buses that bridges lead to from where it starts, each with its header's fields. */
  lemma TableIsExact(m: Machine, table: seq<Device>, err: Error, b: nat, d: nat, f: nat)
    requires Proper(m) && IsStartOf(table, err, Dfs(SpaceOf(m), Roots(SpaceOf(m)), CAPACITY + 1)) && err == Success
    ensures (exists e :: e in table && e.bus == b && e.device == d && e.function_ == f) <==>
      Visible(m, b, d, f) && exists r: nat :: StartsFrom(m, r) && Bridged(m, r, b)
    ensures Visible(m, b, d, f) && (exists r: nat :: StartsFrom(m, r) && Bridged(m, r, b)) ==>
      EntryOf(m, b, d, f) in table
  {
    hide SpaceOf, Dfs, OnBus, Visible, StartsFrom, IsRoot, Roots, Entry, ReachedIn, BridgedIn;
    var c := SpaceOf(m);
    assert table == Dfs(c, Roots(c), CAPACITY + 1);
    AllBusScanIsExact(c, b, d, f);
    ListedIsEntry(m, table, b, d, f);
    if exists r: nat :: StartsFrom(m, r) && Bridged(m, r, b) {
      var r: nat :| StartsFrom(m, r) && Bridged(m, r, b);
      var k: nat :| BridgedIn(m, r, b, k);
      StartIsByte(m, r);
      ReachedIsBridged(m, r, b, k);
      RootIsStart(m, r);
      assert IsRoot(c, r) && Reached(c, {r}, b);
      VisibleIsOnBus(m, b, d, f);
    }
    if exists r: nat :: IsRoot(c, r) && Reached(c, {r}, b) {
      var r: nat :| IsRoot(c, r) && Reached(c, {r}, b);
      var k: nat :| ReachedIn(c, {r}, b, k);
      RootIsStart(m, r);
      StartIsByte(m, r);
      ReachedIsBridged(m, r, b, k);
      assert StartsFrom(m, r) && Bridged(m, r, b);
      VisibleIsOnBus(m, b, d, f);
    }
  }

  lemma StartIsByte(m: Machine, r: nat)
    requires StartsFrom(m, r)
    ensures r < 0x100
  {
  }

  /** An entry for a function is that function's entry. */
  lemma ListedIsEntry(m: Machine, table: seq<Device>, b: nat, d: nat, f: nat)
    requires table == Dfs(SpaceOf(m), Roots(SpaceOf(m)), CAPACITY + 1)
    ensures (exists e :: e in table && e.bus == b && e.device == d && e.function_ == f) <==>
      Entry(SpaceOf(m), b, d, f) in table
  {
    hide SpaceOf, Dfs, Roots, HeaderType, VendorId, ReadClassCode;
    var c := SpaceOf(m);
    if e :| e in table && e.bus == b && e.device == d && e.function_ == f {
      var i :| 0 <= i < |table| && table[i] == e;
      RootsAre(c);
      WholeBusesAreGood(c, Roots(c));
      DfsIsReachable(c, Buses(Roots(c)), Roots(c), CAPACITY + 1, i);
    }
    assert Entry(c, b, d, f).bus == b && Entry(c, b, d, f).device == d && Entry(c, b, d, f).function_ == f;
  }
}
