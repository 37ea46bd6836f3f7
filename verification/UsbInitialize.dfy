/** kernel/usb/device.cpp: the initialisation phases of a USB device. */
module UsbInitialize {
  import opened Options
  import opened Descriptors

  const MAX_ENDPOINTS := 16

  datatype Driver = Keyboard(interface: nat) | Mouse(interface: nat)

  datatype EndpointConfig = EndpointConfig(number: nat, dirIn: bool, kind: nat, maxPacketSize: nat, interval: nat)

  datatype Outcome =
    | InvalidPhase | InvalidDescriptor | NotImplemented
    | ToWaiter                         // the device is initialised: some class driver's own request
    | NullDescriptor                   // not an error code: the program reads through a null pointer
    | PastTable                        // not an error code: the program writes past ep_configs_
    | NothingToDo                      // no boot interface
    | AskConfiguration                 // GetDescriptor for configuration 0 was issued
    | AskSetConfiguration(value: nat)
    | Initialised(endpoints: seq<(Driver, EndpointConfig)>)

  /** NewClassDriver: boot keyboards and boot mice only. */
  function DriverFor(d: Octets): Option<Driver>
    requires |d| >= 9
  {
    if d[5] == 3 && d[6] == 1 then
      if d[7] == 1 then Some(Keyboard(d[2])) else if d[7] == 2 then Some(Mouse(d[2])) else None
    else None
  }

  function MakeConfig(d: Octets): (r: EndpointConfig)
    requires |d| >= 7
    ensures r.number < 16
  {
    var low: nat, high: nat := d[4], d[5];
    EndpointConfig(d[2] % 16, d[2] / 0x80 == 1, d[3] % 4, low + 0x100 * high, d[6])
  }

  // ----- descriptors byte by byte (section 9.6 of the USB 2.0 specification) -----

  /** The last six bits of the attributes are no part of the transfer type. */
  datatype EndpointFields = EndpointFields(
    number: nat, reserved: nat, dirIn: bool, transferType: nat, usage: nat, maxPacketSize: nat, interval: Byte
  ) {
    predicate Valid() {
      number < 16 && reserved < 8 && transferType < 4 && usage < 64 && maxPacketSize < 0x1_0000
    }
  }

  function EndpointBytes(e: EndpointFields): Octets
    requires e.Valid()
  {
    [7, ENDPOINT, e.number + 16 * e.reserved + (if e.dirIn then 0x80 else 0), e.transferType + 4 * e.usage,
     e.maxPacketSize % 0x100, e.maxPacketSize / 0x100, e.interval]
  }

  /** The configuration read from an endpoint descriptor has the descriptor's fields. */
  lemma ReadsEndpoint(e: EndpointFields)
    requires e.Valid()
    ensures WellFormed(EndpointBytes(e))
    ensures MakeConfig(EndpointBytes(e)) ==
      EndpointConfig(e.number, e.dirIn, e.transferType, e.maxPacketSize, e.interval)
  {
  }

  lemma EndpointType(e: EndpointFields)
    requires e.Valid()
    ensures EndpointBytes(e)[..2] == [7, ENDPOINT]
  {
  }

  datatype InterfaceFields = InterfaceFields(
    number: Byte, alternate: Byte, endpoints: Byte, class_: Byte, subClass: Byte, protocol: Byte, text: Byte
  )

  function InterfaceBytes(i: InterfaceFields): Octets {
    [9, INTERFACE, i.number, i.alternate, i.endpoints, i.class_, i.subClass, i.protocol, i.text]
  }

  /** A driver is chosen for boot keyboards and boot mice (section 4 of the HID specification 1.11),
      which are the HID class, boot subclass, protocols 1 and 2; it is told the interface's number. */
  lemma ChoosesDriver(i: InterfaceFields)
    ensures WellFormed(InterfaceBytes(i))
    ensures DriverFor(InterfaceBytes(i)) ==
      if (i.class_, i.subClass, i.protocol) == (3, 1, 1) then Some(Keyboard(i.number))
      else if (i.class_, i.subClass, i.protocol) == (3, 1, 2) then Some(Mouse(i.number)) else None
  {
  }

  datatype ConfigurationFields = ConfigurationFields(
    totalLength: nat, interfaces: Byte, value: Byte, text: Byte, attributes: Byte, maxPower: Byte
  )

  function ConfigurationBytes(c: ConfigurationFields): Octets
    requires c.totalLength < 0x1_0000
  {
    [9, CONFIGURATION, c.totalLength % 0x100, c.totalLength / 0x100, c.interfaces, c.value, c.text, c.attributes,
     c.maxPower]
  }

  /** On a configuration followed by one boot interface and just its endpoints, phase 2 records these
      endpoints, field by field, and asks for the configuration by its value. */
  lemma ReadsConfiguration(c: ConfigurationFields, i: InterfaceFields, es: seq<EndpointFields>)
    requires c.totalLength < 0x1_0000 && i.endpoints == |es| <= MAX_ENDPOINTS && DriverFor(InterfaceBytes(i)).Some?
    requires forall k :: 0 <= k < |es| ==> es[k].Valid()
    ensures var ds := [ConfigurationBytes(c), InterfaceBytes(i)] + EndpointsBytes(es);
      && AllWellFormed(ds) && Phase2Outcome(ds) == AskSetConfiguration(c.value) && FirstBoot(ds, 0) == 1
      && Readable(ds, 1) && Recorded(ds, 1) == Configs(es)
  {
    hide MakeConfig, ConfigurationBytes, InterfaceBytes, EndpointBytes, EndpointFields.Valid, WellFormed, DriverFor,
      EndpointsBytes, Configs;
    var ds := [ConfigurationBytes(c), InterfaceBytes(i)] + EndpointsBytes(es);
    ReadsConfigurationHead(c);
    ReadsInterfaceHead(i);
    forall k | 0 <= k < |ds| ensures WellFormed(ds[k]) { if k >= 2 { ReadsEndpoint(es[k - 2]); } }
    assert FirstBoot(ds, 0) == 1;
    EndpointsAreConfigs(ds, es, 0);
    assert Configs(es)[0..] == Configs(es) && Configs(es)[..|es|] == Configs(es);
  }

  lemma ReadsConfigurationHead(c: ConfigurationFields)
    requires c.totalLength < 0x1_0000
    ensures var d := ConfigurationBytes(c); WellFormed(d) && |d| == 9 && d[1] == CONFIGURATION && d[5] == c.value
  {
  }

  lemma ReadsInterfaceHead(i: InterfaceFields)
    ensures var d := InterfaceBytes(i);
      WellFormed(d) && |d| == 9 && d[1] == INTERFACE && d[4] == i.endpoints && (DriverFor(d).Some? ==> IsBoot(d))
  {
  }

  function EndpointsBytes(es: seq<EndpointFields>): (r: seq<Octets>)
    requires forall k :: 0 <= k < |es| ==> es[k].Valid()
    ensures |r| == |es| && forall k :: 0 <= k < |es| ==> r[k] == EndpointBytes(es[k])
  {
    seq(|es|, k requires 0 <= k < |es| => EndpointBytes(es[k]))
  }

  function Configs(es: seq<EndpointFields>): (r: seq<EndpointConfig>)
    ensures |r| == |es|
    ensures forall k :: 0 <= k < |es| ==>
      r[k] == EndpointConfig(es[k].number, es[k].dirIn, es[k].transferType, es[k].maxPacketSize, es[k].interval)
  {
    seq(|es|, k requires 0 <= k < |es| =>
      EndpointConfig(es[k].number, es[k].dirIn, es[k].transferType, es[k].maxPacketSize, es[k].interval))
  }

  lemma {:induction false} EndpointsAreConfigs(ds: seq<Octets>, es: seq<EndpointFields>, k: nat)
    requires AllWellFormed(ds) && |ds| == |es| + 2 && k <= |es|
    requires forall i :: 0 <= i < |es| ==> es[i].Valid() && ds[i + 2] == EndpointBytes(es[i])
    ensures Endpoints(ds, k + 2, |ds|) == Configs(es)[k..]
    decreases |es| - k
  {
    hide MakeConfig, EndpointBytes, EndpointFields.Valid;
    if k < |es| {
      ReadsEndpoint(es[k]);
      assert EndpointBytes(es[k])[1] == ENDPOINT by { EndpointType(es[k]); }
      EndpointsAreConfigs(ds, es, k + 1);
    }
  }

  // ----- what phase 2 is to find -----

  predicate IsBoot(d: Octets) { WellFormed(d) && d[1] == INTERFACE && DriverFor(d).Some? }

  /** Index of the first boot interface after the k-th descriptor, or the number of descriptors. */
  function FirstBoot(ds: seq<Octets>, k: nat): (j: nat)
    requires k < |ds|
    ensures k < j <= |ds| && (j < |ds| ==> IsBoot(ds[j])) && forall i :: k < i < j ==> !IsBoot(ds[i])
    decreases |ds| - k
  {
    if k + 1 == |ds| || IsBoot(ds[k + 1]) then k + 1 else FirstBoot(ds, k + 1)
  }

  /** Looking at interfaces only, as the reader does, finds the same one. */
  lemma {:induction false} InterfacesSuffice(ds: seq<Octets>, k: nat)
    requires k < |ds| && AllWellFormed(ds)
    ensures var j := NextOfType(ds, k, INTERFACE);
      FirstBoot(ds, k) == if j == |ds| || IsBoot(ds[j]) then j else FirstBoot(ds, j)
    decreases |ds| - k
  {
    hide DriverFor;
    if k + 1 < |ds| && ds[k + 1][1] != INTERFACE { InterfacesSuffice(ds, k + 1); }
  }

  /** The configurations of the endpoint descriptors with indices from k up to `end`. */
  function Endpoints(ds: seq<Octets>, k: nat, end: nat): seq<EndpointConfig>
    requires AllWellFormed(ds) && end <= |ds|
    decreases end - k
  {
    if k >= end then []
    else (if ds[k][1] == ENDPOINT then [MakeConfig(ds[k])] else []) + Endpoints(ds, k + 1, end)
  }

  lemma {:induction false} EndpointsSplit(ds: seq<Octets>, k: nat, mid: nat, end: nat)
    requires AllWellFormed(ds) && k <= mid <= end <= |ds|
    ensures Endpoints(ds, k, end) == Endpoints(ds, k, mid) + Endpoints(ds, mid, end)
    decreases mid - k
  {
    hide MakeConfig;
    if k < mid { EndpointsSplit(ds, k + 1, mid, end); }
  }

  /** The endpoints of the interface at index j: those before the next interface. */
  function OwnEndpoints(ds: seq<Octets>, j: nat): seq<EndpointConfig>
    requires AllWellFormed(ds) && j < |ds|
  {
    Endpoints(ds, j + 1, NextOfType(ds, j, INTERFACE))
  }

  /** What phase 2 records for it: as many endpoints as the interface announces, from wherever they follow. */
  ghost function Recorded(ds: seq<Octets>, j: nat): seq<EndpointConfig>
    requires Readable(ds, j)
  {
    Endpoints(ds, j + 1, |ds|)[..ds[j][4]]
  }

  /** Enough endpoint descriptors follow and the table has room: what phase 2 relies on unchecked. */
  ghost predicate Readable(ds: seq<Octets>, j: nat) {
    AllWellFormed(ds) && j < |ds| && |ds[j]| >= 9 && ds[j][4] <= |Endpoints(ds, j + 1, |ds|)|
      && ds[j][4] <= MAX_ENDPOINTS
  }

  /** Where reading the endpoints of the interface at index j goes wrong: with a seventeenth endpoint
      the code writes past its table, with too few it reads through the reader's null result. */
  ghost function Fault(ds: seq<Octets>, j: nat): (r: Option<Outcome>)
    requires AllWellFormed(ds) && j < |ds| && |ds[j]| >= 9
    ensures r == None <==> Readable(ds, j)
  {
    var following := |Endpoints(ds, j + 1, |ds|)|;
    if ds[j][4] <= following && ds[j][4] <= MAX_ENDPOINTS then None
    else if following > MAX_ENDPOINTS then Some(PastTable) else Some(NullDescriptor)
  }

  /** What phase 2 does with a configuration. */
  ghost function Phase2Outcome(ds: seq<Octets>): Outcome
    requires AllWellFormed(ds) && ds != []
  {
    var j := FirstBoot(ds, 0);
    if ds[0][1] != CONFIGURATION then InvalidDescriptor
    else if j == |ds| then NothingToDo
    else if Fault(ds, j).Some? then Fault(ds, j).value
    else AskSetConfiguration(ds[0][5])
  }

  /** Phase 2 records exactly the interface's own endpoints if and only if the announced number is right. */
  lemma RecordsOwnIff(ds: seq<Octets>, j: nat)
    requires Readable(ds, j)
    ensures Recorded(ds, j) == OwnEndpoints(ds, j) <==> ds[j][4] == |OwnEndpoints(ds, j)|
  {
    hide Endpoints;
    EndpointsSplit(ds, j + 1, NextOfType(ds, j, INTERFACE), |ds|);
  }

  // ----- the device -----

  const GET_DESCRIPTOR := 6
  const SET_CONFIGURATION := 9
  const DEVICE := 1

  class Device {
    const configs: array<EndpointConfig>
    var numConfigs: nat
    const drivers: array<Option<Driver>>
    var phase: nat
    var initialized: bool

    ghost predicate Valid()
      reads this, configs, drivers
    {
      && configs.Length == MAX_ENDPOINTS && drivers.Length == 16 && numConfigs <= MAX_ENDPOINTS
      && phase <= 4 && (initialized <==> phase == 4)
      && (phase == 3 ==> forall i :: 0 <= i < numConfigs ==> HasDriver(drivers[..], configs[i]))
    }

    /** StartInitialize has been called. */
    constructor ()
      ensures Valid() && phase == 1 && numConfigs == 0 && fresh(configs) && fresh(drivers)
      ensures forall i :: 0 <= i < 16 ==> drivers[i] == None
    {
      configs := new EndpointConfig[MAX_ENDPOINTS](_ => EndpointConfig(0, false, 0, 0, 0));
      drivers := new Option<Driver>[16](_ => None);
      numConfigs, phase, initialized := 0, 1, false;
    }

    /** One endpoint: into the table, and its number to the driver. */
    method TakeEndpoint(conf: EndpointConfig, driver: Driver, ghost was: seq<Option<Driver>>)
      requires configs.Length == MAX_ENDPOINTS && drivers.Length == 16 && numConfigs < MAX_ENDPOINTS
      requires conf.number < 16 && Driven(drivers[..], was, configs[..numConfigs], driver)
      modifies this`numConfigs, configs, drivers
      ensures numConfigs == old(numConfigs) + 1 && configs[..numConfigs] == old(configs[..numConfigs]) + [conf]
      ensures Driven(drivers[..], was, configs[..numConfigs], driver)
    {
      hide Driven;
      ghost var before, driven := configs[..numConfigs], drivers[..];
      configs[numConfigs] := conf;
      numConfigs := numConfigs + 1;
      drivers[conf.number] := Some(driver);
      assert configs[..numConfigs] == before + [conf];
      assert drivers[..] == driven[conf.number := Some(driver)];
      DrivenSnoc(driven, was, before, conf, driver);
    }

    /** One turn of the inner loop of phase 2, in which the descriptor after the k-th is read. */
    method ReadDescriptor(reader: Reader, driver: Driver, ghost ds: seq<Octets>, ghost k: nat,
      ghost was: seq<Option<Driver>>) returns (fault: Option<Outcome>)
      requires AllWellFormed(ds) && k < |ds| && reader.On(ds, k)
      requires configs.Length == MAX_ENDPOINTS && drivers.Length == 16 && numConfigs <= MAX_ENDPOINTS
      requires Driven(drivers[..], was, configs[..numConfigs], driver)
      modifies this`numConfigs, configs, drivers, reader
      ensures reader.On(ds, k + 1)
      ensures old(numConfigs) <= numConfigs <= old(numConfigs) + 1 && numConfigs <= MAX_ENDPOINTS
      ensures Driven(drivers[..], was, configs[..numConfigs], driver)
      ensures fault == None ==> k + 1 < |ds|
      ensures fault == None ==>
        old(configs[..numConfigs]) + Endpoints(ds, k + 1, |ds|) == configs[..numConfigs] + Endpoints(ds, k + 2, |ds|)
      ensures fault.Some? ==> numConfigs == old(numConfigs)
      ensures fault.Some? ==> fault == Some(if Endpoints(ds, k + 1, |ds|) == [] then NullDescriptor else PastTable)
      ensures fault == Some(PastTable) ==> numConfigs == MAX_ENDPOINTS
    {
      hide Serialise, Offset, Endpoints, MakeConfig, Driven;
      EndpointsStep(ds, k + 1);
      var desc := reader.Next(ds, k);
      if desc == None { return Some(NullDescriptor); }
      assert WellFormed(ds[k + 1]);
      ByteOf(ds, k + 1, 1);
      if reader.buf[desc.value + 1] == ENDPOINT {
        if numConfigs == MAX_ENDPOINTS { return Some(PastTable); }
        var conf := ConfigAt(reader.buf, desc.value, ds, k + 1);
        TakeEndpoint(conf, driver, was);
      }
      return None;
    }

    /** The inner loop, from the interface at index j, up to its end or its fault. */
    method ReadEndpoints(reader: Reader, driver: Driver, count: nat, ghost ds: seq<Octets>, ghost j: nat)
      returns (fault: Option<Outcome>)
      requires AllWellFormed(ds) && j < |ds| && |ds[j]| >= 9 && reader.On(ds, j) && count == ds[j][4]
      requires configs.Length == MAX_ENDPOINTS && drivers.Length == 16
      modifies this`numConfigs, configs, drivers, reader
      ensures numConfigs <= MAX_ENDPOINTS && fault == Fault(ds, j)
      ensures fault == None ==> numConfigs == count && configs[..numConfigs] == Recorded(ds, j)
      ensures Driven(drivers[..], old(drivers[..]), configs[..numConfigs], driver)
    {
      hide Endpoints, Driven, Fault, Recorded, Readable, Reader.On;
      ghost var all, k := Endpoints(ds, j + 1, |ds|), j;
      numConfigs := 0;
      NothingDriven(drivers[..], driver);
      while numConfigs < count
        invariant j <= k < |ds| && reader.On(ds, k) && numConfigs <= count && numConfigs <= MAX_ENDPOINTS
        invariant all == configs[..numConfigs] + Endpoints(ds, k + 1, |ds|)
        invariant Driven(drivers[..], old(drivers[..]), configs[..numConfigs], driver)
        decreases |ds| - k
      {
        ReadSoFar(ds, j, configs[..numConfigs], Endpoints(ds, k + 1, |ds|));
        fault := ReadDescriptor(reader, driver, ds, k, old(drivers[..]));
        if fault.Some? { return; }
        k := k + 1;
      }
      ReadSoFar(ds, j, configs[..numConfigs], Endpoints(ds, k + 1, |ds|));
      return None;
    }

    /** Phase 2 takes the first boot keyboard or mouse of the configuration, records the endpoints it
        announces, makes it the driver of exactly their numbers and asks for the configuration to be
        set; without such an interface nothing changes. It stays in the buffer and the table if and
        only if enough endpoints follow and at most sixteen are announced. */
    method InitializePhase2(buf: Octets, ghost ds: seq<Octets>) returns (r: Outcome)
      requires Valid() && phase == 2 && AllWellFormed(ds) && ds != [] && buf == Serialise(ds)
      modifies this, configs, drivers
      ensures Valid() && r == Phase2Outcome(ds)
      ensures r.NullDescriptor? || r.PastTable? <==>
        ds[0][1] == CONFIGURATION && FirstBoot(ds, 0) < |ds| && !Readable(ds, FirstBoot(ds, 0))
      ensures initialized == old(initialized) && phase == if r.AskSetConfiguration? then 3 else old(phase)
      ensures r.AskSetConfiguration? ==> var j := FirstBoot(ds, 0);
        && DriverFor(ds[j]).Some? && configs[..numConfigs] == Recorded(ds, j)
        && Driven(drivers[..], old(drivers[..]), Recorded(ds, j), DriverFor(ds[j]).value)
      ensures r.InvalidDescriptor? || r.NothingToDo? ==> unchanged(this, configs, drivers)
    {
      hide Serialise, Offset, Endpoints, Recorded, Driven, FirstBoot, NextOfType, DriverFor, Readable, Fault;
      ByteOf(ds, 0, 1);
      assert Offset(ds, 0) == 0 by { OffsetZero(ds); }
      if FirstBoot(ds, 0) < |ds| { FaultIsOneOfTwo(ds, FirstBoot(ds, 0)); }
      if buf[1] != CONFIGURATION { return InvalidDescriptor; }
      var reader := new Reader(buf);
      ghost var k := 0;
      while true
        invariant reader.On(ds, k) && k < |ds| && FirstBoot(ds, k) == FirstBoot(ds, 0) && fresh(reader)
        invariant unchanged(this, configs, drivers) && drivers[..] == old(drivers[..])
        decreases |ds| - k
      {
        InterfacesSuffice(ds, k);
        var found := reader.NextTyped(INTERFACE, ds, k);
        k := NextOfType(ds, k, INTERFACE);
        if found == None { return NothingToDo; }
        var d := InterfaceAt(buf, found.value, ds, k);
        var driver := DriverFor(d);
        if driver.Some? {
          var fault := ReadEndpoints(reader, driver.value, d[4], ds, k);
          if fault.Some? { return fault.value; }
          phase := 3;
          ByteOf(ds, 0, 5);
          RecordedHaveDrivers(drivers[..], old(drivers[..]), configs[..numConfigs], driver.value);
          return AskSetConfiguration(buf[5]);
        }
      }
    }

    /** Each recorded endpoint with the driver of its number, in order. */
    ghost predicate HandsOver(endpoints: seq<(Driver, EndpointConfig)>)
      reads this, configs, drivers
    {
      && numConfigs <= configs.Length && |endpoints| == numConfigs
      && forall i :: 0 <= i < numConfigs ==>
           HasDriver(drivers[..], configs[i]) && endpoints[i] == (drivers[configs[i].number].value, configs[i])
    }

    /** Phase 3 hands each recorded endpoint to the driver phase 2 chose for it; none is missing. */
    method InitializePhase3() returns (r: Outcome)
      requires Valid() && phase == 3
      modifies this
      ensures Valid() && phase == 4 && numConfigs == old(numConfigs)
      ensures r.Initialised? && HandsOver(r.endpoints)
    {
      var done: seq<(Driver, EndpointConfig)> := [];
      for i := 0 to numConfigs
        invariant |done| == i
        invariant forall m :: 0 <= m < i ==>
          HasDriver(drivers[..], configs[m]) && done[m] == (drivers[configs[m].number].value, configs[m])
      {
        assert HasDriver(drivers[..], configs[i]);
        done := done + [(drivers[configs[i].number].value, configs[i])];
      }
      phase, initialized := 4, true;
      return Initialised(done);
    }

    /** Each phase accepts only its own reply and then the next one follows; every other reply leaves
        the device as it was. */
    method OnControlCompleted(request: nat, buf: Octets, ghost ds: seq<Octets>) returns (r: Outcome)
      requires Valid() && (request == GET_DESCRIPTOR ==> AllWellFormed(ds) && ds != [] && buf == Serialise(ds))
      modifies this, configs, drivers
      ensures Valid()
      ensures old(phase) == 0 ==> r == NotImplemented
      ensures old(phase) == 1 ==>
        r == if request == GET_DESCRIPTOR && ds[0][1] == DEVICE then AskConfiguration else InvalidPhase
      ensures old(phase) == 2 ==>
        r == if request == GET_DESCRIPTOR && ds[0][1] == CONFIGURATION then Phase2Outcome(ds) else InvalidPhase
      ensures old(phase) == 3 ==>
        if request == SET_CONFIGURATION then r.Initialised? && HandsOver(r.endpoints) else r == InvalidPhase
      ensures old(phase) == 4 ==> r == ToWaiter
      ensures phase == old(phase) + if r.AskConfiguration? || r.AskSetConfiguration? || r.Initialised? then 1 else 0
      ensures r.InvalidPhase? || r.NothingToDo? || r.NotImplemented? || r.ToWaiter? ==>
        unchanged(this, configs, drivers)
    {
      hide Serialise, FirstBoot, Readable, Endpoints, Recorded, Numbered, HasDriver, Fault;
      if initialized { return ToWaiter; }
      if request == GET_DESCRIPTOR {
        assert WellFormed(ds[0]);
        ByteOf(ds, 0, 1);
        OffsetZero(ds);
      }
      if phase == 1 {
        if request == GET_DESCRIPTOR && buf[1] == DEVICE {
          phase := 2;
          return AskConfiguration;
        }
        return InvalidPhase;
      } else if phase == 2 {
        if request == GET_DESCRIPTOR && buf[1] == CONFIGURATION {
          r := InitializePhase2(buf, ds);
          if FirstBoot(ds, 0) < |ds| { FaultIsOneOfTwo(ds, FirstBoot(ds, 0)); }
          return;
        }
        return InvalidPhase;
      } else if phase == 3 {
        if request == SET_CONFIGURATION {
          r := InitializePhase3();
          return;
        }
        return InvalidPhase;
      }
      return NotImplemented;
    }
  }

  lemma FaultIsOneOfTwo(ds: seq<Octets>, j: nat)
    requires AllWellFormed(ds) && j < |ds| && |ds[j]| >= 9
    ensures Fault(ds, j).Some? ==> Fault(ds, j).value.NullDescriptor? || Fault(ds, j).value.PastTable?
    ensures Fault(ds, j) == None <==> Readable(ds, j)
  {
  }

  // ----- configurations that go wrong -----

  /** A boot keyboard that announces n endpoints. */
  function BootKeyboard(n: Byte): Octets { [9, INTERFACE, 0, 0, n, 3, 1, 1, 0] }

  const SOME_CONFIGURATION: Octets := [9, CONFIGURATION, 0, 0, 1, 1, 0, 0, 0]
  const SOME_ENDPOINT: Octets := [7, ENDPOINT, 0x81, 3, 8, 0, 10]
  const OTHER_INTERFACE: Octets := [9, INTERFACE, 1, 0, 1, 8, 0, 0, 0]

  /** One endpoint announced, none there. */
  lemma NullReadInput()
    ensures var ds := [SOME_CONFIGURATION, BootKeyboard(1)]; AllWellFormed(ds) && Phase2Outcome(ds) == NullDescriptor
  {
    var ds := [SOME_CONFIGURATION, BootKeyboard(1)];
    assert IsBoot(ds[1]) && FirstBoot(ds, 0) == 1;
    assert Endpoints(ds, 2, 2) == [];
  }

  lemma {:induction false} OnlyEndpoints(ds: seq<Octets>, k: nat)
    requires AllWellFormed(ds) && k <= |ds| && forall i :: k <= i < |ds| ==> ds[i][1] == ENDPOINT
    ensures |Endpoints(ds, k, |ds|)| == |ds| - k
    decreases |ds| - k
  {
    if k < |ds| { OnlyEndpoints(ds, k + 1); }
  }

  /** Seventeen endpoints announced and present. */
  lemma PastTableInput()
    ensures var ds := [SOME_CONFIGURATION, BootKeyboard(17)] + seq(17, _ => SOME_ENDPOINT);
      AllWellFormed(ds) && Phase2Outcome(ds) == PastTable
  {
    var ds := [SOME_CONFIGURATION, BootKeyboard(17)] + seq(17, _ => SOME_ENDPOINT);
    assert IsBoot(ds[1]) && FirstBoot(ds, 0) == 1;
    OnlyEndpoints(ds, 2);
  }

  /** An announced endpoint is missing and the next interface has one: that one is recorded. */
  lemma RecordsAnothersEndpoint()
    ensures var ds := [SOME_CONFIGURATION, BootKeyboard(1), OTHER_INTERFACE, SOME_ENDPOINT];
      && AllWellFormed(ds) && FirstBoot(ds, 0) == 1 && Readable(ds, 1)
      && Recorded(ds, 1) == [MakeConfig(SOME_ENDPOINT)] && OwnEndpoints(ds, 1) == []
  {
    var ds := [SOME_CONFIGURATION, BootKeyboard(1), OTHER_INTERFACE, SOME_ENDPOINT];
    assert IsBoot(ds[1]) && FirstBoot(ds, 0) == 1;
    assert NextOfType(ds, 1, INTERFACE) == 2;
    assert Endpoints(ds, 4, 4) == [];
    assert Endpoints(ds, 3, 4) == [MakeConfig(SOME_ENDPOINT)];
    assert Endpoints(ds, 2, 4) == [MakeConfig(SOME_ENDPOINT)];
    assert Endpoints(ds, 2, 2) == [];
  }

  ghost predicate HasDriver(drivers: seq<Option<Driver>>, c: EndpointConfig) {
    c.number < |drivers| && drivers[c.number].Some?
  }

  /** Some configuration has endpoint number i. */
  predicate Numbered(cs: seq<EndpointConfig>, i: nat) { exists m :: 0 <= m < |cs| && cs[m].number == i }

  /** The numbers of the configurations, and no others, were given to the driver. */
  ghost predicate Driven(drivers: seq<Option<Driver>>, was: seq<Option<Driver>>, cs: seq<EndpointConfig>,
    driver: Driver)
  {
    && |drivers| == |was| == 16 && (forall i :: 0 <= i < |cs| ==> cs[i].number < 16)
    && forall i :: 0 <= i < 16 ==> drivers[i] == if Numbered(cs, i) then Some(driver) else was[i]
  }

  lemma NothingDriven(was: seq<Option<Driver>>, driver: Driver)
    requires |was| == 16
    ensures Driven(was, was, [], driver)
  {
  }

  lemma NumberedSnoc(cs: seq<EndpointConfig>, c: EndpointConfig, i: nat)
    ensures Numbered(cs + [c], i) <==> Numbered(cs, i) || i == c.number
  {
    if Numbered(cs, i) {
      var m :| 0 <= m < |cs| && cs[m].number == i;
      assert (cs + [c])[m].number == i;
    }
    assert (cs + [c])[|cs|] == c;
  }

  lemma DrivenSnoc(drivers: seq<Option<Driver>>, was: seq<Option<Driver>>, cs: seq<EndpointConfig>, c: EndpointConfig,
    driver: Driver)
    requires Driven(drivers, was, cs, driver) && c.number < 16
    ensures Driven(drivers[c.number := Some(driver)], was, cs + [c], driver)
  {
    hide Numbered;
    var drivers' := drivers[c.number := Some(driver)];
    forall i | 0 <= i < 16 ensures drivers'[i] == if Numbered(cs + [c], i) then Some(driver) else was[i] {
      NumberedSnoc(cs, c, i);
    }
  }

  lemma RecordedHaveDrivers(drivers: seq<Option<Driver>>, was: seq<Option<Driver>>, cs: seq<EndpointConfig>,
    driver: Driver)
    requires Driven(drivers, was, cs, driver)
    ensures forall i :: 0 <= i < |cs| ==> HasDriver(drivers, cs[i])
  {
    forall i | 0 <= i < |cs| ensures HasDriver(drivers, cs[i]) { assert Numbered(cs, cs[i].number); }
  }

  lemma OffsetZero(ds: seq<Octets>)
    ensures Offset(ds, 0) == 0
  {
  }

  /** The outcome, when `read` of the endpoints are recorded and `rest` are still to come. */
  lemma ReadSoFar(ds: seq<Octets>, j: nat, read: seq<EndpointConfig>, rest: seq<EndpointConfig>)
    requires AllWellFormed(ds) && j < |ds| && |ds[j]| >= 9 && Endpoints(ds, j + 1, |ds|) == read + rest
    requires |read| <= ds[j][4] && |read| <= MAX_ENDPOINTS
    ensures |read| == ds[j][4] ==> Fault(ds, j) == None && Readable(ds, j) && Recorded(ds, j) == read
    ensures |read| < ds[j][4] && rest == [] ==> Fault(ds, j) == Some(NullDescriptor)
    ensures |read| < ds[j][4] && |read| == MAX_ENDPOINTS && rest != [] ==> Fault(ds, j) == Some(PastTable)
  {
    hide Endpoints, MakeConfig;
  }

  lemma EndpointsStep(ds: seq<Octets>, k: nat)
    requires AllWellFormed(ds) && k <= |ds|
    ensures Endpoints(ds, k, |ds|) == if k == |ds| then [] else
      (if ds[k][1] == ENDPOINT then [MakeConfig(ds[k])] else []) + Endpoints(ds, k + 1, |ds|)
  {
  }

  /** An interface descriptor's fixed fields. */
  method InterfaceAt(buf: Octets, at: nat, ghost ds: seq<Octets>, ghost k: nat) returns (d: Octets)
    requires AllWellFormed(ds) && k < |ds| && buf == Serialise(ds) && at == Offset(ds, k) && ds[k][1] == INTERFACE
    ensures |ds[k]| >= 9 && d == ds[k][..9] && DriverFor(d) == DriverFor(ds[k])
  {
    hide Serialise, Offset;
    AtOffset(ds, k);
    ghost var whole := buf[at..at + |ds[k]|];
    d := buf[at..at + 9];
    assert d == ds[k][..9] by { assert whole == ds[k]; assert d == whole[..9]; }
  }

  /** MakeEPConfig on the bytes in the buffer. */
  method ConfigAt(buf: Octets, at: nat, ghost ds: seq<Octets>, ghost k: nat) returns (c: EndpointConfig)
    requires AllWellFormed(ds) && k < |ds| && buf == Serialise(ds) && at == Offset(ds, k) && ds[k][1] == ENDPOINT
    ensures c == MakeConfig(ds[k]) && c.number < 16
  {
    hide Serialise, Offset;
    AtOffset(ds, k);
    ghost var whole := buf[at..at + |ds[k]|];
    var d := buf[at..at + 7];
    assert d == ds[k][..7] by { assert whole == ds[k]; assert d == whole[..7]; }
    c := MakeConfig(d);
  }
}
