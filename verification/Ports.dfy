/**
 * The port bring-up protocol of kernel/usb/xhci/xhci.cpp: what each event does to the per-port
 * configuration phases, the port being addressed and the slot table. Register and context reads are
 * observations carried by the events, so that the controller may be arbitrary.
 */
module Ports {
  import opened Options

  datatype Phase =
    | NotConnected | WaitingAddressed | ResettingPort | EnablingSlot
    | AddressingDevice | InitializingDevice | ConfiguringEndpoints | Configured

  function Rank(p: Phase): (r: nat)
    ensures r <= 7
  {
    match p
    case NotConnected => 0
    case WaitingAddressed => 1
    case ResettingPort => 2
    case EnablingSlot => 3
    case AddressingDevice => 4
    case InitializingDevice => 5
    case ConfiguringEndpoints => 6
    case Configured => 7
  }

  /** From reset to address assignment only one port may be in progress. */
  predicate InProgress(p: Phase) { p.ResettingPort? || p.EnablingSlot? || p.AddressingDevice? }

  const PORTS := 256
  const MAX_SLOTS := 8

  type PortId = p: nat | p < 256
  type SlotId = s: nat | s < 256

  datatype Kind = EnableSlot | AddressDevice | ConfigureEndpoint

  /** A command pushed on behalf of a port. */
  datatype Command = Command(kind: Kind, port: PortId, slot: SlotId)

  datatype Error = Success | InvalidPhase | InvalidSlotId | TransferFailed | UnknownSpeed

  /** port_config_phase, addressing_port, and for each allocated slot the port in its input context. */
  datatype Driver = Driver(phase: seq<Phase>, addressing: PortId, devices: seq<Option<PortId>>) {
    ghost predicate Valid() { |phase| == PORTS && |devices| == MAX_SLOTS + 1 }
  }

  datatype Outcome = Outcome(d: Driver, issued: Option<Command>, error: Error)

  datatype Event =
    | ConfigurePort(port: PortId, connected: bool)
    | PortStatusChange(port: PortId, connected: bool, enabled: bool, resetChanged: bool)
    | Transfer(slot: SlotId, succeeded: bool, initialized: bool, contextPort: PortId, speedKnown: bool)
    | Completion(kind: Kind, slot: SlotId, contextPort: PortId, nextConnected: bool)

  function Start(): Driver { Driver(seq(PORTS, _ => NotConnected), 0, seq(MAX_SLOTS + 1, _ => None)) }

  function SetPhase(d: Driver, p: PortId, ph: Phase): (r: Driver)
    requires d.Valid()
    ensures r.Valid()
  {
    d.(phase := d.phase[p := ph])
  }

  /** ResetPort. */
  function ResetPort(d: Driver, p: PortId, connected: bool): (o: Outcome)
    requires d.Valid()
    ensures o.d.Valid() && o.issued.None?
  {
    if !connected then Outcome(d, None, Success)
    else if d.addressing != 0 then Outcome(SetPhase(d, p, WaitingAddressed), None, Success)
    else if d.phase[p] != NotConnected && d.phase[p] != WaitingAddressed then Outcome(d, None, InvalidPhase)
    else Outcome(SetPhase(d.(addressing := p), p, ResettingPort), None, Success)
  }

  /** The first port waiting to be addressed, or 256. */
  function FirstWaiting(phase: seq<Phase>, i: nat): (k: nat)
    requires i <= |phase|
    ensures i <= k <= |phase| && (k < |phase| ==> phase[k].WaitingAddressed?)
    ensures forall j :: i <= j < k ==> !phase[j].WaitingAddressed?
    decreases |phase| - i
  {
    if i == |phase| || phase[i].WaitingAddressed? then i else FirstWaiting(phase, i + 1)
  }

  /** FindBySlot. */
  function FindBySlot(d: Driver, slot: SlotId): Option<PortId>
    requires d.Valid()
  {
    if slot > MAX_SLOTS then None else d.devices[slot]
  }

  /** The phase change of EnableSlot, pushing the command. */
  function OnReset(d: Driver, p: PortId, done: bool): (o: Outcome)
    requires d.Valid()
    ensures o.d.Valid()
  {
    if !done then Outcome(d, None, Success)
    else Outcome(SetPhase(d, p, EnablingSlot), Some(Command(EnableSlot, p, 0)), Success)
  }

  /** AddressDevice for the port being addressed. AllocDevice's own error is ignored by the source. */
  function OnSlotEnabled(d: Driver, slot: SlotId): (o: Outcome)
    requires d.Valid()
    ensures o.d.Valid()
  {
    if !d.phase[d.addressing].EnablingSlot? then Outcome(d, None, InvalidPhase)
    else if slot > MAX_SLOTS then Outcome(d, None, InvalidSlotId)
    else
      var d' := SetPhase(d, d.addressing, AddressingDevice);
      Outcome(d'.(devices := d'.devices[slot := Some(d.addressing)]), Some(Command(AddressDevice, d.addressing, slot)),
        Success)
  }

  /** The port is addressed: let the next waiting port begin, then initialize the device. */
  function OnAddressed(d: Driver, slot: SlotId, port: PortId, nextConnected: bool): (o: Outcome)
    requires d.Valid()
    ensures o.d.Valid()
  {
    if FindBySlot(d, slot).None? then Outcome(d, None, InvalidSlotId)
    else if port != d.addressing || !d.phase[port].AddressingDevice? then Outcome(d, None, InvalidPhase)
    else
      var freed := d.(addressing := 0);
      var next := FirstWaiting(d.phase, 0);
      var r := if next < PORTS then ResetPort(freed, next, nextConnected) else Outcome(freed, None, Success);
      if r.error != Success then r else Outcome(SetPhase(r.d, port, InitializingDevice), None, Success)
  }

  function OnConfigured(d: Driver, slot: SlotId, port: PortId): (o: Outcome)
    requires d.Valid()
    ensures o.d.Valid()
  {
    if FindBySlot(d, slot).None? then Outcome(d, None, InvalidSlotId)
    else if !d.phase[port].ConfiguringEndpoints? then Outcome(d, None, InvalidPhase)
    else Outcome(SetPhase(d, port, Configured), None, Success)
  }

  function OnTransfer(d: Driver, slot: SlotId, succeeded: bool, initialized: bool, port: PortId,
    speedKnown: bool): (o: Outcome)
    requires d.Valid()
    ensures o.d.Valid()
  {
    if FindBySlot(d, slot).None? then Outcome(d, None, InvalidSlotId)
    else if !succeeded then Outcome(d, None, TransferFailed)
    else if !initialized || !d.phase[port].InitializingDevice? then Outcome(d, None, Success)
    else if !speedKnown then Outcome(d, None, UnknownSpeed)
    else Outcome(SetPhase(d, port, ConfiguringEndpoints), Some(Command(ConfigureEndpoint, port, slot)), Success)
  }

  /** The three OnEvent handlers and ConfigurePort. */
  function Step(d: Driver, e: Event): (o: Outcome)
    requires d.Valid()
    ensures o.d.Valid()
  {
    match e
    case ConfigurePort(p, connected) =>
      if d.phase[p].NotConnected? then ResetPort(d, p, connected) else Outcome(d, None, Success)
    case PortStatusChange(p, connected, enabled, resetChanged) =>
      if d.phase[p].NotConnected? then ResetPort(d, p, connected)
      else if d.phase[p].ResettingPort? then OnReset(d, p, enabled && resetChanged)
      else Outcome(d, None, InvalidPhase)
    case Transfer(slot, succeeded, initialized, contextPort, speedKnown) =>
      OnTransfer(d, slot, succeeded, initialized, contextPort, speedKnown)
    case Completion(EnableSlot, slot, _, _) => OnSlotEnabled(d, slot)
    case Completion(AddressDevice, slot, contextPort, nextConnected) => OnAddressed(d, slot, contextPort, nextConnected)
    case Completion(ConfigureEndpoint, slot, contextPort, _) => OnConfigured(d, slot, contextPort)
  }

  /** Events name real ports; context contents and slot ids may be anything. */
  predicate NamesRealPort(e: Event) {
    (e.ConfigurePort? || e.PortStatusChange?) ==> e.port >= 1
  }

  // ----- mutual exclusion -----

  /** A port is between reset and address assignment exactly when it is the port being addressed. */
  ghost predicate Exclusive(d: Driver) {
    && d.Valid() && d.phase[0] == NotConnected
    && forall p: PortId :: InProgress(d.phase[p]) <==> p != 0 && p == d.addressing
  }

  lemma StepIsExclusive(d: Driver, e: Event)
    requires Exclusive(d) && NamesRealPort(e)
    ensures Exclusive(Step(d, e).d)
  {
  }

  // ----- who moves, and when -----

  /** Port p is found connected for the first time. */
  predicate Appears(d: Driver, e: Event, p: PortId)
    requires |d.phase| == PORTS
  {
    (e.ConfigurePort? || e.PortStatusChange?) && e.port == p && e.connected && d.phase[p].NotConnected?
  }

  /** The address of the port being addressed is assigned. */
  predicate GetsAddress(d: Driver, e: Event)
    requires |d.phase| == PORTS && |d.devices| == MAX_SLOTS + 1
  {
    && e.Completion? && e.kind.AddressDevice? && e.contextPort == d.addressing
    && d.phase[d.addressing].AddressingDevice?
    && e.slot <= MAX_SLOTS && d.devices[e.slot].Some?
  }

  /** Of the waiting ports, p has the lowest number. */
  ghost predicate NextInLine(d: Driver, p: PortId)
    requires |d.phase| == PORTS
  {
    d.phase[p].WaitingAddressed? && forall q: PortId :: q < p ==> !d.phase[q].WaitingAddressed?
  }

  /** When a port enters a phase (section 4.3 of the xHCI specification, with one port at a time). */
  ghost predicate Enters(d: Driver, e: Event, p: PortId, ph: Phase)
    requires d.Valid()
  {
    match ph
    case NotConnected => false
    case WaitingAddressed => Appears(d, e, p) && d.addressing != 0
    case ResettingPort =>
      || (Appears(d, e, p) && d.addressing == 0)
      || (GetsAddress(d, e) && NextInLine(d, p) && e.nextConnected)
    case EnablingSlot =>
      e.PortStatusChange? && e.port == p && d.phase[p].ResettingPort? && e.enabled && e.resetChanged
    case AddressingDevice =>
      e.Completion? && e.kind.EnableSlot? && p == d.addressing && d.phase[p].EnablingSlot? && e.slot <= MAX_SLOTS
    case InitializingDevice => GetsAddress(d, e) && p == d.addressing
    case ConfiguringEndpoints =>
      && e.Transfer? && e.contextPort == p && d.phase[p].InitializingDevice?
      && e.succeeded && e.initialized && e.speedKnown && e.slot <= MAX_SLOTS && d.devices[e.slot].Some?
    case Configured =>
      && e.Completion? && e.kind.ConfigureEndpoint? && e.contextPort == p && d.phase[p].ConfiguringEndpoints?
      && e.slot <= MAX_SLOTS && d.devices[e.slot].Some?
  }

  /** Each event moves exactly the ports it should, to the phases it should. */
  ghost predicate MovesRight(d: Driver, e: Event, d': Driver)
    requires d.Valid() && d'.Valid()
  {
    forall p: PortId, ph: Phase :: d'.phase[p] == ph && d.phase[p] != ph <==> Enters(d, e, p, ph)
  }

  lemma StepMovesRight(d: Driver, e: Event)
    requires Exclusive(d) && NamesRealPort(e)
    ensures MovesRight(d, e, Step(d, e).d)
  {
    hide FirstWaiting;
    if GetsAddress(d, e) { LowestWaits(d); }
  }

  /** The search finds the next port in line, if there is one. */
  lemma LowestWaits(d: Driver)
    requires d.Valid()
    ensures forall p: PortId :: NextInLine(d, p) <==> p == FirstWaiting(d.phase, 0)
  {
    hide FirstWaiting;
    var k := FirstWaiting(d.phase, 0);
    forall p: PortId ensures NextInLine(d, p) <==> p == k {
      if p > k { assert d.phase[k as PortId].WaitingAddressed?; }
    }
  }

  // ----- nobody is forgotten -----

  /** While a port waits, some port is being served. */
  ghost predicate Served(d: Driver)
    requires d.Valid()
  {
    forall p: PortId :: d.phase[p].WaitingAddressed? ==> d.addressing != 0
  }

  /** The port in line is unplugged just when its turn comes. */
  ghost predicate MissesTurn(d: Driver, e: Event)
    requires d.Valid()
  {
    GetsAddress(d, e) && !e.nextConnected && exists p: PortId :: d.phase[p].WaitingAddressed?
  }

  /** Waiting ports stay served unless the next one is unplugged; then they wait with nobody served. */
  lemma ServedUnlessMissed(d: Driver, e: Event)
    requires Exclusive(d) && NamesRealPort(e) && Served(d)
    ensures Served(Step(d, e).d) <==> !MissesTurn(d, e)
  {
    hide FirstWaiting;
    StepMovesRight(d, e);
    if GetsAddress(d, e) {
      LowestWaits(d);
      if MissesTurn(d, e) {
        var p: PortId :| d.phase[p].WaitingAddressed?;
        assert Step(d, e).d.phase[p].WaitingAddressed? && Step(d, e).d.addressing == 0;
      }
    }
  }

  /** When the addressed port is done, the lowest waiting port is reset, if it is connected. */
  lemma NextIsReset(d: Driver, e: Event, p: PortId)
    requires Exclusive(d) && GetsAddress(d, e) && NextInLine(d, p) && e.nextConnected
    ensures var d' := Step(d, e).d;
      d'.phase[p].ResettingPort? && d'.addressing == p && d'.phase[d.addressing].InitializingDevice?
  {
    hide FirstWaiting;
    LowestWaits(d);
  }

  /** Phases only move forward, and a command is pushed exactly when its phase is entered. */
  ghost predicate Forward(d: Driver, o: Outcome)
    requires d.Valid() && o.d.Valid()
  {
    && (forall p: PortId :: Rank(d.phase[p]) <= Rank(o.d.phase[p]))
    && (forall p: PortId, k: Kind ::
          (Rank(d.phase[p]) < PhaseOf(k) <= Rank(o.d.phase[p])) <==>
          (o.issued.Some? && o.issued.value.kind == k && o.issued.value.port == p))
  }

  lemma StepMovesForward(d: Driver, e: Event)
    requires Exclusive(d) && NamesRealPort(e)
    ensures Forward(d, Step(d, e))
  {
    hide Forward, OnAddressed, OnTransfer, OnSlotEnabled, OnConfigured, OnReset, ResetPort;
    match e
    case ConfigurePort(p, connected) => ResetForward(d, p, connected); Idle(d, Success);
    case PortStatusChange(p, connected, enabled, resetChanged) =>
      ResetForward(d, p, connected);
      OnResetForward(d, p, enabled && resetChanged);
      Idle(d, InvalidPhase);
    case Transfer(slot, succeeded, initialized, port, speedKnown) =>
      OnTransferForward(d, slot, succeeded, initialized, port, speedKnown);
    case Completion(EnableSlot, slot, _, _) => OnSlotEnabledForward(d, slot);
    case Completion(AddressDevice, slot, port, nextConnected) => OnAddressedForward(d, slot, port, nextConnected);
    case Completion(ConfigureEndpoint, slot, port, _) => OnConfiguredForward(d, slot, port);
  }

  lemma Idle(d: Driver, e: Error)
    requires d.Valid()
    ensures Forward(d, Outcome(d, None, e))
  {
  }

  lemma ResetForward(d: Driver, p: PortId, connected: bool)
    requires d.Valid()
    ensures d.phase[p].NotConnected? || d.phase[p].WaitingAddressed? ==> Forward(d, ResetPort(d, p, connected))
  {
  }

  lemma OnResetForward(d: Driver, p: PortId, done: bool)
    requires d.Valid()
    ensures d.phase[p].ResettingPort? ==> Forward(d, OnReset(d, p, done))
  {
  }

  lemma OnSlotEnabledForward(d: Driver, slot: SlotId)
    requires d.Valid()
    ensures Forward(d, OnSlotEnabled(d, slot))
  {
  }

  lemma OnTransferForward(d: Driver, slot: SlotId, succeeded: bool, initialized: bool, port: PortId, speedKnown: bool)
    requires d.Valid()
    ensures Forward(d, OnTransfer(d, slot, succeeded, initialized, port, speedKnown))
  {
  }

  lemma OnConfiguredForward(d: Driver, slot: SlotId, port: PortId)
    requires d.Valid()
    ensures Forward(d, OnConfigured(d, slot, port))
  {
  }

  lemma OnAddressedForward(d: Driver, slot: SlotId, port: PortId, nextConnected: bool)
    requires d.Valid()
    ensures Forward(d, OnAddressed(d, slot, port, nextConnected))
  {
    hide FirstWaiting;
  }

  function PhaseOf(k: Kind): nat {
    match k
    case EnableSlot => 3
    case AddressDevice => 4
    case ConfigureEndpoint => 6
  }

  // ----- whole runs with an arbitrary controller -----

  datatype History = History(d: Driver, log: seq<Command>)

  function Record(h: History, e: Event): History
    requires h.d.Valid()
  {
    var o := Step(h.d, e);
    History(o.d, if o.issued.Some? then h.log + [o.issued.value] else h.log)
  }

  function Run(h: History, es: seq<Event>): (r: History)
    requires h.d.Valid()
    ensures r.d.Valid()
    decreases |es|
  {
    if es == [] then h else Run(Record(h, es[0]), es[1..])
  }

  function Count(log: seq<Command>, k: Kind, p: PortId): nat {
    if log == [] then 0
    else Count(log[..|log| - 1], k, p) + if log[|log| - 1].kind == k && log[|log| - 1].port == p then 1 else 0
  }

  /** Each port has issued each command once if it has reached the command's phase, else never. */
  ghost predicate LogExact(h: History)
    requires h.d.Valid()
  {
    forall p: PortId, k: Kind :: Count(h.log, k, p) == if Rank(h.d.phase[p]) >= PhaseOf(k) then 1 else 0
  }

  lemma RecordExact(h: History, e: Event)
    requires Exclusive(h.d) && LogExact(h) && NamesRealPort(e)
    ensures Exclusive(Record(h, e).d) && LogExact(Record(h, e))
  {
    hide Step, Rank;
    StepIsExclusive(h.d, e);
    StepMovesForward(h.d, e);
    var h' := Record(h, e);
    forall p: PortId, k: Kind ensures Count(h'.log, k, p) == if Rank(h'.d.phase[p]) >= PhaseOf(k) then 1 else 0 {
      if h'.log != h.log { assert h'.log[..|h'.log| - 1] == h.log; }
    }
  }

  /** Over every sequence of events: mutual exclusion, and each port issues each command at most once. */
  lemma {:induction false} RunIsExclusive(h: History, es: seq<Event>)
    requires Exclusive(h.d) && LogExact(h) && forall i :: 0 <= i < |es| ==> NamesRealPort(es[i])
    ensures Exclusive(Run(h, es).d) && LogExact(Run(h, es))
    decreases |es|
  {
    hide LogExact, Record;
    if es != [] {
      RecordExact(h, es[0]);
      RunIsExclusive(Record(h, es[0]), es[1..]);
    }
  }

  lemma StartIsExact()
    ensures Exclusive(Start()) && LogExact(History(Start(), []))
  {
  }

  /** Events at whose time the next port in line, if it is asked for, is still connected. */
  predicate KeepsConnected(e: Event) { e.Completion? && e.kind.AddressDevice? ==> e.nextConnected }

  /** Over every run in which the ports in line stay connected, no port waits in vain: one is always
      between reset and address assignment. */
  lemma {:induction false} RunServes(h: History, es: seq<Event>)
    requires Exclusive(h.d) && Served(h.d)
    requires forall i :: 0 <= i < |es| ==> NamesRealPort(es[i]) && KeepsConnected(es[i])
    ensures Exclusive(Run(h, es).d) && Served(Run(h, es).d)
    ensures forall p: PortId :: Run(h, es).d.phase[p].WaitingAddressed? ==>
      Run(h, es).d.addressing != 0 && InProgress(Run(h, es).d.phase[Run(h, es).d.addressing])
    decreases |es|
  {
    hide Step;
    if es != [] {
      StepIsExclusive(h.d, es[0]);
      ServedUnlessMissed(h.d, es[0]);
      RunServes(Record(h, es[0]), es[1..]);
    }
  }

  /** How often the phase of port p changes in a run. */
  function Changes(h: History, es: seq<Event>, p: PortId): nat
    requires h.d.Valid()
    decreases |es|
  {
    if es == [] then 0
    else (if Record(h, es[0]).d.phase[p] != h.d.phase[p] then 1 else 0) + Changes(Record(h, es[0]), es[1..], p)
  }

  /** At most seven phase changes per port, however long the run. */
  lemma {:induction false} ChangesAreBounded(h: History, es: seq<Event>, p: PortId)
    requires Exclusive(h.d) && forall i :: 0 <= i < |es| ==> NamesRealPort(es[i])
    ensures Changes(h, es, p) + Rank(h.d.phase[p]) <= Rank(Run(h, es).d.phase[p]) <= 7
    decreases |es|
  {
    hide Step;
    if es != [] {
      StepIsExclusive(h.d, es[0]);
      StepMovesForward(h.d, es[0]);
      RankIsInjective(h.d.phase[p], Record(h, es[0]).d.phase[p]);
      ChangesAreBounded(Record(h, es[0]), es[1..], p);
    }
  }

  lemma RankIsInjective(a: Phase, b: Phase)
    ensures Rank(a) == Rank(b) ==> a == b
  {
  }
}
