/**
 * The event handlers of kernel/usb/xhci/xhci.cpp over the global port table, in place. Whatever events
 * the controller sends, each handler keeps at most one port between reset and address assignment and
 * has each port issue each command at most once.
 */
module PortDriver {
  import opened Options
  import opened Ports

  class Bringup {
    const phase: array<Phase>                 // port_config_phase
    const devices: array<Option<PortId>>      // the slot table of DeviceManager
    var addressing: PortId                    // addressing_port
    ghost var log: seq<Command>               // every command pushed so far

    ghost predicate Shape() { phase.Length == PORTS && devices.Length == MAX_SLOTS + 1 }

    ghost function State(): Driver
      reads this, phase, devices
    {
      Driver(phase[..], addressing, devices[..])
    }

    /** A port is between reset and address assignment exactly if it is the one being addressed, and
        each port has issued each command once if it reached the command's phase, else never. */
    ghost predicate Valid()
      reads this, phase, devices
    {
      Shape() && Exclusive(State()) && LogExact(History(State(), log))
    }

    constructor ()
      ensures Valid() && fresh(phase) && fresh(devices) && State() == Start() && log == []
    {
      phase := new Phase[PORTS](_ => NotConnected);
      devices := new Option<PortId>[MAX_SLOTS + 1](_ => None);
      addressing, log := 0, [];
      new;
      assert phase[..] == Start().phase && devices[..] == Start().devices;
      StartIsExact();
    }

    /** The handler of e has made its step and pushed c: exactly the ports moved that should, nobody moved
        back, nothing was issued twice, and no waiting port was forgotten. */
    ghost predicate Handled(before: Driver, logged: seq<Command>, e: Event, c: Option<Command>, err: Error)
      requires before.Valid()
      reads this, phase, devices
    {
      && Valid() && Outcome(State(), c, err) == Step(before, e) && Forward(before, Step(before, e))
      && MovesRight(before, e, State()) && (Served(before) ==> (Served(State()) <==> !MissesTurn(before, e)))
      && log == logged + (if c.Some? then [c.value] else [])
      && (c.Some? ==> Count(logged, c.value.kind, c.value.port) == 0)
    }

    /** The bookkeeping at the end of every handler. */
    ghost method Record(before: Driver, e: Event, c: Option<Command>, err: Error)
      requires Shape() && before.Valid() && Exclusive(before) && LogExact(History(before, log)) && NamesRealPort(e)
      requires Outcome(State(), c, err) == Step(before, e)
      modifies this`log
      ensures Handled(before, old(log), e, c, err)
    {
      hide Exclusive, LogExact, Forward, Step, MovesRight, Served, MissesTurn;
      StepMovesRight(before, e);
      if Served(before) { ServedUnlessMissed(before, e); }
      var h := History(before, log);
      RecordExact(h, e);
      StepMovesForward(before, e);
      if c.Some? { NotIssuedBefore(h, e); }
      log := log + (if c.Some? then [c.value] else []);
      assert Ports.Record(h, e) == History(State(), log);
    }

    method ResetPort(p: PortId, connected: bool) returns (e: Error)
      requires Shape()
      modifies this`addressing, phase
      ensures State() == Ports.ResetPort(old(State()), p, connected).d
      ensures e == Ports.ResetPort(old(State()), p, connected).error
    {
      if !connected { return Success; }
      if addressing != 0 {
        phase[p] := WaitingAddressed;
      } else {
        if phase[p] != NotConnected && phase[p] != WaitingAddressed { return InvalidPhase; }
        addressing := p;
        phase[p] := ResettingPort;
      }
      return Success;
    }

    method ConfigurePort(p: PortId, connected: bool) returns (e: Error)
      requires Valid() && p >= 1
      modifies this, phase
      ensures Handled(old(State()), old(log), Event.ConfigurePort(p, connected), None, e)
    {
      hide Exclusive, LogExact, Forward, MovesRight, Served, MissesTurn;
      ghost var before := State();
      if phase[p] == NotConnected {
        e := ResetPort(p, connected);
      } else {
        e := Success;
      }
      Record(before, Event.ConfigurePort(p, connected), None, e);
    }

    method OnPortStatusChange(p: PortId, connected: bool, enabled: bool, resetChanged: bool)
      returns (c: Option<Command>, e: Error)
      requires Valid() && p >= 1
      modifies this, phase
      ensures Handled(old(State()), old(log), PortStatusChange(p, connected, enabled, resetChanged), c, e)
    {
      hide Exclusive, LogExact, Forward, MovesRight, Served, MissesTurn;
      ghost var before := State();
      c := None;
      match phase[p] {
        case NotConnected =>
          e := ResetPort(p, connected);
        case ResettingPort =>
          if enabled && resetChanged {
            phase[p] := EnablingSlot;
            c := Some(Command(EnableSlot, p, 0));
          }
          e := Success;
        case _ =>
          e := InvalidPhase;
      }
      Record(before, PortStatusChange(p, connected, enabled, resetChanged), c, e);
    }

    method OnTransfer(slot: SlotId, succeeded: bool, initialized: bool, contextPort: PortId, speedKnown: bool)
      returns (c: Option<Command>, e: Error)
      requires Valid()
      modifies this, phase
      ensures Handled(old(State()), old(log), Transfer(slot, succeeded, initialized, contextPort, speedKnown), c, e)
    {
      hide Exclusive, LogExact, Forward, MovesRight, Served, MissesTurn;
      ghost var before := State();
      c, e := None, Success;
      if slot > MAX_SLOTS || devices[slot].None? {
        e := InvalidSlotId;
      } else if !succeeded {
        e := TransferFailed;
      } else if initialized && phase[contextPort] == InitializingDevice {
        if !speedKnown {
          e := UnknownSpeed;
        } else {
          phase[contextPort] := ConfiguringEndpoints;
          c := Some(Command(ConfigureEndpoint, contextPort, slot));
        }
      }
      Record(before, Transfer(slot, succeeded, initialized, contextPort, speedKnown), c, e);
    }

    method OnSlotEnabled(slot: SlotId) returns (c: Option<Command>, e: Error)
      requires Shape()
      modifies phase, devices
      ensures Outcome(State(), c, e) == Ports.OnSlotEnabled(old(State()), slot)
    {
      if phase[addressing] != EnablingSlot { return None, InvalidPhase; }
      if slot > MAX_SLOTS { return None, InvalidSlotId; }
      devices[slot] := Some(addressing);
      phase[addressing] := AddressingDevice;
      return Some(Command(AddressDevice, addressing, slot)), Success;
    }

    /** The completion of AddressDevice: a loop over all ports finds the next one to reset. */
    method OnAddressed(slot: SlotId, contextPort: PortId, nextConnected: bool) returns (e: Error)
      requires Shape()
      modifies this`addressing, phase
      ensures var o := Ports.OnAddressed(old(State()), slot, contextPort, nextConnected);
        State() == o.d && e == o.error && o.issued.None?
    {
      if slot > MAX_SLOTS || devices[slot].None? { return InvalidSlotId; }
      if contextPort != addressing { return InvalidPhase; }
      if phase[contextPort] != AddressingDevice { return InvalidPhase; }
      addressing := 0;
      var i := FindWaiting();
      if i < PORTS {
        e := ResetPort(i, nextConnected);
        if e != Success { return e; }
      }
      phase[contextPort] := InitializingDevice;
      return Success;
    }

    method FindWaiting() returns (i: nat)
      requires Shape()
      ensures i == FirstWaiting(phase[..], 0)
    {
      i := 0;
      while i < phase.Length && phase[i] != WaitingAddressed
        invariant 0 <= i <= phase.Length
        invariant FirstWaiting(phase[..], 0) == FirstWaiting(phase[..], i)
      {
        i := i + 1;
      }
    }

    method OnCommandCompletion(kind: Kind, slot: SlotId, contextPort: PortId, nextConnected: bool)
      returns (c: Option<Command>, e: Error)
      requires Valid()
      modifies this, phase, devices
      ensures Handled(old(State()), old(log), Completion(kind, slot, contextPort, nextConnected), c, e)
    {
      hide Exclusive, LogExact, Forward, MovesRight, Served, MissesTurn;
      ghost var before := State();
      c := None;
      match kind {
        case EnableSlot =>
          c, e := OnSlotEnabled(slot);
        case AddressDevice =>
          e := OnAddressed(slot, contextPort, nextConnected);
        case ConfigureEndpoint =>
          if slot > MAX_SLOTS || devices[slot].None? {
            e := InvalidSlotId;
          } else if phase[contextPort] != ConfiguringEndpoints {
            e := InvalidPhase;
          } else {
            phase[contextPort] := Configured;
            e := Success;
          }
      }
      Record(before, Completion(kind, slot, contextPort, nextConnected), c, e);
    }
  }

  /** A command that a step issues was never issued for that port before. */
  lemma NotIssuedBefore(h: History, e: Event)
    requires Exclusive(h.d) && LogExact(h) && NamesRealPort(e)
    ensures var o := Step(h.d, e); o.issued.Some? ==> Count(h.log, o.issued.value.kind, o.issued.value.port) == 0
  {
    hide Step, Rank;
    StepMovesForward(h.d, e);
  }
}
