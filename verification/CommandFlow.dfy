/**
 * Bring-up against a controller that completes each command once, successfully, with fresh slot ids
 * in 1..8: outstanding commands correspond one to one to ports in a command's phase, at most nine are
 * outstanding, and at most 25 are ever issued.
 */
module CommandFlow {
  import opened Options
  import opened Ports

  /** `flight` holds the positions in the log of commands that have not completed. */
  datatype Sys = Sys(d: Driver, log: seq<Command>, flight: set<nat>)

  datatype Action =
    | Port(e: Event)                                                       // ConfigurePort or a port status change
    | Traffic(slot: SlotId, succeeded: bool, initialized: bool, port: PortId, speedKnown: bool)
    | Complete(i: nat, slot: SlotId, nextConnected: bool)                  // slot: the one granted to EnableSlot

  /** The completion event of command i; only an EnableSlot completion brings a new slot id. */
  function CompletionOf(c: Command, slot: SlotId, nextConnected: bool): Event {
    Completion(c.kind, if c.kind.EnableSlot? then slot else c.slot, c.port, nextConnected)
  }

  /** What the environment may do. */
  ghost predicate Allowed(s: Sys, a: Action)
    requires s.d.Valid()
  {
    match a
    case Port(e) => (e.ConfigurePort? || e.PortStatusChange?) && e.port >= 1
    case Traffic(slot, _, _, port, _) => FindBySlot(s.d, slot).Some? ==> port == FindBySlot(s.d, slot).value
    case Complete(i, slot, _) =>
      && i in s.flight && i < |s.log|
      && (s.log[i].kind.EnableSlot? ==> 1 <= slot <= MAX_SLOTS && s.d.devices[slot].None?)
  }

  function EventOf(s: Sys, a: Action): Event
    requires a.Complete? ==> a.i < |s.log|
  {
    match a
    case Port(e) => e
    case Traffic(slot, succeeded, initialized, port, speedKnown) =>
      Transfer(slot, succeeded, initialized, port, speedKnown)
    case Complete(i, slot, nextConnected) => CompletionOf(s.log[i], slot, nextConnected)
  }

  function Next(s: Sys, a: Action): Sys
    requires s.d.Valid() && (a.Complete? ==> a.i < |s.log|)
  {
    var o := Step(s.d, EventOf(s, a));
    var left := if a.Complete? then s.flight - {a.i} else s.flight;
    if o.issued.Some? then Sys(o.d, s.log + [o.issued.value], left + {|s.log|}) else Sys(o.d, s.log, left)
  }

  /** The phase a port is in while its command is outstanding. */
  function Awaiting(k: Kind): Phase {
    match k
    case EnableSlot => EnablingSlot
    case AddressDevice => AddressingDevice
    case ConfigureEndpoint => ConfiguringEndpoints
  }

  ghost predicate SlotsOk(s: Sys)
    requires s.d.Valid()
  {
    && s.d.devices[0].None?
    && (forall x, y :: 0 <= x < y <= MAX_SLOTS && s.d.devices[x].Some? ==> s.d.devices[x] != s.d.devices[y])
    && (forall x :: 0 <= x <= MAX_SLOTS && s.d.devices[x].Some? ==>
          s.d.devices[x].value >= 1 && Rank(s.d.phase[s.d.devices[x].value]) >= 4)
    && (forall i :: 0 <= i < |s.log| && !s.log[i].kind.EnableSlot? ==>
          1 <= s.log[i].slot <= MAX_SLOTS && s.d.devices[s.log[i].slot] == Some(s.log[i].port))
  }

  /** Outstanding commands are exactly those whose port awaits them. */
  ghost predicate FlightExact(s: Sys)
    requires s.d.Valid()
  {
    forall i :: i in s.flight <==> 0 <= i < |s.log| && s.d.phase[s.log[i].port] == Awaiting(s.log[i].kind)
  }

  ghost predicate Inv(s: Sys) {
    && Exclusive(s.d) && LogExact(History(s.d, s.log)) && SlotsOk(s) && FlightExact(s)
  }

  lemma {:induction false} CountPositive(log: seq<Command>, k: Kind, p: PortId, i: nat)
    requires i < |log| && log[i].kind == k && log[i].port == p
    ensures Count(log, k, p) >= 1
  {
    if i < |log| - 1 { CountPositive(log[..|log| - 1], k, p, i); }
  }

  lemma {:induction false} CountTwo(log: seq<Command>, k: Kind, p: PortId, i: nat, j: nat)
    requires i < j < |log| && log[i].kind == k && log[i].port == p && log[j].kind == k && log[j].port == p
    ensures Count(log, k, p) >= 2
  {
    if j < |log| - 1 { CountTwo(log[..|log| - 1], k, p, i, j); } else { CountPositive(log[..|log| - 1], k, p, i); }
  }

  /** A command in the log has been issued by its port, once. */
  lemma Issued(s: Sys, i: nat)
    requires Exclusive(s.d) && LogExact(History(s.d, s.log)) && i < |s.log|
    ensures Rank(s.d.phase[s.log[i].port]) >= PhaseOf(s.log[i].kind)
    ensures forall j :: 0 <= j < |s.log| && s.log[j].kind == s.log[i].kind && s.log[j].port == s.log[i].port ==> j == i
  {
    var c := s.log[i];
    CountPositive(s.log, c.kind, c.port, i);
    forall j | 0 <= j < |s.log| && s.log[j].kind == c.kind && s.log[j].port == c.port ensures j == i {
      if i < j { CountTwo(s.log, c.kind, c.port, i, j); } else if j < i { CountTwo(s.log, c.kind, c.port, j, i); }
    }
  }

  lemma NextInv(s: Sys, a: Action)
    requires Inv(s) && Allowed(s, a)
    ensures Inv(Next(s, a))
  {
    var e := EventOf(s, a);
    RecordExact(History(s.d, s.log), e);
    assert Record(History(s.d, s.log), e) == History(Next(s, a).d, Next(s, a).log);
    NextSlots(s, a);
    NextFlight(s, a);
  }

  /** A slot is filled only when its EnableSlot completes, for the port being addressed. */
  lemma StepDevices(d: Driver, e: Event)
    requires d.Valid()
    ensures var o := Step(d, e);
      if e.Completion? && e.kind.EnableSlot? && o.issued.Some? then
        && e.slot <= MAX_SLOTS && d.phase[d.addressing].EnablingSlot?
        && o.issued.value == Command(AddressDevice, d.addressing, e.slot)
        && o.d.devices == d.devices[e.slot := Some(d.addressing)]
        && o.d.phase == d.phase[d.addressing := AddressingDevice]
      else
        && o.d.devices == d.devices
        && (o.issued.Some? && !o.issued.value.kind.EnableSlot? ==>
              e.Transfer? && o.issued.value.slot == e.slot && o.issued.value.port == e.contextPort
                && FindBySlot(d, e.slot).Some?)
  {
    hide FirstWaiting;
  }

  lemma NextSlots(s: Sys, a: Action)
    requires Inv(s) && Allowed(s, a)
    ensures SlotsOk(Next(s, a))
  {
    hide Count, Step, Awaiting, PhaseOf;
    StepMovesForward(s.d, EventOf(s, a));
    StepDevices(s.d, EventOf(s, a));
  }

  /** A completion that answers a command its port awaits. */
  ghost predicate Answers(d: Driver, e: Event)
    requires d.Valid()
  {
    e.Completion? ==>
      && d.phase[e.contextPort] == Awaiting(e.kind) && e.slot <= MAX_SLOTS
      && (e.kind.EnableSlot? || FindBySlot(d, e.slot).Some?)
  }

  /** A port awaits a command after a step if it was just issued, or was awaited and not answered. */
  lemma StepAwaits(d: Driver, e: Event, p: PortId, k: Kind)
    requires Exclusive(d) && NamesRealPort(e) && Answers(d, e)
    ensures var o := Step(d, e);
      o.d.phase[p] == Awaiting(k) <==>
        || (o.issued.Some? && o.issued.value.kind == k && o.issued.value.port == p)
        || (d.phase[p] == Awaiting(k) && !(e.Completion? && e.kind == k && e.contextPort == p))
  {
    hide FirstWaiting;
  }

  lemma NextFlight(s: Sys, a: Action)
    requires Inv(s) && Allowed(s, a)
    ensures FlightExact(Next(s, a))
  {
    hide Count, Step, Awaiting, Rank, PhaseOf, Exclusive, LogExact;
    AnswersCommand(s, a);
    var e := EventOf(s, a);
    var o := Step(s.d, e);
    if o.issued.Some? { StepAwaits(s.d, e, o.issued.value.port, o.issued.value.kind); }
    forall i | 0 <= i < |s.log|
      ensures o.d.phase[s.log[i].port] == Awaiting(s.log[i].kind) <==> i in s.flight && !(a.Complete? && a.i == i)
    {
      Issued(s, i);
      StepAwaits(s.d, e, s.log[i].port, s.log[i].kind);
      if o.issued.Some? { NotAgain(s, e, i); }
    }
  }

  lemma AnswersCommand(s: Sys, a: Action)
    requires Inv(s) && Allowed(s, a)
    ensures s.d.Valid() && Exclusive(s.d) && LogExact(History(s.d, s.log)) && NamesRealPort(EventOf(s, a))
    ensures Answers(s.d, EventOf(s, a))
  {
    hide Count, Rank, PhaseOf;
  }

  /** A command that was issued before is not issued again. */
  lemma NotAgain(s: Sys, e: Event, i: nat)
    requires Exclusive(s.d) && LogExact(History(s.d, s.log)) && i < |s.log| && NamesRealPort(e)
    ensures var o := Step(s.d, e); o.issued.Some? ==>
      !(o.issued.value.kind == s.log[i].kind && o.issued.value.port == s.log[i].port)
  {
    hide Count, Step, Rank;
    Issued(s, i);
    StepMovesForward(s.d, e);
  }

  // ----- counting -----

  /** A set mapped injectively into 0..n-1 has at most n elements. */
  lemma {:induction false} InjectionBounds(s: set<nat>, f: nat -> nat, n: nat)
    requires forall x :: x in s ==> f(x) < n
    requires forall x, y :: x in s && y in s && f(x) == f(y) ==> x == y
    ensures |s| <= n
  {
    if n == 0 {
      assert s == {};
    } else if x :| x in s && f(x) == n - 1 {
      InjectionBounds(s - {x}, f, n - 1);
    } else {
      InjectionBounds(s, f, n - 1);
    }
  }

  /** The slot of a port, 0 when it has none. */
  function SlotOf(devices: seq<Option<PortId>>, p: PortId, n: nat): (k: nat)
    requires n <= |devices|
    ensures k < n || k == 0
    ensures k > 0 ==> devices[k] == Some(p)
    ensures k == 0 ==> forall x :: 0 < x < n ==> devices[x] != Some(p)
  {
    if n <= 1 then 0 else if devices[n - 1] == Some(p) then n - 1 else SlotOf(devices, p, n - 1)
  }

  /** The only port that has issued a command but has no slot is the one awaiting EnableSlot. */
  lemma OnlyOneWithoutSlot(s: Sys, i: nat, j: nat)
    requires Inv(s) && i < |s.log| && j < |s.log| && s.log[i].kind.EnableSlot? && s.log[j].kind.EnableSlot?
    requires SlotOf(s.d.devices, s.log[i].port, 9) == SlotOf(s.d.devices, s.log[j].port, 9)
    ensures i == j
  {
    hide Count, Exclusive;
    Issued(s, i);
    Issued(s, j);
    HasSlot(s, i);
    HasSlot(s, j);
    SameInProgress(s, s.log[i].port, s.log[j].port);
  }

  lemma HasSlot(s: Sys, i: nat)
    requires Inv(s) && i < |s.log|
    ensures SlotOf(s.d.devices, s.log[i].port, 9) == 0 ==> s.d.phase[s.log[i].port].EnablingSlot?
  {
    var p := s.log[i].port;
    Issued(s, i);
    if Rank(s.d.phase[p]) >= 4 {
      assert Count(s.log, AddressDevice, p) == 1;
      var k := FindIssued(s.log, AddressDevice, p);
      assert s.d.devices[s.log[k].slot] == Some(p);
    }
  }

  lemma {:induction false} FindIssued(log: seq<Command>, k: Kind, p: PortId) returns (i: nat)
    requires Count(log, k, p) >= 1
    ensures i < |log| && log[i].kind == k && log[i].port == p
  {
    if log[|log| - 1].kind == k && log[|log| - 1].port == p {
      i := |log| - 1;
    } else {
      i := FindIssued(log[..|log| - 1], k, p);
    }
  }

  /** One to one: a port in a command's phase has exactly one outstanding command of that kind. */
  lemma AwaitingPortHasCommand(s: Sys, p: PortId, k: Kind) returns (i: nat)
    requires Inv(s) && s.d.phase[p] == Awaiting(k)
    ensures i in s.flight && i < |s.log| && s.log[i].kind == k && s.log[i].port == p
    ensures forall j :: j in s.flight && s.log[j].port == p ==> j == i
  {
    assert Count(s.log, k, p) == 1;
    i := FindIssued(s.log, k, p);
    Issued(s, i);
  }

  /** A waiting port waits for something: the port being served is being reset or has a command out. */
  lemma WaitingHasReason(s: Sys, p: PortId)
    requires Inv(s) && Served(s.d) && s.d.phase[p].WaitingAddressed?
    ensures s.d.addressing != 0
    ensures s.d.phase[s.d.addressing].ResettingPort? ||
      exists i :: i in s.flight && i < |s.log| && s.log[i].port == s.d.addressing
  {
    hide Count, LogExact, SlotsOk, FlightExact;
    var q := s.d.addressing;
    assert InProgress(s.d.phase[q]);
    if s.d.phase[q].EnablingSlot? {
      var i := AwaitingPortHasCommand(s, q, EnableSlot);
    } else if s.d.phase[q].AddressingDevice? {
      var i := AwaitingPortHasCommand(s, q, AddressDevice);
    }
  }

  lemma SameInProgress(s: Sys, p: PortId, q: PortId)
    requires Exclusive(s.d)
    ensures s.d.phase[p].EnablingSlot? && s.d.phase[q].EnablingSlot? ==> p == q
  {
    assert InProgress(s.d.phase[p]) <==> p != 0 && p == s.d.addressing;
    assert InProgress(s.d.phase[q]) <==> q != 0 && q == s.d.addressing;
  }

  /** At most nine commands are outstanding: eight slots and one port without a slot yet. */
  lemma AtMostNineOutstanding(s: Sys)
    requires Inv(s)
    ensures |s.flight| <= 9
  {
    hide Count;
    var key := (i: nat) => if i < |s.log| then FlightKey(s.log[i]) else 0;
    forall i, j | i in s.flight && j in s.flight && key(i) == key(j) ensures i == j {
      Issued(s, i);
      Issued(s, j);
      SameInProgress(s, s.log[i].port, s.log[j].port);
    }
    InjectionBounds(s.flight, key, 9);
  }

  function FlightKey(c: Command): nat { if c.kind.EnableSlot? then 0 else c.slot }

  function LogKey(s: Sys, c: Command): nat
    requires s.d.Valid()
  {
    match c.kind
    case EnableSlot => SlotOf(s.d.devices, c.port, 9)
    case AddressDevice => 8 + c.slot
    case ConfigureEndpoint => 16 + c.slot
  }

  /** At most 25 commands are ever issued, so a 32-entry ring is never even wrapped. */
  lemma AtMost25Issued(s: Sys)
    requires Inv(s)
    ensures |s.log| <= 25
  {
    hide Count, LogKey, LogExact, SlotsOk, FlightExact;
    var key := (i: nat) => if i < |s.log| && s.d.Valid() then LogKey(s, s.log[i]) else 0;
    var all := UpTo(|s.log|);
    forall i | i in all ensures key(i) < 25 { LogKeyBound(s, i); }
    forall i, j | i in all && j in all && key(i) == key(j) ensures i == j { LogKeyInjective(s, i, j); }
    InjectionBounds(all, key, 25);
  }

  lemma LogKeyBound(s: Sys, i: nat)
    requires Inv(s) && i < |s.log|
    ensures LogKey(s, s.log[i]) < 25
  {
    hide Count;
  }

  lemma LogKeyInjective(s: Sys, i: nat, j: nat)
    requires Inv(s) && i < |s.log| && j < |s.log| && LogKey(s, s.log[i]) == LogKey(s, s.log[j])
    ensures i == j
  {
    hide Count, Exclusive;
    Issued(s, i);
    Issued(s, j);
    if s.log[i].kind.EnableSlot? && s.log[j].kind.EnableSlot? { OnlyOneWithoutSlot(s, i, j); }
  }

  function UpTo(n: nat): (s: set<nat>)
    ensures |s| == n && forall i: nat :: i in s <==> i < n
  {
    if n == 0 then {} else UpTo(n - 1) + {n - 1}
  }
}
