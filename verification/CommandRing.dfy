/**
 * The join: the bring-up protocol pushes its commands, word by word, onto the 32-entry command ring
 * that the controller reads concurrently. Ring::Push has no check for a full ring; none is needed.
 */
module CommandRing {
  import opened Trbs
  import opened Options
  import opened Ports
  import F = CommandFlow
  import P = RingProtocol

  const RING_SIZE := 32

  /** The command block pushed for c (its context pointer is not modelled). */
  function TrbOf(c: Command): (t: Trb)
    ensures TypeOf(t.w3) == TypeNumber(c.kind) && SlotIdOf(t) == c.slot
    ensures t.w3 % 0x400 == 0 && t.w3 / 0x1_0000 % 0x100 == 0
  {
    var low: Word := TypeNumber(c.kind) + 0x4000 * c.slot;
    assert low % 0x40 == TypeNumber(c.kind) && low / 0x4000 == c.slot;
    Trb(0, 0, 0, 0x400 * low)
  }

  /** The numbers of the commands (section 6.4.6 of the xHCI specification). */
  function TypeNumber(k: Kind): (n: Word)
    ensures (n == 9 <==> k.EnableSlot?) && (n == 11 <==> k.AddressDevice?) && (n == 12 <==> k.ConfigureEndpoint?)
    ensures n < 16 && n != LINK
  {
    match k
    case EnableSlot => ENABLE_SLOT
    case AddressDevice => ADDRESS_DEVICE
    case ConfigureEndpoint => CONFIGURE_ENDPOINT
  }

  /** What the handler of a command completion concludes from the issuer's type field. */
  function KindOf(w3: Word): Option<Kind> {
    if TypeOf(w3) == ENABLE_SLOT then Some(EnableSlot)
    else if TypeOf(w3) == ADDRESS_DEVICE then Some(AddressDevice)
    else if TypeOf(w3) == CONFIGURE_ENDPOINT then Some(ConfigureEndpoint)
    else None
  }

  datatype Host = Host(sys: F.Sys, ring: P.Ring)

  datatype Action = Handle(a: F.Action) | Memory(m: P.Action)

  /** The event the driver acts on; for a completion the driver reads the kind, and the controller has
      read the slot, from the ring. */
  function EventOf(h: Host, a: F.Action): Option<Event>
    requires a.Complete? ==> a.i < |h.sys.log| && a.i < |h.ring.slots|
  {
    if !a.Complete? then Some(F.EventOf(h.sys, a))
    else
      var k := KindOf(h.ring.slots[a.i].w3);
      var c := h.sys.log[a.i];
      if k.None? then None
      else
        var slot := if k.value.EnableSlot? then a.slot else SlotIdOf(h.ring.slots[a.i]);
        Some(Completion(k.value, slot, c.port, a.nextConnected))
  }

  /** The driver handles one event at a time; the controller completes only what it has consumed. */
  ghost predicate Enabled(h: Host, a: Action)
    requires h.sys.d.Valid()
  {
    match a
    case Memory(m) => !m.Begin?
    case Handle(f) =>
      && h.ring.producer.Idle? && F.Allowed(h.sys, f)
      && (f.Complete? ==> f.i < |h.ring.consumed| && f.i < |h.ring.slots|)
  }

  function Next(h: Host, a: Action): Host
    requires h.sys.d.Valid()
    requires a.Handle? && a.a.Complete? ==> a.a.i < |h.sys.log| && a.a.i < |h.ring.slots|
  {
    match a
    case Memory(m) => h.(ring := P.Do(h.ring, RING_SIZE - 2, m))
    case Handle(f) =>
      var e := EventOf(h, f);
      if e.None? then h
      else
        var o := Step(h.sys.d, e.value);
        var left := if f.Complete? then h.sys.flight - {f.i} else h.sys.flight;
        if o.issued.None? then h.(sys := F.Sys(o.d, h.sys.log, left))
        else Host(F.Sys(o.d, h.sys.log + [o.issued.value], left + {|h.sys.log|}),
                  P.Do(h.ring, RING_SIZE - 2, P.Begin(TrbOf(o.issued.value))))
  }

  // ----- the invariant -----

  /** The ring has not wrapped: command i is still in slot i. */
  ghost predicate Unwrapped(r: P.Ring) {
    && |r.slots| == RING_SIZE && |r.pushed| < RING_SIZE - 1 && r.write == |r.pushed| && !r.producer.Linking?
    && forall i :: 0 <= i < |r.pushed| ==> Content(r.slots[i]) == r.pushed[i]
  }

  /** Everything issued is pushed, in order, the last one perhaps still being written. */
  ghost predicate Aligned(h: Host) {
    && |h.sys.log| == |h.ring.pushed| + (if h.ring.producer.Writing? then 1 else 0)
    && (forall i :: 0 <= i < |h.ring.pushed| ==> h.ring.pushed[i] == Content(TrbOf(h.sys.log[i])))
    && (h.ring.producer.Writing? ==> h.ring.producer.data == TrbOf(h.sys.log[|h.ring.pushed|]))
    && (forall i :: |h.ring.consumed| <= i < |h.sys.log| ==> i in h.sys.flight)
  }

  ghost predicate Inv(h: Host) {
    F.Inv(h.sys) && P.Inv(h.ring) && Unwrapped(h.ring) && Aligned(h)
  }

  /** A completion's issuer is read back as the kind that was issued, for the slot it was issued for. */
  lemma IssuerIsRight(h: Host, i: nat)
    requires Inv(h) && i < |h.ring.consumed|
    ensures i < |h.sys.log| && KindOf(h.ring.slots[i].w3) == Some(h.sys.log[i].kind)
    ensures SlotIdOf(h.ring.slots[i]) == h.sys.log[i].slot
  {
    hide TypeOf, F.Inv, P.Inv, TrbOf;
    assert P.Inv(h.ring) ==> |h.ring.consumed| <= |h.ring.pushed| by { ConsumedArePushed(h.ring); }
    FieldsIgnoreCycle(h.ring.slots[i], TrbOf(h.sys.log[i]));
  }

  lemma ConsumedArePushed(r: P.Ring)
    requires P.Inv(r)
    ensures |r.consumed| <= |r.pushed| && |r.Pending()| == |r.pushed| - |r.consumed|
  {
  }

  /** If handling f issues a command, the ring takes it up. */
  ghost predicate PushAccepted(h: Host, f: F.Action)
    requires h.sys.d.Valid() && Enabled(h, Handle(f))
  {
    var h' := Next(h, Handle(f));
    |h'.sys.log| == |h.sys.log| + 1 ==> h'.ring.producer == P.Writing(TrbOf(h'.sys.log[|h.sys.log|]), 0)
  }

  lemma HandleInv(h: Host, f: F.Action)
    requires Inv(h) && Enabled(h, Handle(f))
    ensures Inv(Next(h, Handle(f)))
    ensures Next(h, Handle(f)).sys == F.Next(h.sys, f)
    ensures PushAccepted(h, f)
  {
    hide Step, TrbOf, P.Inv, KindOf, Content, LogExact, F.SlotsOk, F.FlightExact;
    if f.Complete? { IssuerIsRight(h, f.i); }
    F.NextInv(h.sys, f);
    F.AtMost25Issued(F.Next(h.sys, f));
    ConsumedArePushed(h.ring);
    var h' := Next(h, Handle(f));
    if |h'.sys.log| > |h.sys.log| {
      P.BeginInv(h.ring, RING_SIZE - 2, TrbOf(h'.sys.log[|h.sys.log|]));
    }
  }

  lemma MemoryInv(h: Host, m: P.Action)
    requires Inv(h) && !m.Begin?
    ensures Inv(Next(h, Memory(m)))
  {
    hide TrbOf, P.Inv, F.Inv, Content, TypeOf, CycleOf, WithCycle, Toggles;
    P.StepInv(h.ring, RING_SIZE - 2, m);
    P.StepKeepsSize(h.ring, RING_SIZE - 2, m);
    F.AtMost25Issued(h.sys);
    MemoryUnwrapped(h, m);
  }

  lemma MemoryUnwrapped(h: Host, m: P.Action)
    requires Inv(h) && !m.Begin? && |h.sys.log| <= 25
    ensures Unwrapped(Next(h, Memory(m)).ring) && Aligned(Next(h, Memory(m)))
  {
    hide TrbOf, F.Inv, P.Inv, Content;
    if m.Write? {
      if h.ring.producer.Writing? { if h.ring.producer.k < 3 { WordUnwrapped(h); } else { PublishUnwrapped(h); } }
    } else {
      ReadUnwrapped(h, m);
    }
  }

  lemma ReadUnwrapped(h: Host, m: P.Action)
    requires Inv(h) && !m.Begin? && !m.Write?
    ensures Unwrapped(Next(h, Memory(m)).ring) && Aligned(Next(h, Memory(m)))
  {
    hide TrbOf, F.Inv, P.Inv, Content, TypeOf, CycleOf, Toggles;
    var r, r' := h.ring, P.Do(h.ring, RING_SIZE - 2, m);
    assert r'.slots == r.slots && r'.pushed == r.pushed && r'.write == r.write && r'.producer == r.producer;
    assert |r'.consumed| >= |r.consumed|;
  }

  lemma WordUnwrapped(h: Host)
    requires Inv(h) && h.ring.producer.Writing? && h.ring.producer.k < 3
    ensures Unwrapped(Next(h, Memory(P.Write)).ring) && Aligned(Next(h, Memory(P.Write)))
  {
    hide TrbOf, F.Inv, P.Inv, Content, SetWord;
    var r, r' := h.ring, P.DoWrite(h.ring);
    assert forall i :: 0 <= i < |r.pushed| ==> r'.slots[i] == r.slots[i];
  }

  lemma PublishUnwrapped(h: Host)
    requires Inv(h) && h.ring.producer.Writing? && h.ring.producer.k >= 3 && |h.sys.log| <= 25
    ensures Unwrapped(Next(h, Memory(P.Write)).ring) && Aligned(Next(h, Memory(P.Write)))
  {
    hide TrbOf, F.Inv, Content, WithCycle, P.Cycles, P.Laps, P.Contents, P.ConsumerOk;
    var r, r', data := h.ring, P.DoWrite(h.ring), h.ring.producer.data;
    assert r'.slots[r.write] == data.(w3 := WithCycle(data.w3, r.pcs));
    ContentIgnoresCycle(data, r.pcs);
    assert forall i :: 0 <= i < |r.pushed| ==> r'.slots[i] == r.slots[i];
  }

  // ----- whole runs -----

  ghost predicate Leads(g: Host, a: Action, h: Host) {
    g.sys.d.Valid() && Enabled(g, a) && h == Next(g, a)
  }

  /** The ring is new, wherever its memory lies. */
  ghost predicate Initial(h: Host) {
    h.sys == F.Sys(Start(), [], {}) && exists base :: h.ring == P.Fresh(RING_SIZE, base)
  }

  /** A run of driver and controller: hs[k] is the state after k actions. */
  ghost predicate IsRun(hs: seq<Host>, acts: seq<Action>) {
    |hs| == |acts| + 1 && Initial(hs[0]) && forall k :: 0 <= k < |acts| ==> Leads(hs[k], acts[k], hs[k + 1])
  }

  lemma {:induction false} RunInv(hs: seq<Host>, acts: seq<Action>, k: nat)
    requires IsRun(hs, acts) && k < |hs|
    ensures Inv(hs[k])
  {
    hide Inv, Leads, Initial;
    if k == 0 {
      StartInv(hs[0]);
    } else {
      RunInv(hs, acts, k - 1);
      LeadsInv(hs[k - 1], acts[k - 1], hs[k]);
    }
  }

  lemma LeadsInv(g: Host, a: Action, h: Host)
    requires Inv(g) && Leads(g, a, h)
    ensures Inv(h)
  {
    hide F.Inv, P.Inv, Next;
    match a
    case Handle(f) => HandleInv(g, f);
    case Memory(m) => MemoryInv(g, m);
  }

  lemma StartInv(h: Host)
    requires Initial(h)
    ensures Inv(h)
  {
    StartIsExact();
    var base :| h.ring == P.Fresh(RING_SIZE, base);
    P.InitInv(RING_SIZE, base);
  }

  ghost predicate WithinBounds(h: Host, f: F.Action) {
    && h.sys.d.Valid() && |h.sys.flight| <= 9 && |h.ring.Pending()| <= 9 && |h.sys.log| <= 25
    && h.ring.consumed <= h.ring.pushed && (Enabled(h, Handle(f)) ==> PushAccepted(h, f))
  }

  /** The command ring never overruns: in every reachable state of driver and controller at most nine
      commands are outstanding, at most nine are unread, at most 25 were ever pushed, and a push that
      begins is always within the bound under which the ring is a queue. */
  lemma NeverOverruns(hs: seq<Host>, acts: seq<Action>, k: nat, f: F.Action)
    requires IsRun(hs, acts) && k < |hs|
    ensures WithinBounds(hs[k], f)
  {
    var h := hs[k];
    hide P.Cycles, P.Laps, P.Contents, LogExact, F.SlotsOk, F.FlightExact, Step, TrbOf;
    RunInv(hs, acts, k);
    F.AtMostNineOutstanding(h.sys);
    F.AtMost25Issued(h.sys);
    UnreadAreOutstanding(h);
    if Enabled(h, Handle(f)) { HandleInv(h, f); }
  }

  lemma UnreadAreOutstanding(h: Host)
    requires Inv(h)
    ensures |h.ring.Pending()| <= |h.sys.flight|
  {
    hide P.Cycles, P.Laps, P.Contents, LogExact, F.SlotsOk, F.FlightExact, TrbOf;
    var unread := F.UpTo(|h.ring.pushed|) - F.UpTo(|h.ring.consumed|);
    assert F.UpTo(|h.ring.consumed|) <= F.UpTo(|h.ring.pushed|);
    assert unread <= h.sys.flight;
    Smaller(unread, h.sys.flight);
  }

  lemma Smaller(a: set<nat>, b: set<nat>)
    requires a <= b
    ensures |a| <= |b|
  {
    assert b == a + (b - a);
  }
}
