/**
 * The event ring (kernel/usb/xhci/ring.cpp:55-111; section 4.9.4 of the xHCI specification): the
 * controller produces events word by word with its own cycle state and toggles it on wrapping; the
 * driver's dequeue pointer and cycle state follow without any link blocks.
 */
module EventRingProtocol {
  import opened Trbs

  datatype Controller = Quiet | Writing(event: Trb, k: nat)

  datatype EventRing = EventRing(
    slots: seq<Trb>,
    enqueue: nat, pcs: bool, controller: Controller,
    dequeue: nat, ccs: bool,
    produced: seq<Trb>, popped: seq<Trb>
  ) {
    function Pending(): seq<Trb> {
      if |popped| <= |produced| then produced[|popped|..] else []
    }

    /** EventRing::HasFront. */
    predicate HasFront()
      requires dequeue < |slots|
    {
      CycleOf(slots[dequeue].w3) == ccs
    }
  }

  function Fresh(n: nat): EventRing {
    EventRing(seq(n, _ => ZERO_TRB), 0, true, Quiet, 0, true, [], [])
  }

  datatype Action = Begin(event: Trb) | Write | Pop

  /** The controller begins an event only while the ring, as the dequeue pointer tells it, has room;
      the driver pops only after HasFront. */
  function Do(r: EventRing, a: Action): EventRing {
    match a
    case Begin(event) =>
      if r.controller.Quiet? && |r.Pending()| < |r.slots| then r.(controller := Writing(event, 0)) else r
    case Write => DoWrite(r)
    case Pop => if r.dequeue < |r.slots| && r.HasFront() then DoPop(r) else r
  }

  function DoWrite(r: EventRing): EventRing {
    if r.controller.Quiet? || r.enqueue >= |r.slots| then r
    else
      var Writing(event, k) := r.controller;
      if k < 3 then
        r.(slots := r.slots[r.enqueue := SetWord(r.slots[r.enqueue], k, event)], controller := Writing(event, k + 1))
      else
        var wraps := r.enqueue + 1 == |r.slots|;
        r.(slots := r.slots[r.enqueue := r.slots[r.enqueue].(w3 := WithCycle(event.w3, r.pcs))],
           produced := r.produced + [Content(event)], controller := Quiet,
           enqueue := if wraps then 0 else r.enqueue + 1, pcs := if wraps then !r.pcs else r.pcs)
  }

  /** EventRing::Pop, recording the event that was at the front. */
  function DoPop(r: EventRing): EventRing
    requires r.dequeue < |r.slots|
  {
    var wraps := r.dequeue + 1 == |r.slots|;
    r.(popped := r.popped + [Content(r.slots[r.dequeue])],
       dequeue := if wraps then 0 else r.dequeue + 1, ccs := if wraps then !r.ccs else r.ccs)
  }

  function Run(r: EventRing, actions: seq<Action>): EventRing
    decreases |actions|
  {
    if actions == [] then r else Run(Do(r, actions[0]), actions[1..])
  }

  function SlotOf(r: EventRing, j: nat): int {
    if r.dequeue + j < |r.slots| then r.dequeue + j else r.dequeue + j - |r.slots|
  }

  ghost predicate Shape(r: EventRing) {
    && r.enqueue < |r.slots| && r.dequeue < |r.slots|
    && |r.popped| <= |r.produced| && r.popped == r.produced[..|r.popped|]
    && (forall i :: 0 <= i < |r.slots| ==> CycleOf(r.slots[i].w3) == if i < r.enqueue then r.pcs else !r.pcs)
    && |r.Pending()| <= |r.slots| - (if r.controller.Quiet? then 0 else 1)
    && |r.Pending()| == r.enqueue - r.dequeue + if r.ccs == r.pcs then 0 else |r.slots|
  }

  ghost predicate Inv(r: EventRing) {
    && Shape(r)
    && (forall j :: 0 <= j < |r.Pending()| ==> Content(r.slots[SlotOf(r, j)]) == r.Pending()[j])
    && (r.controller.Writing? ==>
          var t, event, k := r.slots[r.enqueue], r.controller.event, r.controller.k;
          k <= 3 && (k > 0 ==> t.w0 == event.w0) && (k > 1 ==> t.w1 == event.w1) && (k > 2 ==> t.w2 == event.w2))
  }

  /** HasFront tells exactly whether an unconsumed event exists, and the front is the oldest one. */
  lemma FrontIsOldest(r: EventRing)
    requires Inv(r)
    ensures r.HasFront() <==> r.Pending() != []
    ensures r.HasFront() ==> Content(r.slots[r.dequeue]) == r.Pending()[0]
  {
    hide CycleOf, Content, WithCycle;
    if r.Pending() != [] { assert SlotOf(r, 0) == r.dequeue; }
  }

  lemma WordInv(r: EventRing)
    requires Inv(r) && r.controller.Writing? && r.controller.k < 3
    ensures Inv(DoWrite(r))
  {
    hide CycleOf, Content, WithCycle;
    var r' := DoWrite(r);
    assert r'.Pending() == r.Pending() && forall j :: SlotOf(r', j) == SlotOf(r, j);
    assert forall j :: 0 <= j < |r.Pending()| ==> 0 <= SlotOf(r, j) < |r.slots| && SlotOf(r, j) != r.enqueue;
    assert forall i :: 0 <= i < |r.slots| ==> r'.slots[i].w3 == r.slots[i].w3;
  }

  lemma PublishInv(r: EventRing)
    requires Inv(r) && r.controller.Writing? && r.controller.k >= 3
    ensures Inv(DoWrite(r))
  {
    hide CycleOf, Content, WithCycle;
    var r', event := DoWrite(r), r.controller.event;
    assert r'.slots[r.enqueue] == event.(w3 := WithCycle(event.w3, r.pcs));
    ContentIgnoresCycle(event, r.pcs);
    assert r'.Pending() == r.Pending() + [Content(event)] && forall j :: SlotOf(r', j) == SlotOf(r, j);
    assert forall j :: 0 <= j < |r.Pending()| ==> 0 <= SlotOf(r, j) < |r.slots| && SlotOf(r, j) != r.enqueue;
    assert SlotOf(r, |r.Pending()|) == r.enqueue;
  }

  lemma PopInv(r: EventRing)
    requires Inv(r) && r.HasFront()
    ensures Inv(DoPop(r)) && DoPop(r).Pending() == r.Pending()[1..]
  {
    hide CycleOf, Content, WithCycle, Shape;
    PopShape(r);
    var r' := DoPop(r);
    forall j | 0 <= j < |r'.Pending()| ensures Content(r'.slots[SlotOf(r', j)]) == r'.Pending()[j] {
      assert SlotOf(r', j) == SlotOf(r, j + 1);
    }
  }

  lemma PopShape(r: EventRing)
    requires Inv(r) && r.HasFront()
    ensures Shape(DoPop(r)) && DoPop(r).Pending() == r.Pending()[1..] && r.Pending() != []
    ensures r.enqueue < |r.slots| && r.dequeue < |r.slots| && |r.Pending()| <= |r.slots|
  {
    hide CycleOf, Content, WithCycle, SlotOf;
    FrontIsOldest(r);
    var r' := DoPop(r);
    assert r'.popped == r.produced[..|r.popped| + 1];
    assert r'.Pending() == r.Pending()[1..];
  }

  lemma StepInv(r: EventRing, a: Action)
    requires Inv(r)
    ensures Inv(Do(r, a))
  {
    hide CycleOf, Content, WithCycle;
    match a
    case Begin(_) =>
      assert forall j :: SlotOf(Do(r, a), j) == SlotOf(r, j);
    case Write =>
      if r.controller.Writing? { if r.controller.k < 3 { WordInv(r); } else { PublishInv(r); } }
    case Pop =>
      if r.HasFront() { PopInv(r); }
  }

  lemma {:induction false} RunInv(r: EventRing, actions: seq<Action>)
    requires Inv(r)
    ensures Inv(Run(r, actions))
    decreases |actions|
  {
    hide Inv, Do;
    if actions != [] {
      StepInv(r, actions[0]);
      RunInv(Do(r, actions[0]), actions[1..]);
    }
  }

  /** Over every interleaving, popping yields exactly the produced events in order, and HasFront holds
      exactly while one is unconsumed. */
  lemma EventsAreFifo(n: nat, actions: seq<Action>)
    requires n >= 1
    ensures var r := Run(Fresh(n), actions);
      && r.popped + r.Pending() == r.produced && r.dequeue < |r.slots|
      && (r.HasFront() <==> r.Pending() != [])
      && (r.HasFront() ==> Content(r.slots[r.dequeue]) == r.Pending()[0])
  {
    assert Inv(Fresh(n));
    RunInv(Fresh(n), actions);
    FrontIsOldest(Run(Fresh(n), actions));
  }
}
