/**
 * A producer/consumer ring shared with hardware (kernel/usb/xhci/ring.cpp; sections 4.9.2, 4.9.3 and
 * 6.4.4.1 of the xHCI specification), one word access at a time. The driver writes the four words
 * of a block with the control word last; the controller reads a control word and, when its cycle
 * bit matches, the other words in any order, all arbitrarily interleaved.
 */
module RingProtocol {
  import opened Options
  import opened Trbs

  datatype Producer =
    | Idle
    | Writing(data: Trb, k: nat)      // words 0..k-1 of the block are written
    | Linking(k: nat)                 // words 0..k-1 of the link are written

  datatype Consumer =
    | Resting
    | Loading(w3: Word, l0: Option<Word>, l1: Option<Word>, l2: Option<Word>)

  datatype Ring = Ring(
    slots: seq<Trb>, base: Address,                   // memory and where it lies
    write: nat, pcs: bool, producer: Producer,        // the driver's side
    read: nat, ccs: bool, consumer: Consumer,         // the controller's side
    pushed: seq<Trb>, consumed: seq<Trb>, stray: bool // history; stray: a link led out of the ring
  ) {
    function Last(): int { |slots| - 1 }

    /** The block for the last slot. */
    function Link(): Trb { LinkTrb(base) }

    function Pending(): seq<Trb> {
      if |consumed| <= |pushed| then pushed[|consumed|..] else []
    }
  }

  function Fresh(n: nat, base: Address): Ring {
    Ring(seq(n, _ => ZERO_TRB), base, 0, true, Idle, 0, true, Resting, [], [], false)
  }

  datatype Action = Begin(data: Trb) | Write | Poll | Load(k: nat) | Finish

  /** A push may begin while fewer than `limit` blocks are unconsumed. Disabled actions do nothing. */
  function Do(r: Ring, limit: int, a: Action): Ring {
    match a
    case Begin(data) =>
      if r.producer.Idle? && |r.Pending()| < limit && TypeOf(data.w3) != LINK then r.(producer := Writing(data, 0))
        else r
    case Write => DoWrite(r)
    case Poll =>
      if r.consumer.Resting? && r.read < |r.slots| && CycleOf(r.slots[r.read].w3) == r.ccs
      then r.(consumer := Loading(r.slots[r.read].w3, None, None, None)) else r
    case Load(k) =>
      if !r.consumer.Loading? || r.read >= |r.slots| then r
      else if k == 0 then r.(consumer := r.consumer.(l0 := Some(r.slots[r.read].w0)))
      else if k == 1 then r.(consumer := r.consumer.(l1 := Some(r.slots[r.read].w1)))
      else r.(consumer := r.consumer.(l2 := Some(r.slots[r.read].w2)))
    case Finish => DoFinish(r)
  }

  /** One word of Ring::Push: CopyToLast of the block, then of the link when the end is reached. */
  function DoWrite(r: Ring): Ring {
    match r.producer
    case Idle => r
    case Writing(data, k) =>
      if r.write >= |r.slots| then r
      else if k < 3 then
        r.(slots := r.slots[r.write := SetWord(r.slots[r.write], k, data)], producer := Writing(data, k + 1))
      else
        r.(slots := r.slots[r.write := r.slots[r.write].(w3 := WithCycle(data.w3, r.pcs))],
           pushed := r.pushed + [Content(data)], write := r.write + 1,
           producer := if r.write + 1 == r.Last() then Linking(0) else Idle)
    case Linking(k) =>
      if r.write >= |r.slots| then r
      else if k < 3 then
        r.(slots := r.slots[r.write := SetWord(r.slots[r.write], k, r.Link())], producer := Linking(k + 1))
      else
        r.(slots := r.slots[r.write := r.slots[r.write].(w3 := WithCycle(r.Link().w3, r.pcs))],
           write := 0, pcs := !r.pcs, producer := Idle)
  }

  /** The controller acts on a completely loaded block; a link takes it to the address it holds. */
  function DoFinish(r: Ring): Ring {
    match r.consumer
    case Loading(w3, Some(w0), Some(w1), Some(w2)) =>
      if TypeOf(w3) == LINK then
        if LinkTarget(w0, w1) == r.base
        then r.(read := 0, ccs := if Toggles(w3) then !r.ccs else r.ccs, consumer := Resting)
        else r.(stray := true, consumer := Resting)
      else r.(consumed := r.consumed + [Content(Trb(w0, w1, w2, w3))], read := r.read + 1, consumer := Resting)
    case _ => r
  }

  function Run(r: Ring, limit: int, actions: seq<Action>): Ring
    decreases |actions|
  {
    if actions == [] then r else Run(Do(r, limit, actions[0]), limit, actions[1..])
  }

  // ----- the invariant -----

  /** Which slot holds the j-th unconsumed block. */
  function SlotOf(r: Ring, j: nat): int {
    if r.read + j < r.Last() then r.read + j else r.read + j - r.Last()
  }

  ghost predicate Shape(r: Ring) {
    && |r.slots| >= 3
    && r.write <= r.Last() && r.read <= r.Last() && !r.stray
    && (r.write == r.Last() <==> r.producer.Linking?)
    && |r.consumed| <= |r.pushed| && r.consumed == r.pushed[..|r.consumed|]
    && (forall i :: 0 <= i < |r.pushed| ==> TypeOf(r.pushed[i].w3) != LINK)
  }

  /** Slots before the write index carry the producer's cycle state, all others the opposite. */
  ghost predicate Cycles(r: Ring)
    requires Shape(r)
  {
    && (forall i :: 0 <= i < r.write ==> CycleOf(r.slots[i].w3) == r.pcs)
    && (forall i :: r.write <= i < |r.slots| ==> CycleOf(r.slots[i].w3) == !r.pcs)
  }

  /** The consumer is on the producer's lap, or one behind with its link still in place. */
  ghost predicate Laps(r: Ring)
    requires Shape(r)
  {
    && (if r.ccs == r.pcs
        then r.read <= r.write && |r.Pending()| == r.write - r.read
        else |r.Pending()| == r.Last() - r.read + r.write && !r.producer.Linking?
             && Content(r.slots[r.Last()]) == Content(r.Link()))
    && |r.Pending()| <= r.Last() - (if r.producer.Writing? then 2 else 1)
  }

  ghost predicate Contents(r: Ring)
    requires Shape(r) && Laps(r)
  {
    forall j :: 0 <= j < |r.Pending()| ==> Content(r.slots[SlotOf(r, j)]) == r.Pending()[j]
  }

  ghost predicate WordsWritten(t: Trb, from: Trb, k: nat) {
    (k > 0 ==> t.w0 == from.w0) && (k > 1 ==> t.w1 == from.w1) && (k > 2 ==> t.w2 == from.w2)
  }

  ghost predicate ProducerOk(r: Ring)
    requires Shape(r)
  {
    match r.producer
    case Idle => true
    case Writing(data, k) => k <= 3 && TypeOf(data.w3) != LINK && WordsWritten(r.slots[r.write], data, k)
    case Linking(k) => k <= 3 && WordsWritten(r.slots[r.write], r.Link(), k)
  }

  /** What the consumer has loaded is still what is in its slot. */
  ghost predicate ConsumerOk(r: Ring)
    requires Shape(r)
  {
    match r.consumer
    case Resting => true
    case Loading(w3, l0, l1, l2) =>
      var t := r.slots[r.read];
      && t.w3 == w3 && CycleOf(w3) == r.ccs
      && (l0.Some? ==> l0.value == t.w0) && (l1.Some? ==> l1.value == t.w1) && (l2.Some? ==> l2.value == t.w2)
  }

  ghost predicate Inv(r: Ring) {
    Shape(r) && Cycles(r) && Laps(r) && Contents(r) && ProducerOk(r) && ConsumerOk(r)
  }

  lemma InitInv(n: nat, base: Address)
    requires n >= 3
    ensures Inv(Fresh(n, base))
  {
  }

  // ----- every step keeps it -----

  lemma BeginInv(r: Ring, limit: int, data: Trb)
    requires Inv(r) && limit <= r.Last() - 1
    ensures Inv(Do(r, limit, Begin(data)))
  {
    hide WithCycle, CycleOf, TypeOf, Toggles, Content;
  }

  lemma PollInv(r: Ring, limit: int)
    requires Inv(r)
    ensures Inv(Do(r, limit, Poll))
  {
    hide WithCycle, CycleOf, TypeOf, Toggles, Content;
    LoadsOnly(r, Do(r, limit, Poll).consumer);
  }

  lemma LoadInv(r: Ring, limit: int, k: nat)
    requires Inv(r)
    ensures Inv(Do(r, limit, Load(k)))
  {
    hide WithCycle, CycleOf, TypeOf, Toggles, Content, Cycles, Laps, Contents, ProducerOk;
    LoadsOnly(r, Do(r, limit, Load(k)).consumer);
  }

  /** A change of the consumer's registers alone. */
  lemma LoadsOnly(r: Ring, c: Consumer)
    requires Inv(r)
    ensures Shape(r.(consumer := c)) && Cycles(r.(consumer := c)) && Laps(r.(consumer := c))
    ensures Contents(r.(consumer := c)) && ProducerOk(r.(consumer := c))
  {
    hide WithCycle, CycleOf, TypeOf, Toggles, Content;
    var r' := r.(consumer := c);
    assert r'.Pending() == r.Pending() && forall j :: SlotOf(r', j) == SlotOf(r, j);
  }

  /** Where the producer writes is never where the consumer loads, nor an unconsumed block. */
  lemma WriteIsApart(r: Ring)
    requires Inv(r) && !r.producer.Idle?
    ensures r.consumer.Loading? ==> r.read != r.write
    ensures forall j :: 0 <= j < |r.Pending()| ==> 0 <= SlotOf(r, j) < r.Last() && SlotOf(r, j) != r.write
    ensures r.ccs != r.pcs ==> r.write < r.Last() - 1
  {
    hide WithCycle, CycleOf, TypeOf, Toggles, Content;
  }

  lemma WriteInv(r: Ring)
    requires Inv(r)
    ensures Inv(DoWrite(r))
  {
    hide Inv;
    match r.producer
    case Idle =>
    case Writing(_, k) => if k < 3 { WordInv(r); } else { PublishInv(r); }
    case Linking(k) => if k < 3 { WordInv(r); } else { LinkedInv(r); }
  }

  lemma WordInv(r: Ring)
    requires Inv(r) && !r.producer.Idle? && r.producer.k < 3
    ensures Inv(DoWrite(r))
  {
    hide WithCycle, CycleOf, TypeOf, Toggles, Content, SetWord, Cycles, Contents, ConsumerOk, Laps, SlotOf;
    var from := if r.producer.Writing? then r.producer.data else r.Link();
    SetWordWrites(r.slots[r.write], r.producer.k, from);
    WordKeeps(r, SetWord(r.slots[r.write], r.producer.k, from), DoWrite(r).producer);
  }

  /** A slot's control word still holds the old cycle bit: nobody else notices the other words. */
  lemma WordKeeps(r: Ring, t: Trb, p: Producer)
    requires Inv(r) && !r.producer.Idle? && t.w3 == r.slots[r.write].w3
    requires p.Writing? == r.producer.Writing? && p.Linking? == r.producer.Linking?
    ensures var r' := r.(slots := r.slots[r.write := t], producer := p);
      Shape(r') && Cycles(r') && Laps(r') && Contents(r') && ConsumerOk(r')
  {
    hide WithCycle, CycleOf, TypeOf, Toggles, Content, WordsWritten, SlotOf, Cycles, Laps;
    WriteIsApart(r);
    WordShape(r, t, p);
    var r' := r.(slots := r.slots[r.write := t], producer := p);
    SameSlots(r, r');
  }

  lemma WordShape(r: Ring, t: Trb, p: Producer)
    requires Inv(r) && !r.producer.Idle? && t.w3 == r.slots[r.write].w3
    requires p.Writing? == r.producer.Writing? && p.Linking? == r.producer.Linking?
    ensures var r' := r.(slots := r.slots[r.write := t], producer := p);
      r'.Pending() == r.Pending() && Shape(r') && Cycles(r') && Laps(r') && r.write < |r.slots|
  {
    hide WithCycle, CycleOf, TypeOf, Toggles, Content, WordsWritten, SlotOf, ConsumerOk, Contents;
  }

  lemma SameSlots(r: Ring, r': Ring)
    requires r.read == r'.read && |r.slots| == |r'.slots|
    ensures forall j :: SlotOf(r', j) == SlotOf(r, j)
  {
  }

  lemma SetWordWrites(t: Trb, k: nat, from: Trb)
    requires k < 3
    ensures SetWord(t, k, from).w3 == t.w3
    ensures WordsWritten(t, from, k) ==> WordsWritten(SetWord(t, k, from), from, k + 1)
  {
  }

  lemma PublishInv(r: Ring)
    requires Inv(r) && r.producer.Writing? && r.producer.k >= 3
    ensures Inv(DoWrite(r))
  {
    hide WithCycle, CycleOf, TypeOf, Toggles, Content;
    WriteIsApart(r);
    var data, r' := r.producer.data, DoWrite(r);
    assert r'.slots[r.write] == data.(w3 := WithCycle(data.w3, r.pcs));
    ContentIgnoresCycle(data, r.pcs);
    Published(r, r');
    assert forall j :: SlotOf(r', j) == SlotOf(r, j);
  }

  lemma LinkedInv(r: Ring)
    requires Inv(r) && r.producer.Linking? && r.producer.k >= 3
    ensures Inv(DoWrite(r))
  {
    hide WithCycle, CycleOf, TypeOf, Toggles, Content;
    WriteIsApart(r);
    assert DoWrite(r).slots[r.write] == r.Link().(w3 := WithCycle(r.Link().w3, r.pcs));
    ContentIgnoresCycle(r.Link(), r.pcs);
    assert DoWrite(r).Pending() == r.Pending() && forall j :: SlotOf(DoWrite(r), j) == SlotOf(r, j);
  }

  /** Writing the control word appends one unconsumed block and moves none. */
  lemma Published(r: Ring, r': Ring)
    requires Inv(r) && r.producer.Writing? && r.producer.k >= 3 && r' == DoWrite(r)
    ensures r'.Pending() == r.Pending() + [Content(r.producer.data)]
    ensures SlotOf(r', |r.Pending()|) == r.write
  {
    hide WithCycle, CycleOf, TypeOf, Toggles, Content;
  }

  /** A block with a matching cycle bit is the link exactly at the end, else the oldest pending one. */
  lemma Matching(r: Ring)
    requires Inv(r) && CycleOf(r.slots[r.read].w3) == r.ccs
    ensures TypeOf(r.slots[r.read].w3) == LINK <==> r.read == r.Last()
    ensures r.read == r.Last() ==> r.ccs != r.pcs && Content(r.slots[r.read]) == Content(r.Link())
    ensures r.read < r.Last() ==> |r.Pending()| > 0 && Content(r.slots[r.read]) == r.Pending()[0]
  {
    hide WithCycle, CycleOf, TypeOf, Toggles;
    if r.read < r.Last() {
      assert SlotOf(r, 0) == r.read;
      assert r.Pending()[0] == r.pushed[|r.consumed|];
    }
  }

  lemma FinishInv(r: Ring)
    requires Inv(r)
    ensures Inv(DoFinish(r))
  {
    hide WithCycle, CycleOf, TypeOf, Toggles;
    match r.consumer
    case Loading(w3, Some(w0), Some(w1), Some(w2)) =>
      Matching(r);
      assert Trb(w0, w1, w2, w3) == r.slots[r.read];
      if r.read == r.Last() { LinkFollowed(r, DoFinish(r)); } else { Taken(r, DoFinish(r)); }
    case _ =>
  }

  lemma LinkFollowed(r: Ring, r': Ring)
    requires Inv(r) && r.read == r.Last() && r.ccs != r.pcs && r' == r.(read := 0, ccs := !r.ccs, consumer := Resting)
    ensures Inv(r')
  {
    hide WithCycle, CycleOf, TypeOf, Toggles, Content;
    assert forall j :: 0 <= j < |r'.Pending()| ==> SlotOf(r', j) == SlotOf(r, j);
  }

  lemma Taken(r: Ring, r': Ring)
    requires Inv(r) && r.read < r.Last() && |r.Pending()| > 0 && CycleOf(r.slots[r.read].w3) == r.ccs
    requires r' == r.(consumed := r.consumed + [r.Pending()[0]], read := r.read + 1, consumer := Resting)
    ensures Inv(r')
  {
    hide WithCycle, CycleOf, TypeOf, Toggles, Content;
    assert r'.Pending() == r.Pending()[1..];
    assert forall j :: 0 <= j < |r'.Pending()| ==> SlotOf(r', j) == SlotOf(r, j + 1);
  }

  // ----- the theorems -----

  lemma StepInv(r: Ring, limit: int, a: Action)
    requires Inv(r) && limit <= |r.slots| - 2
    ensures Inv(Do(r, limit, a))
  {
    hide Inv, Run;
    match a {
      case Begin(data) => BeginInv(r, limit, data);
      case Write => WriteInv(r);
      case Poll => PollInv(r, limit);
      case Load(k) => LoadInv(r, limit, k);
      case Finish => FinishInv(r);
    }
  }

  lemma StepKeepsSize(r: Ring, limit: int, a: Action)
    ensures |Do(r, limit, a).slots| == |r.slots| && Do(r, limit, a).base == r.base
  {
  }

  /** Over every interleaving with at most buf_size - 2 unconsumed blocks the invariant holds ... */
  lemma {:induction false} RunInv(r: Ring, limit: int, actions: seq<Action>)
    requires Inv(r) && limit <= |r.slots| - 2
    ensures Inv(Run(r, limit, actions)) && |Run(r, limit, actions).slots| == |r.slots|
    decreases |actions|
  {
    hide Inv, Do;
    if actions != [] {
      StepInv(r, limit, actions[0]);
      StepKeepsSize(r, limit, actions[0]);
      RunInv(Do(r, limit, actions[0]), limit, actions[1..]);
    }
  }

  /** ... so the controller consumes exactly the pushed blocks in order, none lost, duplicated or
      torn, and follows links only back to the start. */
  lemma RingIsFifo(n: nat, base: Address, actions: seq<Action>)
    requires n >= 3
    ensures var r := Run(Fresh(n, base), n - 2, actions);
      r.consumed <= r.pushed && r.consumed + r.Pending() == r.pushed && |r.Pending()| <= n - 2 && !r.stray
  {
    hide Inv, Run, Fresh, TypeOf, Toggles;
    InitInv(n, base);
    FreshSize(n, base);
    RunInv(Fresh(n, base), n - 2, actions);
    InvIsFifo(Run(Fresh(n, base), n - 2, actions));
  }

  lemma FreshSize(n: nat, base: Address)
    ensures |Fresh(n, base).slots| == n
  {
  }

  lemma InvIsFifo(r: Ring)
    requires Inv(r)
    ensures r.consumed <= r.pushed && r.consumed + r.Pending() == r.pushed && |r.Pending()| <= |r.slots| - 2 && !r.stray
  {
    hide Cycles, Contents, ProducerOk, ConsumerOk, TypeOf, Toggles, Content;
  }

  /** A resting controller finds a block to act on exactly when one is pending or a link is due. */
  lemma NeverBlind(r: Ring)
    requires Inv(r)
    ensures CycleOf(r.slots[r.read].w3) == r.ccs <==> r.Pending() != [] || (r.read == r.Last() && r.ccs != r.pcs)
  {
    hide WithCycle, CycleOf, TypeOf, Toggles, Content;
    if CycleOf(r.slots[r.read].w3) == r.ccs { Matching(r); }
  }

  // ----- Ring::Push as a whole -----

  /** What one call of Ring::Push does to the memory and the producer's registers. */
  function AfterPush(r: Ring, data: Trb): Ring
    requires r.write < r.Last()
  {
    var slots := r.slots[r.write := data.(w3 := WithCycle(data.w3, r.pcs))];
    var p := r.(slots := slots, pushed := r.pushed + [Content(data)]);
    if r.write + 1 == r.Last()
    then p.(slots := slots[r.Last() := r.Link().(w3 := WithCycle(r.Link().w3, r.pcs))], write := 0, pcs := !r.pcs)
    else p.(write := r.write + 1)
  }

  function PushActions(r: Ring, data: Trb): seq<Action> {
    [Begin(data), Write, Write, Write, Write] + if r.write + 1 == r.Last() then [Write, Write, Write, Write] else []
  }

  lemma {:induction false} RunConcat(r: Ring, limit: int, a: seq<Action>, b: seq<Action>)
    ensures Run(r, limit, a + b) == Run(Run(r, limit, a), limit, b)
    decreases |a|
  {
    if a == [] {
      assert a + b == b;
    } else {
      assert (a + b)[1..] == a[1..] + b;
      RunConcat(Do(r, limit, a[0]), limit, a[1..], b);
    }
  }

  lemma RunOne(r: Ring, limit: int, actions: seq<Action>)
    requires actions != []
    ensures Run(r, limit, actions) == Run(Do(r, limit, actions[0]), limit, actions[1..])
    ensures Run(r, limit, []) == r
    ensures |actions| == 1 ==> Run(r, limit, actions) == Do(r, limit, actions[0])
    ensures |actions| == 2 ==> actions[1..] == [actions[1]]
    ensures |actions| == 3 ==> actions[1..] == [actions[1], actions[2]]
    ensures |actions| == 4 ==> actions[1..] == [actions[1], actions[2], actions[3]]
  {
  }

  lemma FourWrites(r: Ring, limit: int)
    ensures Run(r, limit, [Write, Write, Write, Write]) == DoWrite(DoWrite(DoWrite(DoWrite(r))))
  {
    hide DoWrite, Run;
    var r1 := DoWrite(r);
    var r2 := DoWrite(r1);
    var r3 := DoWrite(r2);
    RunOne(r, limit, [Write, Write, Write, Write]);
    RunOne(r1, limit, [Write, Write, Write]);
    RunOne(r2, limit, [Write, Write]);
    RunOne(r3, limit, [Write]);
  }

  /** The word-by-word steps add up to the call. */
  lemma PushIsWrites(r: Ring, limit: int, data: Trb)
    requires r.producer.Idle? && r.write < r.Last() && |r.Pending()| < limit && TypeOf(data.w3) != LINK
    ensures Run(r, limit, PushActions(r, data)) == AfterPush(r, data)
  {
    hide WithCycle, CycleOf, TypeOf, Toggles, Content;
    var four := [Write, Write, Write, Write];
    var r0 := Do(r, limit, Begin(data));
    var r1 := DoWrite(DoWrite(DoWrite(DoWrite(r0))));
    FourWrites(r0, limit);
    RunConcat(r0, limit, four, if r.write + 1 == r.Last() then four else []);
    assert PushActions(r, data)[1..] == four + if r.write + 1 == r.Last() then four else [];
    BlockWritten(r, limit, data);
    if r.write + 1 == r.Last() {
      FourWrites(r1, limit);
      LinkWritten(r1);
    }
  }

  lemma BlockWritten(r: Ring, limit: int, data: Trb)
    requires r.producer.Idle? && r.write < r.Last() && |r.Pending()| < limit && TypeOf(data.w3) != LINK
    ensures DoWrite(DoWrite(DoWrite(DoWrite(Do(r, limit, Begin(data)))))) ==
      r.(slots := r.slots[r.write := data.(w3 := WithCycle(data.w3, r.pcs))], pushed := r.pushed + [Content(data)],
         write := r.write + 1, producer := if r.write + 1 == r.Last() then Linking(0) else Idle)
  {
    hide WithCycle, CycleOf, TypeOf, Toggles, Content;
  }

  lemma LinkWritten(r: Ring)
    requires r.producer == Linking(0) && r.write == r.Last() >= 0
    ensures DoWrite(DoWrite(DoWrite(DoWrite(r)))) ==
      r.(slots := r.slots[r.write := r.Link().(w3 := WithCycle(r.Link().w3, r.pcs))], write := 0, pcs := !r.pcs,
        producer := Idle)
  {
    hide WithCycle, CycleOf, TypeOf, Toggles, Content;
  }
}
