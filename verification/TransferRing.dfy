/**
 * Control transfers on the shared ring: the driver of kernel/usb/xhci/device.cpp pushes its blocks
 * word by word while the controller reads them word by word, and a transfer is reported once the
 * controller has read its reported block. The status block behind a reported data block may still
 * be unread then, so unread blocks can outnumber those of the outstanding transfers by one.
 */
module TransferRing {
  import opened Trbs
  import opened ArrayMaps
  import opened ControlTransfers
  import P = RingProtocol

  const SAFE := 30         // unread blocks under which the ring is a queue

  // ----- what the ring remembers -----

  /** The slot of the g-th block ever pushed. */
  function SlotOfBlock(g: nat): nat { g % SPACE }

  /** The driver's side: where it writes and what it has written of the block it is pushing. */
  ghost predicate DriverOk(r: P.Ring) {
    && |r.slots| == RING_SIZE && r.write <= SPACE && (r.write == SPACE <==> r.producer.Linking?)
    && (if r.write == SPACE then 0 else r.write) == SlotOfBlock(|r.pushed|)
    && (r.producer.Writing? ==> r.producer.k <= 3 && P.WordsWritten(r.slots[r.write], r.producer.data, r.producer.k))
  }

  /** The last thirty blocks pushed, read or not, are still in their slots. */
  ghost predicate Remembers(r: P.Ring) {
    && DriverOk(r)
    && forall g :: 0 <= g < |r.pushed| && |r.pushed| - g <= SAFE ==> Content(r.slots[SlotOfBlock(g)]) == r.pushed[g]
  }

  lemma SlotsApart(g: nat, n: nat)
    requires g < n && n - g <= SAFE
    ensures SlotOfBlock(g) != SlotOfBlock(n)
  {
  }

  lemma OnlyWritesWrite(r: P.Ring, m: P.Action)
    requires !m.Write?
    ensures var r' := P.Do(r, SAFE, m);
      && r'.slots == r.slots && r'.pushed == r.pushed && r'.write == r.write && |r.consumed| <= |r'.consumed|
      && (!m.Begin? ==> r'.producer == r.producer)
  {
    hide TypeOf, CycleOf, Content, Toggles;
  }

  /** Every word access of either side keeps it. */
  lemma AccessRemembers(r: P.Ring, m: P.Action)
    requires Remembers(r) && !m.Begin?
    ensures Remembers(P.Do(r, SAFE, m))
  {
    hide Content, P.DoFinish, P.WordsWritten;
    if m.Write? { WriteRemembers(r); } else { OnlyWritesWrite(r, m); }
  }

  lemma WriteRemembers(r: P.Ring)
    requires Remembers(r)
    ensures Remembers(P.DoWrite(r))
  {
    hide Content, WithCycle;
    var r', n := P.DoWrite(r), |r.pushed|;
    if r.producer.Writing? {
      forall g | 0 <= g < n && n - g <= SAFE
        ensures r'.slots[SlotOfBlock(g)] == r.slots[SlotOfBlock(g)]
      {
        SlotsApart(g, n);
      }
      WriteDriverOk(r);
      if r.producer.k >= 3 { NewestInPlace(r); }
    }
  }

  lemma WriteDriverOk(r: P.Ring)
    requires DriverOk(r)
    ensures DriverOk(P.DoWrite(r))
  {
    hide Content, WithCycle;
  }

  /** The block just published is in its slot. */
  lemma NewestInPlace(r: P.Ring)
    requires DriverOk(r) && r.producer.Writing? && r.producer.k >= 3
    ensures Content(P.DoWrite(r).slots[r.write]) == Content(r.producer.data)
  {
    hide Content, WithCycle;
    var data := r.producer.data;
    assert P.DoWrite(r).slots[r.write] == data.(w3 := WithCycle(data.w3, r.pcs));
    ContentIgnoresCycle(data, r.pcs);
  }

  // ----- where the controller reads -----

  /** The link's slot holds the link once its control word says so, and until then no block at all. */
  ghost predicate LinkOk(r: P.Ring)
    requires |r.slots| == RING_SIZE
  {
    var t := r.slots[SPACE];
    && (if TypeOf(t.w3) == LINK then t.w0 == r.Link().w0 && t.w1 == r.Link().w1 else r.ccs && !CycleOf(t.w3))
    && (r.producer.Linking? ==> P.WordsWritten(t, r.Link(), r.producer.k))
  }

  /** What has been read of a block is the link exactly in the link's slot. */
  ghost predicate LoadOk(r: P.Ring)
    requires |r.slots| == RING_SIZE
  {
    match r.consumer
    case Resting => true
    case Loading(w3, l0, l1, _) =>
      && (TypeOf(w3) == LINK <==> r.read == SPACE) && (r.read == SPACE ==> TypeOf(r.slots[SPACE].w3) == LINK)
      && (r.read == SPACE ==> (l0.Some? ==> l0.value == r.Link().w0) && (l1.Some? ==> l1.value == r.Link().w1))
  }

  /** The controller stands on the slot of the block it takes next, or on the link before it. */
  ghost predicate ReaderOk(r: P.Ring) {
    && |r.slots| == RING_SIZE && r.read <= SPACE
    && (if r.read == SPACE then 0 else r.read) == SlotOfBlock(|r.consumed|)
    && (forall i :: 0 <= i < SPACE ==> TypeOf(r.slots[i].w3) != LINK)
    && (r.producer.Writing? ==> TypeOf(r.producer.data.w3) != LINK)
    && LinkOk(r) && LoadOk(r)
  }

  /** However many blocks are unread, each word access of either side keeps it, and a block is taken
      from the slot it was pushed to. */
  lemma AccessReads(r: P.Ring, m: P.Action)
    requires DriverOk(r) && ReaderOk(r) && !m.Begin?
    ensures var r' := P.Do(r, SAFE, m);
      && ReaderOk(r')
      && (|r'.consumed| == |r.consumed| || (|r'.consumed| == |r.consumed| + 1 && r.read == SlotOfBlock(|r.consumed|)))
  {
    hide ReaderOk, DriverOk, P.DoWrite, P.DoFinish;
    match m
    case Begin(_) =>
    case Write => WriteReads(r);
    case Poll => PollReads(r);
    case Load(k) => LoadReads(r, k);
    case Finish => FinishReads(r);
  }

  lemma WriteReads(r: P.Ring)
    requires DriverOk(r) && ReaderOk(r)
    ensures ReaderOk(P.DoWrite(r)) && P.DoWrite(r).consumed == r.consumed
  {
    hide ReaderOk, SlotOfBlock, Content, WithCycle;
    match r.producer
    case Idle =>
    case Writing(_, _) => BlockWordReads(r);
    case Linking(_) => LinkWordReads(r);
  }

  lemma BlockWordReads(r: P.Ring)
    requires DriverOk(r) && ReaderOk(r) && r.producer.Writing?
    ensures ReaderOk(P.DoWrite(r)) && P.DoWrite(r).consumed == r.consumed
  {
    hide TypeOf, CycleOf, Content, Toggles, WithCycle, SlotOfBlock;
    var r' := P.DoWrite(r);
    assert r'.slots[SPACE] == r.slots[SPACE];
  }

  lemma LinkWordReads(r: P.Ring)
    requires DriverOk(r) && ReaderOk(r) && r.producer.Linking?
    ensures ReaderOk(P.DoWrite(r)) && P.DoWrite(r).consumed == r.consumed
  {
    hide TypeOf, CycleOf, Content, Toggles, WithCycle, SlotOfBlock;
    var r' := P.DoWrite(r);
    assert forall i :: 0 <= i < SPACE ==> r'.slots[i] == r.slots[i];
  }

  lemma PollReads(r: P.Ring)
    requires ReaderOk(r)
    ensures ReaderOk(P.Do(r, SAFE, P.Poll)) && P.Do(r, SAFE, P.Poll).consumed == r.consumed
  {
    hide TypeOf, CycleOf, Content, Toggles, WithCycle, SlotOfBlock, P.WordsWritten;
  }

  lemma LoadReads(r: P.Ring, k: nat)
    requires ReaderOk(r)
    ensures ReaderOk(P.Do(r, SAFE, P.Load(k))) && P.Do(r, SAFE, P.Load(k)).consumed == r.consumed
  {
    hide TypeOf, CycleOf, Content, Toggles, WithCycle, SlotOfBlock, P.WordsWritten;
    var c := P.Do(r, SAFE, P.Load(k)).consumer;
    assert P.Do(r, SAFE, P.Load(k)) == r.(consumer := c);
  }

  lemma FinishReads(r: P.Ring)
    requires ReaderOk(r)
    ensures var r' := P.DoFinish(r);
      && ReaderOk(r')
      && (|r'.consumed| == |r.consumed| || (|r'.consumed| == |r.consumed| + 1 && r.read == SlotOfBlock(|r.consumed|)))
  {
    hide TypeOf, CycleOf, Content, Toggles, WithCycle, SlotOfBlock, P.WordsWritten;
    SlotAfter(|r.consumed|);
  }

  lemma SlotAfter(g: nat)
    ensures SlotOfBlock(g + 1) == if SlotOfBlock(g) + 1 == SPACE then 0 else SlotOfBlock(g) + 1
  {
  }

  // ----- driver and controller -----

  /** A call of ControlIn or ControlOut in progress: `begun` of its blocks are pushed or being pushed,
      the first one to slot `at`. */
  datatype Call = NoCall | Issuing(t: Transfer, begun: nat, at: nat)

  /** `sources` are the slots the controller has taken blocks from. */
  datatype Host = Host(
    ring: P.Ring, table: Table, call: Call, sources: seq<nat>,
    issued: seq<Transfer>, residuals: seq<nat>, reports: seq<Result>
  ) {
    function Outstanding(): seq<Transfer> {
      if |reports| <= |issued| then issued[|reports|..] else []
    }

    /** How many blocks the reported transfers had. */
    function Reported(): nat { if |reports| <= |issued| then |Flat(issued[..|reports|])| else 0 }

    /** One if the transfer reported last has a block behind the reported one. */
    function Trailing(): nat {
      if 0 < |reports| <= |issued| && |issued[|reports| - 1].trbs| == 3 then 1 else 0
    }
  }

  /** When the driver's clients may issue another transfer: the code itself has no check at all. */
  datatype Policy =
    | WhileRoom      // its blocks, those outstanding and a trailing one are at most thirty
    | UpTo(n: nat)   // fewer than n are outstanding
  {
    predicate AtMost(m: nat) { WhileRoom? || n <= m }
  }

  ghost predicate Admits(h: Host, policy: Policy, t: Transfer) {
    && IsTransfer(t)
    && match policy
       case WhileRoom => |Flat(h.Outstanding())| + h.Trailing() + |t.trbs| <= SAFE
       case UpTo(n) => |h.Outstanding()| < n
  }

  datatype Action =
    | Issue(t: Transfer)
    | Access(m: P.Action)          // one word written by the driver or read by the controller
    | Event(residual: nat)         // the driver handles the next transfer event

  /** Ring::Push begins: there is no check for a full ring. */
  function StartPush(r: P.Ring, data: Trb): P.Ring { r.(producer := P.Writing(data, 0)) }

  /** When a push has ended the call goes on with the next block, or records the pair and returns. */
  function GoOn(h: Host): Host {
    match h.call
    case NoCall => h
    case Issuing(t, begun, at) =>
      if !h.ring.producer.Idle? then h
      else if begun < |t.trbs| then h.(ring := StartPush(h.ring, t.trbs[begun]), call := Issuing(t, begun + 1, at))
      else h.(table := Insert(h.table, Adv(at, 1), at), call := NoCall, issued := h.issued + [t])
  }

  /** The controller has read the reported block of the oldest outstanding transfer. */
  predicate EventDue(h: Host) { h.Outstanding() != [] && h.Reported() + 1 < |h.sources| }

  /** One word access; the slot of a block that was taken is noted. */
  function Accessed(h: Host, m: P.Action): Host {
    var r := P.Do(h.ring, SAFE, m);
    h.(ring := r, sources := if |h.ring.consumed| < |r.consumed| then h.sources + [h.ring.read] else h.sources)
  }

  /** Disabled actions do nothing. */
  ghost function Next(h: Host, policy: Policy, a: Action): Host {
    match a
    case Issue(t) =>
      if h.call.NoCall? && Admits(h, policy, t)
      then h.(ring := StartPush(h.ring, t.trbs[0]), call := Issuing(t, 1, h.ring.write)) else h
    case Access(m) => if m.Begin? then h else GoOn(Accessed(h, m))
    case Event(residual) =>
      if h.call.NoCall? && EventDue(h) && |h.ring.slots| == RING_SIZE && h.sources[h.Reported() + 1] < RING_SIZE then
        var (p, r) := Complete(Pipe(h.ring, h.table), h.sources[h.Reported() + 1], residual);
        h.(table := p.table, residuals := h.residuals + [residual], reports := h.reports + [r])
      else h
  }

  ghost function Run(h: Host, policy: Policy, actions: seq<Action>): Host
    decreases |actions|
  {
    if actions == [] then h else Run(Next(h, policy, actions[0]), policy, actions[1..])
  }

  function NewDevice(base: Address): Host { Host(P.Fresh(RING_SIZE, base), Empty(base).table, NoCall, [], [], [], []) }

  // ----- the invariant, whatever the controller reads -----

  function Contents(ts: seq<Trb>): seq<Trb> { seq(|ts|, i requires 0 <= i < |ts| => Content(ts[i])) }

  /** How many blocks of the call in progress are completely pushed. */
  function Published(h: Host): nat {
    if h.call.NoCall? || h.call.begun == 0 then 0
    else if h.ring.producer.Writing? then h.call.begun - 1 else h.call.begun
  }

  function CallBlocks(h: Host): seq<Trb> {
    if h.call.NoCall? || Published(h) > |h.call.t.trbs| then [] else h.call.t.trbs[..Published(h)]
  }

  /** The call in progress; in the middle of a step a push may just have ended. */
  ghost predicate CallOk(h: Host) {
    match h.call
    case NoCall => h.ring.producer.Idle?
    case Issuing(t, begun, at) =>
      && IsTransfer(t) && 1 <= begun <= |t.trbs|
      && (h.ring.producer.Writing? ==> h.ring.producer.data == t.trbs[begun - 1])
      && at == SlotOfBlock(|Flat(h.issued)|)
  }

  /** Everything pushed, in order. */
  ghost predicate PushedOk(h: Host) { h.ring.pushed == Contents(Flat(h.issued) + CallBlocks(h)) }

  ghost predicate ReportsOk(h: Host) {
    && |h.reports| == |h.residuals| <= |h.issued|
    && forall i :: 0 <= i < |h.reports| ==> IsReportOf(h.reports[i], h.issued[i], h.residuals[i])
  }

  /** Outstanding and promised blocks are at most thirty. */
  ghost predicate FitsOk(h: Host) {
    |Flat(h.Outstanding())| + (if h.call.NoCall? then 0 else |h.call.t.trbs|) <= SAFE
  }

  ghost predicate SourcesOk(h: Host) {
    |h.sources| == |h.ring.consumed| && forall i :: 0 <= i < |h.sources| ==> h.sources[i] == SlotOfBlock(i)
  }

  ghost predicate MidInv(h: Host) {
    && Remembers(h.ring) && ReaderOk(h.ring) && SourcesOk(h) && CallOk(h) && PushedOk(h) && AllTransfers(h.issued)
    && ReportsOk(h) && FitsOk(h)
    && InMap(h.table, SlotOfBlock(h.Reported()), h.Outstanding())
  }

  /** Between steps a call is always pushing something. */
  ghost predicate HostInv(h: Host) { MidInv(h) && (h.call.Issuing? ==> !h.ring.producer.Idle?) }

  lemma {:induction false} FlatSplit(ts: seq<Transfer>, k: nat)
    requires k <= |ts|
    ensures Flat(ts) == Flat(ts[..k]) + Flat(ts[k..])
    decreases k
  {
    if k == 0 {
      assert ts[..0] == [] && ts[0..] == ts;
    } else {
      FlatSplit(ts[1..], k - 1);
      assert ts[1..][..k - 1] == ts[..k][1..] && ts[1..][k - 1..] == ts[k..];
    }
  }

  /** Reported and outstanding blocks are all the blocks issued. */
  lemma Counts(h: Host)
    requires |h.reports| <= |h.issued|
    ensures |Flat(h.issued)| == h.Reported() + |Flat(h.Outstanding())|
  {
    hide Flat;
    FlatSplit(h.issued, |h.reports|);
  }

  lemma AdvSlot(g: nat, k: nat)
    requires k <= SPACE
    ensures Adv(SlotOfBlock(g), k) == SlotOfBlock(g + k)
  {
    var q := g / SPACE;
    assert g == SPACE * q + g % SPACE;
  }

  lemma NotLinks(t: Transfer)
    requires IsTransfer(t)
    ensures 2 <= |t.trbs| <= 3 && forall i :: 0 <= i < |t.trbs| ==> TypeOf(t.trbs[i].w3) != LINK
  {
    hide TypeOf, Rebuild, IsTransfer;
    Kinds(t);
    forall i | 0 <= i < |t.trbs| ensures TypeOf(t.trbs[i].w3) != LINK { assert i == 0 || i == 1 || i == |t.trbs| - 1; }
  }

  lemma PushRemembers(r: P.Ring, data: Trb)
    requires Remembers(r) && ReaderOk(r) && r.producer.Idle? && TypeOf(data.w3) != LINK
    ensures Remembers(StartPush(r, data)) && ReaderOk(StartPush(r, data))
  {
    hide Content, TypeOf, CycleOf;
  }

  lemma StartInv(base: Address)
    ensures HostInv(NewDevice(base))
  {
    hide IsTransfer, LinkTrb, LinkTarget, IsReportOf, Content;
    assert Inv(Empty(base), 0, []);
    assert NewDevice(base).Outstanding() == [] && NewDevice(base).issued[..0] == [];
  }

  lemma AllOutstanding(h: Host)
    requires AllTransfers(h.issued)
    ensures AllTransfers(h.Outstanding())
  {
    hide IsTransfer;
  }

  lemma IssueStep(h: Host, policy: Policy, t: Transfer)
    requires HostInv(h) && policy.AtMost(10)
    ensures HostInv(Next(h, policy, Issue(t)))
  {
    hide Remembers, ReaderOk, Flat, InMap, IsReportOf, IsTransfer, Content, TypeOf;
    if h.call.NoCall? && Admits(h, policy, t) {
      NotLinks(t);
      AllOutstanding(h);
      BlockCount(h.Outstanding());
      PushRemembers(h.ring, t.trbs[0]);
      WriteIndex(h);
      var h' := Next(h, policy, Issue(t));
      assert Published(h') == 0 && CallBlocks(h') == CallBlocks(h);
      assert h'.Outstanding() == h.Outstanding() && h'.Reported() == h.Reported();
    }
  }

  lemma WriteIndex(h: Host)
    requires Remembers(h.ring) && h.ring.producer.Idle? && |h.ring.pushed| == |Flat(h.issued)|
    ensures h.ring.write == SlotOfBlock(|Flat(h.issued)|) && h.ring.write < SPACE && |h.ring.slots| == RING_SIZE
  {
    hide Content, Flat;
  }

  /** What is left of a step once the word is written: the next block, or the end of the call. */
  lemma GoOnInv(h: Host)
    requires MidInv(h)
    ensures HostInv(GoOn(h))
  {
    hide Remembers, ReaderOk, Flat, InMap, IsReportOf, IsTransfer, Content, Insert, Adv, TypeOf;
    if h.call.Issuing? && h.ring.producer.Idle? {
      var t, begun := h.call.t, h.call.begun;
      NotLinks(t);
      if begun < |t.trbs| {
        PushRemembers(h.ring, t.trbs[begun]);
        assert CallBlocks(GoOn(h)) == CallBlocks(h);
      } else {
        CallEnds(h);
      }
    }
  }

  lemma CallEnds(h: Host)
    requires MidInv(h) && h.call.Issuing? && h.ring.producer.Idle? && h.call.begun == |h.call.t.trbs|
    ensures HostInv(GoOn(h)) && GoOn(h).Outstanding() == h.Outstanding() + [h.call.t]
    ensures GoOn(h).Reported() == h.Reported()
    ensures |Flat(GoOn(h).Outstanding())| == |Flat(h.Outstanding())| + |h.call.t.trbs|
  {
    hide Remembers, ReaderOk, Flat, IsReportOf, IsTransfer, Content, Insert, Adv, Entries, Pairs, DistinctKeys;
    var t, h' := h.call.t, GoOn(h);
    var out := h.Outstanding();
    Counts(h);
    Sizes(t);
    FlatSnoc(h.issued, t);
    FlatSnoc(out, t);
    assert h'.Outstanding() == out + [t];
    assert h'.issued[..|h.reports|] == h.issued[..|h.reports|];
    assert CallBlocks(h) == t.trbs && CallBlocks(h') == [];
    assert Flat(h.issued) + t.trbs == Flat(h'.issued) + [];
    AdvSlot(h.Reported(), |Flat(out)|);
    AllOutstanding(h);
    MapAdds(h.table, SlotOfBlock(h.Reported()), out, t, h.call.at);
  }

  // ----- word accesses -----

  lemma AccessMid(h: Host, m: P.Action)
    requires HostInv(h) && !m.Begin?
    ensures MidInv(Accessed(h, m))
  {
    hide Remembers, ReaderOk, Flat, InMap, IsReportOf, IsTransfer, Content, P.Do;
    AccessRemembers(h.ring, m);
    AccessReads(h.ring, m) by { RingOk(h.ring); }
    if m.Write? { WordMid(h); } else { ReadMid(h, m); }
  }

  lemma AccessInv(h: Host, policy: Policy, m: P.Action)
    requires HostInv(h)
    ensures HostInv(Next(h, policy, Access(m)))
  {
    hide HostInv, MidInv, Accessed, GoOn;
    if !m.Begin? {
      AccessMid(h, m);
      GoOnInv(Accessed(h, m));
    }
  }

  lemma ReadMid(h: Host, m: P.Action)
    requires HostInv(h) && !m.Begin? && !m.Write? && Remembers(Accessed(h, m).ring) && ReaderOk(Accessed(h, m).ring)
    requires SourcesOk(Accessed(h, m))
    ensures MidInv(Accessed(h, m))
  {
    hide Remembers, ReaderOk, Flat, InMap, IsReportOf, IsTransfer, Content, P.Do, SourcesOk;
    OnlyWritesWrite(h.ring, m);
    var h' := Accessed(h, m);
    assert CallBlocks(h') == CallBlocks(h);
  }

  lemma WordMid(h: Host)
    requires HostInv(h) && Remembers(Accessed(h, P.Write).ring) && ReaderOk(Accessed(h, P.Write).ring)
    requires SourcesOk(Accessed(h, P.Write))
    ensures MidInv(Accessed(h, P.Write))
  {
    hide Remembers, ReaderOk, Flat, InMap, IsReportOf, IsTransfer, Content, SetWord, WithCycle, SourcesOk;
    var h' := Accessed(h, P.Write);
    if h.call.Issuing? {
      var t, begun := h.call.t, h.call.begun;
      assert h.ring.write < |h.ring.slots| by { InMemory(h.ring); }
      if h.ring.producer.Writing? && h.ring.producer.k >= 3 {
        assert CallBlocks(h') == CallBlocks(h) + [t.trbs[begun - 1]];
        ContentsSnoc(Flat(h.issued) + CallBlocks(h), t.trbs[begun - 1]);
        assert Flat(h.issued) + CallBlocks(h') == Flat(h.issued) + CallBlocks(h) + [t.trbs[begun - 1]];
      } else {
        assert CallBlocks(h') == CallBlocks(h);
      }
    }
  }

  lemma RingOk(r: P.Ring)
    requires Remembers(r)
    ensures DriverOk(r)
  {
  }

  lemma InMemory(r: P.Ring)
    requires Remembers(r)
    ensures r.write < |r.slots| == RING_SIZE
  {
  }

  lemma ContentsSnoc(ts: seq<Trb>, t: Trb)
    ensures Contents(ts + [t]) == Contents(ts) + [Content(t)]
  {
    hide Content;
  }

  // ----- events -----

  /** Between calls ring and map are the pipe of the outstanding transfers. */
  lemma PipeInv(h: Host)
    requires HostInv(h) && h.call.NoCall?
    ensures Inv(Pipe(h.ring, h.table), SlotOfBlock(h.Reported()), h.Outstanding())
  {
    hide Flat, IsReportOf, IsTransfer, Content, InMap, Adv, P.WordsWritten, ReaderOk, SourcesOk;
    Counts(h);
    AllOutstanding(h);
    WriteIndex(h);
    var tail, blocks := SlotOfBlock(h.Reported()), Flat(h.Outstanding());
    AdvSlot(h.Reported(), |blocks|);
    FlatSplit(h.issued, |h.reports|);
    forall k | 0 <= k < |blocks| ensures Content(h.ring.slots[Adv(tail, k)]) == Content(blocks[k]) {
      AdvSlot(h.Reported(), k);
      var g := h.Reported() + k;
      assert h.ring.pushed[g] == Content(Flat(h.issued)[g]);
    }
  }

  /** An event rebuilds the request of its own transfer. */
  lemma EventInv(h: Host, policy: Policy, residual: nat)
    requires HostInv(h)
    ensures HostInv(Next(h, policy, Event(residual)))
  {
    hide Flat, IsReportOf, IsTransfer, Content, Complete, Adv, Entries, Pairs, DistinctKeys, Remembers, ReaderOk;
    if h.call.NoCall? && EventDue(h) {
      var h', out, tail := Next(h, policy, Event(residual)), h.Outstanding(), SlotOfBlock(h.Reported());
      InMemory(h.ring);
      PipeInv(h);
      AdvSlot(h.Reported(), 1);
      CompleteInv(Pipe(h.ring, h.table), tail, out, residual);
      var n := |h.reports|;
      assert out[0] == h.issued[n] && h'.Outstanding() == out[1..];
      Sizes(out[0]);
      ReportedNext(h);
      AdvSlot(h.Reported(), |out[0].trbs|);
      Counts(h);
      Counts(h');
    }
  }

  lemma ReportedNext(h: Host)
    requires |h.reports| < |h.issued|
    ensures |Flat(h.issued[..|h.reports| + 1])| == h.Reported() + |h.issued[|h.reports|].trbs|
  {
    hide Flat;
    var n := |h.reports|;
    FlatSnoc(h.issued[..n], h.issued[n]);
    assert h.issued[..n + 1] == h.issued[..n] + [h.issued[n]];
  }

  // ----- whole runs -----

  lemma NextInv(h: Host, policy: Policy, a: Action)
    requires HostInv(h) && policy.AtMost(10)
    ensures HostInv(Next(h, policy, a))
  {
    hide HostInv, Next;
    match a
    case Issue(t) => IssueStep(h, policy, t);
    case Access(m) => AccessInv(h, policy, m);
    case Event(residual) => EventInv(h, policy, residual);
  }

  lemma {:induction false} RunInv(h: Host, policy: Policy, actions: seq<Action>)
    requires HostInv(h) && policy.AtMost(10)
    ensures HostInv(Run(h, policy, actions))
    decreases |actions|
  {
    hide HostInv, Next;
    if actions != [] {
      NextInv(h, policy, actions[0]);
      RunInv(Next(h, policy, actions[0]), policy, actions[1..]);
    }
  }

  /** Over every interleaving of calls, word accesses and events with at most ten transfers at once, or
      while there is room, from a new device and across any number of ring wraps: the i-th report is
      that of the i-th transfer issued, each event names the slot the controller took the block from,
      and the map holds one entry per outstanding transfer. */
  lemma CompletionsReachTheirRequests(base: Address, policy: Policy, actions: seq<Action>)
    requires policy.AtMost(10)
    ensures var h := Run(NewDevice(base), policy, actions);
      && |h.reports| == |h.residuals| <= |h.issued|
      && (forall i :: 0 <= i < |h.reports| ==> IsReportOf(h.reports[i], h.issued[i], h.residuals[i]))
      && |h.sources| == |h.ring.consumed| && (forall i :: 0 <= i < |h.sources| ==> h.sources[i] == SlotOfBlock(i))
      && Pairs(h.table) == Entries(SlotOfBlock(h.Reported()), h.Outstanding()) && |Pairs(h.table)| == |h.Outstanding()|
  {
    hide IsReportOf, Run, Entries, Flat, Pairs, Content, IsTransfer, DistinctKeys, Remembers, ReaderOk, TypeOf;
    StartInv(base);
    RunInv(NewDevice(base), policy, actions);
    var h := Run(NewDevice(base), policy, actions);
    AllOutstanding(h);
    EntriesPerTransfer(SlotOfBlock(h.Reported()), h.Outstanding());
  }

  // ----- the queue, while calls wait for room -----

  /** The ring is the protocol's; all blocks of reported transfers are read but for a trailing one;
      outstanding, trailing and promised blocks are at most thirty. */
  ghost predicate QueueInv(h: Host) {
    && P.Inv(h.ring) && h.Reported() <= |h.ring.consumed| + h.Trailing()
    && |Flat(h.Outstanding())| + h.Trailing() + (if h.call.NoCall? then 0 else |h.call.t.trbs|) <= SAFE
  }

  lemma ShapeOf(r: P.Ring)
    requires P.Inv(r)
    ensures |r.consumed| <= |r.pushed| && |r.Pending()| == |r.pushed| - |r.consumed| && r.consumed <= r.pushed
    ensures !r.stray
    ensures r.read < |r.slots|
  {
  }

  /** At most one unread block more than the outstanding transfers and the call in progress have. */
  lemma UnreadBound(h: Host)
    requires MidInv(h) && QueueInv(h)
    ensures |h.ring.Pending()| <= |Flat(h.Outstanding())| + h.Trailing() + Published(h) && h.Trailing() <= 1
    ensures |h.ring.Pending()| <= SAFE
  {
    hide Flat, P.Inv, IsReportOf, InMap, Content, IsTransfer, Remembers, ReaderOk, SourcesOk;
    Counts(h);
    ShapeOf(h.ring);
  }

  /** A push that begins within the bound is the protocol's own. */
  lemma PushWithinBound(r: P.Ring, data: Trb)
    requires P.Inv(r) && |r.slots| == RING_SIZE && r.producer.Idle? && |r.Pending()| < SAFE && TypeOf(data.w3) != LINK
    ensures P.Inv(StartPush(r, data))
  {
    hide P.Inv, TypeOf;
    P.StepInv(r, SAFE, P.Begin(data));
  }

  /** With at most nine transfers outstanding there is always room for one more. */
  lemma NineFit(h: Host, policy: Policy, t: Transfer)
    requires AllTransfers(h.Outstanding()) && policy.AtMost(9) && Admits(h, policy, t)
    ensures Admits(h, WhileRoom, t)
  {
    hide IsTransfer;
    Sizes(t);
    BlockCount(h.Outstanding());
  }

  lemma IssueQueue(h: Host, policy: Policy, t: Transfer)
    requires HostInv(h) && QueueInv(h) && policy.AtMost(9)
    ensures QueueInv(Next(h, policy, Issue(t)))
  {
    hide Remembers, ReaderOk, SourcesOk, Flat, InMap, IsReportOf, IsTransfer, TypeOf, Content, P.Inv;
    if h.call.NoCall? && Admits(h, policy, t) {
      AllOutstanding(h);
      NineFit(h, policy, t);
      NotLinks(t);
      UnreadBound(h);
      InMemory(h.ring);
      PushWithinBound(h.ring, t.trbs[0]);
    }
  }

  lemma GoOnQueue(h: Host)
    requires MidInv(h) && QueueInv(h)
    ensures QueueInv(GoOn(h))
  {
    hide Remembers, ReaderOk, SourcesOk, Flat, InMap, IsReportOf, IsTransfer, TypeOf, Content, Insert, Adv, P.Inv;
    if h.call.Issuing? && h.ring.producer.Idle? {
      var t, begun := h.call.t, h.call.begun;
      NotLinks(t);
      UnreadBound(h);
      InMemory(h.ring);
      if begun < |t.trbs| {
        PushWithinBound(h.ring, t.trbs[begun]);
      } else {
        CallEnds(h);
        SameTrailing(h, GoOn(h));
      }
    }
  }

  lemma SameTrailing(h: Host, h': Host)
    requires h'.reports == h.reports && |h.reports| <= |h.issued| <= |h'.issued| && h'.issued[..|h.issued|] == h.issued
    ensures h'.Trailing() == h.Trailing()
  {
    if |h.reports| > 0 { assert h'.issued[..|h.issued|][|h.reports| - 1] == h'.issued[|h.reports| - 1]; }
  }

  lemma AccessQueue(h: Host, policy: Policy, m: P.Action)
    requires HostInv(h) && QueueInv(h)
    ensures QueueInv(Next(h, policy, Access(m)))
  {
    hide P.Inv, GoOn, Flat, MidInv, P.Do;
    if !m.Begin? {
      var h' := Accessed(h, m);
      assert |h.ring.slots| == RING_SIZE by { HostRing(h); }
      P.StepInv(h.ring, SAFE, m);
      ConsumedGrows(h.ring, m);
      AccessMid(h, m);
      GoOnQueue(h');
    }
  }

  lemma HostRing(h: Host)
    requires HostInv(h)
    ensures |h.ring.slots| == RING_SIZE
  {
  }

  lemma ConsumedGrows(r: P.Ring, m: P.Action)
    ensures |r.consumed| <= |P.Do(r, SAFE, m).consumed|
  {
    hide TypeOf, CycleOf, Content, Toggles, WithCycle;
  }

  lemma EventQueue(h: Host, policy: Policy, residual: nat)
    requires HostInv(h) && QueueInv(h)
    ensures QueueInv(Next(h, policy, Event(residual)))
  {
    hide Flat, IsReportOf, IsTransfer, Content, Complete, P.Inv, Remembers, ReaderOk, InMap;
    if h.call.NoCall? && EventDue(h) {
      var h' := Next(h, policy, Event(residual));
      assert h.Outstanding()[0] == h.issued[|h.reports|];
      Sizes(h.issued[|h.reports|]);
      ReportedNext(h);
      Counts(h);
      Counts(h');
    }
  }

  lemma {:induction false} RunQueue(h: Host, policy: Policy, actions: seq<Action>)
    requires HostInv(h) && QueueInv(h) && policy.AtMost(9)
    ensures HostInv(Run(h, policy, actions)) && QueueInv(Run(h, policy, actions))
    decreases |actions|
  {
    hide HostInv, QueueInv, Next;
    if actions != [] {
      NextInv(h, policy, actions[0]);
      match actions[0] {
        case Issue(t) => IssueQueue(h, policy, t);
        case Access(m) => AccessQueue(h, policy, m);
        case Event(residual) => EventQueue(h, policy, residual);
      }
      RunQueue(Next(h, policy, actions[0]), policy, actions[1..]);
    }
  }

  /** With at most nine transfers at once, or while calls wait for room, the controller reads exactly the
      pushed blocks in order, at most one block is unread beyond those of the outstanding transfers
      and the call in progress, and an unread block is never invisible to it. */
  lemma NeverOverruns(base: Address, policy: Policy, actions: seq<Action>)
    requires policy.AtMost(9)
    ensures var h := Run(NewDevice(base), policy, actions);
      && h.ring.consumed <= h.ring.pushed && !h.ring.stray && |h.ring.Pending()| <= SAFE
      && |h.ring.Pending()| <= |Flat(h.Outstanding())| + 1 + Published(h)
      && h.ring.read < |h.ring.slots|
      && (h.ring.Pending() != [] ==> CycleOf(h.ring.slots[h.ring.read].w3) == h.ring.ccs)
  {
    hide Run, Flat, TypeOf, Toggles, Content, P.Inv, Remembers, ReaderOk, SourcesOk, CycleOf, InMap;
    StartInv(base);
    P.InitInv(RING_SIZE, base);
    assert Flat([]) == [] by { FlatOfNothing(); }
    assert NewDevice(base).Outstanding() == [] && NewDevice(base).issued[..0] == [];
    RunQueue(NewDevice(base), policy, actions);
    var h := Run(NewDevice(base), policy, actions);
    UnreadBound(h);
    ShapeOf(h.ring);
    InMemory(h.ring);
    P.NeverBlind(h.ring);
  }

  lemma FlatOfNothing()
    ensures Flat([]) == []
  {
  }
}
