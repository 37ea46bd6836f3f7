/**
 * kernel/usb/xhci/device.cpp: control transfers on the default pipe. Each transfer pushes a setup
 * block and one or two more; a completion names one of them, and the setup map leads back to the
 * setup block, from which the request is rebuilt.
 */
module ControlTransfers {
  import opened Arithmetic
  import opened Options
  import opened Trbs
  import opened ArrayMaps
  import P = RingProtocol

  const RING_SIZE := 32
  const SPACE := 31        // blocks before the link
  const MAP_SIZE := 16

  datatype SetupData = SetupData(requestType: nat, request: nat, value: nat, index: nat, length: nat) {
    predicate Valid() {
      requestType < 0x100 && request < 0x100 && value < 0x1_0000 && index < 0x1_0000 && length < 0x1_0000
    }
  }

  // ----- what the blocks of a transfer are -----

  /** A request as the eight bytes of its packet (section 9.3 of the USB 2.0 specification). */
  function SetupPacket(s: SetupData): seq<nat> {
    [s.requestType, s.request, s.value % 0x100, s.value / 0x100, s.index % 0x100, s.index / 0x100,
     s.length % 0x100, s.length / 0x100]
  }

  predicate CarriesPacket(t: Trb, s: SetupData) { WordBytes(t.w0) + WordBytes(t.w1) == SetupPacket(s) }

  /** The data buffer of a transfer, if it has a data stage. */
  datatype Buffer = Buffer(address: Pointer, len: nat)

  /** A setup stage of the request as immediate data; a data stage follows that goes in (3) or out (2),
      or none (0). */
  predicate IsSetupStage(t: Trb, s: SetupData, transferType: nat) {
    && TypeOf(t.w3) == SETUP_STAGE && CarriesPacket(t, s) && LengthOf(t) == 8 && Immediate(t)
    && TransferTypeOf(t) == transferType && OnePacket(t) && Unchained(t) && !Interrupts(t)
  }

  /** A data stage for the buffer whose completion is reported; the length field has seventeen bits. */
  predicate IsDataStage(t: Trb, b: Buffer, dirIn: bool) {
    && TypeOf(t.w3) == DATA_STAGE && PointerOf(t) == b.address && LengthOf(t) == b.len % 0x2_0000 && !Immediate(t)
    && DirectionIn(t) == dirIn && OnePacket(t) && Unchained(t) && Interrupts(t)
  }

  predicate IsStatusStage(t: Trb, dirIn: bool, reported: bool) {
    && TypeOf(t.w3) == STATUS_STAGE && PointerOf(t) == 0 && LengthOf(t) == 0 && !Immediate(t)
    && DirectionIn(t) == dirIn && OnePacket(t) && Unchained(t) && Interrupts(t) == reported
  }

  /** A control transfer (section 4.11.2.2 of the xHCI specification): the status stage goes against
      the data stage, and in if there is none; the block that is reported comes second. */
  predicate AreStages(trbs: seq<Trb>, s: SetupData, buf: Option<Buffer>, dirIn: bool) {
    match buf
    case Some(b) =>
      && |trbs| == 3 && IsSetupStage(trbs[0], s, if dirIn then 3 else 2)
      && IsDataStage(trbs[1], b, dirIn) && IsStatusStage(trbs[2], !dirIn, false)
    case None => |trbs| == 2 && IsSetupStage(trbs[0], s, 0) && IsStatusStage(trbs[1], true, true)
  }

  // ----- how the driver builds them -----

  /** MakeSetupStageTRB: immediate data, length 8. */
  function SetupTrb(s: SetupData, transferType: nat): (t: Trb)
    requires s.Valid() && transferType < 4
    ensures IsSetupStage(t, s, transferType)
  {
    PacketWords(s);
    SetupControl(transferType);
    hide WordBytes, SetupPacket;
    Trb(s.requestType + 0x100 * s.request + 0x1_0000 * s.value, s.index + 0x1_0000 * s.length, 8,
        0x400 * SETUP_STAGE + 0x40 + 0x1_0000 * transferType)
  }

  /** MakeDataStageTRB with interrupt on completion. */
  function DataTrb(b: Buffer, dirIn: bool): (t: Trb)
    ensures IsDataStage(t, b, dirIn)
  {
    Trb(b.address % 0x1_0000_0000, b.address / 0x1_0000_0000, b.len % 0x2_0000,
        0x400 * DATA_STAGE + 0x20 + (if dirIn then 0x1_0000 else 0))
  }

  function StatusTrb(dirIn: bool, interrupt: bool): (t: Trb)
    ensures IsStatusStage(t, dirIn, interrupt)
  {
    Trb(0, 0, 0, 0x400 * STATUS_STAGE + (if interrupt then 0x20 else 0) + (if dirIn then 0x1_0000 else 0))
  }

  /** The fields of a setup stage's control word. */
  lemma SetupControl(transferType: nat)
    requires transferType < 4
    ensures var w3 := 0x400 * SETUP_STAGE + 0x40 + 0x1_0000 * transferType;
      && w3 / 0x400 % 0x40 == SETUP_STAGE && w3 / 0x40 % 2 == 1 && w3 / 0x1_0000 % 4 == transferType
      && w3 / 2 % 16 == 0 && w3 / 0x20 % 2 == 0
  {
    assert transferType in {0, 1, 2, 3};
  }

  lemma PacketWords(s: SetupData)
    requires s.Valid()
    ensures WordBytes(s.requestType + 0x100 * s.request + 0x1_0000 * s.value) +
      WordBytes(s.index + 0x1_0000 * s.length) == SetupPacket(s)
  {
    PacketBytes(s.requestType, s.request, s.value);
    PacketBytes(s.index % 0x100, s.index / 0x100, s.length);
  }

  /** The bytes of a word put together from two bytes and a half-word. */
  lemma PacketBytes(a: nat, b: nat, c: nat)
    requires a < 0x100 && b < 0x100 && c < 0x1_0000
    ensures WordBytes(a + 0x100 * b + 0x1_0000 * c) == [a, b, c % 0x100, c / 0x100]
  {
    var w := a + 0x100 * b + 0x1_0000 * c;
    DivUnique(w, 0x100, b + 0x100 * c, a);
    DivUnique(b + 0x100 * c, 0x100, c, b);
    DivUnique(w, 0x1_0000, c, a + 0x100 * b);
    DivUnique(w, 0x100_0000, c / 0x100, a + 0x100 * b + 0x1_0000 * (c % 0x100));
  }

  /** The request rebuilt from a setup block, as OnTransferEventReceived does. */
  function Rebuild(t: Trb): SetupData {
    SetupData(t.w0 % 0x100, t.w0 / 0x100 % 0x100, t.w0 / 0x1_0000, t.w1 % 0x1_0000, t.w1 / 0x1_0000)
  }

  /** A block that carries the packet of a request is rebuilt as that request, bit for bit. */
  lemma RebuildInverts(t: Trb, s: SetupData)
    requires CarriesPacket(t, s)
    ensures Rebuild(t) == s
  {
    var all := WordBytes(t.w0) + WordBytes(t.w1);
    assert all[0] == s.requestType && all[1] == s.request && all[2] == s.value % 0x100 && all[3] == s.value / 0x100;
    assert all[4] == s.index % 0x100 && all[5] == s.index / 0x100;
    assert all[6] == s.length % 0x100 && all[7] == s.length / 0x100;
    HighHalf(t.w0, s.value);
    LowHalf(t.w1, s.index);
    HighHalf(t.w1, s.length);
  }

  lemma HighHalf(w: Word, v: nat)
    requires w / 0x1_0000 % 0x100 == v % 0x100 && w / 0x100_0000 == v / 0x100
    ensures w / 0x1_0000 == v
  {
    var h := w / 0x1_0000;
    DivMod(w, 0x1_0000);
    DivMod(h, 0x100);
    DivMod(v, 0x100);
    DivUnique(w, 0x100_0000, h / 0x100, 0x1_0000 * (h % 0x100) + w % 0x1_0000);
  }

  lemma LowHalf(w: Word, v: nat)
    requires w % 0x100 == v % 0x100 && w / 0x100 % 0x100 == v / 0x100
    ensures w % 0x1_0000 == v
  {
    var h := w / 0x100;
    DivMod(w, 0x100);
    DivMod(h, 0x100);
    DivMod(v, 0x100);
    DivUnique(w, 0x1_0000, h / 0x100, 0x100 * (h % 0x100) + w % 0x100);
  }

  /** The blocks ControlIn pushes. */
  function ControlInTrbs(s: SetupData, buf: Option<Buffer>): seq<Trb>
    requires s.Valid()
  {
    match buf
    case Some(b) => [SetupTrb(s, 3), DataTrb(b, true), StatusTrb(false, false)]
    case None => [SetupTrb(s, 0), StatusTrb(true, true)]
  }

  /** The blocks ControlOut pushes. */
  function ControlOutTrbs(s: SetupData, buf: Option<Buffer>): seq<Trb>
    requires s.Valid()
  {
    match buf
    case Some(b) => [SetupTrb(s, 2), DataTrb(b, false), StatusTrb(true, false)]
    case None => [SetupTrb(s, 0), StatusTrb(true, true)]
  }

  /** A transfer: its request, its buffer and the blocks pushed for it. */
  datatype Transfer = Transfer(setup: SetupData, buffer: Option<Buffer>, trbs: seq<Trb>)

  /** Its blocks are the stages of its request for its buffer, in or out. */
  predicate IsTransfer(t: Transfer) {
    t.setup.Valid() && (AreStages(t.trbs, t.setup, t.buffer, true) || AreStages(t.trbs, t.setup, t.buffer, false))
  }

  lemma BothAreTransfers(s: SetupData, buf: Option<Buffer>)
    requires s.Valid()
    ensures AreStages(ControlInTrbs(s, buf), s, buf, true) && AreStages(ControlOutTrbs(s, buf), s, buf, false)
    ensures IsTransfer(Transfer(s, buf, ControlInTrbs(s, buf))) && IsTransfer(Transfer(s, buf, ControlOutTrbs(s, buf)))
  {
    hide IsSetupStage, IsDataStage, IsStatusStage, SetupTrb, DataTrb, StatusTrb;
  }

  predicate Reportable(t: Trb) { TypeOf(t.w3) == DATA_STAGE || TypeOf(t.w3) == STATUS_STAGE }

  /** The request comes first, reportable blocks follow. */
  lemma Kinds(t: Transfer)
    requires IsTransfer(t)
    ensures |t.trbs| == if t.buffer.Some? then 3 else 2
    ensures TypeOf(t.trbs[0].w3) == SETUP_STAGE && Rebuild(t.trbs[0]) == t.setup
    ensures Reportable(t.trbs[1]) && Reportable(t.trbs[|t.trbs| - 1])
  {
    hide TypeOf, CarriesPacket, PointerOf, LengthOf, Interrupts, Immediate, DirectionIn, TransferTypeOf, OnePacket,
      Unchained, Rebuild;
    RebuildInverts(t.trbs[0], t.setup);
  }

  // ----- the device: transfer ring and setup map -----

  type Table = seq<Entry<int, int>>

  /** The default pipe's ring (driver's side) and the map from reported block to setup block. */
  datatype Pipe = Pipe(ring: P.Ring, table: Table)

  predicate RingUsable(r: P.Ring) { |r.slots| == RING_SIZE && r.write < SPACE }

  function PushAll(r: P.Ring, trbs: seq<Trb>): (q: P.Ring)
    requires RingUsable(r)
    ensures RingUsable(q)
  {
    if trbs == [] then r else P.AfterPush(PushAll(r, trbs[..|trbs| - 1]), trbs[|trbs| - 1])
  }

  /** k slots further along the ring, skipping the link. */
  function Adv(at: nat, k: nat): (r: int)
    ensures at < SPACE && k <= SPACE ==> 0 <= r < SPACE
  {
    if at + k < SPACE then at + k else at + k - SPACE
  }

  /** ControlIn and ControlOut after the argument checks. */
  function Issue(p: Pipe, trbs: seq<Trb>): Pipe
    requires RingUsable(p.ring)
  {
    Pipe(PushAll(p.ring, trbs), Insert(p.table, Adv(p.ring.write, 1), p.ring.write))
  }

  datatype Result =
    | RingNotSet | BadEndpoint | TransferFailed | NoSetupStage | NotImplemented
    | Issued
    | Interrupt(buffer: nat, length: int)
    | Control(setup: SetupData, data: Option<nat>, length: int)

  /** OnTransferEventReceived for a successful event on block `issuer`. */
  function Complete(p: Pipe, issuer: nat, residual: nat): (r: (Pipe, Result))
    requires |p.ring.slots| == RING_SIZE && issuer < RING_SIZE
  {
    var t := p.ring.slots[issuer];
    if TypeOf(t.w3) == NORMAL then (p, Interrupt(PointerOf(t), LengthOf(t) - residual))
    else match Lookup(p.table, issuer)
      case None => (p, NoSetupStage)
      case Some(at) =>
        var p' := p.(table := Remove(p.table, issuer));
        if !(0 <= at < RING_SIZE) then (p', NoSetupStage)
        else (p', Report(p.ring.slots[at], t, residual))
  }

  /** What the class driver is told, from the setup block and the reported block. */
  function Report(setup: Trb, t: Trb, residual: nat): (r: Result) {
    if TypeOf(t.w3) == DATA_STAGE then Control(Rebuild(setup), Some(PointerOf(t)), LengthOf(t) - residual)
    else if TypeOf(t.w3) == STATUS_STAGE then Control(Rebuild(setup), None, 0)
    else NotImplemented
  }

  // ----- outstanding transfers -----

  ghost predicate AllTransfers(out: seq<Transfer>) {
    forall j :: 0 <= j < |out| ==> IsTransfer(out[j])
  }

  /** The blocks of the outstanding transfers, oldest first. */
  function Flat(out: seq<Transfer>): seq<Trb> {
    if out == [] then [] else out[0].trbs + Flat(out[1..])
  }

  /** The map entries of transfers whose blocks start at `at`: reported block to setup block. */
  function Entries(at: nat, out: seq<Transfer>): set<(int, int)>
    decreases |out|
  {
    if out == [] || at >= SPACE || |out[0].trbs| > SPACE then {}
    else {(Adv(at, 1), at)} + Entries(Adv(at, |out[0].trbs|), out[1..])
  }

  /** The outstanding blocks lie one after another from `tail` to the write index, unharmed. */
  ghost predicate InRing(r: P.Ring, tail: nat, blocks: seq<Trb>) {
    && RingUsable(r) && tail < SPACE && |blocks| <= SPACE && r.write == Adv(tail, |blocks|)
    && forall k :: 0 <= k < |blocks| ==> Content(r.slots[Adv(tail, k)]) == Content(blocks[k])
  }

  /** The map holds exactly one entry per outstanding transfer. */
  ghost predicate InMap(t: Table, tail: nat, out: seq<Transfer>) {
    |t| == MAP_SIZE && DistinctKeys(t) && Pairs(t) == Entries(tail, out)
  }

  ghost predicate Inv(p: Pipe, tail: nat, out: seq<Transfer>) {
    AllTransfers(out) && InRing(p.ring, tail, Flat(out)) && InMap(p.table, tail, out)
  }

  /** Nothing outstanding, on a ring and a map just set up. */
  function Empty(base: Address): (p: Pipe)
    ensures Inv(p, 0, [])
  {
    var t: Table := seq(MAP_SIZE, _ => Entry(None, 0));
    assert Pairs(t) == {};
    Pipe(P.Fresh(RING_SIZE, base), t)
  }

  // ----- arithmetic of the window -----

  lemma AdvAdd(at: nat, a: nat, b: nat)
    requires at < SPACE && a + b <= SPACE
    ensures Adv(Adv(at, a), b) == Adv(at, a + b)
  {
  }

  lemma AdvDistinct(at: nat, a: nat, b: nat)
    requires at < SPACE && a < b < SPACE
    ensures Adv(at, a) != Adv(at, b)
  {
  }

  lemma {:induction false} FlatSnoc(out: seq<Transfer>, t: Transfer)
    ensures Flat(out + [t]) == Flat(out) + t.trbs
  {
    if out == [] {
      assert (out + [t])[1..] == [];
    } else {
      assert (out + [t])[1..] == out[1..] + [t];
      FlatSnoc(out[1..], t);
    }
  }

  /** Two or three blocks to a transfer: the slots before the link hold at most fifteen transfers and
      never fewer than ten. */
  lemma {:induction false} BlockCount(out: seq<Transfer>)
    requires AllTransfers(out)
    ensures 2 * |out| <= |Flat(out)| <= 3 * |out|
  {
    if out != [] {
      assert AllTransfers(out[1..]);
      Sizes(out[0]);
      BlockCount(out[1..]);
    }
  }

  lemma Sizes(t: Transfer)
    requires IsTransfer(t)
    ensures 2 <= |t.trbs| <= 3
  {
  }

  // ----- entries -----

  lemma {:induction false} EntriesSnoc(at: nat, out: seq<Transfer>, t: Transfer)
    requires at < SPACE && AllTransfers(out) && AllTransfers(out + [t]) && |Flat(out)| <= SPACE
    ensures Entries(at, out + [t]) == Entries(at, out) + {(Adv(Adv(at, |Flat(out)|), 1), Adv(at, |Flat(out)|))}
    decreases |out|
  {
    hide Adv, IsTransfer, Entries, AllTransfers, Flat;
    var both := out + [t];
    EntriesCons(at, both);
    if out == [] {
      assert both[1..] == [] && both[0] == t;
      AdvZero(at);
      NoEntries(at);
      NoEntries(Adv(at, |t.trbs|));
      assert Entries(at, out) == {} && Flat(out) == [];
    } else {
      var n := |out[0].trbs|;
      assert both[1..] == out[1..] + [t] && both[0] == out[0];
      EntriesCons(at, out);
      EntriesSnoc(Adv(at, n), out[1..], t);
      AdvAdd(at, n, |Flat(out[1..])|);
    }
  }

  lemma NoEntries(at: nat)
    ensures Entries(at, []) == {} && Flat([]) == []
  {
  }

  lemma EntriesCons(at: nat, out: seq<Transfer>)
    requires at < SPACE && out != [] && AllTransfers(out)
    ensures 2 <= |out[0].trbs| <= 3 && AllTransfers(out[1..]) && Flat(out) == out[0].trbs + Flat(out[1..])
    ensures Entries(at, out) == {(Adv(at, 1), at)} + Entries(Adv(at, |out[0].trbs|), out[1..])
  {
    hide IsTransfer, Adv;
    Sizes(out[0]);
  }

  lemma AdvZero(at: nat)
    requires at < SPACE
    ensures Adv(at, 0) == at
  {
  }

  /** Every key is a slot inside the window, after its first. */
  lemma {:induction false} KeysInWindow(at: nat, out: seq<Transfer>, e: (int, int)) returns (b: nat)
    requires at < SPACE && AllTransfers(out) && |Flat(out)| <= SPACE && e in Entries(at, out)
    ensures 1 <= b < |Flat(out)| && e.0 == Adv(at, b)
    decreases |out|
  {
    hide Adv, IsTransfer;
    var n := |out[0].trbs|;
    Sizes(out[0]);
    b := 1;
    if e != (Adv(at, 1), at) {
      assert AllTransfers(out[1..]);
      b := KeysInWindow(Adv(at, n), out[1..], e);
      AdvAdd(at, n, b);
      b := n + b;
    }
  }

  lemma {:induction false} EntriesAreFew(at: nat, out: seq<Transfer>)
    ensures |Entries(at, out)| <= |out|
    decreases |out|
  {
    if !(out == [] || at >= SPACE || |out[0].trbs| > SPACE) {
      EntriesAreFew(Adv(at, |out[0].trbs|), out[1..]);
    }
  }

  // ----- pushing -----

  /** The slots written by n pushes from `at`. */
  ghost predicate Written(at: nat, n: nat, i: int) { exists k :: 0 <= k < n && i == Adv(at, k) }

  lemma PushOne(r: P.Ring, data: Trb)
    requires RingUsable(r)
    ensures var q := P.AfterPush(r, data);
      && q.write == Adv(r.write, 1) && Content(q.slots[r.write]) == Content(data)
      && (forall i :: 0 <= i < SPACE && i != r.write ==> q.slots[i] == r.slots[i])
  {
    hide Content, WithCycle;
    ContentIgnoresCycle(data, r.pcs);
  }

  lemma {:induction false} PushAllEffect(r: P.Ring, trbs: seq<Trb>)
    requires RingUsable(r) && |trbs| <= SPACE
    ensures PushAll(r, trbs).write == Adv(r.write, |trbs|)
    ensures forall k :: 0 <= k < |trbs| ==> Content(PushAll(r, trbs).slots[Adv(r.write, k)]) == Content(trbs[k])
    ensures forall i :: 0 <= i < SPACE && !Written(r.write, |trbs|, i) ==> PushAll(r, trbs).slots[i] == r.slots[i]
  {
    hide Content, WithCycle, P.AfterPush, Adv;
    if trbs == [] {
      AdvZero(r.write);
    } else {
      var n := |trbs| - 1;
      var m := PushAll(r, trbs[..n]);
      PushAllEffect(r, trbs[..n]);
      PushOne(m, trbs[n]);
      AdvAdd(r.write, n, 1);
      var q := PushAll(r, trbs);
      forall k | 0 <= k < |trbs| ensures Content(q.slots[Adv(r.write, k)]) == Content(trbs[k]) {
        if k < n {
          AdvDistinct(r.write, k, n);
          assert trbs[..n][k] == trbs[k];
        }
      }
      forall i | 0 <= i < SPACE && !Written(r.write, |trbs|, i) ensures q.slots[i] == r.slots[i] {
        assert i != Adv(r.write, n);
        assert !Written(r.write, n, i);
      }
    }
  }

  /** From slot `at` on memory holds the stages of a transfer. */
  predicate StagesAt(slots: seq<Trb>, at: nat, s: SetupData, buf: Option<Buffer>, dirIn: bool)
    requires |slots| == RING_SIZE && at < SPACE
  {
    AreStages([slots[at], slots[Adv(at, 1)]] + (if buf.Some? then [slots[Adv(at, 2)]] else []), s, buf, dirIn)
  }

  /** Whatever the cycle bits, pushed stages are in memory one after another. */
  lemma PushedStages(r: P.Ring, trbs: seq<Trb>, s: SetupData, buf: Option<Buffer>, dirIn: bool)
    requires RingUsable(r) && AreStages(trbs, s, buf, dirIn)
    ensures StagesAt(PushAll(r, trbs).slots, r.write, s, buf, dirIn)
  {
    hide Content, PushAll, Adv, IsSetupStage, IsDataStage, IsStatusStage;
    PushAllEffect(r, trbs);
    AdvZero(r.write);
    var slots := PushAll(r, trbs).slots;
    SameStage(slots[r.write], trbs[0]);
    SameStage(slots[Adv(r.write, 1)], trbs[1]);
    if buf.Some? { SameStage(slots[Adv(r.write, 2)], trbs[2]); }
  }

  lemma SameStage(a: Trb, b: Trb)
    requires Content(a) == Content(b)
    ensures forall s, n :: IsSetupStage(b, s, n) ==> IsSetupStage(a, s, n)
    ensures forall buf, dirIn :: IsDataStage(b, buf, dirIn) ==> IsDataStage(a, buf, dirIn)
    ensures forall dirIn, reported :: IsStatusStage(b, dirIn, reported) ==> IsStatusStage(a, dirIn, reported)
  {
    hide Content, TypeOf, Interrupts, Immediate, DirectionIn, TransferTypeOf, Unchained;
    FieldsIgnoreCycle(a, b);
  }

  // ----- issuing -----

  /** Blocks that fit go behind the window and harm nothing in it. */
  lemma PushInRing(r: P.Ring, tail: nat, blocks: seq<Trb>, trbs: seq<Trb>)
    requires InRing(r, tail, blocks) && |blocks| + |trbs| <= SPACE
    ensures InRing(PushAll(r, trbs), tail, blocks + trbs)
  {
    hide Content, PushAll, Adv;
    var q, n := PushAll(r, trbs), |blocks|;
    PushAllEffect(r, trbs);
    AdvAdd(tail, n, |trbs|);
    forall k | 0 <= k < n + |trbs| ensures Content(q.slots[Adv(tail, k)]) == Content((blocks + trbs)[k]) {
      if k < n {
        if Written(r.write, |trbs|, Adv(tail, k)) {
          var i :| 0 <= i < |trbs| && Adv(tail, k) == Adv(r.write, i);
          AdvAdd(tail, n, i);
          AdvDistinct(tail, k, n + i);
          assert false;
        }
      } else {
        AdvAdd(tail, n, k - n);
      }
    }
  }

  lemma KeyIsFresh(tail: nat, out: seq<Transfer>, t: Table, key: int)
    requires tail < SPACE && AllTransfers(out) && |Flat(out)| + 2 <= SPACE && Pairs(t) == Entries(tail, out)
    requires key == Adv(tail, |Flat(out)| + 1)
    ensures Lookup(t, key) == None
  {
    hide Adv, Entries, AllTransfers;
    var i := Find(t, key, 0);
    if i < |t| {
      assert (t[i].key.value, t[i].value) in Pairs(t);
      var b := KeysInWindow(tail, out, (key, t[i].value));
      AdvDistinct(tail, b, |Flat(out)| + 1);
      assert false;
    }
  }

  /** The map gains exactly the new transfer's entry. */
  lemma MapAdds(table: Table, tail: nat, out: seq<Transfer>, t: Transfer, at: nat)
    requires InMap(table, tail, out) && tail < SPACE && AllTransfers(out) && IsTransfer(t)
    requires |Flat(out)| + |t.trbs| <= SPACE && at == Adv(tail, |Flat(out)|)
    ensures InMap(Insert(table, Adv(at, 1), at), tail, out + [t])
  {
    hide Insert, Adv, Pairs, Entries, Flat, FindFree, IsTransfer, Lookup;
    Sizes(t);
    assert AllTransfers(out + [t]);
    EntriesSnoc(tail, out, t);
    AdvAdd(tail, |Flat(out)|, 1);
    KeyIsFresh(tail, out, table, Adv(at, 1));
    BlockCount(out);
    EntriesAreFew(tail, out);
    SomeFree(table);
    InsertAdds(table, Adv(at, 1), at);
  }

  /** Issuing a transfer that fits adds exactly its own entry to the map and harms no other. */
  lemma IssueInv(p: Pipe, tail: nat, out: seq<Transfer>, t: Transfer)
    requires Inv(p, tail, out) && IsTransfer(t) && |Flat(out)| + |t.trbs| <= SPACE
    ensures Inv(Issue(p, t.trbs), tail, out + [t])
  {
    hide Content, PushAll, Insert, Adv, Pairs, Entries, Flat, IsTransfer;
    FlatSnoc(out, t);
    PushInRing(p.ring, tail, Flat(out), t.trbs);
    MapAdds(p.table, tail, out, t, p.ring.write);
  }

  // ----- completing -----

  /** The event on the oldest transfer's reported block rebuilds that transfer's request bit for bit,
      tells its buffer and length, and leaves the map and the ring to the others. */
  lemma CompleteInv(p: Pipe, tail: nat, out: seq<Transfer>, residual: nat)
    requires Inv(p, tail, out) && out != []
    ensures Complete(p, Adv(tail, 1), residual).1 == Report(out[0].trbs[0], out[0].trbs[1], residual)
    ensures IsReportOf(Complete(p, Adv(tail, 1), residual).1, out[0], residual)
    ensures Inv(Complete(p, Adv(tail, 1), residual).0, Adv(tail, |out[0].trbs|), out[1..])
  {
    hide Pairs, Find, TypeOf, Content, Lookup, Remove, DistinctKeys, Adv, Rebuild, InRing, Entries, IsTransfer, Report,
      IsReportOf, PointerOf, LengthOf;
    OldestEntry(p, tail, out);
    LookupFinds(p.table, Adv(tail, 1), tail);
    RemoveDrops(p.table, Adv(tail, 1), tail);
    ReportsTransfer(out[0], p.ring.slots[tail], p.ring.slots[Adv(tail, 1)], residual);
    RestInRing(p.ring, tail, out[0].trbs, Flat(out[1..]));
    RestAreTransfers(out);
  }

  /** A transfer is reported from its first two blocks, whatever their cycle bits. */
  lemma ReportsTransfer(t: Transfer, first: Trb, second: Trb, residual: nat)
    requires IsTransfer(t) && |t.trbs| >= 2
    requires Content(first) == Content(t.trbs[0]) && Content(second) == Content(t.trbs[1])
    ensures TypeOf(second.w3) != NORMAL && Report(first, second, residual) == Report(t.trbs[0], t.trbs[1], residual)
    ensures IsReportOf(Report(first, second, residual), t, residual)
  {
    hide TypeOf, CarriesPacket, Interrupts, Immediate, DirectionIn, TransferTypeOf, OnePacket, Unchained, Rebuild,
      Content;
    SameContent(first, t.trbs[0]);
    SameContent(second, t.trbs[1]);
    Kinds(t);
  }

  lemma RestAreTransfers(out: seq<Transfer>)
    requires AllTransfers(out) && out != []
    ensures AllTransfers(out[1..])
  {
  }

  /** The report of a transfer names its own request, its own buffer and what was transferred. */
  ghost predicate IsReportOf(r: Result, t: Transfer, residual: nat) {
    match t.buffer
    case Some(b) => r == Control(t.setup, Some(b.address), b.len % 0x2_0000 - residual)
    case None => r == Control(t.setup, None, 0)
  }

  lemma OldestEntry(p: Pipe, tail: nat, out: seq<Transfer>)
    requires Inv(p, tail, out) && out != []
    ensures tail < SPACE && RingUsable(p.ring) && 2 <= |out[0].trbs| <= 3
    ensures |Flat(out)| == |out[0].trbs| + |Flat(out[1..])|
    ensures (Adv(tail, 1), tail) in Pairs(p.table)
    ensures Entries(tail, out) - {(Adv(tail, 1), tail)} == Entries(Adv(tail, |out[0].trbs|), out[1..])
    ensures Content(p.ring.slots[tail]) == Content(out[0].trbs[0])
    ensures Content(p.ring.slots[Adv(tail, 1)]) == Content(out[0].trbs[1])
  {
    hide Pairs, Content, IsTransfer, Adv;
    Sizes(out[0]);
    OwnEntryIsNew(tail, out);
    AdvZero(tail);
    assert Flat(out)[0] == out[0].trbs[0] && Flat(out)[1] == out[0].trbs[1];
  }

  lemma SameContent(a: Trb, b: Trb)
    requires Content(a) == Content(b)
    ensures Rebuild(a) == Rebuild(b) && TypeOf(a.w3) == TypeOf(b.w3) && a.w0 == b.w0 && a.w1 == b.w1 && a.w2 == b.w2
  {
    hide TypeOf, WithCycle;
    assert TypeOf(Content(a).w3) == TypeOf(a.w3) && TypeOf(Content(b).w3) == TypeOf(b.w3);
  }

  /** Without its oldest blocks the window starts later; every other block stays where it was. */
  lemma RestInRing(r: P.Ring, tail: nat, first: seq<Trb>, rest: seq<Trb>)
    requires InRing(r, tail, first + rest)
    ensures InRing(r, Adv(tail, |first|), rest)
  {
    hide Content, Adv;
    var n := |first|;
    AdvAdd(tail, n, |rest|);
    forall k | 0 <= k < |rest| ensures Content(r.slots[Adv(Adv(tail, n), k)]) == Content(rest[k]) {
      AdvAdd(tail, n, k);
      assert rest[k] == (first + rest)[n + k];
    }
  }

  // ----- too many at once -----

  /** The first transfer that does not fit overwrites the oldest setup block with one of its own, so
      the next report is right exactly if that block happens to read as the oldest request. */
  lemma {:induction false} Overrun(p: Pipe, tail: nat, out: seq<Transfer>, t: Transfer, residual: nat)
    requires Inv(p, tail, out) && out != [] && IsTransfer(t)
    requires |Flat(out)| <= SPACE < |Flat(out)| + |t.trbs|
    ensures var r := Complete(Issue(p, t.trbs), Adv(tail, 1), residual).1;
      r.Control? && (r.setup == out[0].setup <==> Rebuild(t.trbs[SPACE - |Flat(out)|]) == out[0].setup)
  {
    hide Pairs, Find, TypeOf, Content, PushAll, Insert, Lookup, Remove, Adv, Entries, Flat, DistinctKeys, Rebuild,
      IsTransfer, PointerOf, LengthOf;
    Kinds(t);
    Kinds(out[0]);
    var n, q := |Flat(out)|, Issue(p, t.trbs);
    OldestEntry(p, tail, out);
    LookupFinds(p.table, Adv(tail, 1), tail);
    Wraps(tail, n);
    InsertKeeps(p.table, Adv(p.ring.write, 1), p.ring.write, Adv(tail, 1), tail);
    PushAllEffect(p.ring, t.trbs);
    SameContent(q.ring.slots[tail], t.trbs[SPACE - n]);
    if SPACE - n + 1 < |t.trbs| {
      SameContent(q.ring.slots[Adv(tail, 1)], t.trbs[SPACE - n + 1]);
    } else {
      BeyondWrites(tail, n, |t.trbs|);
      SameContent(q.ring.slots[Adv(tail, 1)], out[0].trbs[1]);
    }
  }

  ghost function IssueAll(p: Pipe, ts: seq<Transfer>): Pipe
    requires RingUsable(p.ring)
    decreases |ts|
  {
    if ts == [] then p else IssueAll(Issue(p, ts[0].trbs), ts[1..])
  }

  lemma {:induction false} IssueAllInv(p: Pipe, tail: nat, out: seq<Transfer>, ts: seq<Transfer>)
    requires Inv(p, tail, out) && AllTransfers(ts) && |Flat(out)| + |Flat(ts)| <= SPACE
    ensures RingUsable(p.ring) && Inv(IssueAll(p, ts), tail, out + ts)
    decreases |ts|
  {
    hide Inv, IsTransfer, Issue;
    assert RingUsable(p.ring) by { InvUsable(p, tail, out); }
    if ts == [] {
      assert out + ts == out;
    } else {
      IssueInv(p, tail, out, ts[0]);
      FlatSnoc(out, ts[0]);
      RestAreTransfers(ts);
      IssueAllInv(Issue(p, ts[0].trbs), tail, out + [ts[0]], ts[1..]);
      assert out + [ts[0]] + ts[1..] == out + ts;
    }
  }

  lemma InvUsable(p: Pipe, tail: nat, out: seq<Transfer>)
    requires Inv(p, tail, out)
    ensures RingUsable(p.ring)
  {
  }

  /** Reading a device descriptor into a buffer at address zero, eleven times without an answer. */
  const SOME_REQUEST := SetupData(0x80, 6, 0x100, 0, 18)

  const SOME_BUFFER := Some(Buffer(0, 18))

  function SomeTransfer(): Transfer { Transfer(SOME_REQUEST, SOME_BUFFER, ControlInTrbs(SOME_REQUEST, SOME_BUFFER)) }

  lemma SomeIsTransfer()
    ensures IsTransfer(SomeTransfer()) && |SomeTransfer().trbs| == 3 && SomeTransfer().setup == SOME_REQUEST
    ensures Rebuild(SomeTransfer().trbs[1]) != SOME_REQUEST
  {
    hide IsTransfer, AreStages, SetupTrb, StatusTrb, Rebuild, DataTrb, IsSetupStage, IsStatusStage, IsDataStage;
    BothAreTransfers(SOME_REQUEST, SOME_BUFFER);
    ZeroRequest(SOME_BUFFER.value, true);
    assert SomeTransfer().trbs[1] == DataTrb(SOME_BUFFER.value, true);
  }

  /** The data block of a buffer at address zero reads as a request whose type is zero. */
  lemma ZeroRequest(b: Buffer, dirIn: bool)
    requires b.address == 0
    ensures Rebuild(DataTrb(b, dirIn)).requestType == 0
  {
    hide TypeOf, IsDataStage;
  }

  /** Then the first answer is taken for one to another request. */
  lemma EleventhOverwrites(base: Address, residual: nat)
    ensures var p := IssueAll(Empty(base), seq(10, _ => SomeTransfer()));
      && RingUsable(p.ring)
      && var r := Complete(Issue(p, SomeTransfer().trbs), 1, residual).1; r.Control? && r.setup != SOME_REQUEST
  {
    hide Inv, IsTransfer, IssueAll, TypeOf, Complete, Issue, SomeTransfer, Rebuild;
    var t, ts := SomeTransfer(), seq(10, _ => SomeTransfer());
    SomeIsTransfer();
    var p := IssueAll(Empty(base), ts);
    ThirtyBlocks(t);
    assert Flat([]) == [] && [] + ts == ts;
    IssueAllInv(Empty(base), 0, [], ts);
    InvUsable(p, 0, ts);
    Overrun(p, 0, ts, t, residual);
  }

  lemma ThirtyBlocks(t: Transfer)
    requires |t.trbs| == 3
    ensures |Flat(seq(10, _ => t))| == 30
  {
    ManyBlocks(t, 10);
  }

  lemma {:induction false} ManyBlocks(t: Transfer, n: nat)
    ensures |Flat(seq(n, _ => t))| == n * |t.trbs|
  {
    if n > 0 {
      var k := |t.trbs|;
      assert seq(n, _ => t)[1..] == seq(n - 1, _ => t);
      ManyBlocks(t, n - 1);
      assert (n - 1) * k + k == n * k;
    }
  }

  lemma Wraps(tail: nat, n: nat)
    requires tail < SPACE && 1 <= n <= SPACE
    ensures Adv(Adv(tail, n), SPACE - n) == tail && Adv(Adv(tail, n), SPACE - n + 1) == Adv(tail, 1)
    ensures Adv(Adv(tail, n), 1) == Adv(tail, 1) ==> Adv(tail, n) == tail
  {
  }

  lemma BeyondWrites(tail: nat, n: nat, m: nat)
    requires tail < SPACE && 2 <= n <= SPACE && SPACE - n + 1 >= m
    ensures !Written(Adv(tail, n), m, Adv(tail, 1))
  {
  }

  // ----- counting entries -----

  lemma {:induction false} EntriesPerTransfer(at: nat, out: seq<Transfer>)
    requires at < SPACE && AllTransfers(out) && |Flat(out)| <= SPACE
    ensures |Entries(at, out)| == |out|
    decreases |out|
  {
    hide Adv, IsTransfer;
    if out != [] {
      Sizes(out[0]);
      RestAreTransfers(out);
      OwnEntryIsNew(at, out);
      EntriesPerTransfer(Adv(at, |out[0].trbs|), out[1..]);
    }
  }

  lemma OwnEntryIsNew(tail: nat, out: seq<Transfer>)
    requires tail < SPACE && AllTransfers(out) && |Flat(out)| <= SPACE && out != []
    ensures (Adv(tail, 1), tail) !in Entries(Adv(tail, |out[0].trbs|), out[1..])
  {
    hide Adv, IsTransfer;
    Sizes(out[0]);
    RestAreTransfers(out);
    var n, rest := |out[0].trbs|, out[1..];
    if (Adv(tail, 1), tail) in Entries(Adv(tail, n), rest) {
      var b := KeysInWindow(Adv(tail, n), rest, (Adv(tail, 1), tail));
      AdvAdd(tail, n, b);
      AdvDistinct(tail, 1, n + b);
      assert false;
    }
  }
}
