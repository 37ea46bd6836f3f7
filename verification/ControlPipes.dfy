/** kernel/usb/xhci/device.cpp as the driver runs it: the default pipe's ring and the setup map. */
module ControlPipes {
  import opened Options
  import opened Trbs
  import opened ArrayMaps
  import opened Rings
  import opened ControlTransfers
  import P = RingProtocol

  lemma PushAllSnoc(r: P.Ring, trbs: seq<Trb>, t: Trb)
    requires RingUsable(r)
    ensures PushAll(r, trbs + [t]) == P.AfterPush(PushAll(r, trbs), t)
  {
    hide P.AfterPush;
    var all := trbs + [t];
    assert all[..|all| - 1] == trbs && all[|all| - 1] == t;
  }

  lemma PushAllNone(r: P.Ring)
    requires RingUsable(r)
    ensures PushAll(r, []) == r
  {
  }

  lemma PushAllTwo(r: P.Ring, a: Trb, b: Trb)
    requires RingUsable(r)
    ensures RingUsable(P.AfterPush(r, a)) && P.AfterPush(r, a).write == Adv(r.write, 1)
    ensures PushAll(r, [a, b]) == P.AfterPush(P.AfterPush(r, a), b)
  {
    hide PushAll, P.AfterPush;
    PushAllNone(r);
    PushAllSnoc(r, [], a);
    PushAllSnoc(r, [a], b);
    assert [] + [a] == [a] && [a] + [b] == [a, b];
    PushOne(r, a);
  }

  lemma PushAllThree(r: P.Ring, a: Trb, b: Trb, c: Trb)
    requires RingUsable(r)
    ensures PushAll(r, [a, b, c]) == P.AfterPush(PushAll(r, [a, b]), c)
  {
    hide PushAll, P.AfterPush;
    PushAllSnoc(r, [a, b], c);
    assert [a, b] + [c] == [a, b, c];
  }

  method PushBlocks(ring: Ring, setup: Trb, reported: Trb, status: Option<Trb>, ghost r: P.Ring)
    returns (at: nat, key: nat)
    requires ring.Valid() && ring.size == RING_SIZE && ring.Matches(r)
    modifies ring, ring.buf
    ensures ring.Valid() && ring.size == RING_SIZE && ring.buf == old(ring.buf) && RingUsable(r)
    ensures at == r.write && key == Adv(r.write, 1)
    ensures ring.Matches(PushAll(r, if status.Some? then [setup, reported, status.value] else [setup, reported]))
  {
    hide PushAll, P.AfterPush, Adv;
    PushAllTwo(r, setup, reported);
    at := ring.Push(setup);
    ghost var r1 := P.AfterPush(r, setup);
    assert ring.Matches(r1);
    key := ring.Push(reported);
    ghost var r2 := P.AfterPush(r1, reported);
    assert ring.Matches(r2);
    if status.Some? {
      PushAllThree(r, setup, reported, status.value);
      var _ := ring.Push(status.value);
      assert ring.Matches(P.AfterPush(r2, status.value));
    }
  }

  ghost predicate SlotsOnly(t: Table) {
    forall i :: 0 <= i < |t| && t[i].key.Some? ==> 0 <= t[i].value < RING_SIZE
  }

  lemma SlotsOnlyKept(t: Table, key: int, value: int)
    requires SlotsOnly(t)
    ensures 0 <= value < RING_SIZE ==> SlotsOnly(Insert(t, key, value))
    ensures SlotsOnly(Remove(t, key))
    ensures Lookup(t, key).Some? ==> 0 <= Lookup(t, key).value < RING_SIZE
  {
  }

  class ControlPipe {
    var ring: Ring?
    const setups: ArrayMap<int, int>

    /** The map's values are slots of the ring. */
    ghost predicate Valid()
      reads this, ring, setups.table
    {
      && (ring != null ==> ring.Valid() && ring.size == RING_SIZE)
      && SlotsOnly(setups.table[..])
    }

    /** The ring and the map are those of the abstract pipe. */
    ghost predicate Matches(p: Pipe)
      reads this, ring, if ring == null then {} else {ring.buf}, setups.table
    {
      ring != null && Valid() && ring.Matches(p.ring) && setups.table[..] == p.table
    }

    constructor (ring: Ring?)
      requires ring != null ==> ring.Valid() && ring.size == RING_SIZE
      ensures Valid() && this.ring == ring && fresh(setups.table)
      ensures ring != null && ring.Matches(P.Fresh(RING_SIZE, ring.base)) ==>
        Matches(Empty(ring.base))
    {
      this.ring := ring;
      setups := new ArrayMap<int, int>(MAP_SIZE, 0);
    }

    /** Push a setup block, the block that will be reported and the rest; record the pair. */
    method PushTransfer(setup: Trb, reported: Trb, status: Option<Trb>, ghost p: Pipe)
      requires Matches(p)
      modifies ring, ring.buf, setups.table
      ensures Matches(Issue(p, if status.Some? then [setup, reported, status.value] else [setup, reported]))
      ensures ring.buf == old(ring.buf)
    {
      hide Insert, PushAll, P.AfterPush, Adv, SlotsOnly;
      var at, key := PushBlocks(ring, setup, reported, status, p.ring);
      SlotsOnlyKept(p.table, key, at);
      setups.Put(key, at);
    }

    /** A setup block, a data block that is reported and a status block; without a buffer a setup
        block and a status block that is reported. Nothing is pushed on an error. */
    method ControlIn(endpoint: int, setup: SetupData, buf: Option<Buffer>, ghost p: Pipe) returns (r: Result)
      requires setup.Valid() && Valid() && (ring != null ==> Matches(p))
      modifies ring, if ring == null then {} else {ring.buf}, setups.table
      ensures r == if endpoint < 0 || 15 < endpoint then BadEndpoint else if ring == null then RingNotSet else Issued
      ensures Valid() && (ring != null ==> Matches(if r == Issued then Issue(p, ControlInTrbs(setup, buf)) else p))
      ensures r == Issued ==> StagesAt(ring.buf[..], old(ring.writeIndex), setup, buf, true)
    {
      hide Issue, SetupTrb, DataTrb, StatusTrb, StagesAt;
      if endpoint < 0 || 15 < endpoint { return BadEndpoint; }
      if ring == null { return RingNotSet; }
      match buf {
      case Some(b) =>
        PushTransfer(SetupTrb(setup, 3), DataTrb(b, true), Some(StatusTrb(false, false)), p);
      case None => PushTransfer(SetupTrb(setup, 0), StatusTrb(true, true), None, p);
      }
      Pushed(p, ControlInTrbs(setup, buf), setup, buf, true);
      return Issued;
    }

    method ControlOut(endpoint: int, setup: SetupData, buf: Option<Buffer>, ghost p: Pipe) returns (r: Result)
      requires setup.Valid() && Valid() && (ring != null ==> Matches(p))
      modifies ring, if ring == null then {} else {ring.buf}, setups.table
      ensures r == if endpoint < 0 || 15 < endpoint then BadEndpoint else if ring == null then RingNotSet else Issued
      ensures Valid() && (ring != null ==> Matches(if r == Issued then Issue(p, ControlOutTrbs(setup, buf)) else p))
      ensures r == Issued ==> StagesAt(ring.buf[..], old(ring.writeIndex), setup, buf, false)
    {
      hide Issue, SetupTrb, DataTrb, StatusTrb, StagesAt;
      if endpoint < 0 || 15 < endpoint { return BadEndpoint; }
      if ring == null { return RingNotSet; }
      match buf {
      case Some(b) =>
        PushTransfer(SetupTrb(setup, 2), DataTrb(b, false), Some(StatusTrb(true, false)), p);
      case None => PushTransfer(SetupTrb(setup, 0), StatusTrb(true, true), None, p);
      }
      Pushed(p, ControlOutTrbs(setup, buf), setup, buf, false);
      return Issued;
    }

    /** After the pushes the stages are in memory. */
    lemma Pushed(p: Pipe, trbs: seq<Trb>, setup: SetupData, buf: Option<Buffer>, dirIn: bool)
      requires RingUsable(p.ring) && setup.Valid() && Matches(Issue(p, trbs))
      requires trbs == if dirIn then ControlInTrbs(setup, buf) else ControlOutTrbs(setup, buf)
      ensures |ring.buf[..]| == RING_SIZE && StagesAt(ring.buf[..], p.ring.write, setup, buf, dirIn)
    {
      hide StagesAt, PushAll, ControlInTrbs, ControlOutTrbs, AreStages;
      BothAreTransfers(setup, buf);
      PushedStages(p.ring, trbs, setup, buf, dirIn);
    }

    /** A failed event changes nothing; a successful one is the abstract completion of its block. */
    method OnTransferEvent(code: nat, issuer: nat, residual: nat, ghost p: Pipe) returns (r: Result)
      requires Matches(p) && issuer < RING_SIZE
      modifies setups.table
      ensures code != 1 && code != 13 ==> r == TransferFailed && Matches(p)
      ensures code == 1 || code == 13 ==>
        Complete(p, issuer, residual).1 == r && Matches(Complete(p, issuer, residual).0)
    {
      hide Report, Lookup, Remove, TypeOf, Rebuild, SlotsOnly;
      if code != 1 && code != 13 { return TransferFailed; }
      var t := ring.buf[issuer];
      assert t == p.ring.slots[issuer];
      if TypeOf(t.w3) == NORMAL { return Interrupt(PointerOf(t), LengthOf(t) - residual); }
      var at := setups.Get(issuer);
      if at == None { return NoSetupStage; }
      setups.Delete(issuer);
      SlotsOnlyKept(p.table, issuer, 0);
      var setup := ring.buf[at.value];
      assert setup == p.ring.slots[at.value];
      r := Report(setup, t, residual);
    }
  }
}
