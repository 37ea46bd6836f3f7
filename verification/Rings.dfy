/**
 * kernel/usb/xhci/ring.cpp as the driver runs it: the two ring objects, each method proved to be
 * the producer's or the consumer's part of the shared-memory protocol.
 */
module Rings {
  import opened Trbs
  import P = RingProtocol
  import E = EventRingProtocol

  /** A command or transfer ring in memory. */
  class Ring {
    var buf: array<Trb>
    var size: nat
    var cycle: bool
    var writeIndex: nat
    const base: Address                  // of buf

    ghost predicate Valid()
      reads this
    {
      size >= 2 && buf.Length == size && writeIndex < size - 1
    }

    /** The object is the driver's side of the protocol state r, between two pushes. */
    ghost predicate Matches(r: P.Ring)
      reads this, buf
    {
      r.slots == buf[..] && r.base == base && r.write == writeIndex && r.pcs == cycle && r.producer == P.Idle
    }

    /** Ring::Initialize, given memory. */
    constructor (n: nat, base: Address)
      requires n >= 2
      ensures Valid() && size == n && fresh(buf) && Matches(P.Fresh(n, base))
    {
      this.base := base;
      cycle, writeIndex, size := true, 0, n;
      buf := new Trb[n](_ => ZERO_TRB);
      new;
      assert buf[..] == P.Fresh(n, base).slots;
    }

    /** CopyToLast: the control word is written last and carries the producer's cycle state. */
    method CopyToLast(data: Trb)
      requires size == buf.Length && writeIndex < size
      modifies buf
      ensures buf[..] == old(buf[..])[writeIndex := data.(w3 := WithCycle(data.w3, cycle))]
    {
      buf[writeIndex] := buf[writeIndex].(w0 := data.w0);
      buf[writeIndex] := buf[writeIndex].(w1 := data.w1);
      buf[writeIndex] := buf[writeIndex].(w2 := data.w2);
      buf[writeIndex] := buf[writeIndex].(w3 := WithCycle(data.w3, cycle));
    }

    /** Push: returns the slot of the block, and is the protocol's push from any matching state. */
    method Push(data: Trb) returns (position: nat)
      requires Valid()
      modifies this, buf
      ensures Valid() && buf == old(buf) && size == old(size) && position == old(writeIndex)
      ensures forall r: P.Ring :: old(Matches(r)) ==> Matches(P.AfterPush(r, data))
    {
      hide WithCycle;
      position := writeIndex;
      CopyToLast(data);
      writeIndex := writeIndex + 1;
      if writeIndex == size - 1 {
        CopyToLast(LinkTrb(base));
        writeIndex := 0;
        cycle := !cycle;
      }
    }
  }

  /** The event ring; `erdp` is the dequeue pointer register as a slot index. */
  class EventRing {
    var buf: array<Trb>
    var cycle: bool
    var erdp: nat

    ghost predicate Matches(r: E.EventRing)
      reads this, buf
    {
      r.slots == buf[..] && r.dequeue == erdp && r.ccs == cycle
    }

    constructor (n: nat)
      ensures buf.Length == n && fresh(buf) && Matches(E.Fresh(n))
    {
      cycle, erdp := true, 0;
      buf := new Trb[n](_ => ZERO_TRB);
      new;
      assert buf[..] == E.Fresh(n).slots;
    }

    function Front(): Trb
      requires erdp < buf.Length
      reads this, buf
    {
      buf[erdp]
    }

    /** HasFront holds exactly when some event is unconsumed, and then Front is the oldest one. */
    predicate HasFront()
      requires erdp < buf.Length
      reads this, buf
      ensures forall r: E.EventRing :: Matches(r) && E.Inv(r) ==>
        (HasFront() <==> r.Pending() != []) && (HasFront() ==> Content(Front()) == r.Pending()[0])
    {
      assert forall r: E.EventRing :: Matches(r) && E.Inv(r) ==>
        (r.HasFront() <==> r.Pending() != []) && (r.HasFront() ==> Content(Front()) == r.Pending()[0])
      by {
        forall r: E.EventRing | Matches(r) && E.Inv(r)
          ensures (r.HasFront() <==> r.Pending() != []) && (r.HasFront() ==> Content(Front()) == r.Pending()[0])
        {
          E.FrontIsOldest(r);
        }
      }
      CycleOf(Front().w3) == cycle
    }

    /** Pop drops exactly the oldest event. */
    method Pop()
      requires erdp < buf.Length
      modifies this
      ensures buf == old(buf) && erdp < buf.Length
      ensures forall r: E.EventRing :: old(Matches(r)) && E.Inv(r) && r.HasFront() ==>
        Matches(E.DoPop(r)) && E.DoPop(r).Pending() == r.Pending()[1..]
    {
      var p := erdp + 1;
      if p == buf.Length {
        p := 0;
        cycle := !cycle;
      }
      erdp := p;
      forall r: E.EventRing | old(Matches(r)) && E.Inv(r) && r.HasFront()
        ensures Matches(E.DoPop(r)) && E.DoPop(r).Pending() == r.Pending()[1..]
      {
        E.PopInv(r);
      }
    }
  }
}
