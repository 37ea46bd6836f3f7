/** Transfer request blocks as four 32-bit words (kernel/usb/interface/usb/xhci/trb.hpp). */
module Trbs {
  import opened Arithmetic

  /** A 32-bit word; bit fields are written as divisions by powers of two. */
  type Word = w: nat | w < 0x1_0000_0000

  datatype Trb = Trb(w0: Word, w1: Word, w2: Word, w3: Word)

  const ZERO_TRB := Trb(0, 0, 0, 0)

  /** Bit 0 of the control word. */
  function CycleOf(w3: Word): bool { w3 % 2 == 1 }

  /** Bit 1 of a link's control word. */
  function Toggles(w3: Word): bool { w3 / 2 % 2 == 1 }

  /** Bits 10 to 15 of the control word. */
  function TypeOf(w3: Word): Word { w3 / 0x400 % 0x40 }

  /** (w3 & 0xfffffffe) | cycle: the control word as Ring::CopyToLast stores it. */
  function WithCycle(w3: Word, c: bool): (r: Word)
    ensures CycleOf(r) == c && TypeOf(r) == TypeOf(w3) && Toggles(r) == Toggles(w3)
  {
    LowBit(w3, if c then 1 else 0);
    w3 - w3 % 2 + (if c then 1 else 0)
  }

  /** Another lowest bit changes neither the other bit fields nor the width. */
  lemma LowBit(w: nat, b: nat)
    requires b < 2
    ensures (w - w % 2 + b) % 2 == b && (w - w % 2 + b) / 2 == w / 2
    ensures (w - w % 2 + b) / 0x400 == w / 0x400
    ensures w < 0x1_0000_0000 ==> w - w % 2 + b < 0x1_0000_0000
  {
    DivMod(w, 2);
    HalfThenDivide(w / 2, b);
    HalfThenDivide(w / 2, w % 2);
  }

  lemma HalfThenDivide(h: nat, b: nat)
    requires b < 2
    ensures (2 * h + b) / 0x400 == h / 0x200 && (2 * h + b) % 2 == b && (2 * h + b) / 2 == h
  {
    DivUnique(2 * h + b, 2, h, b);
    DivMod(h, 0x200);
    DivUnique(2 * h + b, 0x400, h / 0x200, 2 * (h % 0x200) + b);
  }

  /** A block without its cycle bit: what the producer means and the consumer acts on. */
  function Content(t: Trb): (r: Trb)
    ensures TypeOf(r.w3) == TypeOf(t.w3)
  {
    t.(w3 := WithCycle(t.w3, false))
  }

  lemma ContentIgnoresCycle(t: Trb, c: bool)
    ensures Content(t.(w3 := WithCycle(t.w3, c))) == Content(t)
  {
    LowBit(t.w3, if c then 1 else 0);
  }

  /** Word k (0, 1 or 2) of a block copied from another. */
  function SetWord(t: Trb, k: nat, from: Trb): Trb {
    if k == 0 then t.(w0 := from.w0) else if k == 1 then t.(w1 := from.w1) else t.(w2 := from.w2)
  }

  const NORMAL: Word := 1
  const SETUP_STAGE: Word := 2
  const DATA_STAGE: Word := 3
  const STATUS_STAGE: Word := 4
  const LINK: Word := 6
  const ENABLE_SLOT: Word := 9
  const ADDRESS_DEVICE: Word := 11
  const CONFIGURE_ENDPOINT: Word := 12

  // ----- fields of transfer blocks (sections 6.4.1.2.1 to 6.4.1.2.3 of the xHCI specification) -----

  function PointerOf(t: Trb): nat { t.w0 + 0x1_0000_0000 * t.w1 }

  function LengthOf(t: Trb): nat { t.w2 % 0x2_0000 }

  /** No remaining packets and the first interrupter. */
  predicate OnePacket(t: Trb) { t.w2 / 0x2_0000 == 0 }

  /** Evaluate-next, short-packet, no-snoop and chain bits are clear. */
  predicate Unchained(t: Trb) { t.w3 / 2 % 16 == 0 }

  predicate Interrupts(t: Trb) { t.w3 / 0x20 % 2 == 1 }

  predicate Immediate(t: Trb) { t.w3 / 0x40 % 2 == 1 }

  predicate DirectionIn(t: Trb) { t.w3 / 0x1_0000 % 2 == 1 }

  function TransferTypeOf(t: Trb): nat { t.w3 / 0x1_0000 % 4 }

  /** The slot an address or configuration command is for: bits 24 to 31 (sections 6.4.3.4 and 6.4.3.5). */
  function SlotIdOf(t: Trb): nat { t.w3 / 0x100_0000 }

  /** A word as the four bytes it has in memory. */
  function WordBytes(w: Word): seq<nat> { [w % 0x100, w / 0x100 % 0x100, w / 0x1_0000 % 0x100, w / 0x100_0000] }

  /** The cycle bit is in no other field. */
  lemma FieldsIgnoreCycle(a: Trb, b: Trb)
    requires Content(a) == Content(b)
    ensures a.w0 == b.w0 && a.w1 == b.w1 && a.w2 == b.w2 && TypeOf(a.w3) == TypeOf(b.w3)
    ensures Unchained(a) == Unchained(b) && Interrupts(a) == Interrupts(b) && Immediate(a) == Immediate(b)
    ensures DirectionIn(a) == DirectionIn(b) && TransferTypeOf(a) == TransferTypeOf(b) && SlotIdOf(a) == SlotIdOf(b)
  {
    assert a.w3 / 2 == b.w3 / 2 by {
      LowBit(a.w3, 0);
      LowBit(b.w3, 0);
    }
    HalfDecides(a.w3, 0x20);
    HalfDecides(b.w3, 0x20);
    HalfDecides(a.w3, 0x40);
    HalfDecides(b.w3, 0x40);
    HalfDecides(a.w3, 0x400);
    HalfDecides(b.w3, 0x400);
    HalfDecides(a.w3, 0x100_0000);
    HalfDecides(b.w3, 0x100_0000);
    HalfDecides(a.w3, 0x1_0000);
    HalfDecides(b.w3, 0x1_0000);
  }

  lemma HalfDecides(w: nat, n: nat)
    requires n >= 2 && n % 2 == 0
    ensures w / n == (w / 2) / (n / 2)
  {
    var h, m := w / 2, n / 2;
    DivMod(w, 2);
    DivMod(h, m);
    Distribute(2, h / m * m, h % m);
    DivUnique(w, n, h / m, 2 * (h % m) + w % 2);
  }

  type Pointer = a: nat | a < 0x1_0000_0000_0000_0000

  /** Where a ring's segment lies in memory. */
  type Address = a: nat | a < 0x1_0000_0000_0000_0000 && a % 16 == 0

  /** The segment a link leads to: bits 4 to 63 of its first two words (section 6.4.4.1 of the xHCI
      specification). */
  function LinkTarget(w0: Word, w1: Word): nat { 16 * (w0 / 16) + 0x1_0000_0000 * w1 }

  /** A link to a segment that toggles the cycle state. */
  function LinkTrb(segment: Address): (r: Trb)
    ensures LinkTarget(r.w0, r.w1) == segment && TypeOf(r.w3) == LINK && Toggles(r.w3) && !CycleOf(r.w3)
  {
    var low: Word, high: Word := segment % 0x1_0000_0000, segment / 0x1_0000_0000;
    Trb(low - low % 16, high, 0, 0x1802)
  }
}
