/** kernel/memory_manager.cpp: page frames in a bitmap of 64-bit words, allocated first-fit. */
module MemoryManager {
  import opened Bits
  import opened Frames
  import opened Options

  const BITS_PER_LINE := 64
  const FRAME_COUNT := 0x200_0000        // 128 GiB in frames of 4 KiB
  const BYTES_PER_FRAME := 4096

  /** A 64-bit word of the bitmap. */
  type Line = x: nat | x < Pow2(64)

  /** The frames whose bit is set in lines i and up. */
  ghost function TakenFrom(m: seq<Line>, i: nat): (t: set<nat>)
    requires i <= |m|
    ensures forall f: nat :: f in t <==> 64 * i <= f < 64 * |m| && Bit(m[f / 64], f % 64)
    decreases |m| - i
  {
    if i == |m| then {} else LineSet(m[i], 64 * i, 64) + TakenFrom(m, i + 1)
  }

  /** The frames base, base + 1, .. whose bits 0..n-1 are set. */
  ghost function LineSet(x: nat, base: nat, n: nat): (t: set<nat>)
    ensures forall f: nat :: f in t <==> base <= f < base + n && Bit(x, f - base)
  {
    if n == 0 then {} else LineSet(x, base, n - 1) + if Bit(x, n - 1) then {base + n - 1} else {}
  }

  ghost function Taken(m: seq<Line>): set<nat> { TakenFrom(m, 0) }

  /** One bit of one word changes one frame. */
  lemma OneFrame(m: seq<Line>, m': seq<Line>, f: nat, b: bool)
    requires f < 64 * |m| && |m'| == |m| && m' == m[f / 64 := m'[f / 64]]
    requires forall i: nat :: i < 64 ==> (Bit(m'[f / 64], i) <==> if i == f % 64 then b else Bit(m[f / 64], i))
    ensures Taken(m') == if b then Taken(m) + {f} else Taken(m) - {f}
  {
    hide Bit;
    forall g: nat ensures g in Taken(m') <==> g in (if b then Taken(m) + {f} else Taken(m) - {f}) {
      if g < 64 * |m| && g / 64 == f / 64 {
        assert Bit(m'[f / 64], g % 64) <==> if g % 64 == f % 64 then b else Bit(m[f / 64], g % 64);
      }
    }
  }

  lemma LineBits(x: Line, b: nat)
    requires b < 64
    ensures Pow2(b) < Pow2(64) && Or(x, Pow2(b)) < Pow2(64) && And(x, Not(Pow2(b), 64)) < Pow2(64)
    ensures forall i: nat :: i < 64 ==> (Bit(Or(x, Pow2(b)), i) <==> i == b || Bit(x, i))
    ensures forall i: nat :: i < 64 ==> (Bit(And(x, Not(Pow2(b), 64)), i) <==> i != b && Bit(x, i))
  {
    hide Bit, And, Or, Pow2;
    PowMonotone(b, 64);
    OrBound(x, Pow2(b), 64);
    AndBound(x, Not(Pow2(b), 64));
    forall i: nat | i < 64
      ensures Bit(Or(x, Pow2(b)), i) <==> i == b || Bit(x, i)
      ensures Bit(And(x, Not(Pow2(b), 64)), i) <==> i != b && Bit(x, i)
    {
      OrBit(x, Pow2(b), i);
      AndBit(x, Not(Pow2(b), 64), i);
      NotBit(Pow2(b), 64, i);
      PowBit(b, i);
    }
  }

  class BitmapMemoryManager {
    const lines: array<Line>
    var rangeBegin: nat
    var rangeEnd: nat

    ghost predicate Valid()
      reads this
    {
      64 * lines.Length == FRAME_COUNT && rangeBegin <= FRAME_COUNT && rangeEnd <= FRAME_COUNT
    }

    /** The frames marked in the bitmap. */
    ghost function Marked(): set<nat>
      reads lines
    {
      Taken(lines[..])
    }

    constructor ()
      ensures Valid() && fresh(lines) && Marked() == {} && rangeBegin == 0 && rangeEnd == FRAME_COUNT
    {
      lines := new Line[FRAME_COUNT / BITS_PER_LINE](_ => 0);
      rangeBegin, rangeEnd := 0, FRAME_COUNT;
      new;
      forall f: nat ensures f !in Marked() { ZeroBit(f % 64); }
    }

    predicate GetBit(frame: nat)
      requires frame < 64 * lines.Length
      reads lines
      ensures GetBit(frame) <==> frame in Marked()
    {
      TestBit(lines[frame / 64], frame % 64);
      And(lines[frame / 64], Pow2(frame % 64)) != 0
    }

    method SetBit(frame: nat, inUse: bool)
      requires frame < 64 * lines.Length
      modifies lines
      ensures Marked() == if inUse then old(Marked()) + {frame} else old(Marked()) - {frame}
    {
      hide Bit, And, Or, Pow2, Taken;
      var line, bit := frame / 64, frame % 64;
      ghost var was := lines[..];
      LineBits(lines[line], bit);
      if inUse {
        lines[line] := Or(lines[line], Pow2(bit));
      } else {
        lines[line] := And(lines[line], Not(Pow2(bit), 64));
      }
      OneFrame(was, lines[..], frame, inUse);
    }

    method MarkAllocated(start: nat, n: nat)
      requires start + n <= 64 * lines.Length
      modifies lines
      ensures Marked() == old(Marked()) + Block(start, n)
    {
      hide Marked;
      for i := 0 to n
        invariant Marked() == old(Marked()) + Block(start, i)
      {
        SetBit(start + i, true);
      }
    }

    method SetMemoryRange(begin: nat, end: nat)
      modifies this
      ensures rangeBegin == begin && rangeEnd == end
    {
      rangeBegin, rangeEnd := begin, end;
    }

    /** The search that jumps past each marked frame finds what trying every start finds, and marks
        exactly that block. */
    method Allocate(n: nat) returns (r: Option<nat>)
      requires Valid()
      modifies lines
      ensures r == Fit(old(Marked()), rangeBegin, rangeEnd, n)
      ensures Marked() == old(Marked()) + if r.Some? then Block(r.value, n) else {}
    {
      hide Marked, FirstFit;
      var start := rangeBegin;
      while true
        invariant Marked() == old(Marked())
        invariant n > 0 ==> FirstFit(Marked(), rangeBegin, rangeEnd, n) == FirstFit(Marked(), start, rangeEnd, n)
        invariant start <= FRAME_COUNT && (n == 0 ==> start == rangeBegin)
        decreases FRAME_COUNT + n - start
      {
        FitHere(Marked(), start, rangeEnd, n);
        var i := 0;
        while i < n
          invariant 0 <= i <= n && RunFree(Marked(), start, i) && (i == 0 || start + i <= rangeEnd)
        {
          if rangeEnd <= start + i { return None; }
          if GetBit(start + i) { break; }
          i := i + 1;
        }
        if i == n {
          MarkAllocated(start, n);
          return Some(start);
        }
        SkipTaken(Marked(), start, rangeEnd, n, i);
        start := start + i + 1;
      }
    }

    method Free(start: nat, n: nat)
      requires start + n <= 64 * lines.Length
      modifies lines
      ensures Marked() == old(Marked()) - Block(start, n)
    {
      hide Marked;
      for i := 0 to n
        invariant Marked() == old(Marked()) - Block(start, i)
      {
        SetBit(start + i, false);
      }
    }
  }
}
