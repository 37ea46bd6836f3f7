/** kernel/sbrk.cpp: the newlib heap, a break that moves up inside one allocation of frames. */
module Heaps {
  import opened Options
  import opened Frames
  import opened MemoryManager
  import opened MemoryMaps

  const HEAP_FRAMES := 64 * 512

  datatype Break = Break(at: int, end: int)

  /** sbrk on the pair of globals. */
  function Moved(b: Break, incr: int): (Break, Option<int>) {
    if b.at == 0 || b.at + incr >= b.end then (b, None) else (b.(at := b.at + incr), Some(b.at))
  }

  /** What one successful call returned: the old break and its increment. */
  datatype Chunk = Chunk(at: int, size: int)

  ghost function Run(b: Break, incrs: seq<int>): (Break, seq<Chunk>)
    decreases |incrs|
  {
    if incrs == [] then (b, [])
    else
      var (b1, r) := Moved(b, incrs[0]);
      var (b2, rest) := Run(b1, incrs[1..]);
      (b2, if r.Some? then [Chunk(r.value, incrs[0])] + rest else rest)
  }

  ghost predicate InOrder(chunks: seq<Chunk>, low: int, high: int) {
    && (forall i :: 0 <= i < |chunks| ==>
         low <= chunks[i].at && chunks[i].size >= 0 && chunks[i].at + chunks[i].size <= high)
    && (forall i, j :: 0 <= i < j < |chunks| ==> chunks[i].at + chunks[i].size <= chunks[j].at)
  }

  /** Non-negative calls return chunks one above the other between the first break and the last,
      which stays below the end. */
  lemma {:induction false} ChunksAreDisjoint(b: Break, incrs: seq<int>)
    requires 0 < b.at < b.end && forall i :: 0 <= i < |incrs| ==> incrs[i] >= 0
    ensures var (b', chunks) := Run(b, incrs); b.at <= b'.at < b'.end == b.end && InOrder(chunks, b.at, b'.at)
    decreases |incrs|
  {
    if incrs != [] {
      ChunksAreDisjoint(Moved(b, incrs[0]).0, incrs[1..]);
    }
  }

  ghost function Sum(incrs: seq<int>): int { if incrs == [] then 0 else incrs[0] + Sum(incrs[1..]) }

  lemma {:induction false} SumIsNonNegative(incrs: seq<int>)
    requires forall i :: 0 <= i < |incrs| ==> incrs[i] >= 0
    ensures Sum(incrs) >= 0
    decreases |incrs|
  {
    if incrs != [] { SumIsNonNegative(incrs[1..]); }
  }

  /** A run of non-negative calls is served in full exactly if together they ask for less than is left;
      then they take just that. */
  lemma {:induction false} AllServedIff(b: Break, incrs: seq<int>)
    requires 0 < b.at < b.end && forall i :: 0 <= i < |incrs| ==> incrs[i] >= 0
    ensures |Run(b, incrs).1| <= |incrs|
    ensures |Run(b, incrs).1| == |incrs| <==> Sum(incrs) < b.end - b.at
    ensures Sum(incrs) < b.end - b.at ==> Run(b, incrs).0.at == b.at + Sum(incrs)
    decreases |incrs|
  {
    SumIsNonNegative(incrs);
    if incrs != [] {
      SumIsNonNegative(incrs[1..]);
      AllServedIff(Moved(b, incrs[0]).0, incrs[1..]);
    }
  }

  function Start(frame: nat): int { frame * BYTES_PER_FRAME }

  /** The heap of an allocation that starts at `frame`. */
  function HeapAt(frame: nat): Break { Break(Start(frame), Start(frame) + HEAP_FRAMES * BYTES_PER_FRAME) }

  /** Every byte a run of the heap hands out lies at a non-zero address in a frame of its allocation. */
  lemma BytesInFrames(frame: nat, incrs: seq<int>, i: nat, address: int)
    requires frame >= 1 && forall k :: 0 <= k < |incrs| ==> incrs[k] >= 0
    requires var chunks := Run(HeapAt(frame), incrs).1;
      i < |chunks| && chunks[i].at <= address < chunks[i].at + chunks[i].size
    ensures address > 0 && address / BYTES_PER_FRAME in Block(frame, HEAP_FRAMES)
  {
    hide Run;
    ChunksAreDisjoint(HeapAt(frame), incrs);
    assert frame <= address / BYTES_PER_FRAME < frame + HEAP_FRAMES;
  }

  /** So it lies in no reserved frame and in no other outstanding block. */
  lemma HeapStaysInItsFrames(s: State, h: nat, incrs: seq<int>, i: nat, address: int)
    requires Conserved(s) && h < |s.blocks| && s.blocks[h].count == HEAP_FRAMES && s.begin >= 1
    requires forall k :: 0 <= k < |incrs| ==> incrs[k] >= 0
    requires var chunks := Run(HeapAt(s.blocks[h].start), incrs).1;
      i < |chunks| && chunks[i].at <= address < chunks[i].at + chunks[i].size
    ensures address > 0 && address / BYTES_PER_FRAME in s.blocks[h].Frames() && address / BYTES_PER_FRAME !in s.reserved
    ensures forall j :: 0 <= j < |s.blocks| && j != h ==> address / BYTES_PER_FRAME !in s.blocks[j].Frames()
  {
    hide Run, Union;
    BytesInFrames(s.blocks[h].start, incrs, i, address);
    var f := address / BYTES_PER_FRAME;
    UnionHas(s.blocks, f);
    forall j | 0 <= j < |s.blocks| && j != h ensures f !in s.blocks[j].Frames() {
      assert if j < h then Apart(s.blocks[j], s.blocks[h]) else Apart(s.blocks[h], s.blocks[j]);
    }
  }

  /** sbrk checks only the end: a call that succeeds, with any increment, leaves the break in the heap
      exactly if it gives back no more than was taken, */
  lemma StaysInHeapIff(frame: nat, b: Break, incr: int)
    requires Start(frame) <= b.at < b.end == HeapAt(frame).end && Moved(b, incr).1.Some?
    ensures Start(frame) <= Moved(b, incr).0.at < b.end <==> -incr <= b.at - Start(frame)
  {
  }

  /** and on a new heap every negative call takes it out. */
  lemma NegativeLeavesHeap(frame: nat, n: int)
    requires frame >= 1 && n >= 1
    ensures Moved(HeapAt(frame), -n) == (Break(Start(frame) - n, HeapAt(frame).end), Some(Start(frame)))
  {
  }

  /** The kernel's start: from the firmware's memory map to a heap all of whose frames belong to
      available memory. */
  method StartHeap(memory: seq<Descriptor>) returns (manager: BitmapMemoryManager, heap: Heap, ok: bool)
    requires WellFormed(memory)
    ensures manager.Valid()
    ensures ok ==> exists frame: nat :: frame >= 1 && heap.Value() == HeapAt(frame) && AllUsable(memory, frame)
    ensures !ok ==> heap.Value() == Break(0, 0)
    ensures !ok ==> forall s: nat :: s >= 1 ==> !AllUsable(memory, s)
  {
    hide BitmapMemoryManager.Marked, Usable, FirstFit, WellFormed;
    manager := new BitmapMemoryManager();
    InitializeMemoryManager(memory, manager);
    heap := new Heap();
    ghost var marked := manager.Marked();
    ok := heap.InitializeHeap(manager);
    if ok {
      ghost var at := Fit(marked, manager.rangeBegin, manager.rangeEnd, HEAP_FRAMES).value;
      assert AllUsable(memory, at) by { FreeIsUsable(memory, marked, manager.rangeEnd, at); }
    } else {
      NoneFits(memory, marked, manager.rangeEnd);
    }
  }

  /** Every frame of a heap at `frame` belongs to an available descriptor. */
  ghost predicate AllUsable(memory: seq<Descriptor>, frame: nat) {
    forall f: nat :: frame <= f < frame + HEAP_FRAMES ==> Usable(memory, |memory|, f)
  }

  lemma FreeIsUsable(memory: seq<Descriptor>, marked: set<nat>, end: nat, at: nat)
    requires forall f: nat :: f < end ==> (f !in marked <==> Usable(memory, |memory|, f))
    requires at + HEAP_FRAMES <= end && RunFree(marked, at, HEAP_FRAMES)
    ensures AllUsable(memory, at)
  {
  }

  lemma UsableIsFree(memory: seq<Descriptor>, marked: set<nat>, end: nat, at: nat)
    requires forall f: nat :: f < end ==> (f !in marked <==> Usable(memory, |memory|, f))
    requires (forall f: nat :: Usable(memory, |memory|, f) ==> f < end) && AllUsable(memory, at)
    ensures at + HEAP_FRAMES <= end && RunFree(marked, at, HEAP_FRAMES)
  {
    hide Usable;
    assert Usable(memory, |memory|, at + HEAP_FRAMES - 1);
  }

  lemma NoneFits(memory: seq<Descriptor>, marked: set<nat>, end: nat)
    requires forall f: nat :: f < end ==> (f !in marked <==> Usable(memory, |memory|, f))
    requires forall f: nat :: Usable(memory, |memory|, f) ==> f < end
    requires FirstFit(marked, 1, end, HEAP_FRAMES) == None
    ensures forall s: nat :: s >= 1 ==> !AllUsable(memory, s)
  {
    hide Usable;
    forall s: nat | s >= 1 ensures !AllUsable(memory, s) {
      if AllUsable(memory, s) {
        UsableIsFree(memory, marked, end, s);
        assert false;
      }
    }
  }

  class Heap {
    var programBreak: int
    var programBreakEnd: int

    ghost function Value(): Break
      reads this
    {
      Break(programBreak, programBreakEnd)
    }

    constructor ()
      ensures Value() == Break(0, 0)
    {
      programBreak, programBreakEnd := 0, 0;
    }

    /** sbrk; None is the ENOMEM result. */
    method Sbrk(incr: int) returns (r: Option<int>)
      modifies this
      ensures (Value(), r) == Moved(old(Value()), incr)
    {
      if programBreak == 0 || programBreak + incr >= programBreakEnd { return None; }
      r := Some(programBreak);
      programBreak := programBreak + incr;
    }

    /** initialize_heap: 128 MiB first-fit, or nothing changes. */
    method InitializeHeap(manager: BitmapMemoryManager) returns (ok: bool)
      requires manager.Valid()
      modifies this, manager.lines
      ensures ok <==> Fit(old(manager.Marked()), manager.rangeBegin, manager.rangeEnd, HEAP_FRAMES).Some?
      ensures ok ==> var at := Fit(old(manager.Marked()), manager.rangeBegin, manager.rangeEnd, HEAP_FRAMES).value;
        Value() == HeapAt(at) && manager.Marked() == old(manager.Marked()) + Block(at, HEAP_FRAMES)
      ensures !ok ==> Value() == old(Value()) && manager.Marked() == old(manager.Marked())
    {
      hide Block, Fit, BitmapMemoryManager.Marked;
      var start := manager.Allocate(HEAP_FRAMES);
      if start == None { return false; }
      programBreak := start.value * BYTES_PER_FRAME;
      programBreakEnd := programBreak + HEAP_FRAMES * BYTES_PER_FRAME;
      return true;
    }
  }
}
