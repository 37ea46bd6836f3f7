/** initialize_memory_manager in kernel/memory_manager.cpp and the memory types of kernel/memory_map.hpp. */
module MemoryMaps {
  import opened Frames
  import opened MemoryManager

  const UEFI_PAGE_SIZE := 4096

  /** The memory types of the UEFI specification (section 7.2), in the order of their numbers. */
  datatype MemoryType =
    | Reserved | LoaderCode | LoaderData | BootServicesCode | BootServicesData
    | RuntimeServicesCode | RuntimeServicesData | Conventional | Unusable | AcpiReclaim | AcpiNvs
    | MemoryMappedIo | MemoryMappedIoPortSpace | PalCode | Persistent

  const MEMORY_TYPES := [
    Reserved, LoaderCode, LoaderData, BootServicesCode, BootServicesData,
    RuntimeServicesCode, RuntimeServicesData, Conventional, Unusable, AcpiReclaim, AcpiNvs,
    MemoryMappedIo, MemoryMappedIoPortSpace, PalCode, Persistent
  ]

  /** Memory the firmware no longer needs once boot services have ended, or never used. */
  predicate FreeAfterBoot(t: MemoryType) { t.BootServicesCode? || t.BootServicesData? || t.Conventional? }

  /** The types the kernel takes for available are those, and no others. */
  lemma AvailableIsFreeAfterBoot(d: Descriptor)
    ensures d.Available() <==> d.kind < |MEMORY_TYPES| && FreeAfterBoot(MEMORY_TYPES[d.kind])
  {
    if d.kind < 15 { assert d.kind in {0, 1, 2, 3, 4, 5, 6, 7, 8, 9, 10, 11, 12, 13, 14}; }
  }

  /** The fields of a UEFI memory descriptor that the kernel reads. */
  datatype Descriptor = Descriptor(kind: nat, physicalStart: nat, pages: nat) {
    function End(): nat { physicalStart + pages * UEFI_PAGE_SIZE }

    /** Boot services code, boot services data and conventional memory. */
    predicate Available() { kind == 3 || kind == 4 || kind == 7 }

    ghost function Frames(): set<nat> { Block(physicalStart / BYTES_PER_FRAME, pages) }
  }

  /** Page-aligned, in ascending order, without overlaps, below 128 GiB. */
  ghost predicate WellFormed(memory: seq<Descriptor>) {
    && (forall i :: 0 <= i < |memory| ==>
         memory[i].physicalStart % UEFI_PAGE_SIZE == 0 && memory[i].End() <= FRAME_COUNT * BYTES_PER_FRAME)
    && (forall i, j :: 0 <= i < j < |memory| ==> memory[i].End() <= memory[j].physicalStart)
  }

  /** Some available descriptor among the first k holds frame f. */
  ghost predicate Usable(memory: seq<Descriptor>, k: nat, f: nat) {
    exists i :: 0 <= i < k && i < |memory| && memory[i].Available() && f in memory[i].Frames()
  }

  /** Where the descriptors before the k-th end, in frames. */
  ghost function Top(memory: seq<Descriptor>, k: nat): nat
    requires k <= |memory|
  {
    if k == 0 then 0 else memory[k - 1].End() / BYTES_PER_FRAME
  }

  /** What holds after k descriptors, the last available one ending at frame `done`. */
  ghost predicate Progress(memory: seq<Descriptor>, k: nat, marked: set<nat>, done: nat)
    requires k <= |memory|
  {
    && done <= Top(memory, k) <= FRAME_COUNT
    && (forall f: nat :: f in marked ==> f < Top(memory, k))
    && (forall f: nat :: f < done ==> (f in marked <==> !Usable(memory, k, f)))
    && (forall f: nat :: Usable(memory, k, f) ==> f < done)
  }

  /** Reserving the gap before descriptor k, and its own frames if it is unavailable. */
  lemma Advance(memory: seq<Descriptor>, k: nat, marked: set<nat>, done: nat, marked': set<nat>, done': nat)
    requires WellFormed(memory) && k < |memory| && Progress(memory, k, marked, done)
    requires var d := memory[k]; var first := d.physicalStart / BYTES_PER_FRAME;
      && done <= first
      && (if d.Available()
          then marked' == marked + Block(done, first - done) && done' == first + d.pages
          else marked' == marked + Block(done, first - done) + d.Frames() && done' == done)
    ensures Progress(memory, k + 1, marked', done')
  {
    hide Descriptor.Available, WellFormed;
    var d := memory[k];
    Ends(memory, k);
    var next := k + 1;
    forall f: nat ensures Usable(memory, next, f) <==> Usable(memory, k, f) || (d.Available() && f in d.Frames()) {
      UsableStep(memory, k, f);
    }
    assert Progress(memory, next, marked', done');
  }

  lemma UsableStep(memory: seq<Descriptor>, k: nat, f: nat)
    requires k < |memory|
    ensures Usable(memory, k + 1, f) <==> Usable(memory, k, f) || (memory[k].Available() && f in memory[k].Frames())
  {
    hide Descriptor.Available, Descriptor.Frames;
  }

  lemma Ends(memory: seq<Descriptor>, k: nat)
    requires WellFormed(memory) && k < |memory|
    ensures var first := memory[k].physicalStart / BYTES_PER_FRAME;
      && memory[k].physicalStart == first * BYTES_PER_FRAME
      && Top(memory, k) <= first && Top(memory, k + 1) == first + memory[k].pages <= FRAME_COUNT
      && memory[k].End() / BYTES_PER_FRAME == first + memory[k].pages
      && memory[k].End() == (first + memory[k].pages) * BYTES_PER_FRAME
  {
    if k > 0 { assert memory[k - 1].End() <= memory[k].physicalStart; }
  }

  /** A frame in the allocator's range is free exactly if it belongs to an available descriptor, and
      every frame of an available descriptor is below the range's end. */
  method InitializeMemoryManager(memory: seq<Descriptor>, manager: BitmapMemoryManager)
    requires WellFormed(memory) && manager.Valid() && manager.Marked() == {}
    modifies manager, manager.lines
    ensures manager.Valid() && manager.rangeBegin == 1
    ensures forall f: nat :: f < manager.rangeEnd ==> (f !in manager.Marked() <==> Usable(memory, |memory|, f))
    ensures forall f: nat :: Usable(memory, |memory|, f) ==> f < manager.rangeEnd
  {
    hide BitmapMemoryManager.Marked, Progress, Usable, WellFormed, Descriptor.Available;
    var availableEnd: nat := 0;
    assert Progress(memory, 0, {}, 0) by { NoProgress(memory); }
    for k := 0 to |memory|
      invariant manager.Valid() && availableEnd % BYTES_PER_FRAME == 0
      invariant Progress(memory, k, manager.Marked(), availableEnd / BYTES_PER_FRAME)
    {
      var d := memory[k];
      ghost var marked, done := manager.Marked(), availableEnd / BYTES_PER_FRAME;
      Ends(memory, k);
      DoneBelow(memory, k, marked, done);
      if availableEnd < d.physicalStart {
        manager.MarkAllocated(availableEnd / BYTES_PER_FRAME, (d.physicalStart - availableEnd) / BYTES_PER_FRAME);
      }
      assert manager.Marked() == marked + Block(done, d.physicalStart / BYTES_PER_FRAME - done);
      if d.Available() {
        availableEnd := d.physicalStart + d.pages * UEFI_PAGE_SIZE;
      } else {
        manager.MarkAllocated(d.physicalStart / BYTES_PER_FRAME, d.pages * UEFI_PAGE_SIZE / BYTES_PER_FRAME);
      }
      Advance(memory, k, marked, done, manager.Marked(), availableEnd / BYTES_PER_FRAME);
    }
    manager.SetMemoryRange(1, availableEnd / BYTES_PER_FRAME);
    Final(memory, manager.Marked(), availableEnd / BYTES_PER_FRAME);
  }

  lemma NoProgress(memory: seq<Descriptor>)
    ensures Progress(memory, 0, {}, 0)
  {
  }

  lemma DoneBelow(memory: seq<Descriptor>, k: nat, marked: set<nat>, done: nat)
    requires k <= |memory| && Progress(memory, k, marked, done)
    ensures done <= Top(memory, k)
  {
  }

  lemma Final(memory: seq<Descriptor>, marked: set<nat>, done: nat)
    requires Progress(memory, |memory|, marked, done)
    ensures done <= FRAME_COUNT
    ensures forall f: nat :: f < done ==> (f !in marked <==> Usable(memory, |memory|, f))
    ensures forall f: nat :: Usable(memory, |memory|, f) ==> f < done
  {
  }
}
