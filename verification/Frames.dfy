/** Sets of page frames: what the frame allocator means, without its bitmap. */
module Frames {
  import opened Options
  import Seqs

  /** n frames from s on. */
  ghost function Block(s: nat, n: nat): (b: set<nat>)
    ensures forall f: nat :: f in b <==> s <= f < s + n
  {
    if n == 0 then {} else Block(s, n - 1) + {s + n - 1}
  }

  ghost predicate RunFree(taken: set<nat>, s: nat, n: nat) {
    forall f: nat :: s <= f < s + n ==> f !in taken
  }

  /** The lowest start at or after s of n free frames before end: a search that tries every start. */
  ghost function FirstFit(taken: set<nat>, s: nat, end: nat, n: nat): (r: Option<nat>)
    ensures r.Some? ==> s <= r.value && r.value + n <= end && RunFree(taken, r.value, n)
    ensures r.Some? ==> forall t: nat :: s <= t < r.value ==> !RunFree(taken, t, n)
    ensures r.None? ==> forall t: nat :: s <= t && t + n <= end ==> !RunFree(taken, t, n)
    decreases end - s
  {
    if s + n > end then None
    else if RunFree(taken, s, n) then Some(s)
    else FirstFit(taken, s + 1, end, n)
  }

  /** What allocate returns: no frames at all are always found, at the start of the range. */
  ghost function Fit(taken: set<nat>, begin: nat, end: nat, n: nat): Option<nat> {
    if n == 0 then Some(begin) else FirstFit(taken, begin, end, n)
  }

  /** A taken frame rules out every start that would need it, so a search may jump past it. */
  lemma {:induction false} SkipTaken(taken: set<nat>, s: nat, end: nat, n: nat, i: nat)
    requires i < n && s + i in taken
    ensures FirstFit(taken, s, end, n) == FirstFit(taken, s + i + 1, end, n)
    decreases i
  {
    assert !RunFree(taken, s, n);
    if i == 0 {
    } else {
      assert s + 1 + (i - 1) == s + i;
      SkipTaken(taken, s + 1, end, n, i - 1);
    }
  }

  lemma FitHere(taken: set<nat>, s: nat, end: nat, n: nat)
    ensures s + n > end ==> FirstFit(taken, s, end, n) == None
    ensures s + n <= end && RunFree(taken, s, n) ==> FirstFit(taken, s, end, n) == Some(s)
  {
  }

  // ----- runs of the allocator -----

  datatype Piece = Piece(start: nat, count: nat) {
    ghost function Frames(): set<nat> { Block(start, count) }
  }

  /** Frames never available, frames marked in the bitmap, and the blocks handed out. */
  datatype State = State(reserved: set<nat>, taken: set<nat>, blocks: seq<Piece>, begin: nat, end: nat)

  datatype Op =
    | Allocate(n: nat)
    | Free(k: nat)         // the k-th outstanding block; nothing if there is none

  ghost function Do(s: State, op: Op): State {
    match op
    case Allocate(n) =>
      (match Fit(s.taken, s.begin, s.end, n)
       case Some(at) => s.(taken := s.taken + Block(at, n), blocks := s.blocks + [Piece(at, n)])
       case None => s)
    case Free(k) =>
      if k < |s.blocks|
      then s.(taken := s.taken - s.blocks[k].Frames(), blocks := Seqs.Without(s.blocks, k))
      else s
  }

  ghost function Run(s: State, ops: seq<Op>): State
    decreases |ops|
  {
    if ops == [] then s else Run(Do(s, ops[0]), ops[1..])
  }

  /** All frames of the blocks. */
  ghost function Union(blocks: seq<Piece>): set<nat> {
    if blocks == [] then {} else Union(blocks[..|blocks| - 1]) + blocks[|blocks| - 1].Frames()
  }

  ghost predicate InSome(blocks: seq<Piece>, f: nat) { exists i :: 0 <= i < |blocks| && f in blocks[i].Frames() }

  lemma {:induction false} UnionHas(blocks: seq<Piece>, f: nat)
    ensures f in Union(blocks) <==> InSome(blocks, f)
  {
    if blocks != [] {
      var n := |blocks| - 1;
      UnionHas(blocks[..n], f);
      if InSome(blocks, f) {
        var i :| 0 <= i < |blocks| && f in blocks[i].Frames();
        assert i < n ==> blocks[..n][i] == blocks[i];
      }
      if InSome(blocks[..n], f) {
        var i :| 0 <= i < n && f in blocks[..n][i].Frames();
        assert blocks[..n][i] == blocks[i];
      }
    }
  }

  ghost predicate Apart(a: Piece, b: Piece) { a.Frames() !! b.Frames() }

  ghost predicate AllApart(blocks: seq<Piece>) {
    forall i, j :: 0 <= i < j < |blocks| ==> Apart(blocks[i], blocks[j])
  }

  ghost predicate AllInside(blocks: seq<Piece>, begin: nat, end: nat) {
    forall i :: 0 <= i < |blocks| && blocks[i].count > 0 ==>
      begin <= blocks[i].start && blocks[i].start + blocks[i].count <= end
  }

  /** The bitmap is the reserved frames and the disjoint union of the outstanding blocks. */
  ghost predicate Conserved(s: State) {
    && s.taken == s.reserved + Union(s.blocks) && s.reserved !! Union(s.blocks)
    && AllApart(s.blocks) && AllInside(s.blocks, s.begin, s.end)
  }

  lemma AllocateConserves(s: State, n: nat)
    requires Conserved(s)
    ensures Conserved(Do(s, Allocate(n)))
  {
    hide AllApart, AllInside;
    var r := Fit(s.taken, s.begin, s.end, n);
    if r.Some? {
      var s', p := Do(s, Allocate(n)), Piece(r.value, n);
      assert s'.blocks[..|s.blocks|] == s.blocks;
      assert s.taken !! p.Frames();
      Appended(s.blocks, p, s.begin, s.end);
    }
  }

  lemma Appended(blocks: seq<Piece>, p: Piece, begin: nat, end: nat)
    requires AllApart(blocks) && AllInside(blocks, begin, end) && Union(blocks) !! p.Frames()
    requires p.count > 0 ==> begin <= p.start && p.start + p.count <= end
    ensures AllApart(blocks + [p]) && AllInside(blocks + [p], begin, end)
  {
    forall i | 0 <= i < |blocks| ensures Apart(blocks[i], p) {
      forall f: nat | f in blocks[i].Frames() ensures f !in p.Frames() { UnionHas(blocks, f); }
    }
  }

  lemma FreeConserves(s: State, k: nat)
    requires Conserved(s)
    ensures Conserved(Do(s, Free(k)))
  {
    hide AllApart, AllInside, Union;
    if k < |s.blocks| {
      Without(s.blocks, k);
      Thinned(s.blocks, k, s.begin, s.end);
    }
  }

  lemma Thinned(blocks: seq<Piece>, k: nat, begin: nat, end: nat)
    requires k < |blocks| && AllApart(blocks) && AllInside(blocks, begin, end)
    ensures AllApart(Seqs.Without(blocks, k)) && AllInside(Seqs.Without(blocks, k), begin, end)
  {
    hide Apart;
    var rest := Seqs.Without(blocks, k);
    assert forall i :: 0 <= i < |rest| ==> rest[i] == blocks[if i < k then i else i + 1];
  }

  /** Dropping one of several disjoint blocks drops exactly its frames. */
  lemma Without(blocks: seq<Piece>, k: nat)
    requires k < |blocks| && AllApart(blocks)
    ensures Union(Seqs.Without(blocks, k)) == Union(blocks) - blocks[k].Frames() && blocks[k].Frames() <= Union(blocks)
  {
    hide Union, AllApart;
    forall f: nat ensures f in Union(Seqs.Without(blocks, k)) <==> f in Union(blocks) && f !in blocks[k].Frames() {
      UnionHas(blocks, f);
      UnionHas(Seqs.Without(blocks, k), f);
      WithoutOne(blocks, k, f);
    }
    forall f: nat | f in blocks[k].Frames() ensures f in Union(blocks) { UnionHas(blocks, f); }
  }

  lemma WithoutOne(blocks: seq<Piece>, k: nat, f: nat)
    requires k < |blocks| && AllApart(blocks)
    ensures InSome(Seqs.Without(blocks, k), f) <==> InSome(blocks, f) && f !in blocks[k].Frames()
  {
    hide Piece.Frames, Apart;
    var rest := Seqs.Without(blocks, k);
    if InSome(rest, f) {
      var i :| 0 <= i < |rest| && f in rest[i].Frames();
      var j := if i < k then i else i + 1;
      assert rest[i] == blocks[j];
      if j < k { NotBoth(blocks[j], blocks[k], f); } else { NotBoth(blocks[k], blocks[j], f); }
    }
    if InSome(blocks, f) && f !in blocks[k].Frames() {
      var j :| 0 <= j < |blocks| && f in blocks[j].Frames();
      assert blocks[j] == rest[if j < k then j else j - 1];
    }
  }

  lemma NotBoth(a: Piece, b: Piece, f: nat)
    requires Apart(a, b)
    ensures !(f in a.Frames() && f in b.Frames())
  {
  }

  lemma {:induction false} RunConserves(s: State, ops: seq<Op>)
    requires Conserved(s)
    ensures Conserved(Run(s, ops)) && Run(s, ops).reserved == s.reserved
    decreases |ops|
  {
    hide Conserved;
    if ops != [] {
      match ops[0] { case Allocate(n) => AllocateConserves(s, n); case Free(k) => FreeConserves(s, k); }
      RunConserves(Do(s, ops[0]), ops[1..]);
    }
  }

  /** Allocating and freeing what was got restores the state exactly. */
  lemma AllocateFreeRestores(s: State, n: nat)
    ensures Fit(s.taken, s.begin, s.end, n).Some? ==> Do(Do(s, Allocate(n)), Free(|s.blocks|)) == s
  {
    var r, s' := Fit(s.taken, s.begin, s.end, n), Do(s, Allocate(n));
    if r.Some? {
      assert s.taken !! Block(r.value, n);
      assert s.taken + Block(r.value, n) - Block(r.value, n) == s.taken;
      assert Seqs.Without(s'.blocks, |s.blocks|) == s.blocks;
    }
  }
}
