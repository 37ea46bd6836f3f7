/**
 * Why the safe bound is buf_size - 2: with one block more the producer can rewrite the link before
 * the consumer has passed it, and then neither side can ever move again.
 */
module RingBound {
  import opened Options
  import opened Trbs
  import opened RingProtocol

  function Copies(t: Trb, j: nat): seq<Trb> { seq(j, _ => t) }

  /** The ring after j pushes of `data` from index 0, before the end is reached. */
  function Filled(r: Ring, data: Trb, j: nat): Ring
    requires j <= |r.slots|
  {
    r.(slots := seq(|r.slots|, i requires 0 <= i < |r.slots| =>
         if i < j then data.(w3 := WithCycle(data.w3, r.pcs)) else r.slots[i]),
       write := j, pushed := r.pushed + Copies(Content(data), j))
  }

  ghost predicate AtStart(r: Ring) {
    |r.slots| >= 3 && r.producer.Idle? && r.write == 0 && r.consumed == r.pushed
  }

  lemma {:induction false} FillSome(r: Ring, limit: int, data: Trb, j: nat) returns (acts: seq<Action>)
    requires AtStart(r) && TypeOf(data.w3) != LINK && j < r.Last() <= limit
    ensures Run(r, limit, acts) == Filled(r, data, j)
  {
    hide WithCycle, TypeOf, Content, LinkTrb, LinkTarget;
    if j == 0 {
      acts := [];
      assert Filled(r, data, 0).slots == r.slots && Filled(r, data, 0).pushed == r.pushed;
    } else {
      acts := FillSome(r, limit, data, j - 1);
      var s := Filled(r, data, j - 1);
      assert |s.Pending()| == j - 1;
      PushIsWrites(s, limit, data);
      RunConcat(r, limit, acts, PushActions(s, data));
      acts := acts + PushActions(s, data);
      assert Copies(Content(data), j) == Copies(Content(data), j - 1) + [Content(data)];
      assert AfterPush(s, data).pushed == Filled(r, data, j).pushed;
      assert AfterPush(s, data).slots == Filled(r, data, j).slots;
    }
  }

  /** A whole lap of pushes: every data slot and the link get the current cycle state. */
  function FullLap(r: Ring, data: Trb): Ring
    requires |r.slots| >= 3
  {
    var link, last, cycle := r.Link(), r.Last(), r.pcs;
    r.(slots := seq(|r.slots|, i =>
         (if i < last then data else link).(w3 := WithCycle((if i < last then data else link).w3, cycle))),
       write := 0, pcs := !r.pcs, pushed := r.pushed + Copies(Content(data), r.Last()))
  }

  lemma FillLap(r: Ring, limit: int, data: Trb) returns (acts: seq<Action>)
    requires AtStart(r) && TypeOf(data.w3) != LINK && r.Last() <= limit
    ensures Run(r, limit, acts) == FullLap(r, data)
  {
    hide WithCycle, TypeOf, Content, LinkTrb, LinkTarget;
    var j := r.Last() - 1;
    acts := FillSome(r, limit, data, j);
    var s := Filled(r, data, j);
    assert |s.Pending()| == j;
    PushIsWrites(s, limit, data);
    RunConcat(r, limit, acts, PushActions(s, data));
    acts := acts + PushActions(s, data);
    assert Copies(Content(data), j + 1) == Copies(Content(data), j) + [Content(data)];
    assert AfterPush(s, data).pushed == FullLap(r, data).pushed;
    assert AfterPush(s, data).slots == FullLap(r, data).slots;
  }

  const TAKE := [Poll, Load(0), Load(1), Load(2), Finish]

  lemma TakeIsLoads(r: Ring, limit: int)
    requires r.consumer.Resting? && r.read < |r.slots| && CycleOf(r.slots[r.read].w3) == r.ccs
    requires TypeOf(r.slots[r.read].w3) != LINK
    ensures Run(r, limit, TAKE) == r.(consumed := r.consumed + [Content(r.slots[r.read])], read := r.read + 1)
  {
    hide CycleOf, TypeOf, Content, Run;
    var t := r.slots[r.read];
    var r1 := r.(consumer := Loading(t.w3, None, None, None));
    var r2 := r1.(consumer := r1.consumer.(l0 := Some(t.w0)));
    var r3 := r2.(consumer := r2.consumer.(l1 := Some(t.w1)));
    var r4 := r3.(consumer := r3.consumer.(l2 := Some(t.w2)));
    RunOne(r, limit, TAKE);
    assert TAKE[1..] == [Load(0), Load(1), Load(2), Finish];
    RunOne(r1, limit, [Load(0), Load(1), Load(2), Finish]);
    RunOne(r2, limit, [Load(1), Load(2), Finish]);
    RunOne(r3, limit, [Load(2), Finish]);
    RunOne(r4, limit, [Finish]);
    assert Do(r4, limit, Finish) == r.(consumed := r.consumed + [Content(t)], read := r.read + 1);
  }

  /** The consumer takes the first j blocks of the lap just pushed. */
  lemma {:induction false} TakeSome(r: Ring, limit: int, data: Trb, j: nat) returns (acts: seq<Action>)
    requires |r.slots| >= 3 && r.consumer.Resting? && r.read == 0 && j <= r.Last() && TypeOf(data.w3) != LINK
    requires forall i :: 0 <= i < r.Last() ==> r.slots[i] == data.(w3 := WithCycle(data.w3, r.ccs))
    ensures Run(r, limit, acts) == r.(read := j, consumed := r.consumed + Copies(Content(data), j))
  {
    hide CycleOf, TypeOf, Content;
    if j == 0 {
      acts := [];
      assert r.consumed + Copies(Content(data), 0) == r.consumed;
    } else {
      acts := TakeSome(r, limit, data, j - 1);
      var s := r.(read := j - 1, consumed := r.consumed + Copies(Content(data), j - 1));
      TakeIsLoads(s, limit);
      ContentIgnoresCycle(data, r.ccs);
      RunConcat(r, limit, acts, TAKE);
      acts := acts + TAKE;
      assert r.consumed + Copies(Content(data), j) == s.consumed + [Content(data)];
    }
  }

  ghost predicate Deadlocked(r: Ring, limit: int) {
    forall a: Action :: Do(r, limit, a) == r
  }

  /** One unconsumed block more than the safe bound: some run reaches a state with buf_size - 1
      unconsumed blocks that no action of either side changes. */
  lemma OneMoreDeadlocks(n: nat, base: Address, data: Trb) returns (acts: seq<Action>)
    requires n >= 3 && TypeOf(data.w3) != LINK
    ensures var r := Run(Fresh(n, base), n - 1, acts);
      |r.Pending()| == n - 1 && Deadlocked(r, n - 1)
  {
    hide TypeOf, Toggles, Content, Run, DoFinish, LinkTrb, LinkTarget, WithCycle;
    var r0 := Fresh(n, base);
    var a1 := FillLap(r0, n - 1, data);
    var r1 := FullLap(r0, data);
    var a2 := TakeSome(r1, n - 1, data, n - 1);
    var r2 := r1.(read := n - 1, consumed := r1.consumed + Copies(Content(data), n - 1));
    assert r2.consumed == r2.pushed;
    var a3 := FillLap(r2, n - 1, data);
    var r3 := FullLap(r2, data);
    RunConcat(r0, n - 1, a1, a2);
    RunConcat(r0, n - 1, a1 + a2, a3);
    acts := a1 + a2 + a3;
    assert r3.Pending() == Copies(Content(data), n - 1);
    assert r3.slots[n - 1] == LinkTrb(base).(w3 := WithCycle(LinkTrb(base).w3, false)) && r3.ccs;
    Stuck(r3, n - 1);
  }

  lemma Stuck(r: Ring, limit: int)
    requires r.producer.Idle? && r.consumer.Resting? && r.read < |r.slots| && CycleOf(r.slots[r.read].w3) != r.ccs
    requires |r.Pending()| >= limit
    ensures Deadlocked(r, limit)
  {
  }
}
