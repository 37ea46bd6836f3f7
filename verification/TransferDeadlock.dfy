/**
 * How many transfers at once are too many. Ten: a run in which the trailing status block of a reported
 * transfer, ten transfers of three blocks and an unlucky position of the link leave driver and
 * controller waiting for each other forever. Eleven: a run in which a report names another request.
 */
module TransferDeadlock {
  import opened Options
  import opened Trbs
  import opened ArrayMaps
  import opened ControlTransfers
  import opened TransferRing
  import P = RingProtocol
  import B = RingBound

  // ----- a call as a run of word writes -----

  const WORD := Access(P.Write)
  const FOUR := [WORD, WORD, WORD, WORD]

  lemma {:induction false} RunConcat(h: Host, policy: Policy, a: seq<Action>, b: seq<Action>)
    ensures Run(h, policy, a + b) == Run(Run(h, policy, a), policy, b)
    decreases |a|
  {
    hide Next;
    if a == [] {
      assert a + b == b;
    } else {
      assert (a + b)[1..] == a[1..] + b;
      RunConcat(Next(h, policy, a[0]), policy, a[1..], b);
    }
  }

  lemma RunOne(h: Host, policy: Policy, a: Action)
    ensures Run(h, policy, [a]) == Next(h, policy, a)
  {
    hide Next;
    assert [a][1..] == [];
  }

  lemma WordAccess(h: Host)
    ensures Accessed(h, P.Write) == h.(ring := P.DoWrite(h.ring))
  {
    hide SetWord, WithCycle, Content;
  }

  /** Four writes during a call, the first three of which do not end the push. */
  lemma FourWords(h: Host, policy: Policy)
    requires h.call.Issuing? && !P.DoWrite(h.ring).producer.Idle? && !P.DoWrite(P.DoWrite(h.ring)).producer.Idle?
    requires !P.DoWrite(P.DoWrite(P.DoWrite(h.ring))).producer.Idle?
    ensures Run(h, policy, FOUR) == GoOn(h.(ring := P.DoWrite(P.DoWrite(P.DoWrite(P.DoWrite(h.ring))))))
  {
    hide P.DoWrite, Run, Accessed;
    var h1 := h.(ring := P.DoWrite(h.ring));
    var h2 := h1.(ring := P.DoWrite(h1.ring));
    var h3 := h2.(ring := P.DoWrite(h2.ring));
    WordAccess(h);
    WordAccess(h1);
    WordAccess(h2);
    WordAccess(h3);
    assert Next(h, policy, WORD) == h1 && Next(h1, policy, WORD) == h2 && Next(h2, policy, WORD) == h3;
    assert FOUR == [WORD] + ([WORD] + ([WORD] + [WORD]));
    RunConcat(h, policy, [WORD], [WORD] + ([WORD] + [WORD]));
    RunConcat(h1, policy, [WORD], [WORD] + [WORD]);
    RunConcat(h2, policy, [WORD], [WORD]);
    RunOne(h, policy, WORD);
    RunOne(h1, policy, WORD);
    RunOne(h2, policy, WORD);
    RunOne(h3, policy, WORD);
  }

  lemma NotIdleYet(r: P.Ring, data: Trb)
    requires r.producer == P.Writing(data, 0) || r.producer == P.Linking(0)
    ensures !P.DoWrite(r).producer.Idle? && !P.DoWrite(P.DoWrite(r)).producer.Idle?
    ensures !P.DoWrite(P.DoWrite(P.DoWrite(r))).producer.Idle?
  {
    hide SetWord;
  }

  /** A whole push during a call. */
  lemma PushRun(h: Host, policy: Policy, r: P.Ring, data: Trb) returns (acts: seq<Action>)
    requires h.call.Issuing? && RingUsable(r) && r.producer.Idle? && TypeOf(data.w3) != LINK
    requires h.ring == StartPush(r, data)
    ensures Run(h, policy, acts) == GoOn(h.(ring := P.AfterPush(r, data)))
  {
    hide P.DoWrite, Run, WithCycle, Content, TypeOf;
    var n := |r.Pending()| + 1;
    assert P.Do(r, n, P.Begin(data)) == h.ring;
    P.BlockWritten(r, n, data);
    NotIdleYet(h.ring, data);
    FourWords(h, policy);
    acts := FOUR;
    if r.write + 1 == r.Last() {
      var r1 := P.DoWrite(P.DoWrite(P.DoWrite(P.DoWrite(h.ring))));
      var h1 := h.(ring := r1);
      P.LinkWritten(r1);
      NotIdleYet(r1, data);
      FourWords(h1, policy);
      RunConcat(h, policy, FOUR, FOUR);
      acts := FOUR + FOUR;
    }
  }

  /** The rest of a call whose k-th block is about to be written. */
  lemma {:induction false} CallRun(h: Host, policy: Policy, r: P.Ring, t: Transfer, k: nat) returns (acts: seq<Action>)
    requires RingUsable(r) && r.producer.Idle? && k < |t.trbs|
    requires forall i :: 0 <= i < |t.trbs| ==> TypeOf(t.trbs[i].w3) != LINK
    requires h.call.Issuing? && h.call.t == t && h.call.begun == k + 1
    requires PushAll(r, t.trbs[..k]).producer.Idle? && h.ring == StartPush(PushAll(r, t.trbs[..k]), t.trbs[k])
    ensures Run(h, policy, acts) ==
      h.(ring := PushAll(r, t.trbs), table := Insert(h.table, Adv(h.call.at, 1), h.call.at), call := NoCall,
        issued := h.issued + [t])
    decreases |t.trbs| - k
  {
    hide Run, WithCycle, Content, TypeOf, Insert, Adv;
    var b, data := PushAll(r, t.trbs[..k]), t.trbs[k];
    acts := PushRun(h, policy, b, data);
    assert t.trbs[..k + 1][..k] == t.trbs[..k];
    assert P.AfterPush(b, data) == PushAll(r, t.trbs[..k + 1]);
    var h1 := GoOn(h.(ring := P.AfterPush(b, data)));
    if k + 1 < |t.trbs| {
      var more := CallRun(h1, policy, r, t, k + 1);
      RunConcat(h, policy, acts, more);
      acts := acts + more;
    } else {
      assert t.trbs[..k + 1] == t.trbs;
    }
  }

  /** The host after a complete call. */
  function Called(h: Host, t: Transfer): Host
    requires RingUsable(h.ring)
  {
    h.(ring := PushAll(h.ring, t.trbs), table := Insert(h.table, Adv(h.ring.write, 1), h.ring.write),
      issued := h.issued + [t])
  }

  lemma IssueRun(h: Host, policy: Policy, t: Transfer) returns (acts: seq<Action>)
    requires h.call.NoCall? && RingUsable(h.ring) && h.ring.producer.Idle? && Admits(h, policy, t)
    ensures Run(h, policy, acts) == Called(h, t)
  {
    hide Run, WithCycle, Content, TypeOf, Insert, Adv, IsTransfer;
    NotLinks(t);
    var h1 := Next(h, policy, Issue(t));
    assert t.trbs[..0] == [];
    var more := CallRun(h1, policy, h.ring, t, 0);
    RunOne(h, policy, Issue(t));
    RunConcat(h, policy, [Issue(t)], more);
    acts := [Issue(t)] + more;
  }

  // ----- stages between calls and reads -----

  /** Nobody is in the middle of anything, `pushed` blocks were pushed and `consumed` read. */
  ghost predicate Stage(r: P.Ring, pushed: nat, consumed: nat, read: nat) {
    && P.Inv(r) && DriverOk(r) && ReaderOk(r) && r.producer.Idle? && r.consumer.Resting?
    && |r.pushed| == pushed && |r.consumed| == consumed && r.read == read
  }

  lemma StageUsable(r: P.Ring, pushed: nat, consumed: nat, read: nat)
    requires Stage(r, pushed, consumed, read)
    ensures RingUsable(r) && |r.Pending()| == pushed - consumed && consumed <= pushed && r.write == SlotOfBlock(pushed)
  {
    hide P.Inv;
    ShapeOf(r);
  }

  lemma PushStage(r: P.Ring, data: Trb, pushed: nat, consumed: nat, read: nat)
    requires Stage(r, pushed, consumed, read) && pushed - consumed < SAFE && TypeOf(data.w3) != LINK
    ensures RingUsable(r) && Stage(P.AfterPush(r, data), pushed + 1, consumed, read)
  {
    hide P.Inv, TypeOf, Content, WithCycle, P.Run, ReaderOk;
    StageUsable(r, pushed, consumed, read);
    P.PushIsWrites(r, SAFE, data);
    P.RunInv(r, SAFE, P.PushActions(r, data));
    PushReads(r, data);
    SlotAfter(pushed);
  }

  lemma PushReads(r: P.Ring, data: Trb)
    requires DriverOk(r) && ReaderOk(r) && r.producer.Idle? && TypeOf(data.w3) != LINK
    ensures RingUsable(r) && ReaderOk(P.AfterPush(r, data))
  {
    hide TypeOf, CycleOf, Content, WithCycle;
  }

  lemma {:induction false} PushAllStage(r: P.Ring, trbs: seq<Trb>, pushed: nat, consumed: nat, read: nat)
    requires Stage(r, pushed, consumed, read) && pushed + |trbs| - consumed <= SAFE
    requires forall i :: 0 <= i < |trbs| ==> TypeOf(trbs[i].w3) != LINK
    ensures RingUsable(r) && Stage(PushAll(r, trbs), pushed + |trbs|, consumed, read)
  {
    hide Stage, TypeOf;
    StageUsable(r, pushed, consumed, read);
    if trbs != [] {
      var n := |trbs| - 1;
      PushAllStage(r, trbs[..n], pushed, consumed, read);
      PushStage(PushAll(r, trbs[..n]), trbs[n], pushed + n, consumed, read);
    }
  }

  lemma TakeStage(r: P.Ring, pushed: nat, consumed: nat, read: nat)
    requires Stage(r, pushed, consumed, read) && consumed < pushed && read < SPACE
    ensures Stage(P.Run(r, SAFE, B.TAKE), pushed, consumed + 1, read + 1)
  {
    hide P.Inv, TypeOf, Content, WithCycle, CycleOf, P.Run, ReaderOk, SlotOfBlock, P.WordsWritten;
    StageUsable(r, pushed, consumed, read);
    TakeReads(r);
    P.NeverBlind(r);
    assert r.read < |r.slots| && CycleOf(r.slots[r.read].w3) == r.ccs by { ShapeOf(r); }
    P.Matching(r);
    B.TakeIsLoads(r, SAFE);
    P.RunInv(r, SAFE, B.TAKE);
  }

  lemma TakeReads(r: P.Ring)
    requires ReaderOk(r) && r.consumer.Resting? && r.read < SPACE
    ensures ReaderOk(r.(consumed := r.consumed + [Content(r.slots[r.read])], read := r.read + 1))
  {
    hide TypeOf, Content, CycleOf, SlotOfBlock, P.WordsWritten;
    SlotAfter(|r.consumed|);
  }

  // ----- the run -----

  /** A host between calls. */
  ghost predicate Calm(h: Host, pushed: nat, consumed: nat, read: nat) {
    && h.call.NoCall? && Stage(h.ring, pushed, consumed, read) && |h.reports| <= |h.issued| && AllTransfers(h.issued)
    && SourcesOk(h)
  }

  /** Reads between calls. */
  lemma {:induction false} ReadsRun(h: Host, policy: Policy, ms: seq<P.Action>) returns (acts: seq<Action>, h': Host)
    requires h.call.NoCall? && DriverOk(h.ring) && ReaderOk(h.ring) && SourcesOk(h)
    requires forall i :: 0 <= i < |ms| ==> !ms[i].Begin? && !ms[i].Write?
    ensures Run(h, policy, acts) == h' == h.(ring := P.Run(h.ring, SAFE, ms), sources := h'.sources) && SourcesOk(h')
    ensures h'.ring.slots == h.ring.slots && h'.ring.write == h.ring.write
    decreases |ms|
  {
    hide P.Do, ReaderOk, P.WordsWritten;
    if ms == [] {
      acts, h' := [], h;
    } else {
      var h1 := Accessed(h, ms[0]);
      AccessReads(h.ring, ms[0]);
      OnlyWritesWrite(h.ring, ms[0]);
      var more;
      more, h' := ReadsRun(h1, policy, ms[1..]);
      acts := [Access(ms[0])] + more;
      assert acts[1..] == more;
    }
  }

  /** The controller reads n blocks without reaching the link. */
  lemma {:induction false} ReadMany(h: Host, policy: Policy, n: nat, pushed: nat, consumed: nat, read: nat)
    returns (acts: seq<Action>, h': Host)
    requires Calm(h, pushed, consumed, read) && consumed + n <= pushed && read + n <= SPACE
    ensures Run(h, policy, acts) == h' == h.(ring := h'.ring, sources := h'.sources)
    ensures Calm(h', pushed, consumed + n, read + n) && h'.ring.slots == h.ring.slots && h'.ring.write == h.ring.write
    decreases n
  {
    hide Run, P.Run, P.Inv, IsTransfer, ReaderOk, DriverOk, SourcesOk;
    if n == 0 {
      acts, h' := [], h;
      assert Run(h, policy, []) == h by { RunNothing(h, policy); }
    } else {
      TakeStage(h.ring, pushed, consumed, read);
      var first, h1 := ReadsRun(h, policy, B.TAKE);
      var more;
      more, h' := ReadMany(h1, policy, n - 1, pushed, consumed + 1, read + 1);
      RunConcat(h, policy, first, more);
      acts := first + more;
    }
  }

  lemma RunNothing(h: Host, policy: Policy)
    ensures Run(h, policy, []) == h
  {
  }

  /** Calls one after the other. */
  lemma {:induction false} IssueMany(h: Host, policy: Policy, ts: seq<Transfer>, pushed: nat, consumed: nat, read: nat)
    returns (acts: seq<Action>, h': Host)
    requires Calm(h, pushed, consumed, read) && AllTransfers(ts) && policy.UpTo? && |h.Outstanding()| + |ts| <= policy.n
    requires pushed + |Flat(ts)| - consumed <= SAFE
    ensures Run(h, policy, acts) == h' && Calm(h', pushed + |Flat(ts)|, consumed, read)
    ensures h'.issued == h.issued + ts && h'.reports == h.reports
    ensures RingUsable(h.ring) && Pipe(h'.ring, h'.table) == IssueAll(Pipe(h.ring, h.table), ts)
    decreases |ts|
  {
    hide Calm, Run, Called, IsTransfer, ControlTransfers.Issue;
    CalmUsable(h, pushed, consumed, read);
    if ts == [] {
      acts, h' := [], h;
      RunNothing(h, policy);
    } else {
      var t := ts[0];
      var first := IssueCalm(h, policy, t, pushed, consumed, read);
      var h1 := Called(h, t);
      CalledFields(h, t);
      assert h1.Outstanding() == h.Outstanding() + [t];
      assert AllTransfers(ts[1..]);
      var more;
      more, h' := IssueMany(h1, policy, ts[1..], pushed + |t.trbs|, consumed, read);
      RunConcat(h, policy, first, more);
      acts := first + more;
      assert h.issued + [t] + ts[1..] == h.issued + ts;
    }
  }

  lemma CalmUsable(h: Host, pushed: nat, consumed: nat, read: nat)
    requires Calm(h, pushed, consumed, read)
    ensures RingUsable(h.ring) && |h.reports| <= |h.issued|
  {
    hide Stage;
    StageUsable(h.ring, pushed, consumed, read);
  }

  lemma CalledFields(h: Host, t: Transfer)
    requires RingUsable(h.ring)
    ensures Called(h, t).issued == h.issued + [t] && Called(h, t).reports == h.reports && Called(h, t).call == h.call
    ensures Called(h, t).ring == PushAll(h.ring, t.trbs) && Called(h, t).sources == h.sources
    ensures Pipe(Called(h, t).ring, Called(h, t).table) == ControlTransfers.Issue(Pipe(h.ring, h.table), t.trbs)
  {
  }

  lemma IssueCalm(h: Host, policy: Policy, t: Transfer, pushed: nat, consumed: nat, read: nat)
    returns (acts: seq<Action>)
    requires Calm(h, pushed, consumed, read) && IsTransfer(t) && policy.UpTo?
    requires |h.Outstanding()| < policy.n
    requires pushed + |t.trbs| - consumed <= SAFE
    ensures RingUsable(h.ring) && Run(h, policy, acts) == Called(h, t)
    ensures Calm(Called(h, t), pushed + |t.trbs|, consumed, read)
  {
    hide Run, Called, IsTransfer, PushAll, P.Inv, TypeOf;
    StageUsable(h.ring, pushed, consumed, read);
    NotLinks(t);
    acts := IssueRun(h, policy, t);
    PushAllStage(h.ring, t.trbs, pushed, consumed, read);
    CalledFields(h, t);
  }

  /** Events for n transfers all of whose reported blocks are read. */
  lemma {:induction false} ReportMany(h: Host, policy: Policy, n: nat, pushed: nat, consumed: nat, read: nat)
    returns (acts: seq<Action>, h': Host)
    requires Calm(h, pushed, consumed, read) && |h.reports| + n <= |h.issued|
    requires forall k :: |h.reports| <= k < |h.reports| + n ==> |Flat(h.issued[..k])| + 1 < consumed
    ensures Run(h, policy, acts) == h' && Calm(h', pushed, consumed, read)
    ensures h'.issued == h.issued && |h'.reports| == |h.reports| + n && h'.ring == h.ring
    decreases n
  {
    hide Run, Complete, Flat, IsTransfer, P.Inv;
    if n == 0 {
      acts, h' := [], h;
      RunNothing(h, policy);
    } else {
      var h1 := Next(h, policy, Event(0));
      RunOne(h, policy, Event(0));
      assert EventDue(h);
      var more;
      more, h' := ReportMany(h1, policy, n - 1, pushed, consumed, read);
      RunConcat(h, policy, [Event(0)], more);
      acts := [Event(0)] + more;
    }
  }

  // ----- ten at once -----

  /** Nine transfers of three blocks and one of two, then eleven of three. */
  function Script(three: Transfer, two: Transfer): seq<Transfer> { seq(9, _ => three) + [two] + seq(11, _ => three) }

  lemma ScriptBlocks(three: Transfer, two: Transfer, k: nat)
    requires |three.trbs| == 3 && |two.trbs| == 2 && k <= 21
    ensures |Flat(Script(three, two)[..k])| == if k <= 9 then 3 * k else 3 * k - 1
  {
    hide Flat;
    if k <= 9 {
      assert Script(three, two)[..k] == seq(k, _ => three);
      ManyBlocks(three, k);
    } else {
      var head, tail := seq(9, _ => three) + [two], seq(k - 10, _ => three);
      assert Script(three, two)[..k] == head + tail;
      FlatSplit(head + tail, 10);
      assert (head + tail)[..10] == head && (head + tail)[10..] == tail;
      FlatSnoc(seq(9, _ => three), two);
      ManyBlocks(three, 9);
      ManyBlocks(three, k - 10);
    }
  }

  /** The push that fills the slot before the link while the controller stands on the link. */
  lemma LastPush(r: P.Ring, data: Trb)
    requires Stage(r, 61, 31, SPACE)
    ensures RingUsable(r)
    ensures var q := P.AfterPush(r, data);
      && |q.slots| == RING_SIZE && q.producer.Idle? && q.consumer.Resting? && q.read == SPACE
      && CycleOf(q.slots[SPACE].w3) != q.ccs
      && |q.Pending()| == 31 && |q.consumed| == 31
  {
    hide TypeOf, Content, P.Contents, P.Cycles, P.ConsumerOk, P.ProducerOk, P.WordsWritten;
    StageUsable(r, 61, 31, SPACE);
  }

  /** Nothing the driver or the controller may do changes the host any more. */
  ghost predicate Dead(h: Host) { forall a: Action :: Next(h, UpTo(10), a) == h }

  lemma IsDead(h: Host)
    requires h.call.NoCall? && |h.Outstanding()| >= 10 && h.Reported() + 1 >= |h.sources|
    requires |h.ring.slots| == RING_SIZE && h.ring.producer.Idle? && h.ring.consumer.Resting?
    requires h.ring.read == SPACE && CycleOf(h.ring.slots[SPACE].w3) != h.ring.ccs
    ensures Dead(h)
  {
    hide IsTransfer, Complete;
  }

  /** Issue ten transfers, let the controller read them all and handle their events; issue ten of
      three blocks, let it read two blocks up to the link and handle the event of the first; issue
      one more. Then ten are outstanding and 31 blocks are unread; if no eleventh may be issued,
      everything stands still. */
  lemma TenCanDeadlock(base: Address, n: nat, three: Transfer, two: Transfer) returns (acts: seq<Action>)
    requires n >= 10
    requires IsTransfer(three) && |three.trbs| == 3 && IsTransfer(two)
    requires |two.trbs| == 2
    ensures var h := Run(NewDevice(base), UpTo(n), acts);
      h.issued == Script(three, two) && |h.Outstanding()| == 10 && |h.ring.Pending()| == 31 && Dead(h)
  {
    hide Run, Calm, Flat, IsTransfer, TypeOf, Toggles, Dead, Script;
    var h0 := NewDevice(base);
    assert Calm(h0, 0, 0, 0) by { StartCalm(base); }
    var a1, h1 := FirstTen(h0, UpTo(n), three, two);
    var a2, h2 := NextTen(h1, UpTo(n), three, two);
    var a3, h3 := OneMore(h2, UpTo(n), three, two);
    RunConcat(h0, UpTo(n), a1, a2);
    RunConcat(h0, UpTo(n), a1 + a2, a3);
    acts := a1 + a2 + a3;
  }

  lemma StartCalm(base: Address)
    ensures Calm(NewDevice(base), 0, 0, 0)
  {
    hide TypeOf, Toggles, P.Inv, ReaderOk, SourcesOk, Content;
    P.InitInv(RING_SIZE, base);
    StartInv(base);
  }

  lemma FirstTen(h: Host, policy: Policy, three: Transfer, two: Transfer) returns (acts: seq<Action>, h': Host)
    requires policy.UpTo? && policy.n >= 10 && Calm(h, 0, 0, 0) && h.issued == [] && h.reports == []
    requires IsTransfer(three) && |three.trbs| == 3 && IsTransfer(two)
    requires |two.trbs| == 2
    ensures Run(h, policy, acts) == h' && Calm(h', 29, 29, 29) && h'.issued == Script(three, two)[..10]
    ensures |h'.reports| == 10
  {
    hide Run, Calm, Flat, IsTransfer;
    var ts := Script(three, two)[..10];
    assert AllTransfers(ts);
    ScriptBlocks(three, two, 10);
    var a1, h1 := IssueMany(h, policy, ts, 0, 0, 0);
    assert h1.issued == ts;
    var a2, h2 := ReadMany(h1, policy, 29, 29, 0, 0);
    forall k | 0 <= k < 10 ensures |Flat(h2.issued[..k])| + 1 < 29 {
      ScriptBlocks(three, two, k);
      assert ts[..k] == Script(three, two)[..k];
    }
    var a3;
    a3, h' := ReportMany(h2, policy, 10, 29, 29, 29);
    RunConcat(h, policy, a1, a2);
    RunConcat(h, policy, a1 + a2, a3);
    acts := a1 + a2 + a3;
  }

  lemma NextTen(h: Host, policy: Policy, three: Transfer, two: Transfer) returns (acts: seq<Action>, h': Host)
    requires policy.UpTo? && policy.n >= 10 && Calm(h, 29, 29, 29) && h.issued == Script(three, two)[..10]
    requires |h.reports| == 10
    requires IsTransfer(three) && |three.trbs| == 3 && IsTransfer(two)
    requires |two.trbs| == 2
    ensures Run(h, policy, acts) == h' && Calm(h', 59, 31, 31) && h'.issued == Script(three, two)[..20]
    ensures |h'.reports| == 11
  {
    hide Run, Calm, Flat, IsTransfer;
    var ts := seq(10, _ => three);
    assert AllTransfers(ts);
    ManyBlocks(three, 10);
    var a1, h1 := IssueMany(h, policy, ts, 29, 29, 29);
    assert h1.issued == Script(three, two)[..20];
    var a2, h2 := ReadMany(h1, policy, 2, 59, 29, 29);
    ScriptBlocks(three, two, 10);
    assert h2.issued[..10] == Script(three, two)[..10];
    var a3;
    a3, h' := ReportMany(h2, policy, 1, 59, 31, 31);
    RunConcat(h, policy, a1, a2);
    RunConcat(h, policy, a1 + a2, a3);
    acts := a1 + a2 + a3;
  }

  lemma OneMore(h: Host, policy: Policy, three: Transfer, two: Transfer) returns (acts: seq<Action>, h': Host)
    requires policy.UpTo? && policy.n >= 10 && Calm(h, 59, 31, 31) && h.issued == Script(three, two)[..20]
    requires |h.reports| == 11
    requires IsTransfer(three) && |three.trbs| == 3 && |two.trbs| == 2
    ensures Run(h, policy, acts) == h' && h'.issued == Script(three, two) && |h'.Outstanding()| == 10
    ensures |h'.ring.Pending()| == 31 && Dead(h')
  {
    hide Run, Flat, IsTransfer, Stage, Dead, Called, TypeOf, Content, P.AfterPush;
    StageUsable(h.ring, 59, 31, 31);
    NotLinks(three);
    StageIdle(h.ring, 59, 31, 31);
    acts := IssueRun(h, policy, three);
    h' := Called(h, three);
    CalledFields(h, three);
    assert h'.issued == Script(three, two);
    var two' := three.trbs[..2];
    PushAllStage(h.ring, two', 59, 31, 31);
    var r := PushAll(h.ring, two');
    LastPush(r, three.trbs[2]);
    assert h'.ring == P.AfterPush(r, three.trbs[2]);
    ScriptBlocks(three, two, 11);
    assert h'.issued[..11] == Script(three, two)[..11];
    IsDead(h');
  }

  lemma StageIdle(r: P.Ring, pushed: nat, consumed: nat, read: nat)
    requires Stage(r, pushed, consumed, read)
    ensures r.producer.Idle? && r.consumer.Resting? && |r.consumed| == consumed
  {
  }

  /** In particular with any request and any buffer passed to ControlIn. */
  lemma TenRequestsCanDeadlock(base: Address, n: nat, s: SetupData, b: Buffer) returns (acts: seq<Action>)
    requires n >= 10 && s.Valid()
    ensures var h := Run(NewDevice(base), UpTo(n), acts);
      && h.issued == Script(Transfer(s, Some(b), ControlInTrbs(s, Some(b))), Transfer(s, None, ControlInTrbs(s, None)))
      && |h.ring.Pending()| == 31 && Dead(h)
  {
    hide TypeOf, Toggles, Run, Dead, IsTransfer, Script, SetupTrb, DataTrb, StatusTrb;
    BothAreTransfers(s, Some(b));
    BothAreTransfers(s, None);
    acts := TenCanDeadlock(base, n, Transfer(s, Some(b), ControlInTrbs(s, Some(b))),
      Transfer(s, None, ControlInTrbs(s, None)));
  }

  /** The bound in transfers is exact: at most thirty blocks are unread in every run if and only if at
      most nine transfers are admitted at once. */
  lemma SafeIffNine(base: Address, n: nat)
    ensures n <= 9 <==> forall acts :: |Run(NewDevice(base), UpTo(n), acts).ring.Pending()| <= SAFE
  {
    hide TypeOf, Toggles, Run, Dead, Script, Flat, CycleOf;
    if n <= 9 {
      forall acts
        ensures |Run(NewDevice(base), UpTo(n), acts).ring.Pending()| <= SAFE
      {
        NeverOverruns(base, UpTo(n), acts);
      }
    } else {
      var acts := TenRequestsCanDeadlock(base, n, SOME_REQUEST, Buffer(0, 18));
      assert |Run(NewDevice(base), UpTo(n), acts).ring.Pending()| > SAFE;
    }
  }

  // ----- eleven at once -----

  /** Ten reads of the device descriptor, of the first of which the controller has read two blocks. */
  lemma TenAtOnce(base: Address, policy: Policy) returns (acts: seq<Action>, h: Host)
    requires policy.UpTo? && policy.n >= 10
    ensures Run(NewDevice(base), policy, acts) == h && Calm(h, 30, 2, 2) && h.reports == []
    ensures h.issued == seq(10, _ => SomeTransfer()) && Inv(Pipe(h.ring, h.table), 0, h.issued)
  {
    hide Run, Calm, Flat, IsTransfer, TypeOf, Toggles, Inv, IssueAll, SomeTransfer;
    var h0, ts := NewDevice(base), seq(10, _ => SomeTransfer());
    assert Calm(h0, 0, 0, 0) by { StartCalm(base); }
    SomeIsTransfer();
    ThirtyBlocks(SomeTransfer());
    var a1, h1 := IssueMany(h0, policy, ts, 0, 0, 0);
    FlatOfNothing();
    IssueAllInv(Empty(base), 0, [], ts);
    assert [] + ts == ts;
    var a2;
    a2, h := ReadMany(h1, policy, 2, 30, 0, 0);
    ReadsKeepPipe(Pipe(h1.ring, h1.table), h.ring, ts);
    RunConcat(h0, policy, a1, a2);
    acts := a1 + a2;
  }

  lemma ReadsKeepPipe(p: Pipe, r: P.Ring, out: seq<Transfer>)
    requires Inv(p, 0, out) && r.slots == p.ring.slots && r.write == p.ring.write
    ensures Inv(p.(ring := r), 0, out)
  {
    hide Content, InMap, Flat, IsTransfer, Adv;
  }

  /** An eleventh one is issued before the event of the first is handled: its report is wrong. */
  lemma EleventhMisreports(base: Address, policy: Policy) returns (acts: seq<Action>)
    requires policy.UpTo? && policy.n >= 11
    ensures !ReportsOk(Run(NewDevice(base), policy, acts))
  {
    hide Run, Stage, Flat, IsTransfer, TypeOf, Toggles, Inv, Called, SomeTransfer, Complete, Rebuild;
    var h0, t := NewDevice(base), SomeTransfer();
    var a1, h := TenAtOnce(base, policy);
    SomeIsTransfer();
    StageUsable(h.ring, 30, 2, 2);
    StageIdle(h.ring, 30, 2, 2);
    assert h.Outstanding() == h.issued;
    var a2 := IssueRun(h, policy, t);
    var h1 := Called(h, t);
    CalledFields(h, t);
    ThirtyBlocks(t);
    Overrun(Pipe(h.ring, h.table), 0, h.issued, t, 0);
    FlatOfNothing();
    assert h1.issued[..0] == [] && h1.Outstanding() == h1.issued && h1.issued[0] == t;
    var h2 := Next(h1, policy, Event(0));
    assert h1.sources[1] == 1;
    assert !IsReportOf(h2.reports[0], h2.issued[0], 0);
    RunConcat(h0, policy, a1, a2);
    RunConcat(h0, policy, a1 + a2, [Event(0)]);
    RunOne(h1, policy, Event(0));
    acts := a1 + a2 + [Event(0)];
  }

  /** So that bound is exact as well: in every run each report is that of its own transfer if and only
      if at most ten transfers are admitted at once. */
  lemma RightIffTen(base: Address, n: nat)
    ensures n <= 10 <==> forall acts :: ReportsOk(Run(NewDevice(base), UpTo(n), acts))
  {
    hide TypeOf, Toggles, Run, ReportsOk, HostInv;
    if n <= 10 {
      StartInv(base);
      forall acts ensures ReportsOk(Run(NewDevice(base), UpTo(n), acts)) {
        RunInv(NewDevice(base), UpTo(n), acts);
        InvReports(Run(NewDevice(base), UpTo(n), acts));
      }
    } else {
      var acts := EleventhMisreports(base, UpTo(n));
      assert !ReportsOk(Run(NewDevice(base), UpTo(n), acts));
    }
  }

  lemma InvReports(h: Host)
    requires HostInv(h)
    ensures ReportsOk(h)
  {
  }
}
