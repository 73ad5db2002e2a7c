/**
  What the calls of send and recv on the channel of module MemChannel return: a recv that returns fewer bytes
  than asked has left nothing behind that was sent before it began, and a send that gives up has filled the ring.
 */
module ChannelCalls {
  import opened MemChannel

  // ---------------------------------------------------------------- sent and received only grow

  /** Sent and received are defined. */
  ghost predicate Countable(s: State) {
    && s.p.done <= |s.p.data| && (s.p.pc.SendPublish? ==> s.p.pc.n <= s.p.done)
    && (s.c.pc.RecvAdvance? ==> s.c.pc.n <= |s.c.out|)
  }

  lemma {:induction false} CopySent(s: State)
    requires Inv(s) && s.p.pc.SendCopy?
    ensures Countable(CopyStep(s)) && Sent(CopyStep(s).p) == Sent(s.p)
  {
  }

  lemma {:induction false} PublishSent(s: State)
    requires Inv(s) && s.p.pc.SendPublish?
    ensures Countable(PublishStep(s)) && Sent(s.p) <= Sent(PublishStep(s).p)
  {
    var n, p := s.p.pc.n, s.p;
    assert p.data[..p.done - n] <= p.data[..p.done];
  }

  lemma {:induction false} CountSent(p: Sender)
    requires p.pc.SendCount? && p.pc.n <= p.left && p.done <= |p.data|
    ensures CountStep(p).done <= |CountStep(p).data| && !CountStep(p).pc.SendPublish? && Sent(CountStep(p)) == Sent(p)
  {
    EndSendSent(p);
  }

  lemma {:induction false} TryAddSent(s: State)
    requires s.p.pc.TryAdd? && s.p.done <= |s.p.data|
    ensures var p' := TryAddStep(s).p; p'.done <= |p'.data| && !p'.pc.SendPublish? && Sent(p') == Sent(s.p)
  {
    EndSendSent(s.p);
  }

  lemma {:induction false} SentGrows(s: State)
    requires Inv(s)
    ensures ProducerStep(s).c == s.c && Countable(s) && Countable(ProducerStep(s))
    ensures Sent(s.p) <= Sent(ProducerStep(s).p)
  {
    match s.p.pc
    case SendCopy => CopySent(s);
    case SendPublish(_) => PublishSent(s);
    case SendCount(_) => CountSent(s.p);
    case TryAdd => TryAddSent(s);
    case _ =>
  }

  lemma {:induction false} ReceivedGrows(s: State)
    requires Inv(s)
    ensures var s' := ConsumerStep(s);
            && s'.p == s.p && (s'.c.pc.RecvAdvance? ==> s'.c.pc.n <= |s'.c.out|)
            && Received(s.c) <= Received(s'.c)
  {
    ConsumerKeeps(s);
    if s.c.pc.RecvAdvance? {
      var n := s.c.pc.n;
      TakeReceived(s.c, ConsumerStep(s).c, s.c.out[|s.c.out| - n..]);
    } else if !s.c.pc.AttachFree? && !s.c.pc.AttachAdvance? {
      assert Slot(s.ring, s.head, s.p.pc, 0);
      ReadReceived(s.c, s.ring[0]);
    }
  }

  // ---------------------------------------------------------------- a short recv has left nothing behind

  /** The bytes that the running round of the loop has stored but not yet subtracted from the size. */
  function Uncounted(c: Receiver): nat {
    match c.pc
    case RecvAdvance(n) => n
    case RecvTestFull(n) => n
    case RecvCount(n) => n
    case AttachCheck(n, inner) => if inner then 0 else n
    case AttachFree(n, inner) => if inner then 0 else n
    case AttachAdvance(n, inner) => if inner then 0 else n
    case _ => 0
  }

  /** A receiver that is about to test the status of a node still being filled has received `sent`. */
  ghost predicate CaughtUp(s: State, sent: seq<byte>)
    requires LocalsOk(s)
  {
    s.c.pc.RecvTestStatus? && s.ring[0].status.Appending? ==> sent <= Received(s.c)
  }

  /** Of the recv that was called in s0 with `size`: what s says about it when it has returned. */
  ghost predicate RecvReturned(s0: State, s: State, size: nat) {
    && Countable(s0) && Countable(s) && s0.c.results <= s.c.results
    && (|s.c.results| > |s0.c.results| ==>
          var r := s.c.results[|s0.c.results|];
          |r| <= size && (|r| < size ==> Sent(s0.p) <= Received(s.c)))
  }

  /** The recv that was called with `size` when `sent` was sent and the results `before` had been returned. */
  ghost predicate RecvSince(s: State, before: seq<seq<byte>>, size: nat, sent: seq<byte>) {
    && Inv(s) && sent <= Sent(s.p) && before <= s.c.results
    && if s.c.results == before
       then !s.c.pc.RecvIdle? && |s.c.out| + s.c.left == size + Uncounted(s.c) && CaughtUp(s, sent)
       else var r := s.c.results[|before|]; |r| <= size && (|r| < size ==> sent <= Received(s.c))
  }

  /** When the reading node is still being filled and is empty, everything that was sent has been received. */
  lemma {:induction false} NothingUnread(s: State)
    requires Inv(s) && !s.c.pc.AttachAdvance? && s.ring[0].status.Appending? && s.ring[0].head == s.ring[0].tail
    ensures Received(s.c) == Sent(s.p)
  {
    assert Slot(s.ring, s.head, s.p.pc, 0);
    FirstIsEmpty(s.ring);
    if s.head == 1 {
      assert Slot(s.ring, s.head, s.p.pc, 1);
      UnreadSnoc(s.ring, 1);
    }
  }

  lemma {:induction false} FirstIsEmpty(ring: seq<Node>)
    requires ring != [] && ring[0].head == ring[0].tail <= NODE_SIZE
    ensures Unread(ring[..1]) == []
  {
    UnreadSnoc(ring, 0);
    assert ring[..0] == [] && NodeUnread(ring[0]) == [];
  }

  /** The producer starts filling no node that the consumer is reading. */
  lemma TailStaysFull(s: State)
    requires Inv(s) && !s.c.pc.AttachAdvance? && LocalsOk(ProducerStep(s)) && ProducerStep(s).ring[0].status.Appending?
    ensures s.ring[0].status.Appending?
  {
    assert Slot(s.ring, s.head, s.p.pc, 0);
  }

  lemma {:induction false} ProducerKeepsRecv(s: State, before: seq<seq<byte>>, size: nat, sent: seq<byte>)
    requires RecvSince(s, before, size, sent) && !Disturbs(s)
    ensures RecvSince(ProducerStep(s), before, size, sent)
  {
    ProducerKeeps(s);
    SentGrows(s);
    if s.c.pc.RecvTestStatus? && ProducerStep(s).ring[0].status.Appending? {
      TailStaysFull(s);
    }
  }

  /** A step of the running recv either goes on counting its bytes, or returns them. */
  lemma {:induction false} ReadCounts(c: Receiver, t: Node, size: nat)
    requires ReceiverOk(c, t) && !c.pc.RecvIdle? && |c.out| + c.left == size + Uncounted(c)
    requires !c.pc.RecvAdvance? && !c.pc.AttachFree? && !c.pc.AttachAdvance?
    ensures var c' := ReadStep(c, t);
            if c'.pc.RecvIdle? then
              c'.results == c.results + [c.out] && |c.out| <= size &&
              (|c.out| < size ==> c.pc.RecvTestStatus? && t.status.Appending? && c.time <= 0)
            else c'.results == c.results && |c'.out| + c'.left == size + Uncounted(c')
  {
  }

  lemma {:induction false} ConsumerKeepsRecv(s: State, before: seq<seq<byte>>, size: nat, sent: seq<byte>)
    requires RecvSince(s, before, size, sent)
    ensures RecvSince(ConsumerStep(s), before, size, sent)
  {
    var s' := ConsumerStep(s);
    ConsumerKeeps(s);
    ReceivedGrows(s);
    if s.c.results == before {
      if !s.c.pc.RecvAdvance? && !s.c.pc.AttachFree? && !s.c.pc.AttachAdvance? {
        ReadCounts(s.c, s.ring[0], size);
        if s'.c.pc.RecvTestStatus? && s.ring[0].status.Appending? {
          NothingUnread(s);
        }
      }
    }
  }

  lemma {:induction false} RecvKept(s: State, a: Action, before: seq<seq<byte>>, size: nat, sent: seq<byte>)
    requires RecvSince(s, before, size, sent) && (a.Producer? ==> !Disturbs(s))
    ensures RecvSince(Step(s, a), before, size, sent)
  {
    match a
    case Producer => ProducerKeepsRecv(s, before, size, sent);
    case Consumer => ConsumerKeepsRecv(s, before, size, sent);
    case _ => StepKeeps(s, a);
  }

  /** The steps of an undisturbed run. */
  lemma {:induction false} UndisturbedAt(run: seq<Action>, n: nat)
    requires Undisturbed(run) && n < |run|
    ensures Inv(Run(run[..n])) && Run(run[..n + 1]) == Step(Run(run[..n]), run[n])
    ensures run[n].Producer? ==> !Disturbs(Run(run[..n]))
  {
    UndisturbedPrefix(run, n);
    RunInv(run[..n]);
    RunNext(run, n);
  }

  lemma {:induction false} UndisturbedPrefix(run: seq<Action>, n: nat)
    requires Undisturbed(run) && n <= |run|
    ensures Undisturbed(run[..n])
  {
    forall k | 0 <= k < n && run[..n][k].Producer? ensures !Disturbs(Run(run[..n][..k])) {
      assert run[..n][..k] == run[..k];
    }
  }

  /**
    In every undisturbed interleaving: a recv that begins as action k and returns fewer bytes than asked has
    received everything that was sent when it began. No recv returns more than asked.
   */
  lemma {:induction false} ShortRecvMeansAll(run: seq<Action>, k: nat)
    requires Undisturbed(run) && k < |run| && run[k].BeginRecv? && Run(run[..k]).c.pc.RecvIdle?
    ensures RecvReturned(Run(run[..k]), Run(run), run[k].size)
  {
    UndisturbedAt(run, k);
    RecvBegins(Run(run[..k]), run[k]);
    RecvFollowed(run, k, |run|, Run(run[..k]).c.results, run[k].size, Sent(Run(run[..k]).p));
    assert run[..|run|] == run;
  }

  lemma {:induction false} RecvBegins(s: State, a: Action)
    requires Inv(s) && a.BeginRecv? && s.c.pc.RecvIdle?
    ensures Countable(s) && RecvSince(Step(s, a), s.c.results, a.size, Sent(s.p))
  {
    StepKeeps(s, a);
  }

  lemma {:induction false} RecvFollowed(run: seq<Action>, k: nat, m: nat, before: seq<seq<byte>>, size: nat,
                                        sent: seq<byte>)
    requires Undisturbed(run) && k < m <= |run| && RecvSince(Run(run[..k + 1]), before, size, sent)
    ensures RecvSince(Run(run[..m]), before, size, sent)
    decreases m
  {
    if k + 1 < m {
      RecvFollowed(run, k, m - 1, before, size, sent);
      RecvNext(run, m - 1, before, size, sent);
    }
  }

  lemma {:induction false} RecvNext(run: seq<Action>, n: nat, before: seq<seq<byte>>, size: nat, sent: seq<byte>)
    requires Undisturbed(run) && n < |run| && RecvSince(Run(run[..n]), before, size, sent)
    ensures RecvSince(Run(run[..n + 1]), before, size, sent)
  {
    UndisturbedAt(run, n);
    RecvKept(Run(run[..n]), run[n], before, size, sent);
  }

  // ---------------------------------------------------------------- a short send has filled the ring

  /** Nodes before m_head are full and only the first one has been read from. */
  ghost predicate FilledAt(ring: seq<Node>, h: nat, i: nat)
    requires i < |ring|
  {
    (i < h ==> ring[i].head == NODE_SIZE) && (i > 0 ==> ring[i].tail == 0)
  }

  ghost predicate Filled(ring: seq<Node>, h: nat) {
    forall i: nat {:trigger FilledAt(ring, h, i)} | i < |ring| :: FilledAt(ring, h, i)
  }

  /** A node of the ring as the consumer sees it gets new contents. */
  lemma FilledUpdate(ring: seq<Node>, h: nat, j: nat, y: Node)
    requires Filled(ring, h) && j < |ring|
    requires (j < h ==> y.head == NODE_SIZE) && (j > 0 ==> y.tail == 0)
    ensures Filled(ring[j := y], h)
  {
    var ring' := ring[j := y];
    forall i: nat | i < |ring'| ensures FilledAt(ring', h, i) {
      assert FilledAt(ring, h, i);
    }
  }

  lemma FilledInsert(ring: seq<Node>, h: nat)
    requires Filled(ring, h) && h < |ring|
    ensures Filled(InsertAfter(ring, h, FreshNode()), h)
  {
    var ring' := InsertAfter(ring, h, FreshNode());
    forall i: nat | i < |ring'| ensures FilledAt(ring', h, i) {
      if i != h + 1 {
        assert FilledAt(ring, h, if i <= h then i else i - 1);
      }
    }
  }

  lemma FilledMove(ring: seq<Node>, h: nat)
    requires Filled(ring, h) && h + 1 < |ring| && ring[h].head == NODE_SIZE
    ensures Filled(ring, h + 1)
  {
    var h' := h + 1;
    forall i: nat | i < |ring| ensures FilledAt(ring, h', i) {
      assert FilledAt(ring, h, i);
    }
  }

  /** The consumer leaves the first node, which has become empty. */
  lemma FilledFree(ring: seq<Node>, h: nat, y: Node)
    requires Filled(ring, h) && 1 <= h < |ring| && y.tail == 0
    ensures Filled(ring[1..] + [y], h - 1)
  {
    var ring', h' := ring[1..] + [y], h - 1;
    forall i: nat | i < |ring'| ensures FilledAt(ring', h', i) {
      if i + 1 < |ring| {
        assert FilledAt(ring, h, i + 1);
      }
    }
  }

  ghost predicate RingFilled(s: State)
    requires s.head < |s.ring|
  {
    Filled(ReadRing(s), ReadHead(s))
  }

  /** A producer step that changes one node at most in its buffer, head or status. */
  lemma OneNodeFilled(s: State, s': State, j: nat)
    requires LocalsOk(s) && RingFilled(s) && j < |s.ring| && s'.head == s.head && s'.c.pc == s.c.pc
    requires |s'.ring| == |s.ring| && s'.ring == s.ring[j := s'.ring[j]] && s'.ring[j].tail == s.ring[j].tail
    requires s'.ring[j].head == s.ring[j].head || j == s.head
    ensures RingFilled(s')
  {
    var once := s.c.pc.AttachAdvance?;
    RotateUpdate(s.ring, j, s'.ring[j], once);
    var i := RotatePos(j, |s.ring|, once);
    assert FilledAt(ReadRing(s), ReadHead(s), i);
    FilledUpdate(ReadRing(s), ReadHead(s), i, s'.ring[j]);
  }

  lemma LinkFilled(s: State)
    requires Inv(s) && RingFilled(s) && s.p.pc.LinkNew? && !Disturbs(s)
    ensures LocalsOk(LinkStep(s)) && RingFilled(LinkStep(s))
  {
    LinkKeeps(s);
    RotateInsert(s.ring, s.head, FreshNode(), s.c.pc.AttachAdvance?);
    FilledInsert(ReadRing(s), ReadHead(s));
  }

  lemma MoveFilled(s: State)
    requires Inv(s) && RingFilled(s) && (s.p.pc.MoveToNew? || s.p.pc.MoveToNext?)
    ensures LocalsOk(MoveStep(s)) && RingFilled(MoveStep(s))
  {
    MoveKeeps(s);
    var n, once, h := |s.ring|, s.c.pc.AttachAdvance?, ReadHead(s);
    assert RotatePos(Succ(s.head, n), n, once) == Succ(h, n) == h + 1;
    RotateUpdate(s.ring, s.head, s.ring[s.head], once);
    FilledMove(ReadRing(s), h);
  }

  lemma CopyFilled(s: State)
    requires Inv(s) && RingFilled(s) && (s.p.pc.SendCopy? || s.p.pc.SendPublish?)
    ensures s.head < |ProducerStep(s).ring| && ProducerStep(s).head == s.head && RingFilled(ProducerStep(s))
  {
    OneNodeFilled(s, ProducerStep(s), s.head);
  }

  lemma MarkFilled(s: State)
    requires Inv(s) && RingFilled(s) && (s.p.pc.MarkAppending? || s.p.pc.MarkFull?)
    ensures s.head < |ProducerStep(s).ring| && ProducerStep(s).head == s.head && RingFilled(ProducerStep(s))
  {
    OneNodeFilled(s, ProducerStep(s), if s.p.pc.MarkFull? then Pred(s.head, |s.ring|) else s.head);
  }

  lemma ProducerFilled(s: State)
    requires Inv(s) && RingFilled(s) && !Disturbs(s)
    ensures LocalsOk(ProducerStep(s)) && RingFilled(ProducerStep(s))
  {
    ProducerKeeps(s);
    match s.p.pc
    case SendCopy => CopyFilled(s);
    case SendPublish(_) => CopyFilled(s);
    case LinkNew => LinkFilled(s);
    case MoveToNew => MoveFilled(s);
    case MoveToNext => MoveFilled(s);
    case MarkAppending => MarkFilled(s);
    case MarkFull => MarkFilled(s);
    case _ =>
  }

  lemma TakeFilled(s: State)
    requires Inv(s) && RingFilled(s) && s.c.pc.RecvAdvance?
    ensures s.head < |RecvAdvanceStep(s).ring| && RingFilled(RecvAdvanceStep(s))
  {
    assert FilledAt(s.ring, s.head, 0);
    FilledUpdate(s.ring, s.head, 0, RecvAdvanceStep(s).ring[0]);
  }

  lemma ConsumerFilled(s: State)
    requires Inv(s) && RingFilled(s)
    ensures LocalsOk(ConsumerStep(s)) && RingFilled(ConsumerStep(s))
  {
    ConsumerKeeps(s);
    if s.c.pc.RecvAdvance? {
      TakeFilled(s);
    } else if s.c.pc.AttachFree? {
      FreeFilled(s);
    } else if s.c.pc.AttachAdvance? {
      RotateUpdate(s.ring, s.head, s.ring[s.head], true);
    }
  }

  lemma FreeFilled(s: State)
    requires Inv(s) && RingFilled(s) && s.c.pc.AttachFree?
    ensures s.head >= 1 && RingFilled(AttachFreeStep(s))
  {
    var y := AttachFreeStep(s).ring[0];
    assert Slot(s.ring, s.head, s.p.pc, 0);
    FreeRing(s.ring, s.head, y, s.p.pc);
    FilledFree(s.ring, s.head, y);
    assert ReadRing(AttachFreeStep(s)) == s.ring[1..] + [y];
  }

  lemma StepFilled(s: State, a: Action)
    requires Inv(s) && RingFilled(s) && (a.Producer? ==> !Disturbs(s))
    ensures LocalsOk(Step(s, a)) && RingFilled(Step(s, a))
  {
    match a
    case Producer => ProducerFilled(s);
    case Consumer => ConsumerFilled(s);
    case _ => StepKeeps(s, a);
  }

  /** The full nodes behind the first one up to m_head. */
  lemma {:induction false} FullNodes(ring: seq<Node>, h: nat, k: nat)
    requires Filled(ring, h) && k <= h < |ring| && ring[h].head == NODE_SIZE
    ensures |Unread(ring[..k + 1])| >= k * NODE_SIZE
  {
    UnreadSnoc(ring, k);
    if k > 0 {
      FullNodes(ring, h, k - 1);
      assert FilledAt(ring, h, k);
      assert ring[..k] == ring[..k - 1 + 1];
    }
  }

  /** When the node behind m_head is not FREE, every node but the first holds a full load of unread bytes. */
  lemma {:induction false} Crowded(s: State)
    requires Inv(s) && RingFilled(s) && s.p.pc.LookNext? && !s.ring[Succ(s.head, |s.ring|)].status.Free?
    ensures |Received(s.c)| + (|s.ring| - 1) * NODE_SIZE <= |Sent(s.p)|
  {
    var n, once, ring, h := |s.ring|, s.c.pc.AttachAdvance?, ReadRing(s), ReadHead(s);
    RotateUpdate(s.ring, Succ(s.head, n), s.ring[Succ(s.head, n)], once);
    RotateUpdate(s.ring, s.head, s.ring[s.head], once);
    assert RotatePos(Succ(s.head, n), n, once) == Succ(h, n);
    assert Slot(ring, h, s.p.pc, Succ(h, n));
    assert h == n - 1;
    FullNodes(ring, h, h);
  }

  /** Of the send that was called in s0 with `data`: what s says about it when it has returned. */
  ghost predicate SendReturned(s0: State, s: State, data: seq<byte>) {
    && Countable(s0) && Countable(s) && s0.p.calls <= s.p.calls
    && (|s.p.calls| > |s0.p.calls| ==>
          var call := s.p.calls[|s0.p.calls|];
          && call.data == data && call.ret <= |data|
          && (call.ret < |data| ==> |Received(s0.c)| + (MAX_NODES - 1) * NODE_SIZE <= |Sent(s.p)|))
  }

  ghost predicate NoNodeFree(s: State, got: nat)
    requires Countable(s)
  {
    s.p.pc.TryAdd? && s.nodeCount >= MAX_NODES ==> got + (MAX_NODES - 1) * NODE_SIZE <= |Sent(s.p)|
  }

  ghost predicate SendSince(s: State, before: seq<SendCall>, data: seq<byte>, got: nat) {
    Inv(s) && RingFilled(s) && Countable(s) && got <= |Received(s.c)| && SendGoesOn(s, before, data, got)
  }

  lemma {:induction false} ConsumerKeepsSend(s: State, before: seq<SendCall>, data: seq<byte>, got: nat)
    requires SendSince(s, before, data, got)
    ensures SendSince(ConsumerStep(s), before, data, got)
  {
    ConsumerKeeps(s);
    ConsumerFilled(s);
    ReceivedGrows(s);
  }

  /** What the sender's calls and position say while the call is running, and once it has returned. */
  ghost predicate SendGoesOn(s: State, before: seq<SendCall>, data: seq<byte>, got: nat)
    requires Countable(s)
  {
    && before <= s.p.calls
    && if s.p.calls == before then !s.p.pc.SendIdle? && s.p.data == data && NoNodeFree(s, got)
       else var call := s.p.calls[|before|];
         && call.data == data && call.ret <= |data|
         && (call.ret < |data| ==> got + (MAX_NODES - 1) * NODE_SIZE <= |Sent(s.p)|)
  }

  /** The steps that end the call or bring it to the test of the node count. */
  lemma {:induction false} ProducerCalls(s: State, before: seq<SendCall>, data: seq<byte>, got: nat)
    requires SendSince(s, before, data, got) && s.p.calls == before && Countable(ProducerStep(s))
    requires Sent(s.p) <= Sent(ProducerStep(s).p)
    ensures SendGoesOn(ProducerStep(s), before, data, got)
  {
    if s.p.pc.LookNext? && !s.ring[Succ(s.head, |s.ring|)].status.Free? {
      Crowded(s);
    }
  }

  /** A send gives up only when the ring has all its nodes and its time is over. */
  lemma SendGivesUp(s: State)
    requires Inv(s) && !s.p.pc.SendIdle? && ProducerStep(s).p.pc.SendIdle?
    ensures s.p.done < |s.p.data| ==> s.nodeCount == MAX_NODES && s.p.time <= 0
  {
  }

  /** A call that has returned stays as it is recorded. */
  lemma {:induction false} CallsStay(s: State, before: seq<SendCall>, data: seq<byte>, got: nat)
    requires Inv(s) && Countable(s) && SendGoesOn(s, before, data, got) && s.p.calls != before
    requires Countable(ProducerStep(s)) && Sent(s.p) <= Sent(ProducerStep(s).p)
    ensures SendGoesOn(ProducerStep(s), before, data, got)
  {
    assert s.p.calls <= ProducerStep(s).p.calls;
  }

  lemma {:induction false} ProducerKeepsSend(s: State, before: seq<SendCall>, data: seq<byte>, got: nat)
    requires SendSince(s, before, data, got) && !Disturbs(s)
    ensures SendSince(ProducerStep(s), before, data, got)
  {
    ProducerKeeps(s);
    ProducerFilled(s);
    SentGrows(s);
    if s.p.calls == before {
      ProducerCalls(s, before, data, got);
    } else {
      CallsStay(s, before, data, got);
    }
  }

  lemma {:induction false} SendKept(s: State, a: Action, before: seq<SendCall>, data: seq<byte>, got: nat)
    requires SendSince(s, before, data, got) && (a.Producer? ==> !Disturbs(s))
    ensures SendSince(Step(s, a), before, data, got)
  {
    match a
    case Producer => ProducerKeepsSend(s, before, data, got);
    case Consumer => ConsumerKeepsSend(s, before, data, got);
    case _ =>
      StepKeeps(s, a);
      StepFilled(s, a);
  }

  lemma {:induction false} RunFilled(run: seq<Action>, n: nat)
    requires Undisturbed(run) && n <= |run|
    ensures Inv(Run(run[..n])) && RingFilled(Run(run[..n]))
  {
    if n == 0 {
      InitInv();
    } else {
      RunFilled(run, n - 1);
      UndisturbedAt(run, n - 1);
      StepKeeps(Run(run[..n - 1]), run[n - 1]);
      StepFilled(Run(run[..n - 1]), run[n - 1]);
    }
  }

  lemma {:induction false} SendBegins(s: State, a: Action)
    requires Inv(s) && RingFilled(s) && a.BeginSend? && s.p.pc.SendIdle?
    ensures Countable(s) && SendSince(Step(s, a), s.p.calls, a.data, |Received(s.c)|)
  {
    StepKeeps(s, a);
    StepFilled(s, a);
  }

  lemma {:induction false} SendNext(run: seq<Action>, n: nat, before: seq<SendCall>, data: seq<byte>, got: nat)
    requires Undisturbed(run) && n < |run| && SendSince(Run(run[..n]), before, data, got)
    ensures SendSince(Run(run[..n + 1]), before, data, got)
  {
    UndisturbedAt(run, n);
    SendKept(Run(run[..n]), run[n], before, data, got);
  }

  lemma {:induction false} SendFollowed(run: seq<Action>, k: nat, m: nat, before: seq<SendCall>, data: seq<byte>,
                                        got: nat)
    requires Undisturbed(run) && k < m <= |run| && SendSince(Run(run[..k + 1]), before, data, got)
    ensures SendSince(Run(run[..m]), before, data, got)
    decreases m
  {
    if k + 1 < m {
      SendFollowed(run, k, m - 1, before, data, got);
      SendNext(run, m - 1, before, data, got);
    }
  }

  /**
    In every undisturbed interleaving: a send that begins as action k and returns a smaller count than asked
    has met a ring of 8 nodes with seven full loads of bytes that had not been received.
   */
  lemma {:induction false} ShortSendMeansFull(run: seq<Action>, k: nat)
    requires Undisturbed(run) && k < |run| && run[k].BeginSend? && Run(run[..k]).p.pc.SendIdle?
    ensures SendReturned(Run(run[..k]), Run(run), run[k].data)
  {
    RunFilled(run, k);
    UndisturbedAt(run, k);
    SendBegins(Run(run[..k]), run[k]);
    SendFollowed(run, k, |run|, Run(run[..k]).p.calls, run[k].data, |Received(Run(run[..k]).c)|);
    assert run[..|run|] == run;
  }

  // ---------------------------------------------------------------- calls return

  /** How often a call may still wait. */
  function Waits(time: int): nat { if time > 0 then (time + 99) / 100 else 0 }

  /** How far a recv is from taking bytes, leaving a node, waiting or returning. */
  function RecvRank(s: State): nat
    requires LocalsOk(s)
  {
    var nothing := s.ring[0].head == s.ring[0].tail || s.c.left == 0;
    var idle := if s.c.left == 0 then 15 else 0;
    match s.c.pc
    case RecvIdle => 0
    case RecvMeasure => if nothing then 12 else 3
    case RecvCopy(n) => if n == 0 then 11 else 2
    case RecvAdvance(n) => if n == 0 then 10 else 1
    case RecvTestFull(_) => 9
    case AttachCheck(_, inner) => if inner then 4 + idle else 8
    case AttachFree(_, inner) => if inner then 1 + idle else 1
    case AttachAdvance(_, inner) => if inner then 13 + idle else 13
    case RecvCount(_) => 7
    case RecvTestEmpty => 6 + idle
    case RecvTestStatus => 5 + idle
  }

  /** The bytes not received, the nodes up to m_head and the waits that are left. */
  ghost function RecvTasks(s: State): nat
    requires Inv(s)
  {
    assert Received(s.c) <= Sent(s.p) by {
      InvGivesPromise(s);
    }
    |Sent(s.p)| - |Received(s.c)| + ReadHead(s) + Waits(s.c.time)
  }

  ghost function RecvWork(s: State): nat
    requires Inv(s)
  {
    32 * RecvTasks(s) + RecvRank(s)
  }

  /** Every step of a running recv brings it closer to its return. */
  lemma {:induction false} RecvWorks(s: State)
    requires Inv(s) && !s.c.pc.RecvIdle?
    ensures Inv(ConsumerStep(s)) && (ConsumerStep(s).c.pc.RecvIdle? || RecvWork(ConsumerStep(s)) < RecvWork(s))
  {
    ConsumerKeeps(s);
    if s.c.pc.RecvAdvance? {
      TakeWorks(s);
    } else if s.c.pc.AttachFree? {
      FreeWorks(s);
    } else if s.c.pc.AttachAdvance? {
      RotateUpdate(s.ring, s.head, s.ring[s.head], true);
    } else {
      ReadWorks(s);
    }
  }

  lemma {:induction false} TakeWorks(s: State)
    requires Inv(s) && s.c.pc.RecvAdvance?
    ensures Inv(RecvAdvanceStep(s)) && RecvWork(RecvAdvanceStep(s)) < RecvWork(s)
  {
    var n := s.c.pc.n;
    RecvAdvanceKeeps(s);
    TakeReceived(s.c, RecvAdvanceStep(s).c, s.c.out[|s.c.out| - n..]);
  }

  lemma {:induction false} FreeWorks(s: State)
    requires Inv(s) && s.c.pc.AttachFree?
    ensures Inv(AttachFreeStep(s)) && RecvWork(AttachFreeStep(s)) < RecvWork(s)
  {
    FreeKeeps(s);
    assert Slot(s.ring, s.head, s.p.pc, 0);
    assert ReadHead(AttachFreeStep(s)) == s.head - 1;
  }

  lemma {:induction false} ReadWorks(s: State)
    requires Inv(s) && !s.c.pc.RecvIdle?
    requires !s.c.pc.RecvAdvance? && !s.c.pc.AttachFree? && !s.c.pc.AttachAdvance?
    ensures Inv(ConsumerStep(s)) && (ConsumerStep(s).c.pc.RecvIdle? || RecvWork(ConsumerStep(s)) < RecvWork(s))
  {
    ReadKeeps(s);
    assert Slot(s.ring, s.head, s.p.pc, 0);
    ReadReceived(s.c, s.ring[0]);
  }

  /** At most n steps of a running recv. */
  function ConsumerAlone(s: State, n: nat): State
    decreases n
  {
    if n == 0 || !LocalsOk(s) || s.c.pc.RecvIdle? then s else ConsumerAlone(ConsumerStep(s), n - 1)
  }

  /** A recv returns when the other thread rests, whatever that thread is doing. */
  lemma {:induction false} RecvReturns(s: State, n: nat)
    requires Inv(s) && RecvWork(s) <= n
    ensures ConsumerAlone(s, n).c.pc.RecvIdle?
    decreases n
  {
    if !s.c.pc.RecvIdle? {
      var s' := RecvNextState(s);
      if !s'.c.pc.RecvIdle? {
        RecvReturns(s', n - 1);
      }
    }
  }

  lemma {:induction false} RecvNextState(s: State) returns (s': State)
    requires Inv(s) && !s.c.pc.RecvIdle?
    ensures s' == ConsumerStep(s) && Inv(s') && (s'.c.pc.RecvIdle? || RecvWork(s') < RecvWork(s)) && RecvWork(s) > 0
  {
    RecvWorks(s);
    s' := ConsumerStep(s);
  }

  /** How far a send is from moving to another node, waiting or returning. */
  function SendRank(pc: ProducerPc): nat {
    match pc
    case SendIdle => 0
    case MoveToNew => 1
    case MoveToNext => 1
    case LinkNew => 2
    case TryAdd => 3
    case LookNext => 4
    case SendCount(_) => 5
    case SendPublish(_) => 6
    case SendCopy => 7
    case MarkFull => 8
    case MarkAppending => 9
  }

  /** The nodes that may still become m_head, and the waits that are left. */
  ghost function SendWork(s: State): nat
    requires Inv(s)
  {
    10 * (MAX_NODES - ReadHead(s) + Waits(s.p.time)) + SendRank(s.p.pc)
  }

  lemma {:induction false} SendWorks(s: State)
    requires Inv(s) && !s.p.pc.SendIdle? && !s.c.pc.AttachAdvance?
    ensures var s' := ProducerStep(s);
            Inv(s') && s'.c == s.c && (s'.p.pc.SendIdle? || SendWork(s') < SendWork(s))
  {
    ProducerKeeps(s);
  }

  /** At most n steps of a running send. */
  function ProducerAlone(s: State, n: nat): State
    decreases n
  {
    if n == 0 || !LocalsOk(s) || s.p.pc.SendIdle? then s else ProducerAlone(ProducerStep(s), n - 1)
  }

  /** A send returns when the other thread rests, unless that is between freeing and leaving a node. */
  lemma {:induction false} SendReturns(s: State, n: nat)
    requires Inv(s) && !s.c.pc.AttachAdvance? && SendWork(s) <= n
    ensures ProducerAlone(s, n).p.pc.SendIdle?
    decreases n
  {
    if !s.p.pc.SendIdle? {
      var s' := SendNextState(s);
      if !s'.p.pc.SendIdle? {
        SendReturns(s', n - 1);
      }
    }
  }

  lemma {:induction false} SendNextState(s: State) returns (s': State)
    requires Inv(s) && !s.p.pc.SendIdle? && !s.c.pc.AttachAdvance?
    ensures s' == ProducerStep(s) && Inv(s') && s'.c == s.c
    ensures (s'.p.pc.SendIdle? || SendWork(s') < SendWork(s)) && SendWork(s) > 0
  {
    SendWorks(s);
    s' := ProducerStep(s);
  }
}
