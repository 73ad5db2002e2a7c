/**
  The in-memory channel of cluster/memChannel.h: a byte pipe with one producer thread (`send`)
  and one consumer thread (`recv`) over a growable ring of fixed-size nodes.

  Every step below is one shared-memory access of the C++ code (or a group of accesses that
  only one thread can see), so a sequence of actions is one interleaving of the two threads.
  `Run` executes such a sequence; the theorems at the end hold for all of them.
 */
module MemChannel {
  const NODE_SIZE: nat := 1024 * 32
  const MAX_NODES: nat := 8

  import Bytes

  type byte = Bytes.byte

  datatype Status = Free | Appending | Full

  datatype RawNode = Node(buf: seq<byte>, head: nat, tail: nat, status: Status)

  type Node = n: RawNode | n.tail <= n.head <= |n.buf| == NODE_SIZE witness Node(seq(NODE_SIZE, _ => 0), 0, 0, Free)

  /** Where the producer is inside `send`; the comment names the source line about to run. */
  datatype ProducerPc =
    | SendIdle
    | SendCopy              // 145-148
    | SendPublish(n: nat)   // 150
    | SendCount(n: nat)     // 152
    | LookNext              // 72
    | TryAdd                // 51-54
    | LinkNew               // 84-86
    | MoveToNew             // 88
    | MoveToNext            // 95-96
    | MarkAppending         // 97
    | MarkFull              // 89, 99

  /** Where the consumer is inside `recv`. `inner` tells which of the two calls (171 or 191) is running. */
  datatype ConsumerPc =
    | RecvIdle
    | RecvMeasure                         // 163
    | RecvCopy(n: nat)                    // 166-167
    | RecvAdvance(n: nat)                 // 168
    | RecvTestFull(n: nat)                // 170
    | AttachCheck(n: nat, inner: bool)    // 107-109
    | AttachFree(n: nat, inner: bool)     // 111-113
    | AttachAdvance(n: nat, inner: bool)  // 114
    | RecvCount(n: nat)                   // 174
    | RecvTestEmpty                       // 177
    | RecvTestStatus                      // 179-187

  /** A finished call of `send`: its argument and the count it returned. */
  datatype SendCall = SendCall(data: seq<byte>, ret: nat)

  /** `data` and `left` are the arguments of the running send, `done` is its sendSize. */
  datatype Sender = Sender(pc: ProducerPc, data: seq<byte>, done: nat, left: nat, time: int, calls: seq<SendCall>)

  /** `out` holds the bytes stored by the running recv, `results` those of the finished ones. */
  datatype Receiver = Receiver(pc: ConsumerPc, out: seq<byte>, left: nat, time: int, results: seq<seq<byte>>)

  /**
    `ring` lists the nodes along their next links, starting at m_tail; `head` is the position of m_head.
    `failed` records a violation of the assertion on line 107.
   */
  datatype State = State(ring: seq<Node>, head: nat, nodeCount: nat, p: Sender, c: Receiver, failed: bool)

  datatype Action =
    | BeginSend(data: seq<byte>, time: int)
    | Producer
    | BeginRecv(size: nat, time: int)
    | Consumer

  // ---------------------------------------------------------------- the code

  function Min(a: int, b: int): int { if a < b then a else b }

  function FreshNode(): Node { Node(seq(NODE_SIZE, _ => 0), 0, 0, Appending) }

  function Init(): State {
    State([FreshNode()], 0, 1, Sender(SendIdle, [], 0, 0, 0, []), Receiver(RecvIdle, [], 0, 0, []), false)
  }

  /** Following `next` once from position i of a ring of n nodes, and back. */
  function Succ(i: nat, n: nat): nat { if i + 1 < n then i + 1 else 0 }
  function Pred(i: nat, n: nat): nat
    requires i < n
  {
    if i == 0 then n - 1 else i - 1
  }

  /** The sender is done with m_head, which is full. */
  predicate Leaving(pc: ProducerPc) {
    pc.LookNext? || pc.TryAdd? || pc.LinkNew? || pc.MoveToNew? || pc.MoveToNext?
  }

  /** The sender's locals fit the argument buffer and the node being filled. */
  predicate SenderOk(p: Sender, node: Node) {
    match p.pc
    case SendIdle => p.done == 0
    case SendPublish(n) =>
      && n <= p.done && n <= p.left && p.done - n + p.left == |p.data|
      && node.head + n <= NODE_SIZE && (n < p.left ==> node.head + n == NODE_SIZE)
      && node.buf[node.head..node.head + n] == p.data[p.done - n..p.done]
    case SendCount(n) =>
      n <= p.done && n <= p.left && p.done - n + p.left == |p.data| && (n < p.left ==> node.head == NODE_SIZE)
    case _ =>
      && p.done + p.left == |p.data|
      && (Leaving(p.pc) ==> node.head == NODE_SIZE)
  }

  /** The receiver's locals fit the node being read. */
  predicate ReceiverOk(c: Receiver, node: Node) {
    match c.pc
    case RecvIdle => c.out == []
    case RecvCopy(n) => n <= c.left && node.tail + n <= node.head
    case RecvAdvance(n) =>
      n <= |c.out| && n <= c.left && node.tail + n <= node.head &&
          c.out[|c.out| - n..] == node.buf[node.tail..node.tail + n]
    case RecvTestFull(n) => n <= c.left
    case AttachCheck(n, inner) => node.status.Full? && (inner || n <= c.left)
    case AttachFree(n, inner) => node.status.Full? && node.tail == node.head && (inner || n <= c.left)
    case AttachAdvance(n, inner) => node.tail == 0 && (inner || n <= c.left)
    case RecvCount(n) => n <= c.left
    case _ => true
  }

  predicate LocalsOk(s: State) {
    s.head < |s.ring| && SenderOk(s.p, s.ring[s.head]) && ReceiverOk(s.c, s.ring[0])
  }

  /** memcpy into a node buffer at position `at`. */
  function Splice(buf: seq<byte>, at: nat, chunk: seq<byte>): (r: seq<byte>)
    requires at + |chunk| <= |buf|
    ensures |r| == |buf|
    ensures r[..at] == buf[..at]
    ensures r[at..at + |chunk|] == chunk
    ensures r[at + |chunk|..] == buf[at + |chunk|..]
  {
    buf[..at] + chunk + buf[at + |chunk|..]
  }

  function EndSend(p: Sender): Sender {
    p.(pc := SendIdle, calls := p.calls + [SendCall(p.data, p.done)], data := [], done := 0, left := 0)
  }

  function HeadNode(s: State): Node
    requires LocalsOk(s)
  {
    s.ring[s.head]
  }

  function CopyStep(s: State): State
    requires LocalsOk(s) && s.p.pc.SendCopy?
  {
    var p, h := s.p, HeadNode(s);
    var n := Min(NODE_SIZE - h.head, p.left);
    s.(ring := s.ring[s.head := h.(buf := Splice(h.buf, h.head, p.data[p.done..p.done + n]))],
       p := p.(done := p.done + n, pc := SendPublish(n)))
  }

  function PublishStep(s: State): State
    requires LocalsOk(s) && s.p.pc.SendPublish?
  {
    var n, h := s.p.pc.n, HeadNode(s);
    s.(ring := s.ring[s.head := h.(head := h.head + n)], p := s.p.(pc := SendCount(n)))
  }

  /** Line 152: stop when everything is sent, else look for another node. */
  function CountStep(p: Sender): Sender
    requires p.pc.SendCount? && p.pc.n <= p.left
  {
    if p.left - p.pc.n == 0 then EndSend(p) else p.(left := p.left - p.pc.n, pc := LookNext)
  }

  function LookNextStep(s: State): State
    requires LocalsOk(s)
  {
    s.(p := s.p.(pc := if s.ring[Succ(s.head, |s.ring|)].status.Free? then MoveToNext else TryAdd))
  }

  function TryAddStep(s: State): State {
    if s.nodeCount < MAX_NODES then s.(nodeCount := s.nodeCount + 1, p := s.p.(pc := LinkNew))
    else if s.p.time <= 0 then s.(p := EndSend(s.p))
    else s.(p := s.p.(time := s.p.time - 100, pc := LookNext))
  }

  function InsertAfter(ring: seq<Node>, h: nat, x: Node): seq<Node>
    requires h < |ring|
  {
    ring[..h + 1] + [x] + ring[h + 1..]
  }

  function LinkStep(s: State): State
    requires LocalsOk(s)
  {
    s.(ring := InsertAfter(s.ring, s.head, FreshNode()), p := s.p.(pc := MoveToNew))
  }

  function MoveStep(s: State): State
    requires LocalsOk(s)
  {
    s.(head := Succ(s.head, |s.ring|), p := s.p.(pc := if s.p.pc.MoveToNew? then MarkFull else MarkAppending))
  }

  function MarkAppendingStep(s: State): State
    requires LocalsOk(s)
  {
    s.(ring := s.ring[s.head := HeadNode(s).(status := Appending)], p := s.p.(pc := MarkFull))
  }

  function MarkFullStep(s: State): State
    requires LocalsOk(s)
  {
    var i := Pred(s.head, |s.ring|);
    s.(ring := s.ring[i := s.ring[i].(status := Full)], p := s.p.(pc := SendCopy))
  }

  /** One shared access of the producer thread. */
  function ProducerStep(s: State): State
    requires LocalsOk(s)
  {
    match s.p.pc
    case SendIdle => s
    case SendCopy => CopyStep(s)
    case SendPublish(_) => PublishStep(s)
    case SendCount(_) => s.(p := CountStep(s.p))
    case LookNext => LookNextStep(s)
    case TryAdd => TryAddStep(s)
    case LinkNew => LinkStep(s)
    case MoveToNew => MoveStep(s)
    case MoveToNext => MoveStep(s)
    case MarkAppending => MarkAppendingStep(s)
    case MarkFull => MarkFullStep(s)
  }

  function EndRecv(c: Receiver): Receiver {
    c.(pc := RecvIdle, results := c.results + [c.out], out := [], left := 0)
  }

  /** What follows tryAttachToNextNode: line 174 after the first call, the loop head after the second. */
  function AfterAttach(n: nat, inner: bool): ConsumerPc {
    if inner then RecvMeasure else RecvCount(n)
  }

  function RecvAdvanceStep(s: State): State
    requires LocalsOk(s) && s.c.pc.RecvAdvance?
  {
    var n, t := s.c.pc.n, s.ring[0];
    s.(ring := s.ring[0 := t.(tail := t.tail + n)],
       c := s.c.(pc := if t.tail + n == t.head then RecvTestFull(n) else RecvCount(n)))
  }

  function AttachFreeStep(s: State): State
    requires LocalsOk(s) && s.c.pc.AttachFree?
  {
    s.(ring := s.ring[0 := s.ring[0].(head := 0, tail := 0, status := Free)],
       c := s.c.(pc := AttachAdvance(s.c.pc.n, s.c.pc.inner)))
  }

  function AttachAdvanceStep(s: State): State
    requires LocalsOk(s) && s.c.pc.AttachAdvance?
  {
    s.(ring := s.ring[1..] + [s.ring[0]], head := Pred(s.head, |s.ring|),
       c := s.c.(pc := AfterAttach(s.c.pc.n, s.c.pc.inner)))
  }

  /** The consumer steps that write nothing but the receiver's own variables; `t` is m_tail. */
  function ReadStep(c: Receiver, t: Node): Receiver
    requires ReceiverOk(c, t)
    requires !c.pc.RecvAdvance? && !c.pc.AttachFree? && !c.pc.AttachAdvance?
  {
    match c.pc
    case RecvIdle => c
    case RecvMeasure => c.(pc := RecvCopy(Min(t.head - t.tail, c.left)))
    case RecvCopy(n) => c.(out := c.out + t.buf[t.tail..t.tail + n], pc := RecvAdvance(n))
    case RecvTestFull(n) => c.(pc := if t.status.Full? then AttachCheck(n, false) else RecvCount(n))
    case AttachCheck(n, inner) => c.(pc := if t.tail == t.head then AttachFree(n, inner) else AfterAttach(n, inner))
    case RecvCount(n) =>
      if c.left - n == 0 then EndRecv(c) else c.(left := c.left - n, pc := RecvTestEmpty)
    case RecvTestEmpty => c.(pc := if t.head == t.tail then RecvTestStatus else RecvMeasure)
    case RecvTestStatus =>
      if !t.status.Appending? then c.(pc := AttachCheck(0, true))
      else if c.time > 0 then c.(time := c.time - 100, pc := RecvMeasure)
      else EndRecv(c)
  }

  /** One shared access of the consumer thread. */
  function ConsumerStep(s: State): State
    requires LocalsOk(s)
  {
    if s.c.pc.RecvAdvance? then RecvAdvanceStep(s)
    else if s.c.pc.AttachFree? then AttachFreeStep(s)
    else if s.c.pc.AttachAdvance? then AttachAdvanceStep(s)
    else s.(c := ReadStep(s.c, s.ring[0]), failed := s.failed || (s.c.pc.AttachCheck? && s.ring[0].status.Free?))
  }

  function Step(s: State, a: Action): State
    requires LocalsOk(s)
  {
    match a
    case BeginSend(data, time) =>
      if s.p.pc.SendIdle? then s.(p := s.p.(pc := SendCopy, data := data, left := |data|, time := time)) else s
    case Producer => ProducerStep(s)
    case BeginRecv(size, time) =>
      if s.c.pc.RecvIdle? then s.(c := s.c.(pc := RecvMeasure, left := size, time := time)) else s
    case Consumer => ConsumerStep(s)
  }

  // ---------------------------------------------------------------- the specification

  /** All bytes accepted by the finished sends, in order. */
  ghost function Accepted(calls: seq<SendCall>): seq<byte> {
    if calls == [] then []
    else
      var c := calls[|calls| - 1];
      Accepted(calls[..|calls| - 1]) + c.data[..Min(c.ret, |c.data|)]
  }

  ghost function Flatten(parts: seq<seq<byte>>): seq<byte> {
    if parts == [] then [] else Flatten(parts[..|parts| - 1]) + parts[|parts| - 1]
  }

  /** Every byte made visible to the consumer so far. */
  ghost function Sent(p: Sender): seq<byte>
    requires p.done <= |p.data|
    requires p.pc.SendPublish? ==> p.pc.n <= p.done
  {
    Accepted(p.calls) + p.data[..if p.pc.SendPublish? then p.done - p.pc.n else p.done]
  }

  /** Every byte taken out of the ring so far. */
  ghost function Received(c: Receiver): seq<byte>
    requires c.pc.RecvAdvance? ==> c.pc.n <= |c.out|
  {
    Flatten(c.results) + c.out[..if c.pc.RecvAdvance? then |c.out| - c.pc.n else |c.out|]
  }

  ghost function NodeUnread(n: Node): seq<byte> { n.buf[n.tail..n.head] }

  /** The unread bytes of a list of nodes, in order. */
  ghost function Unread(nodes: seq<Node>): seq<byte> {
    if nodes == [] then [] else Unread(nodes[..|nodes| - 1]) + NodeUnread(nodes[|nodes| - 1])
  }

  ghost function Rotate(ring: seq<Node>, once: bool): seq<Node> {
    if once && |ring| > 0 then ring[1..] + [ring[0]] else ring
  }

  ghost function RotatePos(i: nat, n: nat, once: bool): nat
    requires i < n
  {
    if once then Pred(i, n) else i
  }

  /** The ring from the node read next: between lines 113 and 114 the consumer has already left m_tail. */
  ghost function ReadRing(s: State): seq<Node> { Rotate(s.ring, s.c.pc.AttachAdvance?) }

  ghost function ReadHead(s: State): nat
    requires s.head < |s.ring|
  {
    RotatePos(s.head, |s.ring|, s.c.pc.AttachAdvance?)
  }

  /** The status the protocol gives to position i of the read ring when m_head is at position h. */
  ghost function Expected(pc: ProducerPc, h: nat, i: nat): Status {
    if i < h then (if (pc.MarkAppending? || pc.MarkFull?) && i == h - 1 then Appending else Full)
    else if i == h then (if pc.MarkAppending? then Free else Appending)
    else (if pc.MoveToNew? && i == h + 1 then Appending else Free)
  }

  /** What the protocol says about position i: its status, and that it is empty when it lies after m_head. */
  ghost predicate Slot(ring: seq<Node>, h: nat, pc: ProducerPc, i: nat)
    requires i < |ring|
  {
    && ring[i].status == Expected(pc, h, i)
    && (h < i || ((pc.MarkAppending? || pc.MarkFull?) && h == i) ==> ring[i].head == 0)
  }

  ghost predicate RingOk(ring: seq<Node>, h: nat, pc: ProducerPc) {
    && h < |ring|
    && (forall i: nat {:trigger Slot(ring, h, pc, i)} | i < |ring| :: Slot(ring, h, pc, i))
    && (pc.MoveToNew? || pc.MoveToNext? ==> h + 1 < |ring|)
    && (pc.MarkAppending? || pc.MarkFull? ==> 1 <= h)
  }

  ghost predicate Fifo(ring: seq<Node>, h: nat, p: Sender, c: Receiver) {
    && h < |ring|
    && p.done <= |p.data| && (p.pc.SendPublish? ==> p.pc.n <= p.done)
    && (c.pc.RecvAdvance? ==> c.pc.n <= |c.out|)
    && Received(c) + Unread(ring[..h + 1]) == Sent(p)
  }

  ghost predicate CountOk(s: State) {
    s.nodeCount == |s.ring| + (if s.p.pc.LinkNew? then 1 else 0) && s.nodeCount <= MAX_NODES
  }

  /** The inductive invariant. */
  ghost predicate Inv(s: State) {
    && LocalsOk(s)
    && RingOk(ReadRing(s), ReadHead(s), s.p.pc)
    && Fifo(ReadRing(s), ReadHead(s), s.p, s.c)
    && CountOk(s)
    && !s.failed
  }

  // ---------------------------------------------------------------- lemmas about Unread

  lemma UnreadSnoc(nodes: seq<Node>, h: nat)
    requires h < |nodes|
    ensures Unread(nodes[..h + 1]) == Unread(nodes[..h]) + NodeUnread(nodes[h])
  {
    assert nodes[..h + 1][..h] == nodes[..h];
  }

  lemma {:induction false} UnreadCons(n: Node, nodes: seq<Node>)
    ensures Unread([n] + nodes) == NodeUnread(n) + Unread(nodes)
  {
    var all, k := [n] + nodes, |nodes| - 1;
    if nodes == [] {
      assert all[..0] == [];
    } else {
      UnreadCons(n, nodes[..k]);
      assert all[..k + 1] == [n] + nodes[..k];
      Assoc(NodeUnread(n), Unread(nodes[..k]), NodeUnread(nodes[k]));
    }
  }

  lemma Assoc(a: seq<byte>, b: seq<byte>, c: seq<byte>)
    ensures (a + b) + c == a + (b + c)
  {
  }

  /** The unread bytes up to position h begin with those of the first node. */
  lemma UnreadFirst(ring: seq<Node>, h: nat, y: Node)
    requires h < |ring|
    ensures Unread(ring[..h + 1]) == NodeUnread(ring[0]) + Unread(ring[1..h + 1])
    ensures Unread(ring[0 := y][..h + 1]) == NodeUnread(y) + Unread(ring[1..h + 1])
  {
    UnreadCons(ring[0], ring[1..h + 1]);
    UnreadCons(y, ring[1..h + 1]);
    assert ring[..h + 1] == [ring[0]] + ring[1..h + 1];
    assert ring[0 := y][..h + 1] == [y] + ring[1..h + 1];
  }

  /** Only the unread bytes of each node matter. */
  lemma {:induction false} UnreadSame(a: seq<Node>, b: seq<Node>)
    requires |a| == |b|
    requires forall i | 0 <= i < |a| :: NodeUnread(a[i]) == NodeUnread(b[i])
    ensures Unread(a) == Unread(b)
  {
    if a != [] {
      var k := |a| - 1;
      assert NodeUnread(a[k]) == NodeUnread(b[k]);
      UnreadSame(a[..k], b[..k]);
    }
  }

  // ---------------------------------------------------------------- the rotated view

  lemma RotateUpdate(ring: seq<Node>, i: nat, x: Node, once: bool)
    requires i < |ring|
    ensures var j := RotatePos(i, |ring|, once);
            && j < |Rotate(ring, once)| == |ring|
            && Rotate(ring, once)[j] == ring[i]
            && Rotate(ring[i := x], once) == Rotate(ring, once)[j := x]
  {
  }

  lemma RotateInsert(ring: seq<Node>, h: nat, x: Node, once: bool)
    requires h < |ring| && !(once && h == 0)
    ensures var j := RotatePos(h, |ring|, once);
            var bigger := ring[..h + 1] + [x] + ring[h + 1..];
            && j < |Rotate(ring, once)| == |ring|
            && RotatePos(h, |bigger|, once) == j
            && Rotate(bigger, once) == Rotate(ring, once)[..j + 1] + [x] + Rotate(ring, once)[j + 1..]
  {
    var bigger := ring[..h + 1] + [x] + ring[h + 1..];
    if once {
      assert bigger[1..] == ring[1..h + 1] + [x] + ring[h + 1..];
      assert Rotate(ring, once)[..h] == ring[1..h + 1];
      assert Rotate(ring, once)[h..] == ring[h + 1..] + [ring[0]];
    }
  }

  // ---------------------------------------------------------------- producer steps keep the invariant

  /** A step that changes only the sender's variables. */
  lemma SenderOnly(s: State, p: Sender)
    requires Inv(s)
    requires SenderOk(p, s.ring[s.head])
    requires RingOk(ReadRing(s), ReadHead(s), p.pc)
    requires p.done <= |p.data| && !p.pc.SendPublish? && !s.p.pc.SendPublish? && Sent(p) == Sent(s.p)
    requires !p.pc.LinkNew? && !s.p.pc.LinkNew?
    ensures Inv(s.(p := p))
  {
  }

  /** The statuses do not depend on the producer's position while it is not moving m_head. */
  lemma SamePhase(ring: seq<Node>, h: nat, pc: ProducerPc, pc': ProducerPc)
    requires RingOk(ring, h, pc)
    requires !pc.MarkAppending? && !pc.MarkFull? && !pc.MoveToNew?
    requires !pc'.MarkAppending? && !pc'.MarkFull? && !pc'.MoveToNew? && !pc'.MoveToNext?
    ensures RingOk(ring, h, pc')
  {
    forall i: nat | i < |ring| ensures Slot(ring, h, pc', i) {
      assert Slot(ring, h, pc, i);
    }
  }

  /** Replacing the node in position h by one with the same status. */
  lemma UpdateHead(ring: seq<Node>, h: nat, y: Node, pc: ProducerPc, pc': ProducerPc)
    requires RingOk(ring, h, pc) && y.status == ring[h].status
    requires pc.SendCopy? || pc.SendPublish?
    requires pc'.SendPublish? || pc'.SendCount?
    ensures RingOk(ring[h := y], h, pc')
  {
    var ring' := ring[h := y];
    forall i: nat | i < |ring'| ensures Slot(ring', h, pc', i) {
      assert Slot(ring, h, pc, i);
    }
  }

  lemma UnreadUpdate(ring: seq<Node>, h: nat, y: Node)
    requires h < |ring|
    ensures Unread(ring[h := y][..h + 1]) == Unread(ring[..h]) + NodeUnread(y)
    ensures Unread(ring[..h + 1]) == Unread(ring[..h]) + NodeUnread(ring[h])
  {
    UnreadSnoc(ring, h);
    UnreadSnoc(ring[h := y], h);
    assert ring[..h] == ring[h := y][..h];
  }

  /** y is x with more bytes published (and perhaps bytes stored that are not published yet). */
  predicate Grown(x: Node, y: Node) {
    y.tail == x.tail && x.head <= y.head && y.status == x.status && y.buf[..x.head] == x.buf[..x.head]
  }

  /** The receiver's locals survive the growth of the node it reads, as long as that node is not FULL. */
  lemma ReceiverStable(c: Receiver, x: Node, y: Node)
    requires ReceiverOk(c, x) && Grown(x, y) && !x.status.Full?
    ensures ReceiverOk(c, y)
  {
    if c.pc.RecvAdvance? {
      var a, b := x.tail, x.tail + c.pc.n;
      Bytes.SliceOfPrefix(x.buf, x.head, a, b);
      Bytes.SliceOfPrefix(y.buf, x.head, a, b);
    }
  }

  lemma FifoGrow(ring: seq<Node>, h: nat, y: Node, p: Sender, p': Sender, c: Receiver, chunk: seq<byte>)
    requires Fifo(ring, h, p, c)
    requires p'.done <= |p'.data| && (p'.pc.SendPublish? ==> p'.pc.n <= p'.done)
    requires Sent(p') == Sent(p) + chunk && NodeUnread(y) == NodeUnread(ring[h]) + chunk
    ensures Fifo(ring[h := y], h, p', c)
  {
    UnreadUpdate(ring, h, y);
  }

  /** A step that stores or publishes bytes in m_head. */
  lemma GrowKeeps(s: State, y: Node, p': Sender, chunk: seq<byte>)
    requires Inv(s) && Grown(s.ring[s.head], y) && SenderOk(p', y)
    requires s.p.pc.SendCopy? || s.p.pc.SendPublish?
    requires p'.pc.SendPublish? || p'.pc.SendCount?
    requires p'.done <= |p'.data|
    requires Sent(p') == Sent(s.p) + chunk && NodeUnread(y) == NodeUnread(s.ring[s.head]) + chunk
    ensures Inv(s.(ring := s.ring[s.head := y], p := p'))
  {
    var ring, h := ReadRing(s), ReadHead(s);
    RotateUpdate(s.ring, s.head, y, s.c.pc.AttachAdvance?);
    assert Slot(ring, h, s.p.pc, h);
    if s.head == 0 {
      ReceiverStable(s.c, s.ring[0], y);
    }
    UpdateHead(ring, h, y, s.p.pc, p'.pc);
    FifoGrow(ring, h, y, s.p, p', s.c, chunk);
  }

  lemma CopyKeeps(s: State)
    requires Inv(s) && s.p.pc.SendCopy?
    ensures Inv(CopyStep(s))
  {
    var s' := CopyStep(s);
    var x, y := s.ring[s.head], s'.ring[s.head];
    assert x.buf[x.tail..x.head] == x.buf[..x.head][x.tail..];
    assert y.buf[x.tail..x.head] == y.buf[..x.head][x.tail..];
    GrowKeeps(s, y, s'.p, []);
  }

  lemma PublishKeeps(s: State)
    requires Inv(s) && s.p.pc.SendPublish?
    ensures Inv(PublishStep(s))
  {
    var s', n := PublishStep(s), s.p.pc.n;
    var x, y := s.ring[s.head], s'.ring[s.head];
    PublishBytes(s.p, x);
    GrowKeeps(s, y, s'.p, x.buf[x.head..x.head + n]);
  }

  lemma PublishBytes(p: Sender, x: Node)
    requires SenderOk(p, x) && p.pc.SendPublish?
    ensures Sent(p.(pc := SendCount(p.pc.n))) == Sent(p) + x.buf[x.head..x.head + p.pc.n]
    ensures NodeUnread(x.(head := x.head + p.pc.n)) == NodeUnread(x) + x.buf[x.head..x.head + p.pc.n]
  {
    var n := p.pc.n;
    assert p.data[..p.done] == p.data[..p.done - n] + p.data[p.done - n..p.done];
  }

  lemma EndSendSent(p: Sender)
    requires p.done <= |p.data| && !p.pc.SendPublish?
    ensures Sent(EndSend(p)) == Sent(p)
  {
    var calls := EndSend(p).calls;
    assert calls[..|calls| - 1] == p.calls;
  }

  lemma CountKeeps(s: State)
    requires Inv(s) && s.p.pc.SendCount?
    ensures Inv(s.(p := CountStep(s.p)))
  {
    EndSendSent(s.p);
    SamePhase(ReadRing(s), ReadHead(s), s.p.pc, CountStep(s.p).pc);
    SenderOnly(s, CountStep(s.p));
  }

  lemma TryAddKeeps(s: State)
    requires Inv(s) && s.p.pc.TryAdd?
    ensures Inv(TryAddStep(s))
  {
    SamePhase(ReadRing(s), ReadHead(s), s.p.pc, TryAddStep(s).p.pc);
    if s.nodeCount < MAX_NODES {
      CountedKeeps(s);
    } else {
      EndSendSent(s.p);
      SenderOnly(s, TryAddStep(s).p);
    }
  }

  lemma CountedKeeps(s: State)
    requires Inv(s) && s.p.pc.TryAdd? && s.nodeCount < MAX_NODES
    requires RingOk(ReadRing(s), ReadHead(s), LinkNew)
    ensures Inv(s.(nodeCount := s.nodeCount + 1, p := s.p.(pc := LinkNew)))
  {
  }

  lemma LookNextKeeps(s: State)
    requires Inv(s) && s.p.pc.LookNext?
    ensures Inv(LookNextStep(s))
  {
    var n, once, ring, h := |s.ring|, s.c.pc.AttachAdvance?, ReadRing(s), ReadHead(s);
    var next := Succ(s.head, n);
    RotateUpdate(s.ring, next, s.ring[next], once);
    assert RotatePos(next, n, once) == Succ(h, n);
    assert Slot(ring, h, s.p.pc, Succ(h, n));
    SamePhase(ring, h, s.p.pc, TryAdd);
    assert ring[Succ(h, n)].status.Free? ==> h + 1 < n;
    SameStatus(ring, h, TryAdd, MoveToNext);
    SenderOnly(s, LookNextStep(s).p);
  }

  lemma SameStatus(ring: seq<Node>, h: nat, pc: ProducerPc, pc': ProducerPc)
    requires RingOk(ring, h, pc)
    requires forall i: nat | i < |ring| :: Expected(pc, h, i) == Expected(pc', h, i)
    requires pc.MarkAppending? == pc'.MarkAppending? && pc.MarkFull? == pc'.MarkFull?
    ensures forall i: nat {:trigger Slot(ring, h, pc', i)} | i < |ring| :: Slot(ring, h, pc', i)
  {
    forall i: nat | i < |ring| ensures Slot(ring, h, pc', i) {
      assert Slot(ring, h, pc, i);
    }
  }

  /** The producer is about to relink the node that the consumer has freed but not yet left (lines 113 and 114). */
  predicate Disturbs(s: State) {
    s.p.pc.LinkNew? && s.c.pc.AttachAdvance? && s.head == 0
  }

  lemma InsertRing(ring: seq<Node>, h: nat)
    requires RingOk(ring, h, LinkNew)
    ensures RingOk(InsertAfter(ring, h, FreshNode()), h, MoveToNew)
  {
    var ring' := InsertAfter(ring, h, FreshNode());
    forall i: nat | i < |ring'| ensures Slot(ring', h, MoveToNew, i) {
      if i != h + 1 {
        assert Slot(ring, h, LinkNew, if i <= h then i else i - 1);
      }
    }
  }

  lemma LinkKeeps(s: State)
    requires Inv(s) && s.p.pc.LinkNew? && !Disturbs(s)
    ensures Inv(LinkStep(s))
  {
    var ring, h := ReadRing(s), ReadHead(s);
    RotateInsert(s.ring, s.head, FreshNode(), s.c.pc.AttachAdvance?);
    InsertRing(ring, h);
    assert InsertAfter(ring, h, FreshNode())[..h + 1] == ring[..h + 1];
  }

  lemma MoveRing(ring: seq<Node>, h: nat, pc: ProducerPc)
    requires RingOk(ring, h, pc) && (pc.MoveToNew? || pc.MoveToNext?)
    ensures RingOk(ring, h + 1, if pc.MoveToNew? then MarkFull else MarkAppending)
    ensures Unread(ring[..h + 2]) == Unread(ring[..h + 1])
  {
    var h', pc' := h + 1, if pc.MoveToNew? then MarkFull else MarkAppending;
    forall i: nat | i < |ring| ensures Slot(ring, h', pc', i) {
      assert Slot(ring, h, pc, i);
    }
    assert Slot(ring, h, pc, h + 1);
    UnreadSnoc(ring, h + 1);
  }

  lemma MoveKeeps(s: State)
    requires Inv(s) && (s.p.pc.MoveToNew? || s.p.pc.MoveToNext?)
    ensures Inv(MoveStep(s))
  {
    var s', n, once, ring, h := MoveStep(s), |s.ring|, s.c.pc.AttachAdvance?, ReadRing(s), ReadHead(s);
    assert ReadHead(s') == h + 1 by {
      assert RotatePos(Succ(s.head, n), n, once) == Succ(h, n) == h + 1;
    }
    MoveRing(ring, h, s.p.pc);
    MovedKeeps(s, s');
  }

  lemma MovedKeeps(s: State, s': State)
    requires Inv(s) && s'.head < |s.ring|
    requires s'.p.pc.MarkFull? || s'.p.pc.MarkAppending?
    requires (s.p.pc.MoveToNew? || s.p.pc.MoveToNext?) && s' == s.(head := s'.head, p := s.p.(pc := s'.p.pc))
    requires RingOk(ReadRing(s'), ReadHead(s'), s'.p.pc)
    requires Unread(ReadRing(s')[..ReadHead(s') + 1]) == Unread(ReadRing(s)[..ReadHead(s) + 1])
    ensures Inv(s')
  {
  }

  lemma MarkSlot(ring: seq<Node>, h: nat, i: nat, y: Node, pc: ProducerPc, pc': ProducerPc, j: nat)
    requires i <= h < |ring| && j < |ring| && Slot(ring, h, pc, j) && y.head == ring[i].head
    requires pc.MarkAppending? ==> i == h && y.status.Appending? && pc'.MarkFull?
    requires pc.MarkFull? ==> i == h - 1 && y.status.Full? && pc'.SendCopy?
    requires pc.MarkAppending? || pc.MarkFull?
    ensures Slot(ring[i := y], h, pc', j)
  {
  }

  lemma MarkRing(ring: seq<Node>, h: nat, i: nat, y: Node, pc: ProducerPc, pc': ProducerPc)
    requires RingOk(ring, h, pc) && i <= h
    requires pc.MarkAppending? ==> i == h && y.status.Appending? && pc'.MarkFull?
    requires pc.MarkFull? ==> i == h - 1 && y.status.Full? && pc'.SendCopy?
    requires pc.MarkAppending? || pc.MarkFull?
    requires NodeUnread(y) == NodeUnread(ring[i]) && y.head == ring[i].head
    ensures RingOk(ring[i := y], h, pc')
    ensures Unread(ring[i := y][..h + 1]) == Unread(ring[..h + 1])
  {
    var ring' := ring[i := y];
    forall j: nat | j < |ring'| ensures Slot(ring', h, pc', j) {
      MarkSlot(ring, h, i, y, pc, pc', j);
    }
    SameUnread(ring, h, i, y);
  }

  lemma {:induction false} SameUnread(ring: seq<Node>, h: nat, i: nat, y: Node)
    requires i <= h < |ring| && NodeUnread(y) == NodeUnread(ring[i])
    ensures Unread(ring[i := y][..h + 1]) == Unread(ring[..h + 1])
  {
    UnreadSame(ring[..h + 1], ring[i := y][..h + 1]);
  }

  /** A step that only gives a node another status. */
  lemma StatusKeeps(s: State, s': State)
    requires Inv(s) && (s.p.pc.MarkAppending? || s.p.pc.MarkFull?)
    requires s' == s.(ring := s'.ring, p := s.p.(pc := s'.p.pc)) && |s'.ring| == |s.ring|
    requires s'.p.pc.MarkFull? || s'.p.pc.SendCopy?
    requires ReceiverOk(s'.c, s'.ring[0])
    requires RingOk(ReadRing(s'), ReadHead(s'), s'.p.pc)
    requires Unread(ReadRing(s')[..ReadHead(s') + 1]) == Unread(ReadRing(s)[..ReadHead(s) + 1])
    ensures Inv(s')
  {
  }

  /** Giving the node at position i of the ring another status, as seen from the node read next. */
  lemma MarkedAt(ring: seq<Node>, i: nat, y: Node, once: bool, h: nat, pc: ProducerPc, pc': ProducerPc)
    requires i < |ring| && RingOk(Rotate(ring, once), h, pc)
    requires pc.MarkAppending? ==> RotatePos(i, |ring|, once) == h && y.status.Appending? && pc'.MarkFull?
    requires pc.MarkFull? ==> RotatePos(i, |ring|, once) == h - 1 && y.status.Full? && pc'.SendCopy?
    requires (pc.MarkAppending? || pc.MarkFull?) && NodeUnread(y) == NodeUnread(ring[i]) && y.head == ring[i].head
    ensures RingOk(Rotate(ring[i := y], once), h, pc')
    ensures Unread(Rotate(ring[i := y], once)[..h + 1]) == Unread(Rotate(ring, once)[..h + 1])
  {
    RotateUpdate(ring, i, y, once);
    MarkRing(Rotate(ring, once), h, RotatePos(i, |ring|, once), y, pc, pc');
  }

  lemma MarkedAppending(s: State)
    requires Inv(s) && s.p.pc.MarkAppending?
    ensures var s' := MarkAppendingStep(s);
            && |s'.ring| == |s.ring| && s'.head < |s'.ring| && RingOk(ReadRing(s'), ReadHead(s'), s'.p.pc)
            && Unread(ReadRing(s')[..ReadHead(s') + 1]) == Unread(ReadRing(s)[..ReadHead(s) + 1])
  {
    MarkedAt(s.ring, s.head, HeadNode(s).(status := Appending), s.c.pc.AttachAdvance?, ReadHead(s), s.p.pc, MarkFull);
  }

  lemma MarkAppendingKeeps(s: State)
    requires Inv(s) && s.p.pc.MarkAppending?
    ensures Inv(MarkAppendingStep(s))
  {
    MarkedAppending(s);
    assert s.head == 0 ==> s.c.pc.AttachAdvance?;
    StatusKeeps(s, MarkAppendingStep(s));
  }

  lemma PredPos(head: nat, n: nat, once: bool)
    requires head < n && RotatePos(head, n, once) >= 1
    ensures RotatePos(Pred(head, n), n, once) == RotatePos(head, n, once) - 1
  {
  }

  lemma MarkedFull(s: State)
    requires Inv(s) && s.p.pc.MarkFull?
    ensures var s' := MarkFullStep(s);
            && |s'.ring| == |s.ring| && s'.head < |s'.ring| && RingOk(ReadRing(s'), ReadHead(s'), s'.p.pc)
            && Unread(ReadRing(s')[..ReadHead(s') + 1]) == Unread(ReadRing(s)[..ReadHead(s) + 1])
  {
    var n, once := |s.ring|, s.c.pc.AttachAdvance?;
    var i := Pred(s.head, n);
    PredPos(s.head, n, once);
    MarkedAt(s.ring, i, s.ring[i].(status := Full), once, ReadHead(s), s.p.pc, SendCopy);
  }

  lemma MarkFullKeeps(s: State)
    requires Inv(s) && s.p.pc.MarkFull?
    ensures Inv(MarkFullStep(s))
  {
    MarkedFull(s);
    if Pred(s.head, |s.ring|) == 0 {
      MarkedReceiver(s.c, s.ring[0]);
    }
    StatusKeeps(s, MarkFullStep(s));
  }

  lemma MarkedReceiver(c: Receiver, x: Node)
    requires ReceiverOk(c, x)
    ensures ReceiverOk(c, x.(status := Full))
  {
  }

  lemma ProducerKeeps(s: State)
    requires Inv(s) && !Disturbs(s)
    ensures Inv(ProducerStep(s))
  {
    match s.p.pc
    case SendIdle =>
    case SendCopy => CopyKeeps(s);
    case SendPublish(_) => PublishKeeps(s);
    case SendCount(_) => CountKeeps(s);
    case LookNext => LookNextKeeps(s);
    case TryAdd => TryAddKeeps(s);
    case LinkNew => LinkKeeps(s);
    case MoveToNew => MoveKeeps(s);
    case MoveToNext => MoveKeeps(s);
    case MarkAppending => MarkAppendingKeeps(s);
    case MarkFull => MarkFullKeeps(s);
  }

  // ---------------------------------------------------------------- consumer steps keep the invariant

  lemma AdvanceFifo(ring: seq<Node>, h: nat, y: Node, p: Sender, c: Receiver, c': Receiver)
    requires Fifo(ring, h, p, c) && ReceiverOk(c, ring[0]) && c.pc.RecvAdvance?
    requires c'.out == c.out && c'.results == c.results && !c'.pc.RecvAdvance?
    requires y == ring[0].(tail := ring[0].tail + c.pc.n)
    ensures Fifo(ring[0 := y], h, p, c')
  {
    var x, n, rest := ring[0], c.pc.n, Unread(ring[1..h + 1]);
    var chunk := x.buf[x.tail..x.tail + n];
    UnreadFirst(ring, h, y);
    assert NodeUnread(x) == chunk + NodeUnread(y);
    TakeReceived(c, c', chunk);
    Assoc(chunk, NodeUnread(y), rest);
    Assoc(Received(c), chunk, NodeUnread(y) + rest);
  }

  lemma TakeReceived(c: Receiver, c': Receiver, chunk: seq<byte>)
    requires c.pc.RecvAdvance? && c.pc.n <= |c.out| && c.out[|c.out| - c.pc.n..] == chunk
    requires c'.out == c.out && c'.results == c.results && !c'.pc.RecvAdvance?
    ensures Received(c') == Received(c) + chunk
  {
    assert c.out == c.out[..|c.out| - c.pc.n] + chunk;
  }

  lemma RecvAdvanceKeeps(s: State)
    requires Inv(s) && s.c.pc.RecvAdvance?
    ensures Inv(RecvAdvanceStep(s))
  {
    var s', pc := RecvAdvanceStep(s), s.p.pc;
    AdvanceFifo(s.ring, s.head, s'.ring[0], s.p, s.c, s'.c);
    forall i: nat | i < |s.ring| ensures Slot(s'.ring, s.head, pc, i) {
      assert Slot(s.ring, s.head, pc, i);
    }
  }

  lemma FreeRing(ring: seq<Node>, h: nat, y: Node, pc: ProducerPc)
    requires RingOk(ring, h, pc) && ring[0].status.Full? && ring[0].tail == ring[0].head
    requires y.status.Free? && y.head == 0
    ensures 1 <= h && RingOk(ring[1..] + [y], h - 1, pc)
    ensures Unread((ring[1..] + [y])[..h]) == Unread(ring[..h + 1])
  {
    var ring', h' := ring[1..] + [y], h - 1;
    assert Slot(ring, h, pc, 0);
    forall i: nat | i < |ring'| ensures Slot(ring', h', pc, i) {
      if i + 1 < |ring| {
        assert Slot(ring, h, pc, i + 1);
      }
    }
    assert ring[..h + 1] == [ring[0]] + ring[1..h + 1];
    UnreadCons(ring[0], ring[1..h + 1]);
    assert ring'[..h] == ring[1..h + 1];
  }

  lemma FreeKeeps(s: State)
    requires Inv(s) && s.c.pc.AttachFree?
    ensures Inv(AttachFreeStep(s))
  {
    var s' := AttachFreeStep(s);
    FreeRing(s.ring, s.head, s'.ring[0], s.p.pc);
    assert ReadRing(s') == s.ring[1..] + [s'.ring[0]];
  }

  lemma AdvanceKeeps(s: State)
    requires Inv(s) && s.c.pc.AttachAdvance?
    ensures Inv(AttachAdvanceStep(s))
  {
    RotateUpdate(s.ring, s.head, s.ring[s.head], true);
  }

  lemma EndRecvReceived(c: Receiver)
    requires !c.pc.RecvAdvance?
    ensures Received(EndRecv(c)) == Received(c)
  {
    var parts := EndRecv(c).results;
    assert parts[..|parts| - 1] == c.results;
  }

  lemma ReadReceived(c: Receiver, t: Node)
    requires ReceiverOk(c, t)
    requires !c.pc.RecvAdvance? && !c.pc.AttachFree? && !c.pc.AttachAdvance?
    requires c.pc.RecvTestStatus? ==> !t.status.Free?
    ensures ReceiverOk(ReadStep(c, t), t)
    ensures var c' := ReadStep(c, t); (c'.pc.RecvAdvance? ==> c'.pc.n <= |c'.out|) && Received(c') == Received(c)
  {
    EndRecvReceived(c);
    var c' := ReadStep(c, t);
    if c.pc.RecvCopy? {
      assert c'.out[..|c'.out| - c.pc.n] == c.out;
    }
  }

  lemma ReadKeeps(s: State)
    requires Inv(s)
    requires !s.c.pc.RecvAdvance? && !s.c.pc.AttachFree? && !s.c.pc.AttachAdvance?
    ensures Inv(ConsumerStep(s))
  {
    assert Slot(s.ring, s.head, s.p.pc, 0);
    ReadReceived(s.c, s.ring[0]);
  }

  lemma ConsumerKeeps(s: State)
    requires Inv(s)
    ensures Inv(ConsumerStep(s))
  {
    match s.c.pc
    case RecvAdvance(_) => RecvAdvanceKeeps(s);
    case AttachFree(_, _) => FreeKeeps(s);
    case AttachAdvance(_, _) => AdvanceKeeps(s);
    case _ => ReadKeeps(s);
  }

  // ---------------------------------------------------------------- all interleavings

  /** The state after the actions of `run`, in order, from a new channel. */
  function Run(run: seq<Action>): State {
    if run == [] then Init()
    else
      var s := Run(run[..|run| - 1]);
      if LocalsOk(s) then Step(s, run[|run| - 1]) else s
  }

  /** No producer step of the run relinks a node the consumer is just leaving. */
  ghost predicate Undisturbed(run: seq<Action>) {
    forall k | 0 <= k < |run| :: run[k].Producer? ==> !Disturbs(Run(run[..k]))
  }

  lemma BeginKeeps(s: State, a: Action)
    requires Inv(s) && (a.BeginSend? || a.BeginRecv?)
    ensures Inv(Step(s, a))
  {
    if a.BeginSend? && s.p.pc.SendIdle? {
      SamePhase(ReadRing(s), ReadHead(s), SendIdle, SendCopy);
      SenderOnly(s, Step(s, a).p);
    }
  }

  lemma InitInv()
    ensures Inv(Init())
  {
    var s := Init();
    assert s.ring[..1] == s.ring;
    assert Slot(s.ring, 0, SendIdle, 0);
  }

  lemma StepKeeps(s: State, a: Action)
    requires Inv(s) && (a.Producer? ==> !Disturbs(s))
    ensures Inv(Step(s, a))
  {
    match a
    case Producer => ProducerKeeps(s);
    case Consumer => ConsumerKeeps(s);
    case _ => BeginKeeps(s, a);
  }

  lemma PrefixIsUndisturbed(run: seq<Action>)
    requires Undisturbed(run) && run != []
    ensures Undisturbed(run[..|run| - 1])
  {
    var k := |run| - 1;
    forall i | 0 <= i < k && run[i].Producer? ensures !Disturbs(Run(run[..k][..i])) {
      assert run[..k][..i] == run[..i];
    }
  }

  lemma {:induction false} RunInv(run: seq<Action>)
    requires Undisturbed(run)
    ensures Inv(Run(run))
  {
    if run == [] {
      InitInv();
    } else {
      var k := |run| - 1;
      PrefixIsUndisturbed(run);
      RunInv(run[..k]);
      StepKeeps(Run(run[..k]), run[k]);
    }
  }

  /**
    What the channel promises in a state: what was received, followed by what is unread from the reading
    node to m_head, is exactly what was sent; the assertion of line 107 has not failed; the ring has at
    most 8 nodes; and, apart from the two instants in which the producer is between linking or marking a
    node and moving on, the FREE nodes are exactly those strictly between m_head and the reading node.
   */
  ghost predicate Promise(s: State) {
    && s.head < |s.ring| <= MAX_NODES
    && !s.failed
    && Fifo(ReadRing(s), ReadHead(s), s.p, s.c)
    && Received(s.c) <= Sent(s.p)
    && (!s.p.pc.MoveToNew? && !s.p.pc.MarkAppending? ==>
          forall i | 0 <= i < |ReadRing(s)| :: ReadRing(s)[i].status.Free? <==> ReadHead(s) < i)
  }

  /** Every undisturbed interleaving of the two threads keeps the promise. */
  lemma ChannelIsFifo(run: seq<Action>)
    requires Undisturbed(run)
    ensures Promise(Run(run))
  {
    RunInv(run);
    InvGivesPromise(Run(run));
  }

  lemma InvGivesPromise(s: State)
    requires Inv(s)
    ensures Promise(s)
  {
    var ring, h := ReadRing(s), ReadHead(s);
    forall i | 0 <= i < |ring| && !s.p.pc.MoveToNew? && !s.p.pc.MarkAppending?
      ensures ring[i].status.Free? <==> h < i
    {
      assert Slot(ring, h, s.p.pc, i);
    }
  }

  // ---------------------------------------------------------------- what a disturbing link does

  /**
    After a disturbing link, until the producer's next step: the consumer is leaving the relinked node or
    already polls the new empty one, and m_head, whose bytes it has not read, comes last in its ring.
   */
  ghost predicate Stranded(s: State) {
    && LocalsOk(s) && 2 <= |s.ring| <= MAX_NODES && !s.failed
    && s.p.pc.MoveToNew? && !s.c.pc.AttachCheck? && !s.c.pc.AttachFree?
    && ReadRing(s)[0] == FreshNode() && ReadHead(s) == |s.ring| - 1
    && Fifo(ReadRing(s), ReadHead(s), s.p, s.c)
    && |Received(s.c)| + NODE_SIZE <= |Sent(s.p)|
  }

  lemma InsertedInFront(ring: seq<Node>, x: Node)
    requires ring != []
    ensures Rotate(InsertAfter(ring, 0, x), true) == [x] + Rotate(ring, true)
  {
    var bigger := InsertAfter(ring, 0, x);
    assert bigger[0] == ring[0] && bigger[1..] == [x] + ring[1..];
  }

  /** An empty node in front changes nothing of what is unread. */
  lemma {:induction false} UnreadInFront(ring: seq<Node>)
    ensures Unread(([FreshNode()] + ring)[..|ring| + 1]) == Unread(ring) == Unread(ring[..|ring|])
  {
    UnreadCons(FreshNode(), ring);
    assert ([FreshNode()] + ring)[..|ring| + 1] == [FreshNode()] + ring && ring[..|ring|] == ring;
  }

  /** The consumer's ring gets the new node in front of it; the unread bytes stay. */
  lemma {:induction false} LinkInFront(s: State)
    requires Inv(s) && Disturbs(s)
    ensures var s' := LinkStep(s);
            && ReadRing(s') == [FreshNode()] + ReadRing(s) && s'.head < |s'.ring| && ReadHead(s') == |s.ring|
            && Unread(ReadRing(s')[..|s.ring| + 1]) == Unread(ReadRing(s)) == Unread(ReadRing(s)[..|s.ring|])
  {
    InsertedInFront(s.ring, FreshNode());
    UnreadInFront(ReadRing(s));
  }

  lemma {:induction false} UnreadOfHead(s: State)
    requires Inv(s) && Disturbs(s)
    ensures |Unread(ReadRing(s)[..|s.ring|])| >= NODE_SIZE
  {
    UnreadSnoc(ReadRing(s), |s.ring| - 1);
    assert ReadRing(s)[|s.ring| - 1] == s.ring[0];
  }

  lemma {:induction false} LinkStrands(s: State)
    requires Inv(s) && Disturbs(s)
    ensures Stranded(LinkStep(s))
  {
    LinkInFront(s);
    UnreadOfHead(s);
    assert Received(LinkStep(s).c) == Received(s.c) && Sent(LinkStep(s).p) == Sent(s.p);
  }

  /** Whatever the consumer does, it stays in front of the new node. */
  lemma StaysStranded(s: State, a: Action)
    requires Stranded(s) && !a.Producer?
    ensures Stranded(Step(s, a))
  {
    if a.Consumer? {
      if s.c.pc.AttachAdvance? {
        RotateUpdate(s.ring, s.head, s.ring[s.head], true);
      } else if s.c.pc.RecvAdvance? {
        assert Step(s, a).ring == s.ring;
      } else {
        ReadReceived(s.c, s.ring[0]);
      }
    }
  }

  /** Nothing is wrong yet. */
  lemma StrandedKeepsPromise(s: State)
    requires Stranded(s)
    ensures Promise(s)
  {
  }

  /**
    The producer's next step moves m_head to the new node, where the consumer is: at least a full node of
    sent bytes lies outside the part of the ring that it will read up to m_head.
   */
  lemma NextStepSkips(s: State)
    requires Stranded(s)
    ensures var s' := Step(s, Producer);
            && s'.head < |s'.ring| && ReadHead(s') == 0 && s'.p.done <= |s'.p.data| && !s'.p.pc.SendPublish?
            && s'.c == s.c
            && |Received(s'.c)| + |Unread(ReadRing(s')[..1])| + NODE_SIZE <= |Sent(s'.p)|
            && !Promise(s')
  {
    var s' := Step(s, Producer);
    assert ReadRing(s')[..1] == [FreshNode()] == [FreshNode()] + [];
    UnreadCons(FreshNode(), []);
    assert Sent(s'.p) == Sent(s.p);
  }

  // ---------------------------------------------------------------- exactly which interleavings keep the promise

  /** Step k of the run is a producer step that relinks a node the consumer is just leaving. */
  ghost predicate DisturbsAt(run: seq<Action>, k: nat) {
    k < |run| && run[k].Producer? && Disturbs(Run(run[..k]))
  }

  ghost predicate NoProducer(run: seq<Action>, from: nat) {
    forall j | from <= j < |run| :: !run[j].Producer?
  }

  /** Every prefix of the run ends in a state that keeps the promise. */
  ghost predicate KeepsPromise(run: seq<Action>) {
    forall m: nat {:trigger Run(run[..m])} | m <= |run| :: Promise(Run(run[..m]))
  }

  /** Only the last producer step of the run may disturb. */
  ghost predicate OnlyLastDisturbs(run: seq<Action>) {
    forall k: nat {:trigger DisturbsAt(run, k)} | DisturbsAt(run, k) :: NoProducer(run, k + 1)
  }

  lemma RunNext(run: seq<Action>, n: nat)
    requires n < |run| && LocalsOk(Run(run[..n]))
    ensures Run(run[..n + 1]) == Step(Run(run[..n]), run[n])
  {
    assert run[..n + 1][..n] == run[..n];
  }

  lemma StrandedFirst(run: seq<Action>, k: nat)
    requires DisturbsAt(run, k) && Undisturbed(run[..k])
    ensures Stranded(Run(run[..k + 1]))
  {
    RunInv(run[..k]);
    RunNext(run, k);
    LinkStrands(Run(run[..k]));
  }

  lemma StrandedNext(run: seq<Action>, n: nat)
    requires n < |run| && Stranded(Run(run[..n])) && !run[n].Producer?
    ensures Stranded(Run(run[..n + 1]))
  {
    RunNext(run, n);
    StaysStranded(Run(run[..n]), run[n]);
  }

  lemma {:induction false} StrandedUntil(run: seq<Action>, k: nat, m: nat)
    requires k < m <= |run| && Stranded(Run(run[..k + 1])) && forall j | k < j < m :: !run[j].Producer?
    ensures Stranded(Run(run[..m]))
    decreases m
  {
    if k + 1 < m {
      StrandedUntil(run, k, m - 1);
      StrandedNext(run, m - 1);
    }
  }

  lemma StrandedSince(run: seq<Action>, k: nat, m: nat)
    requires DisturbsAt(run, k) && Undisturbed(run[..k]) && k < m <= |run|
    requires forall j | k < j < m :: !run[j].Producer?
    ensures Stranded(Run(run[..m]))
  {
    StrandedFirst(run, k);
    StrandedUntil(run, k, m);
  }

  /** A run that is disturbed has a first disturbing step. */
  lemma {:induction false} FirstDisturbance(run: seq<Action>, k: nat) returns (f: nat)
    requires DisturbsAt(run, k)
    ensures f <= k && DisturbsAt(run, f) && Undisturbed(run[..f])
    decreases k
  {
    if i: nat :| i < k && DisturbsAt(run, i) {
      f := FirstDisturbance(run, i);
    } else {
      f := k;
      NoneDisturbs(run, k);
    }
  }

  /** After a first disturbing step, the next producer step breaks the promise, whatever the consumer did meanwhile. */
  lemma NextProducerBreaks(run: seq<Action>, k: nat, j: nat)
    requires DisturbsAt(run, k) && Undisturbed(run[..k])
    requires k < j < |run| && run[j].Producer? && forall i | k < i < j :: !run[i].Producer?
    ensures !Promise(Run(run[..j + 1]))
  {
    StrandedSince(run, k, j);
    RunNext(run, j);
    NextStepSkips(Run(run[..j]));
  }

  lemma {:induction false} NextProducer(run: seq<Action>, from: nat, last: nat) returns (j: nat)
    requires from <= last < |run| && run[last].Producer?
    ensures from <= j <= last && run[j].Producer? && forall i | from <= i < j :: !run[i].Producer?
    decreases last - from
  {
    if i: nat :| from <= i < last && run[i].Producer? {
      j := NextProducer(run, from, i);
    } else {
      j := last;
    }
  }

  /** A run without a disturbing step is undisturbed. */
  lemma NoneDisturbs(run: seq<Action>, m: nat)
    requires m <= |run| && forall k: nat {:trigger DisturbsAt(run, k)} | k < m :: !DisturbsAt(run, k)
    ensures Undisturbed(run[..m])
  {
    forall i | 0 <= i < m && run[..m][i].Producer? ensures !Disturbs(Run(run[..m][..i])) {
      assert run[..m][..i] == run[..i] && !DisturbsAt(run, i);
    }
  }

  /** When only the last producer step disturbs, every prefix keeps the promise. */
  lemma PrefixKeepsPromise(run: seq<Action>, m: nat)
    requires m <= |run| && OnlyLastDisturbs(run)
    ensures Promise(Run(run[..m]))
  {
    if k: nat :| k < m && DisturbsAt(run, k) {
      var f := FirstDisturbance(run, k);
      assert NoProducer(run, f + 1);
      StrandedSince(run, f, m);
      StrandedKeepsPromise(Run(run[..m]));
    } else {
      NoneDisturbs(run, m);
      ChannelIsFifo(run[..m]);
    }
  }

  /** A disturbing producer step followed by another one breaks the promise. */
  lemma DisturbedBreaks(run: seq<Action>, k: nat)
    requires DisturbsAt(run, k) && !NoProducer(run, k + 1)
    ensures !KeepsPromise(run)
  {
    var last: nat :| k + 1 <= last < |run| && run[last].Producer?;
    var f := FirstDisturbance(run, k);
    var j := NextProducer(run, f + 1, last);
    NextProducerBreaks(run, f, j);
    assert !Promise(Run(run[..j + 1]));
  }

  /**
    Over every interleaving: the promise holds all the way if and only if no producer step disturbs, other
    than perhaps the last one of the run.
   */
  lemma {:induction false} FifoExactly(run: seq<Action>)
    ensures KeepsPromise(run) <==> OnlyLastDisturbs(run)
  {
    if OnlyLastDisturbs(run) {
      forall m: nat | m <= |run| ensures Promise(Run(run[..m])) {
        PrefixKeepsPromise(run, m);
      }
    } else {
      var k: nat :| DisturbsAt(run, k) && !NoProducer(run, k + 1);
      DisturbedBreaks(run, k);
    }
  }

  // ---------------------------------------------------------------- the disturbed interleaving exists

  /** The undisturbed interleaving `run` ends in s. */
  ghost predicate Leads(run: seq<Action>, s: State) { Undisturbed(run) && Run(run) == s }

  /** A run may be extended by any action that does not disturb. */
  lemma Extend(run: seq<Action>, s: State, a: Action)
    requires Leads(run, s) && (a.Producer? ==> !Disturbs(s))
    ensures LocalsOk(s) && Leads(run + [a], Step(s, a)) && LocalsOk(Step(s, a))
  {
    RunInv(run);
    var run' := run + [a];
    assert run'[..|run|] == run;
    forall k | 0 <= k < |run'| && run'[k].Producer? ensures !Disturbs(Run(run'[..k])) {
      if k < |run| {
        assert run'[..k] == run[..k];
      }
    }
    RunInv(run');
  }

  /** Two steps of the producer. */
  lemma ExtendTwice(run: seq<Action>, s: State)
    requires Leads(run, s) && LocalsOk(s) && !Disturbs(s) && !Disturbs(Step(s, Producer))
    ensures LocalsOk(Step(s, Producer)) && Leads(run + [Producer, Producer], Step(Step(s, Producer), Producer))
    ensures LocalsOk(Step(Step(s, Producer), Producer))
  {
    Extend(run, s, Producer);
    Extend(run + [Producer], Step(s, Producer), Producer);
    assert run + [Producer] + [Producer] == run + [Producer, Producer];
  }

  /** The sender is at `pc` with `left` bytes to go; the receiver is at `cpc`. */
  predicate At(s: State, pc: ProducerPc, left: nat, cpc: ConsumerPc) {
    s.p.pc == pc && s.p.left == left && s.c.pc == cpc
  }

  predicate NodeIs(n: Node, head: nat, tail: nat, status: Status) {
    n.head == head && n.tail == tail && n.status == status
  }

  /** Storing and publishing the first NODE_SIZE bytes of a message too long for m_head. */
  lemma StoreNode(s: State)
    requires LocalsOk(s) && s.p.pc.SendCopy? && NODE_SIZE < s.p.left && NodeIs(s.ring[s.head], 0, 0, Appending)
    ensures !Disturbs(s) && LocalsOk(Step(s, Producer)) && !Disturbs(Step(s, Producer))
    ensures var s' := Step(Step(s, Producer), Producer);
            && At(s', SendCount(NODE_SIZE), s.p.left, s.c.pc)
            && |s'.ring| == |s.ring| && s' == s.(ring := s.ring[s.head := s'.ring[s.head]], p := s'.p)
            && NodeIs(s'.ring[s.head], NODE_SIZE, 0, Appending)
  {
    assert Step(s, Producer).p.pc == SendPublish(NODE_SIZE);
  }

  /** The full m_head has no FREE successor: a node is counted and about to be linked. */
  lemma WantNode(s: State)
    requires LocalsOk(s) && s.p.pc.LookNext? && s.nodeCount < MAX_NODES && !s.ring[Succ(s.head, |s.ring|)].status.Free?
    ensures !Disturbs(s) && LocalsOk(Step(s, Producer)) && !Disturbs(Step(s, Producer))
    ensures Step(Step(s, Producer), Producer) == s.(nodeCount := s.nodeCount + 1, p := s.p.(pc := LinkNew))
  {
  }

  /** The second node of the ring is linked after m_head and becomes m_head. */
  lemma LinkNode(s: State)
    requires LocalsOk(s) && !Disturbs(s) && s.p.pc.LinkNew? && s.head == 0 && |s.ring| == 1
    ensures LocalsOk(Step(s, Producer)) && !Disturbs(Step(s, Producer))
    ensures var s' := Step(Step(s, Producer), Producer);
            && At(s', MarkFull, s.p.left, s.c.pc) && s'.head == 1 && |s'.ring| == 2
            && s'.nodeCount == s.nodeCount && s'.c == s.c
            && s'.ring[0] == s.ring[0] && NodeIs(s'.ring[1], 0, 0, Appending)
  {
  }

  lemma MarkNode(s: State)
    requires LocalsOk(s) && s.p.pc.MarkFull? && |s.ring| == 2
    ensures !Disturbs(s)
    ensures Step(s, Producer) ==
            s.(ring := s.ring[1 - s.head := s.ring[1 - s.head].(status := Full)], p := s.p.(pc := SendCopy))
  {
  }

  /** A run that fills m_head and finds no other node free. */
  lemma Fill(run: seq<Action>, s: State) returns (run': seq<Action>, s': State)
    requires Leads(run, s) && LocalsOk(s)
    requires s.p.pc.SendCopy? && NODE_SIZE < s.p.left && NodeIs(s.ring[s.head], 0, 0, Appending)
    ensures Leads(run', s') && LocalsOk(s') && At(s', LookNext, s.p.left - NODE_SIZE, s.c.pc)
    ensures |s'.ring| == |s.ring| && s' == s.(ring := s.ring[s.head := s'.ring[s.head]], p := s'.p)
    ensures NodeIs(s'.ring[s.head], NODE_SIZE, 0, Appending)
  {
    StoreNode(s);
    ExtendTwice(run, s);
    run', s' := run + [Producer, Producer], Step(Step(s, Producer), Producer);
    Extend(run', s', Producer);
    run', s' := run' + [Producer], Step(s', Producer);
  }

  /** A new channel and a message of three nodes and one byte: the first node is full, a second is linked. */
  lemma SecondNode() returns (run: seq<Action>, s: State)
    ensures Leads(run, s) && LocalsOk(s) && At(s, SendCopy, 2 * NODE_SIZE + 1, RecvIdle)
    ensures s.head == 1 && |s.ring| == 2 && s.nodeCount == 2 && s.c == Init().c
    ensures NodeIs(s.ring[0], NODE_SIZE, 0, Full) && NodeIs(s.ring[1], 0, 0, Appending)
  {
    run, s := FirstNode();
    WantNode(s);
    ExtendTwice(run, s);
    run, s := run + [Producer, Producer], Step(Step(s, Producer), Producer);
    LinkNode(s);
    ExtendTwice(run, s);
    run, s := run + [Producer, Producer], Step(Step(s, Producer), Producer);
    MarkNode(s);
    Extend(run, s, Producer);
    run, s := run + [Producer], Step(s, Producer);
  }

  lemma FirstNode() returns (run: seq<Action>, s: State)
    ensures Leads(run, s) && LocalsOk(s) && At(s, LookNext, 2 * NODE_SIZE + 1, RecvIdle)
    ensures s.head == 0 && |s.ring| == 1 && s.nodeCount == 1 && s.c == Init().c
    ensures NodeIs(s.ring[0], NODE_SIZE, 0, Appending)
  {
    run, s := [], Init();
    var data := seq(3 * NODE_SIZE + 1, _ => 7);
    Extend(run, s, BeginSend(data, 0));
    run, s := run + [BeginSend(data, 0)], Step(s, BeginSend(data, 0));
    run, s := Fill(run, s);
  }

  /** The consumer takes everything out of the full node in front of it. */
  lemma DrainNode(s: State)
    requires LocalsOk(s) && NodeIs(s.ring[0], NODE_SIZE, 0, Full) && s.c.pc.RecvMeasure? && s.c.left == NODE_SIZE
    ensures var s1 := Step(s, Consumer); LocalsOk(s1) && var s2 := Step(s1, Consumer); LocalsOk(s2)
    ensures var s' := Step(Step(Step(s, Consumer), Consumer), Consumer);
            && |s'.ring| == |s.ring| && s' == s.(ring := s.ring[0 := s'.ring[0]], c := s'.c)
            && NodeIs(s'.ring[0], NODE_SIZE, NODE_SIZE, Full) && s'.c.pc == RecvTestFull(NODE_SIZE)
  {
    assert Step(s, Consumer).c.pc == RecvCopy(NODE_SIZE);
  }

  /** It marks the empty node FREE, but has not yet left it. */
  lemma FreeNode(s: State)
    requires LocalsOk(s) && NodeIs(s.ring[0], NODE_SIZE, NODE_SIZE, Full) && s.c.pc == RecvTestFull(NODE_SIZE)
    ensures var s1 := Step(s, Consumer); LocalsOk(s1) && var s2 := Step(s1, Consumer); LocalsOk(s2)
    ensures var s' := Step(Step(Step(s, Consumer), Consumer), Consumer);
            && |s'.ring| == |s.ring| && s' == s.(ring := s.ring[0 := s'.ring[0]], c := s'.c)
            && NodeIs(s'.ring[0], 0, 0, Free) && s'.c.pc == AttachAdvance(NODE_SIZE, false)
  {
  }

  lemma ConsumeThrice(run: seq<Action>, s: State) returns (run': seq<Action>)
    requires Leads(run, s) && LocalsOk(s)
    ensures LocalsOk(Step(s, Consumer)) && LocalsOk(Step(Step(s, Consumer), Consumer))
    ensures var s' := Step(Step(Step(s, Consumer), Consumer), Consumer); Leads(run', s') && LocalsOk(s')
  {
    Extend(run, s, Consumer);
    Extend(run + [Consumer], Step(s, Consumer), Consumer);
    Extend(run + [Consumer] + [Consumer], Step(Step(s, Consumer), Consumer), Consumer);
    run' := run + [Consumer] + [Consumer] + [Consumer];
  }

  lemma FreedNotLeft() returns (run: seq<Action>, s: State)
    ensures Leads(run, s) && LocalsOk(s) && At(s, SendCopy, 2 * NODE_SIZE + 1, AttachAdvance(NODE_SIZE, false))
    ensures s.head == 1 && |s.ring| == 2 && s.nodeCount == 2
    ensures NodeIs(s.ring[0], 0, 0, Free) && NodeIs(s.ring[1], 0, 0, Appending)
  {
    run, s := SecondNode();
    Extend(run, s, BeginRecv(NODE_SIZE, 0));
    run, s := run + [BeginRecv(NODE_SIZE, 0)], Step(s, BeginRecv(NODE_SIZE, 0));
    DrainNode(s);
    run := ConsumeThrice(run, s);
    s := Step(Step(Step(s, Consumer), Consumer), Consumer);
    FreeNode(s);
    run := ConsumeThrice(run, s);
    s := Step(Step(Step(s, Consumer), Consumer), Consumer);
  }

  /** The producer moves from the full second node to the freed first node and claims it. */
  lemma TakeFreed(s: State)
    requires LocalsOk(s) && s.p.pc.LookNext? && s.head == 1 && |s.ring| == 2 && NodeIs(s.ring[0], 0, 0, Free)
    ensures !Disturbs(s) && LocalsOk(Step(s, Producer)) && !Disturbs(Step(s, Producer))
    ensures Step(Step(s, Producer), Producer) == s.(head := 0, p := s.p.(pc := MarkAppending))
  {
  }

  lemma ClaimFreed(s: State)
    requires LocalsOk(s) && s.p.pc.MarkAppending? && s.head == 0 && |s.ring| == 2
    ensures !Disturbs(s)
    ensures Step(s, Producer) == s.(ring := s.ring[0 := s.ring[0].(status := Appending)], p := s.p.(pc := MarkFull))
  {
  }

  /** The producer fills the second node, takes the freed one back and is about to fill it. */
  lemma BackInFirst() returns (run: seq<Action>, s: State)
    ensures Leads(run, s) && LocalsOk(s) && At(s, SendCopy, NODE_SIZE + 1, AttachAdvance(NODE_SIZE, false))
    ensures s.head == 0 && |s.ring| == 2 && s.nodeCount == 2
    ensures NodeIs(s.ring[0], 0, 0, Appending) && s.ring[1].status == Full
  {
    run, s := FreedNotLeft();
    run, s := Fill(run, s);
    TakeFreed(s);
    ExtendTwice(run, s);
    run, s := run + [Producer, Producer], Step(Step(s, Producer), Producer);
    ClaimFreed(s);
    Extend(run, s, Producer);
    run, s := run + [Producer], Step(s, Producer);
    MarkNode(s);
    Extend(run, s, Producer);
    run, s := run + [Producer], Step(s, Producer);
  }

  /** One send and one recv can reach the disturbing step, so the promise needs undisturbed runs. */
  lemma DisturbanceIsReachable()
    ensures exists run: seq<Action>, s: State :: Leads(run, s) && Disturbs(s)
  {
    var run, s := BackInFirst();
    run, s := Fill(run, s);
    WantNode(s);
    ExtendTwice(run, s);
    run, s := run + [Producer, Producer], Step(Step(s, Producer), Producer);
    assert Leads(run, s) && Disturbs(s);
  }
}
