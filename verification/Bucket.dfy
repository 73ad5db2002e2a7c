/**
  The transaction scheduler of replicator/bucket.cpp: `put` queues every record of a transaction behind
  the earlier records of the same key and counts the queues in which it is not first; `writer` runs a
  scheduled transaction, pops its records and releases the transactions that become first.

  One thread puts, any number of writers run at the same time. Every action below is one atomic step:
  a push with its head test, a pop with its peek, or one operation on a blocking counter.

  A record is pushed once for each of its keys, and two of its keys may lead to the same queue. The head
  test of line 254 compares records, so a record that finds itself at the head is not counted.
 */
module Bucket {
  import opened Options

  const BIAS: nat := 0x7fffffff
  const WORD: nat := 0x1_0000_0000

  type Key = nat

  /** Push number `idx` of transaction `txn`; transactions are numbered in put order. */
  datatype Entry = Entry(txn: nat, idx: nat)

  /** Progress of `put`: pushing records (with its local blockCounts), then lines 450, 451, then returned. */
  datatype PutPc = Pushing(next: nat, blockCounts: nat) | Adding(blockCounts: nat) | Subtracting | Returned

  /**
    `keys[i]` is the queue of push i and `recs[i]` the record that is pushed; `counter` is
    blockingRecordCount, `scheduled` counts the calls of schedule. A writer that runs the transaction has
    popped the pushes in `released` and may be about to decrement the counter of transaction `dec`.
    `counted` lists the pushes that line 255 counted, `selfDecs` the decrements of its own counter.
   */
  datatype Txn = Txn(keys: seq<Key>, recs: seq<nat>, put: PutPc, counter: nat, scheduled: nat,
                     running: bool, released: set<nat>, dec: Option<nat>, counted: set<nat>, selfDecs: nat)

  datatype State = State(txns: seq<Txn>, queues: map<Key, seq<Entry>>)

  datatype Action =
    | Put(keys: seq<Key>, recs: seq<nat>)   // 439-440
    | Push                           // 253-255
    | Add                            // 450
    | Subtract                       // 451-452
    | Start(t: nat)                  // a writer takes a scheduled transaction
    | Release(t: nat, i: nat)        // 388-389
    | Decrement(t: nat)              // 393-394

  // ---------------------------------------------------------------- the code

  function Init(): State { State([], map[]) }

  function Queue(s: State, k: Key): seq<Entry> { if k in s.queues then s.queues[k] else [] }

  function SetTxn(s: State, t: nat, x: Txn): State
    requires t < |s.txns|
  {
    s.(txns := s.txns[t := x])
  }

  /** The transaction handled by the running or last call of put. */
  function Last(s: State): nat
    requires |s.txns| > 0
  {
    |s.txns| - 1
  }

  /** The loop of put: more records to push, or on to line 450. */
  function NextPush(n: nat, next: nat, blockCounts: nat): PutPc {
    if next < n then Pushing(next, blockCounts) else Adding(blockCounts)
  }

  /** The records of a transaction are pushed one after the other. */
  predicate InOrder(keys: seq<Key>, recs: seq<nat>) {
    |recs| == |keys| && forall i, j | 0 <= i < j < |recs| :: recs[i] <= recs[j]
  }

  /** Two pushes of one record to one queue: the source cannot tell them apart. */
  predicate Same(x: Txn, i: nat, j: nat)
    requires i < |x.keys| == |x.recs| && j < |x.keys|
  {
    x.keys[i] == x.keys[j] && x.recs[i] == x.recs[j]
  }

  /** Pushes of one record to one queue are popped in the order of their numbers, which only names them. */
  predicate Enabled(s: State, a: Action) {
    match a
    case Put(keys, recs) => |keys| < BIAS && InOrder(keys, recs) && (|s.txns| > 0 ==> s.txns[Last(s)].put.Returned?)
    case Push =>
      |s.txns| > 0 && var x := s.txns[Last(s)]; x.put.Pushing? && x.put.next < |x.keys| == |x.recs|
    case Add => |s.txns| > 0 && s.txns[Last(s)].put.Adding?
    case Subtract => |s.txns| > 0 && s.txns[Last(s)].put.Subtracting?
    case Start(t) => t < |s.txns| && s.txns[t].scheduled > 0 && !s.txns[t].running
    case Release(t, i) =>
      && t < |s.txns| && var x := s.txns[t];
      && x.running && x.dec.None? && i < |x.keys| && |x.recs| == |x.keys| && i !in x.released
      && Queue(s, x.keys[i]) != []
      && (forall j | 0 <= j < i :: j in x.released || !Same(x, j, i))
    case Decrement(t) => t < |s.txns| && s.txns[t].dec.Some? && s.txns[t].dec.value < |s.txns|
  }

  function PutStep(s: State, keys: seq<Key>, recs: seq<nat>): State {
    s.(txns := s.txns + [Txn(keys, recs, NextPush(|keys|, 0, 0), BIAS, 0, false, {}, None, {}, 0)])
  }

  /** The head test of line 254: the first entry is a push of the same record. */
  predicate OwnHead(q: seq<Entry>, t: nat, x: Txn, i: nat)
    requires i < |x.recs|
  {
    q != [] && q[0].txn == t && q[0].idx < |x.recs| && x.recs[q[0].idx] == x.recs[i]
  }

  function PushStep(s: State): State
    requires Enabled(s, Push)
  {
    var t := Last(s);
    var x := s.txns[t];
    var i, k := x.put.next, x.keys[x.put.next];
    var q := Queue(s, k) + [Entry(t, i)];
    var own := OwnHead(q, t, x, i);
    var blockCounts := if own then x.put.blockCounts else x.put.blockCounts + 1;
    SetTxn(s, t, x.(put := NextPush(|x.keys|, i + 1, blockCounts),
                    counted := if own then x.counted else x.counted + {i})).(queues := s.queues[k := q])
  }

  function AddStep(s: State): State
    requires Enabled(s, Add)
  {
    var x := s.txns[Last(s)];
    SetTxn(s, Last(s), x.(counter := (x.counter + x.put.blockCounts) % WORD, put := Subtracting))
  }

  function SubtractStep(s: State): State
    requires Enabled(s, Subtract)
  {
    var x := s.txns[Last(s)];
    SetTxn(s, Last(s), x.(counter := (x.counter - BIAS) % WORD, put := Returned,
                          scheduled := if x.counter == BIAS then x.scheduled + 1 else x.scheduled))
  }

  function ReleaseStep(s: State, t: nat, i: nat): State
    requires Enabled(s, Release(t, i))
  {
    var x := s.txns[t];
    var q := Queue(s, x.keys[i])[1..];
    SetTxn(s, t, x.(released := x.released + {i}, dec := if q != [] then Some(q[0].txn) else None))
      .(queues := s.queues[x.keys[i] := q])
  }

  function DecrementStep(s: State, t: nat): State
    requires Enabled(s, Decrement(t))
  {
    var u := s.txns[t].dec.value;
    var s1 := SetTxn(s, t, s.txns[t].(dec := None));
    var y := s1.txns[u];
    var c := (y.counter - 1) % WORD;
    SetTxn(s1, u, y.(counter := c, scheduled := if c == 0 then y.scheduled + 1 else y.scheduled,
                     selfDecs := if u == t then y.selfDecs + 1 else y.selfDecs))
  }

  function Step(s: State, a: Action): State {
    if !Enabled(s, a) then s else
    match a
    case Put(keys, recs) => PutStep(s, keys, recs)
    case Push => PushStep(s)
    case Add => AddStep(s)
    case Subtract => SubtractStep(s)
    case Start(t) => SetTxn(s, t, s.txns[t].(running := true))
    case Release(t, i) => ReleaseStep(s, t, i)
    case Decrement(t) => DecrementStep(s, t)
  }

  /** The state after the actions of `run`, from an empty bucket. */
  function Run(run: seq<Action>): State {
    if run == [] then Init() else Step(Run(run[..|run| - 1]), run[|run| - 1])
  }

  // ---------------------------------------------------------------- the specification

  /** How many pushes of the transaction have been made. */
  function Pushed(x: Txn): nat { if x.put.Pushing? then x.put.next else |x.keys| }

  /** Push i of transaction t has been made and not been popped. */
  ghost predicate Waits(s: State, t: nat, i: nat) {
    t < |s.txns| && i < Pushed(s.txns[t]) && i < |s.txns[t].keys| && i !in s.txns[t].released
  }

  /** Push i of transaction t is first in its queue. */
  ghost predicate AtHead(s: State, t: nat, i: nat)
    requires t < |s.txns| && i < |s.txns[t].keys|
  {
    var q := Queue(s, s.txns[t].keys[i]);
    q != [] && q[0] == Entry(t, i)
  }

  /** The counted pushes of transaction t that are not first in their queues. */
  ghost function Blocked(s: State, t: nat): set<nat>
    requires t < |s.txns|
  {
    set i | 0 <= i < |s.txns[t].keys| && Waits(s, t, i) && i in s.txns[t].counted && !AtHead(s, t, i)
  }

  /** The writers of other transactions that are about to decrement the counter of transaction t. */
  ghost function Pending(s: State, t: nat): set<nat> {
    set u | 0 <= u < |s.txns| && u != t && s.txns[u].dec == Some(t)
  }

  ghost function Blockers(s: State, t: nat): nat
    requires t < |s.txns|
  {
    |Blocked(s, t)| + |Pending(s, t)|
  }

  ghost predicate Before(a: Entry, b: Entry) { a.txn < b.txn || (a.txn == b.txn && a.idx < b.idx) }

  /** The queue of k holds waiting pushes to k, in put order. */
  ghost predicate QueueOk(s: State, k: Key) {
    var q := Queue(s, k);
    && (forall n | 0 <= n < |q| :: Waits(s, q[n].txn, q[n].idx) && s.txns[q[n].txn].keys[q[n].idx] == k)
    && (forall m, n | 0 <= m < n < |q| :: Before(q[m], q[n]))
  }

  /** A waiting push is in its queue, and one that was not counted finds its own record at the head. */
  ghost predicate Listed(s: State, t: nat, i: nat)
    requires Waits(s, t, i)
  {
    var x := s.txns[t];
    && Entry(t, i) in Queue(s, x.keys[i]) && i < |x.recs|
    && (i !in x.counted ==> OwnHead(Queue(s, x.keys[i]), t, x, i))
  }

  /**
    The counter counts exactly the blockers; while put runs it is biased, while the transaction runs it only
    falls below 0.
   */
  ghost predicate CounterOk(s: State, t: nat)
    requires t < |s.txns|
  {
    var x := s.txns[t];
    && Blockers(s, t) <= Pushed(x)
    && match x.put
       case Pushing(next, b) => b <= next < |x.keys| && x.counter + b == BIAS + Blockers(s, t)
       case Adding(b) => b <= |x.keys| && x.counter + b == BIAS + Blockers(s, t)
       case Subtracting => x.counter == BIAS + Blockers(s, t)
       case Returned => if x.running then Blockers(s, t) == 0 && x.counter == (WORD - x.selfDecs) % WORD
                        else x.counter == Blockers(s, t)
  }

  /** Scheduled once, exactly when put has returned and nothing blocks. */
  ghost predicate TxnOk(s: State, t: nat)
    requires t < |s.txns|
  {
    var x := s.txns[t];
    && |x.keys| < BIAS
    && InOrder(x.keys, x.recs) && (forall i | i in x.counted :: i < Pushed(x))
    && x.scheduled == (if x.put.Returned? && (x.running || x.counter == 0) then 1 else 0)
    && (x.running ==> x.scheduled == 1)
    && x.selfDecs + (if x.dec == Some(t) then 1 else 0) <= |x.released|
    && (x.released != {} || x.dec.Some? ==> x.running)
    && (forall i | i in x.released :: i < |x.keys|)
    && (x.dec.Some? ==> x.dec.value < |s.txns|)
    && (!x.put.Returned? ==> t == |s.txns| - 1)
  }

  ghost predicate Inv(s: State) {
    && (forall k: Key {:trigger QueueOk(s, k)} :: QueueOk(s, k))
    && (forall t: nat, i: nat {:trigger Listed(s, t, i)} {:trigger Waits(s, t, i)} | Waits(s, t, i) :: Listed(s, t, i))
    && (forall t: nat {:trigger CounterOk(s, t)} | t < |s.txns| :: CounterOk(s, t))
    && (forall t: nat {:trigger TxnOk(s, t)} | t < |s.txns| :: TxnOk(s, t))
  }

  // ---------------------------------------------------------------- put

  lemma UseQueue(s: State, k: Key)
    requires Inv(s)
    ensures QueueOk(s, k)
  {
  }

  /** A queue that stays as it is stays in order when no waiting record stops waiting. */
  lemma QueueFrame(s: State, s': State, k: Key)
    requires QueueOk(s, k) && Queue(s', k) == Queue(s, k)
    requires forall t: nat, i: nat {:trigger Waits(s, t, i)} | Waits(s, t, i) ::
               Waits(s', t, i) && s'.txns[t].keys == s.txns[t].keys
    ensures QueueOk(s', k)
  {
    var q := Queue(s, k);
    forall n | 0 <= n < |q| ensures Waits(s', q[n].txn, q[n].idx) && s'.txns[q[n].txn].keys[q[n].idx] == k {
      assert Waits(s, q[n].txn, q[n].idx) && s.txns[q[n].txn].keys[q[n].idx] == k;
    }
  }

  /** A waiting record is in its queue, so that queue is not empty. */
  lemma WaitsInQueue(s: State, t: nat, i: nat)
    requires Inv(s) && Waits(s, t, i)
    ensures Queue(s, s.txns[t].keys[i]) != [] && Entry(t, i) in Queue(s, s.txns[t].keys[i])
  {
    assert Listed(s, t, i);
  }

  lemma PutKeeps(s: State, keys: seq<Key>, recs: seq<nat>)
    requires Inv(s) && Enabled(s, Put(keys, recs))
    ensures Inv(PutStep(s, keys, recs))
  {
    var s' := PutStep(s, keys, recs);
    var t := |s.txns|;
    forall k: Key ensures QueueOk(s', k) {
      UseQueue(s, k);
      QueueFrame(s, s', k);
    }
    forall u: nat, i: nat | Waits(s', u, i) ensures Listed(s', u, i) {
      assert Waits(s, u, i) && Listed(s, u, i);
    }
    forall u: nat | u <= t ensures CounterOk(s', u) && TxnOk(s', u) {
      if u < t {
        assert CounterOk(s, u) && TxnOk(s, u);
        assert Blocked(s', u) == Blocked(s, u) && Pending(s', u) == Pending(s, u);
      } else {
        forall v: nat | v < t ensures s.txns[v].dec != Some(t) {
          assert TxnOk(s, v);
        }
        assert Blocked(s', t) == {} && Pending(s', t) == {};
      }
    }
  }

  /** A push ends no waiting; besides those that waited only the new push waits. */
  lemma PushWaits(s: State, u: nat, i: nat)
    requires Inv(s) && Enabled(s, Push)
    ensures var t := Last(s);
            Waits(PushStep(s), u, i) <==> Waits(s, u, i) || (u == t && i == s.txns[t].put.next)
  {
    assert TxnOk(s, Last(s));
  }

  /** The queue that is pushed to stays in put order. */
  lemma PushedQueue(s: State)
    requires Inv(s) && Enabled(s, Push)
    ensures var x := s.txns[Last(s)]; QueueOk(PushStep(s), x.keys[x.put.next])
  {
    var s', t := PushStep(s), Last(s);
    var i := s.txns[t].put.next;
    var k := s.txns[t].keys[i];
    var q := Queue(s, k);
    assert TxnOk(s, t);
    UseQueue(s, k);
    assert Queue(s', k) == q + [Entry(t, i)];
    forall n | 0 <= n < |q|
      ensures Waits(s', q[n].txn, q[n].idx) && s'.txns[q[n].txn].keys[q[n].idx] == k && Before(q[n], Entry(t, i))
    {
      assert Waits(s, q[n].txn, q[n].idx) && s.txns[q[n].txn].keys[q[n].idx] == k;
      PushWaits(s, q[n].txn, q[n].idx);
    }
    PushWaits(s, t, i);
  }

  /** A push that waited before is still in its queue, behind the same head. */
  lemma PushListed(s: State, u: nat, i: nat)
    requires Inv(s) && Enabled(s, Push) && Waits(s, u, i)
    ensures Waits(PushStep(s), u, i) && Listed(PushStep(s), u, i)
  {
    PushWaits(s, u, i);
    assert Listed(s, u, i);
    assert TxnOk(s, Last(s));
  }

  /** The queues after a push. */
  lemma PushQueues(s: State)
    requires Inv(s) && Enabled(s, Push)
    ensures forall k: Key {:trigger QueueOk(PushStep(s), k)} :: QueueOk(PushStep(s), k)
    ensures forall u: nat, i: nat {:trigger Listed(PushStep(s), u, i)} | Waits(PushStep(s), u, i) ::
              Listed(PushStep(s), u, i)
  {
    var s', t := PushStep(s), Last(s);
    forall u: nat, i: nat | Waits(s, u, i) ensures Waits(s', u, i) && s'.txns[u].keys == s.txns[u].keys {
      PushWaits(s, u, i);
    }
    forall k: Key ensures QueueOk(s', k) {
      UseQueue(s, k);
      if k == s.txns[t].keys[s.txns[t].put.next] {
        PushedQueue(s);
      } else {
        QueueFrame(s, s', k);
      }
    }
    forall u: nat, i: nat | Waits(s', u, i) ensures Listed(s', u, i) {
      PushWaits(s, u, i);
      if Waits(s, u, i) {
        PushListed(s, u, i);
      }
    }
  }

  /** A push leaves the head of every queue with waiting entries where it was. */
  lemma PushHeads(s: State, u: nat, j: nat)
    requires Inv(s) && Enabled(s, Push) && Waits(s, u, j)
    ensures Waits(PushStep(s), u, j) && AtHead(PushStep(s), u, j) == AtHead(s, u, j)
  {
    WaitsInQueue(s, u, j);
  }

  /** What is being pushed does not wait yet, so it is not the head of a queue that holds something. */
  lemma PushedIsNew(s: State)
    requires Inv(s) && Enabled(s, Push)
    ensures var t := Last(s); var x := s.txns[t]; var q := Queue(s, x.keys[x.put.next]);
            && x.released == {} && !x.running && !Waits(s, t, x.put.next) && x.put.next !in x.counted
            && (q != [] ==> q[0] != Entry(t, x.put.next))
  {
    var t := Last(s);
    assert TxnOk(s, t);
    UseQueue(s, s.txns[t].keys[s.txns[t].put.next]);
  }

  /** The new push blocks exactly when it is counted; nobody else is affected. */
  lemma PushBlockers(s: State, u: nat)
    requires Inv(s) && Enabled(s, Push) && u < |s.txns|
    ensures var t := Last(s);
            Blockers(PushStep(s), u) ==
              if u == t && s.txns[t].put.next in PushStep(s).txns[t].counted then Blockers(s, u) + 1 else Blockers(s, u)
  {
    var s', t := PushStep(s), Last(s);
    var i := s.txns[t].put.next;
    var mine := u == t && i in s'.txns[t].counted;
    PushedIsNew(s);
    forall j: nat | Waits(s, u, j) ensures Waits(s', u, j) && AtHead(s', u, j) == AtHead(s, u, j) {
      PushHeads(s, u, j);
    }
    assert Pending(s', u) == Pending(s, u);
    forall j | j in Blocked(s', u) ensures j in Blocked(s, u) || (mine && j == i) {
    }
    assert mine ==> i in Blocked(s', u) && i !in Blocked(s, u);
    assert Blocked(s', u) == if mine then Blocked(s, u) + {i} else Blocked(s, u);
  }

  lemma PushKeeps(s: State)
    requires Inv(s) && Enabled(s, Push)
    ensures Inv(PushStep(s))
  {
    var s' := PushStep(s);
    PushQueues(s);
    PushedIsNew(s);
    forall u: nat | u < |s.txns| ensures CounterOk(s', u) && TxnOk(s', u) {
      assert CounterOk(s, u) && TxnOk(s, u);
      PushBlockers(s, u);
    }
  }

  /** The transactions agree in everything that queues and blockers depend on. */
  ghost predicate SameWaiting(x: Txn, y: Txn) {
    && x.keys == y.keys && x.recs == y.recs && Pushed(x) == Pushed(y)
    && x.released == y.released && x.counted == y.counted
  }

  /** A step that touches neither queues nor pushes nor pending decrements moves no blocker. */
  lemma SameBlockers(s: State, s': State)
    requires |s'.txns| == |s.txns| && s'.queues == s.queues
    requires forall u {:trigger s'.txns[u]} | 0 <= u < |s.txns| :: SameWaiting(s'.txns[u], s.txns[u])
    ensures forall u: nat {:trigger Blocked(s', u)} | u < |s.txns| :: Blocked(s', u) == Blocked(s, u)
    ensures Inv(s) ==> forall k: Key {:trigger QueueOk(s', k)} :: QueueOk(s', k)
    ensures Inv(s) ==> forall t: nat, i: nat {:trigger Listed(s', t, i)} | Waits(s', t, i) :: Listed(s', t, i)
  {
    forall u: nat | u < |s.txns| ensures Blocked(s', u) == Blocked(s, u) {
    }
    if Inv(s) {
      forall k: Key ensures QueueOk(s', k) {
        UseQueue(s, k);
        QueueFrame(s, s', k);
      }
      forall t: nat, i: nat | Waits(s', t, i) ensures Listed(s', t, i) {
        assert Waits(s, t, i) && Listed(s, t, i);
      }
    }
  }

  /** Lines 450, 451 and the start of a writer change one transaction only. */
  lemma OneTxnKeeps(s: State, t: nat, x: Txn)
    requires Inv(s) && t < |s.txns| && SameWaiting(x, s.txns[t]) && x.dec == s.txns[t].dec
    requires var s' := SetTxn(s, t, x);
             && Pending(s', t) == Pending(s, t) && Blocked(s', t) == Blocked(s, t) ==> CounterOk(s', t) && TxnOk(s', t)
    ensures Inv(SetTxn(s, t, x))
  {
    var s' := SetTxn(s, t, x);
    SameBlockers(s, s');
    forall u: nat | u < |s.txns| ensures CounterOk(s', u) && TxnOk(s', u) {
      assert CounterOk(s, u) && TxnOk(s, u);
      assert Pending(s', u) == Pending(s, u);
    }
  }

  lemma AddKeeps(s: State)
    requires Inv(s) && Enabled(s, Add)
    ensures Inv(AddStep(s))
  {
    var t := Last(s);
    assert CounterOk(s, t) && TxnOk(s, t);
    OneTxnKeeps(s, t, AddStep(s).txns[t]);
  }

  lemma SubtractKeeps(s: State)
    requires Inv(s) && Enabled(s, Subtract)
    ensures Inv(SubtractStep(s))
  {
    var t := Last(s);
    assert CounterOk(s, t) && TxnOk(s, t);
    OneTxnKeeps(s, t, SubtractStep(s).txns[t]);
  }

  lemma StartKeeps(s: State, t: nat)
    requires Inv(s) && Enabled(s, Start(t))
    ensures Inv(Step(s, Start(t)))
  {
    assert CounterOk(s, t) && TxnOk(s, t);
    OneTxnKeeps(s, t, s.txns[t].(running := true));
  }

  // ---------------------------------------------------------------- writer

  lemma EmptySet<T>(a: set<T>)
    requires |a| == 0
    ensures a == {}
  {
  }

  /**
    A scheduled transaction finds its own record at the head of every queue it still waits in, and nobody else
    will decrement it.
   */
  lemma ScheduledIsFirst(s: State, t: nat)
    requires Inv(s) && t < |s.txns| && s.txns[t].scheduled > 0
    ensures Blocked(s, t) == {} && Pending(s, t) == {}
    ensures s.txns[t].put.Returned? && (!s.txns[t].running ==> s.txns[t].counter == 0)
    ensures forall i: nat | Waits(s, t, i) ::
              i < |s.txns[t].recs| && OwnHead(Queue(s, s.txns[t].keys[i]), t, s.txns[t], i)
  {
    assert TxnOk(s, t) && CounterOk(s, t);
    EmptySet(Blocked(s, t));
    EmptySet(Pending(s, t));
    forall i: nat | Waits(s, t, i)
      ensures i < |s.txns[t].recs| && OwnHead(Queue(s, s.txns[t].keys[i]), t, s.txns[t], i)
    {
      assert Listed(s, t, i) && i !in Blocked(s, t);
    }
  }

  /** A writer pops its own record, never somebody else's. */
  lemma PopsItself(s: State, t: nat, i: nat)
    requires Inv(s) && Enabled(s, Release(t, i))
    ensures Waits(s, t, i) && Queue(s, s.txns[t].keys[i])[0] == Entry(t, i)
    ensures Blocked(s, t) == {} && Pending(s, t) == {}
  {
    assert TxnOk(s, t);
    ScheduledIsFirst(s, t);
    assert Waits(s, t, i);
    var x, q := s.txns[t], Queue(s, s.txns[t].keys[i]);
    UseQueue(s, x.keys[i]);
    WaitsInQueue(s, t, i);
    var n :| 0 <= n < |q| && q[n] == Entry(t, i);
    var e := q[0];
    assert OwnHead(q, t, x, i) && Waits(s, e.txn, e.idx) && x.keys[e.idx] == x.keys[i];
    if n > 0 {
      assert Before(q[0], q[n]);
      assert Same(x, e.idx, i);
    }
  }

  lemma ReleaseQueueOk(s: State, t: nat, i: nat, k: Key)
    requires Inv(s) && Enabled(s, Release(t, i))
    ensures QueueOk(ReleaseStep(s, t, i), k)
  {
    var s', k0 := ReleaseStep(s, t, i), s.txns[t].keys[i];
    PopsItself(s, t, i);
    UseQueue(s, k);
    var q, q' := Queue(s, k), Queue(s', k);
    forall n | 0 <= n < |q'| ensures Waits(s', q'[n].txn, q'[n].idx) && s'.txns[q'[n].txn].keys[q'[n].idx] == k {
      var m := if k == k0 then n + 1 else n;
      assert q'[n] == q[m] && Waits(s, q[m].txn, q[m].idx);
      assert k == k0 ==> Before(q[0], q[m]);
    }
  }

  /** Behind a record that is popped, its own further pushes to the queue come first. */
  lemma NextIsOwn(s: State, t: nat, i: nat, j: nat)
    requires Inv(s) && Enabled(s, Release(t, i)) && Waits(s, t, j) && j != i && s.txns[t].keys[j] == s.txns[t].keys[i]
    ensures j < |s.txns[t].recs| && OwnHead(Queue(s, s.txns[t].keys[i])[1..], t, s.txns[t], j)
  {
    var x, q := s.txns[t], Queue(s, s.txns[t].keys[i]);
    assert TxnOk(s, t);
    PopsItself(s, t, i);
    ScheduledIsFirst(s, t);
    UseQueue(s, x.keys[i]);
    WaitsInQueue(s, t, j);
    var n :| 0 <= n < |q| && q[n] == Entry(t, j);
    assert Before(q[0], q[1]) && Waits(s, q[1].txn, q[1].idx);
    if n > 1 {
      assert Before(q[1], q[n]);
    }
    assert OwnHead(q, t, x, j) && OwnHead(q, t, x, i);
  }

  lemma ReleaseListed(s: State, t: nat, i: nat, u: nat, j: nat)
    requires Inv(s) && Enabled(s, Release(t, i)) && Waits(ReleaseStep(s, t, i), u, j)
    ensures Listed(ReleaseStep(s, t, i), u, j)
  {
    assert Waits(s, u, j) && Listed(s, u, j);
    PopsItself(s, t, i);
    if s.txns[u].keys[j] == s.txns[t].keys[i] && u == t {
      assert i in ReleaseStep(s, t, i).txns[t].released;
      NextIsOwn(s, t, i, j);
    }
  }

  lemma ReleaseQueues(s: State, t: nat, i: nat)
    requires Inv(s) && Enabled(s, Release(t, i))
    ensures forall k: Key {:trigger QueueOk(ReleaseStep(s, t, i), k)} :: QueueOk(ReleaseStep(s, t, i), k)
    ensures forall u: nat, j: nat {:trigger Listed(ReleaseStep(s, t, i), u, j)} | Waits(ReleaseStep(s, t, i), u, j) ::
              Listed(ReleaseStep(s, t, i), u, j)
  {
    var s' := ReleaseStep(s, t, i);
    forall k: Key ensures QueueOk(s', k) {
      ReleaseQueueOk(s, t, i, k);
    }
    forall u: nat, j: nat | Waits(s', u, j) ensures Listed(s', u, j) {
      ReleaseListed(s, t, i, u, j);
    }
  }

  /** Who is first after a pop: those who were, and the entry behind the popped one. */
  lemma ReleaseHeads(s: State, t: nat, i: nat, u: nat, j: nat)
    requires Inv(s) && Enabled(s, Release(t, i)) && Waits(s, u, j) && Entry(u, j) != Entry(t, i)
    ensures var q := Queue(s, s.txns[t].keys[i]);
            && Waits(ReleaseStep(s, t, i), u, j)
            && (AtHead(ReleaseStep(s, t, i), u, j) <==> AtHead(s, u, j) || (1 < |q| && q[1] == Entry(u, j)))
            && (1 < |q| && q[1] == Entry(u, j) ==> !AtHead(s, u, j))
  {
    PopsItself(s, t, i);
    WaitsInQueue(s, u, j);
    UseQueue(s, s.txns[t].keys[i]);
  }

  /** The push of another transaction u, if any, that is right behind push i of transaction t. */
  ghost function Behind(s: State, t: nat, i: nat, u: nat): set<nat>
    requires t < |s.txns| && i < |s.txns[t].keys|
  {
    var q := Queue(s, s.txns[t].keys[i]);
    if 1 < |q| && q[1].txn == u && u != t then {q[1].idx} else {}
  }

  /** Whoever is behind somebody else's record was counted. */
  lemma BehindIsBlocked(s: State, t: nat, i: nat, u: nat)
    requires Inv(s) && Enabled(s, Release(t, i)) && u < |s.txns|
    ensures Behind(s, t, i, u) <= Blocked(s, u)
  {
    var q := Queue(s, s.txns[t].keys[i]);
    PopsItself(s, t, i);
    UseQueue(s, s.txns[t].keys[i]);
    if 1 < |q| && q[1].txn == u && u != t {
      assert Waits(s, u, q[1].idx) && Listed(s, u, q[1].idx);
    }
  }

  lemma ReleaseBlocked(s: State, t: nat, i: nat, u: nat)
    requires Inv(s) && Enabled(s, Release(t, i)) && u < |s.txns|
    ensures Blocked(ReleaseStep(s, t, i), u) == Blocked(s, u) - Behind(s, t, i, u)
  {
    var s' := ReleaseStep(s, t, i);
    PopsItself(s, t, i);
    BehindIsBlocked(s, t, i, u);
    forall j: nat | Waits(s', u, j)
      ensures u != t ==> (AtHead(s', u, j) <==> AtHead(s, u, j) || j in Behind(s, t, i, u))
    {
      ReleaseHeads(s, t, i, u, j);
    }
    if u == t {
      forall j: nat | Waits(s', t, j) ensures j !in Blocked(s', t) {
        ReleaseHeads(s, t, i, t, j);
        assert j !in Blocked(s, t);
      }
    }
  }

  lemma ReleasePending(s: State, t: nat, i: nat, u: nat)
    requires Enabled(s, Release(t, i))
    ensures t !in Pending(s, u)
    ensures Pending(ReleaseStep(s, t, i), u) == Pending(s, u) + (if Behind(s, t, i, u) != {} then {t} else {})
  {
  }

  /** The transaction that becomes first loses a blocking push and gains a pending decrement. */
  lemma ReleaseBlockers(s: State, t: nat, i: nat, u: nat)
    requires Inv(s) && Enabled(s, Release(t, i)) && u < |s.txns|
    ensures Blockers(ReleaseStep(s, t, i), u) == Blockers(s, u)
  {
    ReleaseBlocked(s, t, i, u);
    BehindIsBlocked(s, t, i, u);
    ReleasePending(s, t, i, u);
  }

  lemma ReleaseTxn(s: State, t: nat, i: nat, u: nat)
    requires Inv(s) && Enabled(s, Release(t, i)) && u < |s.txns|
    ensures TxnOk(ReleaseStep(s, t, i), u)
  {
    var k := s.txns[t].keys[i];
    assert TxnOk(s, u) && TxnOk(s, t);
    UseQueue(s, k);
    if u == t {
      assert |s.txns[t].released + {i}| == |s.txns[t].released| + 1;
    }
  }

  lemma ReleaseKeeps(s: State, t: nat, i: nat)
    requires Inv(s) && Enabled(s, Release(t, i))
    ensures Inv(ReleaseStep(s, t, i))
  {
    var s' := ReleaseStep(s, t, i);
    ReleaseQueues(s, t, i);
    forall u: nat | u < |s.txns| ensures CounterOk(s', u) && TxnOk(s', u) {
      assert CounterOk(s, u);
      ReleaseTxn(s, t, i, u);
      ReleaseBlockers(s, t, i, u);
    }
  }

  lemma DecrementBlockers(s: State, t: nat, v: nat)
    requires Inv(s) && Enabled(s, Decrement(t)) && v < |s.txns|
    ensures var u := s.txns[t].dec.value;
            Blockers(DecrementStep(s, t), v) == if v == u != t then Blockers(s, v) - 1 else Blockers(s, v)
    ensures var u := s.txns[t].dec.value; u != t ==> Blockers(s, u) >= 1
  {
    var s', u := DecrementStep(s, t), s.txns[t].dec.value;
    SameBlockers(s, s');
    assert u != t ==> t in Pending(s, u);
    if v == u != t {
      assert Pending(s', u) == Pending(s, u) - {t};
    } else {
      assert Pending(s', v) == Pending(s, v);
    }
  }

  /** The pops of a transaction are no more than its pushes. */
  lemma {:induction false} FewReleased(a: set<nat>, n: nat)
    requires forall i | i in a :: i < n
    ensures |a| <= n
  {
    if n > 0 {
      FewReleased(a - {n - 1}, n - 1);
      assert n - 1 in a ==> a == (a - {n - 1}) + {n - 1};
      assert n - 1 !in a ==> a == a - {n - 1};
    }
  }

  /** A transaction that decrements itself is running; its counter goes below 0 and stays away from 0. */
  lemma SelfDecrement(s: State, t: nat)
    requires Inv(s) && Enabled(s, Decrement(t)) && s.txns[t].dec == Some(t)
    ensures var x, y := s.txns[t], DecrementStep(s, t).txns[t];
            && x.running && y == x.(dec := None, counter := y.counter, selfDecs := x.selfDecs + 1)
            && y.counter == (WORD - y.selfDecs) % WORD && y.counter != 0 && y.selfDecs <= |y.released|
  {
    var x := s.txns[t];
    assert TxnOk(s, t) && CounterOk(s, t);
    FewReleased(x.released, |x.keys|);
  }

  /** The decremented transaction, when another one's writer decrements it. */
  lemma DecrementOther(s: State, t: nat)
    requires Inv(s) && Enabled(s, Decrement(t)) && s.txns[t].dec.value != t
    ensures var u := s.txns[t].dec.value; CounterOk(DecrementStep(s, t), u) && TxnOk(DecrementStep(s, t), u)
  {
    var u := s.txns[t].dec.value;
    assert CounterOk(s, u) && TxnOk(s, u);
    DecrementBlockers(s, t, u);
  }

  lemma DecrementSelf(s: State, t: nat)
    requires Inv(s) && Enabled(s, Decrement(t)) && s.txns[t].dec == Some(t)
    ensures CounterOk(DecrementStep(s, t), t) && TxnOk(DecrementStep(s, t), t)
  {
    assert CounterOk(s, t) && TxnOk(s, t);
    DecrementBlockers(s, t, t);
    SelfDecrement(s, t);
  }

  /** Every other transaction keeps its counter. */
  lemma DecrementFrame(s: State, t: nat, v: nat)
    requires Inv(s) && Enabled(s, Decrement(t)) && v < |s.txns| && v != s.txns[t].dec.value
    ensures CounterOk(DecrementStep(s, t), v) && TxnOk(DecrementStep(s, t), v)
  {
    var y := DecrementStep(s, t).txns[v];
    assert CounterOk(s, v) && TxnOk(s, v);
    assert y == s.txns[v].(dec := y.dec) && (y.dec == s.txns[v].dec || y.dec.None?);
    DecrementBlockers(s, t, v);
  }

  lemma DecrementKeeps(s: State, t: nat)
    requires Inv(s) && Enabled(s, Decrement(t))
    ensures Inv(DecrementStep(s, t))
  {
    var s' := DecrementStep(s, t);
    SameBlockers(s, s');
    forall v: nat | v < |s.txns| ensures CounterOk(s', v) && TxnOk(s', v) {
      if v != s.txns[t].dec.value {
        DecrementFrame(s, t, v);
      } else if v == t {
        DecrementSelf(s, t);
      } else {
        DecrementOther(s, t);
      }
    }
  }

  lemma StepKeeps(s: State, a: Action)
    requires Inv(s)
    ensures Inv(Step(s, a))
  {
    if Enabled(s, a) {
      match a
      case Put(keys, recs) => PutKeeps(s, keys, recs);
      case Push => PushKeeps(s);
      case Add => AddKeeps(s);
      case Subtract => SubtractKeeps(s);
      case Start(t) => StartKeeps(s, t);
      case Release(t, i) => ReleaseKeeps(s, t, i);
      case Decrement(t) => DecrementKeeps(s, t);
    }
  }

  lemma {:induction false} RunInv(run: seq<Action>)
    ensures Inv(Run(run))
  {
    if run == [] {
      forall k: Key ensures QueueOk(Init(), k) {
      }
    } else {
      RunInv(run[..|run| - 1]);
      StepKeeps(Run(run[..|run| - 1]), run[|run| - 1]);
    }
  }

  // ---------------------------------------------------------------- safety of every run

  /**
    In every run the counter of a transaction is the number of its counted pushes that are not yet first
    plus the decrements already decided on, plus the bias while put is running; it is scheduled once,
    exactly when put has returned and that number is 0, and then its own record is first in every queue it
    is still in. While it runs only its own writer touches the counter.
   */
  lemma CountersAreExact(run: seq<Action>, t: nat)
    requires t < |Run(run).txns|
    ensures CounterOk(Run(run), t)
    ensures var x := Run(run).txns[t];
            && x.scheduled <= 1
            && (x.scheduled == 1 <==> x.put.Returned? && Blockers(Run(run), t) == 0)
            && (x.scheduled == 1 ==> forall i: nat | Waits(Run(run), t, i) ::
                  i < |x.recs| && OwnHead(Queue(Run(run), x.keys[i]), t, x, i))
  {
    RunInv(run);
    var s := Run(run);
    assert CounterOk(s, t) && TxnOk(s, t);
    if s.txns[t].scheduled == 1 {
      ScheduledIsFirst(s, t);
    }
  }

  /**
    Of two transactions that share a key, the later one is scheduled only after the earlier one has given the
    key up.
   */
  lemma ConflictsRunInPutOrder(run: seq<Action>, t: nat, i: nat, u: nat, j: nat)
    requires var s := Run(run);
             && t < u < |s.txns| && i < |s.txns[t].keys| && j < |s.txns[u].keys|
             && s.txns[t].keys[i] == s.txns[u].keys[j] && s.txns[u].scheduled > 0 && j !in s.txns[u].released
    ensures i in Run(run).txns[t].released
  {
    RunInv(run);
    EarlierIsReleased(Run(run), t, i, u, j);
  }

  lemma EarlierIsReleased(s: State, t: nat, i: nat, u: nat, j: nat)
    requires Inv(s) && t < u < |s.txns| && i < |s.txns[t].keys| && j < |s.txns[u].keys|
    requires s.txns[t].keys[i] == s.txns[u].keys[j] && s.txns[u].scheduled > 0 && j !in s.txns[u].released
    ensures i in s.txns[t].released
  {
    ScheduledIsFirst(s, u);
    assert TxnOk(s, t) && TxnOk(s, u);
    assert Waits(s, u, j);
    if i !in s.txns[t].released {
      WaitsInQueue(s, t, i);
      UseQueue(s, s.txns[t].keys[i]);
      assert false;
    }
  }

  /** While put is running no decrement can bring the counter to 0, so no writer schedules the transaction. */
  lemma BiasProtects(run: seq<Action>, t: nat)
    requires var s := Run(run);
             Enabled(s, Decrement(t)) && !s.txns[s.txns[t].dec.value].put.Returned?
    ensures var s := Run(run); var u := s.txns[t].dec.value; var s' := Step(s, Decrement(t));
            s'.txns[u].counter > 0 && s'.txns[u].scheduled == 0
  {
    RunInv(run);
    BiasedDecrement(Run(run), t);
  }

  lemma BiasedDecrement(s: State, t: nat)
    requires Inv(s) && Enabled(s, Decrement(t)) && !s.txns[s.txns[t].dec.value].put.Returned?
    ensures var u := s.txns[t].dec.value; var s' := DecrementStep(s, t);
            s'.txns[u].counter > 0 && s'.txns[u].scheduled == 0
  {
    var u := s.txns[t].dec.value;
    assert CounterOk(s, u) && TxnOk(s, u);
    DecrementBlockers(s, t, u);
  }

  // ---------------------------------------------------------------- when the scheduler gets stuck

  /** A counted push has an earlier push of its own transaction in front of it. */
  ghost predicate WaitsForItself(x: Txn) {
    exists i, j :: 0 <= i < j < |x.keys| && x.keys[i] == x.keys[j] && j in x.counted
  }

  /** A transaction that waits behind itself is never scheduled, in any run. */
  lemma WaitingForItselfNeverRuns(run: seq<Action>, t: nat)
    requires t < |Run(run).txns| && WaitsForItself(Run(run).txns[t])
    ensures Run(run).txns[t].scheduled == 0
  {
    var x := Run(run).txns[t];
    var i, j :| 0 <= i < j < |x.keys| && x.keys[i] == x.keys[j] && j in x.counted;
    StillWhole(run, t, i, j);
  }

  /** Of two waiting pushes of one transaction to one queue, the later one is not first. */
  lemma SecondIsBlocked(s: State, t: nat, i: nat, j: nat)
    requires Inv(s) && Waits(s, t, i) && Waits(s, t, j) && i < j && s.txns[t].keys[i] == s.txns[t].keys[j]
    requires j in s.txns[t].counted
    ensures Blockers(s, t) >= 1
  {
    WaitsInQueue(s, t, i);
    WaitsInQueue(s, t, j);
    UseQueue(s, s.txns[t].keys[i]);
    assert j in Blocked(s, t);
  }

  lemma {:induction false} StillWhole(run: seq<Action>, t: nat, i: nat, j: nat)
    requires var s := Run(run);
             && t < |s.txns| && i < j < |s.txns[t].keys| && s.txns[t].keys[i] == s.txns[t].keys[j]
             && j in s.txns[t].counted
    ensures var x := Run(run).txns[t]; x.scheduled == 0 && !x.running && x.released == {}
  {
    RunInv(run);
    var s := Run(run);
    if run != [] {
      var r := run[..|run| - 1];
      RunInv(r);
      if t < |Run(r).txns| {
        SameKeys(Run(r), run[|run| - 1], t);
        assert TxnOk(Run(r), t);
        if j in Run(r).txns[t].counted {
          StillWhole(r, t, i, j);
        }
      }
    }
    BlockedIsWhole(s, t, i, j);
  }

  lemma BlockedIsWhole(s: State, t: nat, i: nat, j: nat)
    requires Inv(s) && t < |s.txns| && i < j < |s.txns[t].keys| && s.txns[t].keys[i] == s.txns[t].keys[j]
    requires j in s.txns[t].counted
    requires !s.txns[t].running && s.txns[t].released == {}
    ensures s.txns[t].scheduled == 0
  {
    assert TxnOk(s, t) && CounterOk(s, t);
    if s.txns[t].put.Returned? {
      SecondIsBlocked(s, t, i, j);
    }
  }

  lemma SameKeys(s: State, a: Action, t: nat)
    requires t < |s.txns|
    ensures t < |Step(s, a).txns| && Step(s, a).txns[t].keys == s.txns[t].keys
    ensures Step(s, a).txns[t].recs == s.txns[t].recs
    ensures Step(s, a).txns[t].running ==> s.txns[t].running || s.txns[t].scheduled > 0
    ensures Step(s, a).txns[t].released != {} ==> s.txns[t].running || s.txns[t].released != {}
    ensures s.txns[t].counted <= Step(s, a).txns[t].counted
    ensures s.txns[t].counted != Step(s, a).txns[t].counted ==> s.txns[t].put.Pushing?
  {
  }

  /** Pushing a second record to a queue of the transaction makes it wait for itself, whatever else happens. */
  lemma SecondRecordIsCounted(s: State, i: nat)
    requires Inv(s) && Enabled(s, Push)
    requires var x := s.txns[Last(s)];
             i < x.put.next && x.keys[i] == x.keys[x.put.next] && x.recs[i] != x.recs[x.put.next]
    ensures WaitsForItself(PushStep(s).txns[Last(s)])
  {
    var t := Last(s);
    var x := s.txns[t];
    var j := x.put.next;
    PushedIsNew(s);
    assert TxnOk(s, t) && Waits(s, t, i);
    HeadComesFirst(s, t, i);
    var y := PushStep(s).txns[t];
    assert y.keys[i] == y.keys[j] && j in y.counted;
  }

  /** The head of a queue is no later than any push that waits in it. */
  lemma HeadComesFirst(s: State, t: nat, i: nat)
    requires Inv(s) && Waits(s, t, i)
    ensures var q := Queue(s, s.txns[t].keys[i]); q != [] && (q[0] == Entry(t, i) || Before(q[0], Entry(t, i)))
  {
    WaitsInQueue(s, t, i);
    UseQueue(s, s.txns[t].keys[i]);
  }

  /** A second push of the same record to a queue is harmless if and only if the record is first there. */
  lemma SecondPushOfRecord(s: State, i: nat)
    requires Inv(s) && Enabled(s, Push)
    requires var x := s.txns[Last(s)];
             i < x.put.next && x.keys[i] == x.keys[x.put.next] && x.recs[i] == x.recs[x.put.next]
    ensures var x := s.txns[Last(s)]; var q := Queue(s, x.keys[x.put.next]);
            x.put.next in PushStep(s).txns[Last(s)].counted <==> !OwnHead(q, Last(s), x, i)
  {
    var t := Last(s);
    PushedIsNew(s);
    assert TxnOk(s, t) && Waits(s, t, i);
    HeadComesFirst(s, t, i);
  }

  lemma RunSnoc(run: seq<Action>, a: Action)
    ensures Run(run + [a]) == Step(Run(run), a)
  {
    assert (run + [a])[..|run|] == run;
  }

  /** A transaction with two pushes to queue 7, and what its put has done so far. */
  function TwoPushes(recs: seq<nat>, put: PutPc, counter: nat, scheduled: nat, counted: set<nat>,
                     queue: seq<Entry>): State {
    State([Txn([7, 7], recs, put, counter, scheduled, false, {}, None, counted, 0)],
          if queue == [] then map[] else map[7 := queue])
  }

  lemma FirstPush(recs: seq<nat>) returns (run: seq<Action>)
    requires |recs| == 2 && recs[0] <= recs[1]
    ensures Run(run) == TwoPushes(recs, Pushing(1, 0), BIAS, 0, {}, [Entry(0, 0)])
  {
    var s0 := TwoPushes(recs, Pushing(0, 0), BIAS, 0, {}, []);
    run := [] + [Put([7, 7], recs)];
    RunSnoc([], Put([7, 7], recs));
    assert Run(run) == s0;
    assert Enabled(s0, Push) && Queue(s0, 7) + [Entry(0, 0)] == [Entry(0, 0)];
    SameState(Step(s0, Push), TwoPushes(recs, Pushing(1, 0), BIAS, 0, {}, [Entry(0, 0)]));
    RunSnoc(run, Push);
    run := run + [Push];
  }

  lemma SameState(s: State, s': State)
    requires |s.txns| == 1 == |s'.txns| && s.txns[0] == s'.txns[0]
    requires s.queues.Keys == s'.queues.Keys && forall k | k in s.queues :: s.queues[k] == s'.queues[k]
    ensures s == s'
  {
    assert s.txns == s'.txns && s.queues == s'.queues;
  }

  lemma SecondPush(s: State, recs: seq<nat>)
    requires s == TwoPushes(recs, Pushing(1, 0), BIAS, 0, {}, [Entry(0, 0)]) && |recs| == 2
    ensures Step(s, Push) ==
              if recs[0] == recs[1] then TwoPushes(recs, Adding(0), BIAS, 0, {}, [Entry(0, 0), Entry(0, 1)])
              else TwoPushes(recs, Adding(1), BIAS, 0, {1}, [Entry(0, 0), Entry(0, 1)])
  {
    assert Queue(s, 7) + [Entry(0, 1)] == [Entry(0, 0), Entry(0, 1)];
    assert Enabled(s, Push);
    if recs[0] == recs[1] {
      SameState(Step(s, Push), TwoPushes(recs, Adding(0), BIAS, 0, {}, [Entry(0, 0), Entry(0, 1)]));
    } else {
      assert {} + {1} == {1};
      SameState(Step(s, Push), TwoPushes(recs, Adding(1), BIAS, 0, {1}, [Entry(0, 0), Entry(0, 1)]));
    }
  }

  /** One record whose two keys lead to the same empty queue: it is not counted and gets scheduled. */
  lemma RecordTwiceOnOneQueueRuns() returns (run: seq<Action>)
    ensures Run(run) == TwoPushes([0, 0], Returned, 0, 1, {}, [Entry(0, 0), Entry(0, 1)])
  {
    run := FirstPush([0, 0]);
    SecondPush(Run(run), [0, 0]);
    RunSnoc(run, Push);
    run := run + [Push];
    RunSnoc(run, Add);
    run := run + [Add];
    RunSnoc(run, Subtract);
    run := run + [Subtract];
  }

  lemma PopsInFrontOfItself(s: State)
    requires s == Step(TwoPushes([0, 0], Returned, 0, 1, {}, [Entry(0, 0), Entry(0, 1)]), Start(0))
    ensures Step(s, Release(0, 0)) == State([s.txns[0].(released := {0}, dec := Some(0))], map[7 := [Entry(0, 1)]])
  {
    assert Enabled(s, Release(0, 0));
    assert Queue(s, 7)[1..] == [Entry(0, 1)];
    assert {} + {0} == {0};
    SameState(Step(s, Release(0, 0)), State([s.txns[0].(released := {0}, dec := Some(0))], map[7 := [Entry(0, 1)]]));
  }

  /** Its writer finds the record behind itself and decrements its own counter below 0. */
  lemma ItDecrementsItself() returns (run: seq<Action>)
    ensures |Run(run).txns| == 1 && Run(run).txns[0].counter == WORD - 1 && Run(run).txns[0].scheduled == 1
  {
    run := RecordTwiceOnOneQueueRuns();
    RunSnoc(run, Start(0));
    run := run + [Start(0)];
    PopsInFrontOfItself(Run(run));
    RunSnoc(run, Release(0, 0));
    run := run + [Release(0, 0)];
    RunSnoc(run, Decrement(0));
    run := run + [Decrement(0)];
  }

  /** Two records on one queue: the transaction waits for itself from the start. */
  lemma TwoRecordsOnOneQueue() returns (run: seq<Action>)
    ensures |Run(run).txns| == 1 && WaitsForItself(Run(run).txns[0])
  {
    run := FirstPush([0, 1]);
    SecondPush(Run(run), [0, 1]);
    RunSnoc(run, Push);
    run := run + [Push];
    var x := Run(run).txns[0];
    assert x.keys[0] == x.keys[1] && 1 in x.counted;
  }

  /** A transaction without two pushes to one queue never waits for itself. */
  lemma DistinctKeysNeverWait(x: Txn)
    requires forall i, j | 0 <= i < j < |x.keys| :: x.keys[i] != x.keys[j]
    ensures !WaitsForItself(x)
  {
  }

  // ---------------------------------------------------------------- progress

  ghost function Remaining(x: Txn): set<nat> { set i | 0 <= i < |x.keys| && i !in x.released }

  ghost predicate Finished(x: Txn) { x.put.Returned? && x.running && Remaining(x) == {} && x.dec.None? }

  ghost predicate AllFinished(s: State) { forall t | 0 <= t < |s.txns| :: Finished(s.txns[t]) }

  ghost predicate NoneWaitsForItself(s: State) { forall t | 0 <= t < |s.txns| :: !WaitsForItself(s.txns[t]) }

  lemma WaitingIsUnfinished(s: State, t: nat, i: nat)
    requires Waits(s, t, i)
    ensures !Finished(s.txns[t])
  {
    assert i in Remaining(s.txns[t]);
  }

  /** The oldest unfinished transaction is first in all its queues: only decrements already decided on can hold it. */
  lemma OldestIsUnblocked(s: State, t: nat)
    requires Inv(s) && NoneWaitsForItself(s) && t < |s.txns|
    requires forall u | 0 <= u < t :: Finished(s.txns[u])
    ensures Blocked(s, t) == {}
  {
    forall i: nat | Waits(s, t, i) && i in s.txns[t].counted ensures AtHead(s, t, i) {
      var k := s.txns[t].keys[i];
      HeadComesFirst(s, t, i);
      UseQueue(s, k);
      var e := Queue(s, k)[0];
      assert Waits(s, e.txn, e.idx);
      WaitingIsUnfinished(s, e.txn, e.idx);
      assert e.txn == t && !WaitsForItself(s.txns[t]);
    }
  }

  lemma OldestUnfinished(s: State, n: nat) returns (t: nat)
    requires !AllFinished(s) && forall u | 0 <= u < n :: u < |s.txns| && Finished(s.txns[u])
    ensures t < |s.txns| && !Finished(s.txns[t]) && forall u | 0 <= u < t :: Finished(s.txns[u])
    decreases |s.txns| - n
  {
    if Finished(s.txns[n]) {
      t := OldestUnfinished(s, n + 1);
    } else {
      t := n;
    }
  }

  lemma OldestCanRun(s: State, t: nat)
    requires Inv(s) && NoneWaitsForItself(s) && t < |s.txns| && s.txns[t].put.Returned?
    requires forall v | 0 <= v < |s.txns| :: s.txns[v].dec.None?
    requires !Finished(s.txns[t]) && forall u | 0 <= u < t :: Finished(s.txns[u])
    ensures Enabled(s, Start(t)) || exists i :: Enabled(s, Release(t, i))
  {
    OldestIsUnblocked(s, t);
    assert Pending(s, t) == {};
    assert CounterOk(s, t) && TxnOk(s, t);
    if s.txns[t].running {
      var i := Least(Remaining(s.txns[t]));
      assert Waits(s, t, i);
      WaitsInQueue(s, t, i);
      forall j | 0 <= j < i ensures j in s.txns[t].released {
        assert j !in Remaining(s.txns[t]);
      }
      assert Enabled(s, Release(t, i));
    }
  }

  lemma {:induction false} Least(a: set<nat>) returns (i: nat)
    requires a != {}
    ensures i in a && forall j | j in a :: i <= j
    decreases |a|
  {
    var k :| k in a;
    i := k;
    if a != {k} {
      assert a == (a - {k}) + {k};
      var j := Least(a - {k});
      i := if j < k then j else k;
    }
  }

  /** A running put can always take its next step. */
  lemma PutCanStep(s: State)
    requires Inv(s) && |s.txns| > 0 && !s.txns[Last(s)].put.Returned?
    ensures Enabled(s, Push) || Enabled(s, Add) || Enabled(s, Subtract)
  {
    assert CounterOk(s, Last(s)) && TxnOk(s, Last(s));
  }

  ghost predicate CanStep(s: State) {
    exists a: Action :: !a.Put? && Enabled(s, a)
  }

  /** Unless everything is finished, some thread can take a step without a new put. */
  lemma NoDeadlock(s: State)
    requires Inv(s) && NoneWaitsForItself(s) && !AllFinished(s)
    ensures CanStep(s)
  {
    if !s.txns[Last(s)].put.Returned? {
      PutCanStep(s);
    } else if v :| 0 <= v < |s.txns| && s.txns[v].dec.Some? {
      assert TxnOk(s, v);
      assert Enabled(s, Decrement(v));
    } else {
      var t := OldestUnfinished(s, 0);
      assert TxnOk(s, t);
      OldestCanRun(s, t);
    }
  }

  /** The steps a transaction still has to take. */
  ghost function Cost(x: Txn): nat {
    (match x.put
     case Pushing(next, _) => 2 + |x.keys| - Min(next, |x.keys|)
     case Adding(_) => 2
     case Subtracting => 1
     case Returned => 0)
    + (if x.running then 0 else 1) + 2 * |Remaining(x)| + (if x.dec.Some? then 1 else 0)
  }

  function Min(a: nat, b: nat): nat { if a < b then a else b }

  ghost function Work(txns: seq<Txn>): nat {
    if txns == [] then 0 else Work(txns[..|txns| - 1]) + Cost(txns[|txns| - 1])
  }

  lemma {:induction false} WorkUpdate(txns: seq<Txn>, t: nat, x: Txn)
    requires t < |txns|
    ensures Work(txns[t := x]) + Cost(txns[t]) == Work(txns) + Cost(x)
  {
    var n := |txns| - 1;
    if t < n {
      WorkUpdate(txns[..n], t, x);
      assert txns[t := x][..n] == txns[..n][t := x];
    } else {
      assert txns[t := x][..n] == txns[..n];
    }
  }

  lemma ReleaseWork(s: State, t: nat, i: nat)
    requires Enabled(s, Release(t, i))
    ensures Work(ReleaseStep(s, t, i).txns) < Work(s.txns)
  {
    var s' := ReleaseStep(s, t, i);
    assert i in Remaining(s.txns[t]);
    assert Remaining(s'.txns[t]) == Remaining(s.txns[t]) - {i};
    WorkUpdate(s.txns, t, s'.txns[t]);
  }

  lemma DecrementWork(s: State, t: nat)
    requires Enabled(s, Decrement(t))
    ensures Work(DecrementStep(s, t).txns) < Work(s.txns)
  {
    var s', u := DecrementStep(s, t), s.txns[t].dec.value;
    var s1 := SetTxn(s, t, s.txns[t].(dec := None));
    assert Remaining(s1.txns[t]) == Remaining(s.txns[t]);
    assert Remaining(s'.txns[u]) == Remaining(s1.txns[u]);
    WorkUpdate(s.txns, t, s1.txns[t]);
    WorkUpdate(s1.txns, u, s'.txns[u]);
  }

  lemma PutWork(s: State, a: Action)
    requires Inv(s) && Enabled(s, a) && (a.Push? || a.Add? || a.Subtract?)
    ensures Work(Step(s, a).txns) < Work(s.txns)
  {
    var s', t := Step(s, a), Last(s);
    assert CounterOk(s, t);
    assert Remaining(s'.txns[t]) == Remaining(s.txns[t]);
    WorkUpdate(s.txns, t, s'.txns[t]);
  }

  /** Every step other than a new put uses up work. */
  lemma WorkDecreases(s: State, a: Action)
    requires Inv(s) && Enabled(s, a) && !a.Put?
    ensures Work(Step(s, a).txns) < Work(s.txns)
  {
    match a
    case Start(t) =>
      assert Remaining(Step(s, a).txns[t]) == Remaining(s.txns[t]);
      WorkUpdate(s.txns, t, Step(s, a).txns[t]);
    case Release(t, i) => ReleaseWork(s, t, i);
    case Decrement(t) => DecrementWork(s, t);
    case _ => PutWork(s, a);
  }

  /** The state after the enabled, put-free actions of `rest`, from s. */
  ghost predicate Drains(s: State, rest: seq<Action>, end: State)
    decreases |rest|
  {
    if rest == [] then end == s
    else !rest[0].Put? && Enabled(s, rest[0]) && Drains(Step(s, rest[0]), rest[1..], end)
  }

  /** What is counted stays counted, so whoever waits for itself does so ever after. */
  lemma {:induction false} DrainsWithinWork(s: State, rest: seq<Action>, end: State)
    requires Inv(s) && Drains(s, rest, end)
    ensures Inv(end) && |rest| + Work(end.txns) <= Work(s.txns)
    ensures |end.txns| == |s.txns| && (NoneWaitsForItself(end) ==> NoneWaitsForItself(s))
    decreases |rest|
  {
    if rest != [] {
      var s' := Step(s, rest[0]);
      StepKeeps(s, rest[0]);
      WorkDecreases(s, rest[0]);
      assert |s'.txns| == |s.txns|;
      DrainsWithinWork(s', rest[1..], end);
      forall t | 0 <= t < |s.txns| && !WaitsForItself(s'.txns[t]) ensures !WaitsForItself(s.txns[t]) {
        SameKeys(s, rest[0], t);
      }
    }
  }

  /**
    However the threads are scheduled, they stop within Work(s) steps of the last put; and when they have
    stopped, all transactions are finished if and only if none of them waits for itself.
   */
  lemma EveryTransactionFinishes(run: seq<Action>, rest: seq<Action>, end: State)
    requires Drains(Run(run), rest, end)
    ensures |rest| <= Work(Run(run).txns)
    ensures !CanStep(end) ==> (AllFinished(end) <==> NoneWaitsForItself(end))
  {
    RunInv(run);
    DrainsWithinWork(Run(run), rest, end);
    if NoneWaitsForItself(end) && !AllFinished(end) {
      NoDeadlock(end);
    }
    if !NoneWaitsForItself(end) {
      var t :| 0 <= t < |end.txns| && WaitsForItself(end.txns[t]);
      DrainIsRun(run, rest, end);
      WaitingForItselfNeverRuns(run + rest, t);
      assert TxnOk(end, t);
      assert !Finished(end.txns[t]);
    }
  }

  lemma {:induction false} DrainIsRun(run: seq<Action>, rest: seq<Action>, end: State)
    requires Drains(Run(run), rest, end)
    ensures Run(run + rest) == end
    decreases |rest|
  {
    if rest == [] {
      assert run + rest == run;
    } else {
      var r := run + [rest[0]];
      assert r[..|run|] == run && r + rest[1..] == run + rest;
      DrainIsRun(r, rest[1..], end);
    }
  }
}
