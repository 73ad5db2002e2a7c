/**
  What the calls of append, flush and next on the log file of module LogStream do: which entries are accepted,
  what is in the file after a flush, and that every call returns.
 */
module LogCalls {
  import opened Bytes
  import opened LogEntry
  import opened LogStream
  import opened Runs

  // ---------------------------------------------------------------- which entries are accepted

  /** There is room in the file, and in the current block or for another block. */
  predicate HasRoom(s: State, e: Entry) {
    && s.offset + |e| < s.conf.fileSize
    && (|| s.blocks == []
        || (s.current < |s.blocks| && var b := s.blocks[s.current]; b.size + |e| + RPC_HEAD_SIZE <= b.volume)
        || |s.blocks| + 1 < s.conf.maxBlocks)
  }

  /** The writer after the call of append for e, when `before` had been accepted. */
  ghost predicate AppendSince(s: State, before: seq<Entry>, e: Entry, ok: bool) {
    match s.writer
    case Ready => s.accepted == before + if ok then [e] else []
    case Store(e') => ok && e' == e && s.accepted == before
    case Publish(e') => ok && e' == e && s.accepted == before
    case Flush(e') => ok && e' == e && s.accepted == before
    case Open(e') => ok && e' == e && s.accepted == before
    case Link => ok && s.accepted == before && s.current + 1 < |s.blocks| && s.blocks[s.current + 1].entries == [e]
    case Leave => ok && s.accepted == before && s.current + 1 < |s.blocks| && s.blocks[s.current + 1].entries == [e]
  }

  lemma AppendBegins(s: State, e: Entry)
    requires Inv(s) && s.writer.Ready? && Framed(e)
    ensures AppendSince(Step(s, Append(e)), s.accepted, e, HasRoom(s, e))
  {
  }

  /** Only the writer's own steps matter for it. */
  lemma AppendGoesOn(s: State, a: Action, before: seq<Entry>, e: Entry, ok: bool)
    requires Inv(s) && AppendSince(s, before, e, ok) && !(a.Append? && s.writer.Ready?)
    ensures AppendSince(Step(s, a), before, e, ok)
  {
    if a.Write? && Enabled(s, a) && s.writer.Open? && s.blocks != [] {
      assert s.current == |s.blocks| - 1;
    }
  }

  /** Action k begins an append, and no later one does. */
  ghost predicate LastAppend(conf: Config, head: seq<byte>, run: seq<Action>, k: nat)
    requires |head| == HEAD_SIZE && k < |run|
  {
    && run[k].Append? && Framed(run[k].e) && Run(conf, head, run[..k]).writer.Ready?
    && forall j: nat {:trigger BeginsAppend(conf, head, run, j)} | k < j < |run| :: !BeginsAppend(conf, head, run, j)
  }

  predicate BeginsAppend(conf: Config, head: seq<byte>, run: seq<Action>, j: nat)
    requires |head| == HEAD_SIZE && j < |run|
  {
    run[j].Append? && Run(conf, head, run[..j]).writer.Ready?
  }

  lemma AppendNext(conf: Config, head: seq<byte>, run: seq<Action>, n: nat, before: seq<Entry>, e: Entry, ok: bool)
    requires |head| == HEAD_SIZE && n < |run| && !BeginsAppend(conf, head, run, n)
    requires AppendSince(Run(conf, head, run[..n]), before, e, ok)
    ensures AppendSince(Run(conf, head, run[..n + 1]), before, e, ok)
  {
    RunInv(conf, head, run[..n]);
    RunNext(conf, head, run, n);
    AppendGoesOn(Run(conf, head, run[..n]), run[n], before, e, ok);
  }

  lemma AppendFirst(conf: Config, head: seq<byte>, run: seq<Action>, k: nat)
    requires |head| == HEAD_SIZE && k < |run| && run[k].Append? && Framed(run[k].e)
    requires Run(conf, head, run[..k]).writer.Ready?
    ensures var s0 := Run(conf, head, run[..k]);
            AppendSince(Run(conf, head, run[..k + 1]), s0.accepted, run[k].e, HasRoom(s0, run[k].e))
  {
    RunInv(conf, head, run[..k]);
    RunNext(conf, head, run, k);
    AppendBegins(Run(conf, head, run[..k]), run[k].e);
  }

  lemma {:induction false} AppendUntil(conf: Config, head: seq<byte>, run: seq<Action>, k: nat, m: nat,
                                       before: seq<Entry>, e: Entry, ok: bool)
    requires |head| == HEAD_SIZE && k < m <= |run| && AppendSince(Run(conf, head, run[..k + 1]), before, e, ok)
    requires forall j: nat {:trigger BeginsAppend(conf, head, run, j)} | k < j < |run| ::
               !BeginsAppend(conf, head, run, j)
    ensures AppendSince(Run(conf, head, run[..m]), before, e, ok)
    decreases m
  {
    if k + 1 < m {
      AppendUntil(conf, head, run, k, m - 1, before, e, ok);
      assert !BeginsAppend(conf, head, run, m - 1);
      AppendNext(conf, head, run, m - 1, before, e, ok);
    }
  }

  /**
    In every interleaving: when the call of append has returned, the entry has been accepted if and only if
    there was room for it when the call began, and nothing else has been accepted.
   */
  lemma AcceptedWhenRoom(conf: Config, head: seq<byte>, run: seq<Action>, k: nat)
    requires |head| == HEAD_SIZE && k < |run| && LastAppend(conf, head, run, k) && Run(conf, head, run).writer.Ready?
    ensures var s0, e := Run(conf, head, run[..k]), run[k].e;
            Run(conf, head, run).accepted == s0.accepted + if HasRoom(s0, e) then [e] else []
  {
    var s0, e := Run(conf, head, run[..k]), run[k].e;
    assert run[..|run|] == run;
    AppendFirst(conf, head, run, k);
    AppendUntil(conf, head, run, k, |run|, s0.accepted, e, HasRoom(s0, e));
  }

  // ---------------------------------------------------------------- calls return

  /** The steps that a running append still has to take. */
  function AppendRank(w: WriterPc): nat {
    match w
    case Ready => 0
    case Publish(_) => 1
    case Leave => 1
    case Store(_) => 2
    case Link => 2
    case Open(_) => 3
    case Flush(_) => 4
  }

  /** The writer is never stuck, and returns after four steps of its own. */
  lemma AppendReturns(s: State)
    requires Inv(s) && !s.writer.Ready?
    ensures Enabled(s, Write) && AppendRank(Step(s, Write).writer) < AppendRank(s.writer) <= 4
  {
    WriterNeverStuck(s);
  }

  /** Blocks that the iterator may still move to, and its steps before it moves or answers. */
  function NextWork(s: State): nat {
    if s.reader.NoReader? then 0
    else
      4 * (if s.reader.at < |s.blocks| then |s.blocks| - s.reader.at else 0) +
      match s.reader.pc
      case Resting => 0
      case Fetch => 1
      case Recheck => 1
      case TestNext => 2
      case TestSize => 3
  }

  /** The iterator is never stuck; alone, it answers or moves to a later block within three steps. */
  lemma NextReturns(s: State)
    requires Inv(s) && s.reader.Reader? && !s.reader.pc.Resting? && SizeStays(s)
    ensures Enabled(s, Read) && var s' := Step(s, Read);
            (s'.reader.pc.Resting? || NextWork(s') < NextWork(s)) && SizeStays(s')
  {
    ReaderNeverStuck(s);
  }

  /** Nothing has been published since the iterator has tested the size of its block. */
  predicate SizeStays(s: State) {
    s.reader.Reader? && (s.reader.pc.TestNext? || s.reader.pc.Recheck?) && s.reader.at < |s.blocks| ==>
      s.reader.offset == s.blocks[s.reader.at].size
  }

  // ---------------------------------------------------------------- the file after a flush

  /** A flush between two appends puts everything that was accepted into the file. */
  lemma FlushWritesAll(s: State)
    requires Inv(s) && s.writer.Ready? && s.blocks != []
    ensures Enabled(s, FlushIdle)
    ensures var s' := Step(s, FlushIdle);
            && Inv(s') && s'.accepted == s.accepted == Log(s') && |s'.file| == s'.offset == s.offset
            && forall i: nat {:trigger InFile(s', i)} | i < |s'.blocks| :: InFile(s', i)
  {
    UseBlock(s, s.current);
    WriteCurrentKeeps(s);
    var s' := Step(s, FlushIdle);
    LogFrame(s.blocks, s'.blocks, |s.blocks|);
    UseBlock(s', s'.current);
    forall i: nat | i < |s'.blocks| ensures InFile(s', i) {
      UseBlock(s', i);
    }
  }

  /** All entries of block i stand in the file at its place. */
  ghost predicate InFile(s: State, i: nat)
    requires i < |s.blocks|
  {
    var b := s.blocks[i];
    b.offset + |Flat(b.entries)| <= |s.file| && s.file[b.offset..b.offset + |Flat(b.entries)|] == Flat(b.entries)
  }

  // ---------------------------------------------------------------- placing the iterator, and the cache

  /** search() places a resting iterator at the entry it was asked for, counted from the start of the log. */
  lemma SearchPlaces(s: State, at: nat, k: nat)
    requires Inv(s) && s.reader.NoReader? && at < |s.blocks| && k <= |s.blocks[at].entries|
    ensures var r := Step(s, Search(at, k)).reader;
            && r.Reader? && r.pc.Resting? && !r.empty && r.out == []
            && r.from == |LogOf(s.blocks, at)| + k <= |Log(s)|
  {
    SearchKeeps(s, at, k);
    LogFrame(s.blocks, s.blocks, at);
    LogAt(s.blocks, at, |s.blocks|);
  }

  /**
    Every block before the current one in which the iterator does not stand can be evicted. That gives its
    memory back; reloading brings back exactly its entries.
   */
  lemma EvictedAndReloaded(s: State, i: nat)
    requires Inv(s) && i < s.current < |s.blocks| && (s.reader.Reader? ==> s.reader.at != i)
    ensures var s' := Step(s, Evict(i));
            && Inv(s') && s'.blocks[i].data == [] && !s'.blocks[i].loaded
            && Enabled(s', Reload(i))
            && Step(s', Reload(i)) == SetBlock(s, i, s.blocks[i].(loaded := true, data := Flat(s.blocks[i].entries)))
  {
    EvictKeeps(s, i);
    UseBlock(s, i);
    var s' := Step(s, Evict(i));
    ReloadGivesSameBytes(s', i);
    var b := Step(s', Reload(i)).blocks[i];
    assert b.data == b.data[..b.size];
    assert Step(s', Reload(i)).blocks == s.blocks[i := b];
  }
}
