/**
  The cluster log file of cluster/clusterLogFile.cpp while one writer appends and one iterator reads:
  entries are stored in memory blocks that are linked to each other and written to the file; blocks that
  nobody holds are evicted and reloaded from the file.

  Every action is one visible step of the writer, of the iterator, or of the block cache, so a sequence
  of actions is one interleaving. Counting the holders of a block is the business of module Ref: here a
  block may be evicted whenever neither the writer nor the iterator stands on it.
 */
module LogStream {
  import opened Bytes
  import opened LogEntry
  import opened Runs

  /**
    `data` is the memory of a loaded block; `entries` lists the entries published in it so far;
    `linked` tells that its next pointer leads to the following block.
   */
  datatype Block = Block(offset: nat, volume: nat, loaded: bool, data: seq<byte>, size: nat, written: nat,
                         linked: bool, entries: seq<Entry>)

  datatype WriterPc =
    | Ready
    | Store(e: Entry)      // 49: memcpy behind the published size
    | Publish(e: Entry)    // 51
    | Flush(e: Entry)      // 370-371
    | Open(e: Entry)       // 372-391
    | Link                 // 394
    | Leave                // 395-397

  datatype ReaderPc = Resting | TestSize | TestNext | Recheck | Fetch

  /**
    The iterator stands in block `at` at byte `offset`, having passed `passed` entries of that block;
    `from` is the number of the entry it started at and `out` what it has returned. `asked` lists the entries
    accepted when next() was last called, and `empty` tells that the last call has answered null.
   */
  datatype Reader =
    | NoReader
    | Reader(pc: ReaderPc, at: nat, offset: nat, passed: nat, from: nat, out: seq<Entry>, asked: seq<Entry>,
        empty: bool)

  datatype Config = Config(blockSize: nat, fileSize: nat, maxBlocks: nat)

  /** `current` is the number of blocks before m_currentBlock; `accepted` lists the appends that returned OK. */
  datatype State = State(conf: Config, blocks: seq<Block>, current: nat, offset: nat, file: seq<byte>,
                         writer: WriterPc, reader: Reader, accepted: seq<Entry>)

  datatype Action =
    | Append(e: Entry)
    | Write                      // the writer's next step
    | FlushIdle                  // flush() between two appends
    | Search(at: nat, k: nat)    // the iterator is placed at entry k of a block
    | Next                       // the iterator's next() is called
    | Read                       // the iterator's next step
    | Evict(i: nat)
    | Reload(i: nat)

  // ---------------------------------------------------------------- the code

  function Init(conf: Config, head: seq<byte>): State
    requires |head| == HEAD_SIZE
  {
    State(conf, [], 0, HEAD_SIZE, head, Ready, NoReader, [])
  }

  function SetBlock(s: State, i: nat, b: Block): State
    requires i < |s.blocks|
  {
    s.(blocks := s.blocks[i := b])
  }

  /** Lines 614 and 346-365: refuse, store in the current block, or open a new one. */
  function BeginAppend(s: State, e: Entry): WriterPc {
    if s.offset + |e| >= s.conf.fileSize then Ready
    else if s.current >= |s.blocks| then Open(e)
    else if s.blocks[s.current].size + |e| + RPC_HEAD_SIZE > s.blocks[s.current].volume then
      if |s.blocks| + 1 >= s.conf.maxBlocks then Ready else Flush(e)
    else Store(e)
  }

  function Max(a: nat, b: nat): nat { if a > b then a else b }

  /** writeCurrentBlock: what is not yet in the file goes to its end. */
  function WriteCurrent(s: State): State
    requires s.current < |s.blocks|
    requires var b := s.blocks[s.current]; b.written <= b.size <= |b.data|
  {
    var b := s.blocks[s.current];
    SetBlock(s, s.current, b.(written := b.size)).(file := s.file + b.data[b.written..b.size])
  }

  function NewBlock(s: State, e: Entry): Block {
    Block(s.offset, Max(|e|, s.conf.blockSize), true, e, |e|, 0, false, [e])
  }

  /** The end of append: the position and the list of accepted entries move on (lines 362-363). */
  function Done(s: State, e: Entry): State {
    s.(writer := Ready, offset := s.offset + |e|, accepted := s.accepted + [e])
  }

  predicate WriterCan(s: State) {
    match s.writer
    case Ready => true
    case Open(_) => true
    case _ =>
      && s.current < |s.blocks|
      && var b := s.blocks[s.current];
      && b.written <= b.size <= |b.data|
      && (s.writer.Link? || s.writer.Leave? ==> s.current + 1 < |s.blocks| && s.blocks[s.current + 1].entries != [])
  }

  function WriterStep(s: State): State
    requires WriterCan(s)
  {
    match s.writer
    case Ready => s
    case Store(e) =>
      var b := s.blocks[s.current];
      SetBlock(s, s.current, b.(data := b.data[..b.size] + e)).(writer := Publish(e))
    case Publish(e) =>
      var b := s.blocks[s.current];
      Done(SetBlock(s, s.current, b.(size := b.size + |e|, entries := b.entries + [e])), e)
    case Flush(e) => WriteCurrent(s).(writer := Open(e))
    case Open(e) =>
      var s' := s.(blocks := s.blocks + [NewBlock(s, e)]);
      if s.blocks == [] then Done(s', e) else s'.(writer := Link)
    case Link => SetBlock(s, s.current, s.blocks[s.current].(linked := true)).(writer := Leave)
    case Leave => Done(s.(current := s.current + 1), s.blocks[s.current + 1].entries[0])
  }

  /** loadBlock: `size` bytes from the block's place in the file. */
  function LoadBlock(s: State, i: nat): State
    requires i < |s.blocks|
  {
    var b := s.blocks[i];
    if b.loaded || b.offset + b.size > |s.file| then s
    else SetBlock(s, i, b.(loaded := true, data := s.file[b.offset..b.offset + b.size]))
  }

  predicate ReaderCan(s: State) {
    s.reader.Reader? ==>
      && s.reader.at < |s.blocks|
      && var b := s.blocks[s.reader.at];
      && (s.reader.pc.Recheck? ==> s.reader.at + 1 < |s.blocks|)
      && (s.reader.pc.Fetch? ==>
            && s.reader.offset + 4 <= |b.data|
            && s.reader.offset + GetU32(b.data, s.reader.offset) <= |b.data|)
  }

  /** One step of iterator::next and rotate. */
  function ReaderStep(s: State): State
    requires ReaderCan(s)
  {
    if s.reader.NoReader? then s else
    var r, b := s.reader, s.blocks[s.reader.at];
    match r.pc
    case Resting => s
    case TestSize => s.(reader := r.(pc := if r.offset == b.size then TestNext else Fetch))
    case TestNext => s.(reader := if b.linked then r.(pc := Recheck) else r.(pc := Resting, empty := true))
    case Recheck =>
      if r.offset == b.size then
        LoadBlock(s, r.at + 1).(reader := r.(pc := TestSize, at := r.at + 1, offset := 0, passed := 0))
      else s.(reader := r.(pc := TestSize))
    case Fetch =>
      var n := GetU32(b.data, r.offset);
      s.(reader := r.(pc := Resting, offset := r.offset + n, passed := r.passed + 1,
                      out := r.out + [b.data[r.offset..r.offset + n]]))
  }

  /** The number of entries in the first n blocks. */
  function CountEntries(blocks: seq<Block>, n: nat): nat
    requires n <= |blocks|
  {
    if n == 0 then 0 else CountEntries(blocks, n - 1) + |blocks[n - 1].entries|
  }

  /** search(): place the iterator at an entry boundary and hold the block. */
  function SearchStep(s: State, at: nat, k: nat): State
    requires at < |s.blocks| && k <= |s.blocks[at].entries|
  {
    LoadBlock(s, at).(reader := Reader(Resting, at, |Flat(s.blocks[at].entries[..k])|, k,
                                       CountEntries(s.blocks, at) + k, [], [], false))
  }

  predicate Enabled(s: State, a: Action) {
    match a
    case Append(e) => s.writer.Ready? && Framed(e)
    case Write => WriterCan(s)
    case FlushIdle => s.writer.Ready? && s.current < |s.blocks| &&
        var b := s.blocks[s.current]; b.written <= b.size <= |b.data|
    case Search(at, k) => s.reader.NoReader? && at < |s.blocks| && k <= |s.blocks[at].entries|
    case Next => s.reader.Reader? && s.reader.pc.Resting?
    case Read => ReaderCan(s)
    case Evict(i) => i < s.current && i < |s.blocks| && (s.reader.Reader? ==> i != s.reader.at)
    case Reload(i) => i < |s.blocks|
  }

  function Step(s: State, a: Action): State {
    if !Enabled(s, a) then s else
    match a
    case Append(e) => s.(writer := BeginAppend(s, e))
    case Write => WriterStep(s)
    case FlushIdle => WriteCurrent(s)
    case Search(at, k) => SearchStep(s, at, k)
    case Next => s.(reader := s.reader.(pc := TestSize, asked := s.accepted, empty := false))
    case Read => ReaderStep(s)
    case Evict(i) => SetBlock(s, i, s.blocks[i].(loaded := false, data := []))
    case Reload(i) => LoadBlock(s, i)
  }

  function Run(conf: Config, head: seq<byte>, run: seq<Action>): State
    requires |head| == HEAD_SIZE
  {
    if run == [] then Init(conf, head) else Step(Run(conf, head, run[..|run| - 1]), run[|run| - 1])
  }

  // ---------------------------------------------------------------- the specification

  /** The entries of the first n blocks, in order. */
  ghost function LogOf(blocks: seq<Block>, n: nat): seq<Entry>
    requires n <= |blocks|
  {
    if n == 0 then [] else LogOf(blocks, n - 1) + blocks[n - 1].entries
  }

  ghost function Log(s: State): seq<Entry> { LogOf(s.blocks, |s.blocks|) }

  ghost predicate BlockOk(s: State, i: nat)
    requires i < |s.blocks|
  {
    var b := s.blocks[i];
    var last := i == |s.blocks| - 1;
    && b.size == |Flat(b.entries)|
    && (forall k | 0 <= k < |b.entries| :: Framed(b.entries[k]))
    && (b.loaded ==> b.size <= |b.data| && b.data[..b.size] == Flat(b.entries))
    && b.written <= b.size && (!last ==> b.written == b.size)
    && (i == 0 ==> b.offset == HEAD_SIZE)
    && (i > 0 ==> b.offset == s.blocks[i - 1].offset + s.blocks[i - 1].size)
    && b.offset + b.written <= |s.file|
    && s.file[b.offset..b.offset + b.written] == Flat(b.entries)[..b.written]
    && (last ==> |s.file| == b.offset + b.written)
    && (i >= s.current ==> b.loaded)
    && b.entries != [] && b.volume == Max(|b.entries[0]|, s.conf.blockSize)
    && b.size <= b.volume && |b.data| <= b.volume
    && (b.linked <==> !last && !(s.writer.Link? && i == s.current))
  }

  ghost predicate WriterOk(s: State) {
    && (s.blocks == [] ==> s.current == 0 && |s.file| == s.offset == HEAD_SIZE && s.accepted == [])
    && match s.writer
       case Ready => s.blocks != [] ==> AtEnd(s)
       case Store(e) => AtEnd(s) && Framed(e) && s.blocks[s.current].size + |e| <= s.blocks[s.current].volume
       case Publish(e) =>
         && AtEnd(s) && Framed(e)
         && var b := s.blocks[s.current]; b.data == Flat(b.entries) + e
       case Flush(e) => AtEnd(s) && Framed(e)
       case Open(e) =>
         Framed(e) && (s.blocks != [] ==> AtEnd(s) && s.blocks[s.current].written == s.blocks[s.current].size)
       case Link => Opened(s)
       case Leave => Opened(s)
  }

  /** The writer stands on the last block and everything accepted is in the log. */
  ghost predicate AtEnd(s: State) {
    && s.current == |s.blocks| - 1
    && s.offset == s.blocks[s.current].offset + s.blocks[s.current].size
    && Log(s) == s.accepted
  }

  /** The writer has opened the last block but still stands on the one before. */
  ghost predicate Opened(s: State) {
    && s.current == |s.blocks| - 2
    && s.offset == s.blocks[s.current + 1].offset
    && (exists e :: s.blocks[s.current + 1].entries == [e] && s.blocks[s.current + 1].size == |e|)
    && Log(s) == s.accepted + s.blocks[s.current + 1].entries
  }

  ghost predicate ReaderOk(s: State) {
    s.reader.Reader? ==>
      var r := s.reader;
      && r.at < |s.blocks|
      && var b := s.blocks[r.at];
      && b.loaded
      && r.passed <= |b.entries|
      && r.offset == |Flat(b.entries[..r.passed])|
      && r.from + |r.out| == CountEntries(s.blocks, r.at) + r.passed
      && r.from + |r.out| <= |Log(s)| && r.out == Log(s)[r.from..r.from + |r.out|]
      && (r.pc.Recheck? ==> b.linked)
      && (r.pc.Fetch? ==> r.passed < |b.entries|)
      && r.asked <= s.accepted
      && (r.empty || (r.pc.TestNext? && !b.linked) ==> |r.asked| <= r.from + |r.out|)
      && (r.empty ==> r.pc.Resting?)
  }

  ghost predicate Inv(s: State) {
    && (forall i: nat {:trigger BlockOk(s, i)} | i < |s.blocks| :: BlockOk(s, i))
    && WriterOk(s)
    && ReaderOk(s)
  }

  // ---------------------------------------------------------------- lemmas about the log

  lemma {:induction false} LogFrame(a: seq<Block>, b: seq<Block>, n: nat)
    requires n <= |a| && n <= |b| && forall i | 0 <= i < n :: a[i].entries == b[i].entries
    ensures LogOf(a, n) == LogOf(b, n) && CountEntries(a, n) == CountEntries(b, n)
    ensures |LogOf(a, n)| == CountEntries(a, n)
  {
    if n > 0 {
      LogFrame(a, b, n - 1);
    }
  }

  /** The entries of block i are the part of the log that starts at CountEntries(i). */
  lemma {:induction false} LogAt(blocks: seq<Block>, i: nat, n: nat)
    requires i < n <= |blocks|
    ensures var c := CountEntries(blocks, i);
            && |LogOf(blocks, n)| == CountEntries(blocks, n) >= c + |blocks[i].entries|
            && LogOf(blocks, n)[c..c + |blocks[i].entries|] == blocks[i].entries
            && CountEntries(blocks, i + 1) == c + |blocks[i].entries|
    decreases n
  {
    LogFrame(blocks, blocks, i);
    LogFrame(blocks, blocks, n - 1);
    if i < n - 1 {
      LogAt(blocks, i, n - 1);
      var c := CountEntries(blocks, i);
      assert LogOf(blocks, n)[c..c + |blocks[i].entries|] == LogOf(blocks, n - 1)[c..c + |blocks[i].entries|];
    }
  }

  /** The iterator does not notice that the log and its block grow, or that other blocks come and go. */
  lemma ReaderFrame(s: State, s': State)
    requires ReaderOk(s) && s'.reader == s.reader && |s.blocks| <= |s'.blocks|
    requires forall i | 0 <= i < |s.blocks| :: s.blocks[i].entries <= s'.blocks[i].entries
    requires forall i | 0 <= i < |s.blocks| - 1 :: s.blocks[i].entries == s'.blocks[i].entries
    requires Log(s) <= Log(s') && s.accepted <= s'.accepted
    requires s.reader.Reader? ==>
               && (s'.blocks[s.reader.at].loaded)
               && (s.blocks[s.reader.at].linked ==> s'.blocks[s.reader.at].linked)
    ensures ReaderOk(s')
  {
    if s.reader.Reader? {
      var r := s.reader;
      LogFrame(s.blocks, s'.blocks, r.at);
      assert s'.blocks[r.at].entries[..r.passed] == s.blocks[r.at].entries[..r.passed];
      assert Log(s')[r.from..r.from + |r.out|] == Log(s)[r.from..r.from + |r.out|];
    }
  }

  lemma UseBlock(s: State, i: nat)
    requires Inv(s) && i < |s.blocks|
    ensures BlockOk(s, i)
  {
  }

  // ---------------------------------------------------------------- writer steps

  /** BlockOk reads the blocks, the file and the writer's position, of which only Link matters. */
  lemma BlockFrame(s: State, s': State, i: nat)
    requires i < |s.blocks| && BlockOk(s, i)
    requires s'.blocks == s.blocks && s'.conf == s.conf && s'.current == s.current && s'.file == s.file &&
               (s'.writer.Link? <==> s.writer.Link?)
    ensures BlockOk(s', i)
  {
  }

  lemma BlocksFrame(s: State, s': State)
    requires Inv(s)
    requires s'.blocks == s.blocks && s'.conf == s.conf && s'.current == s.current && s'.file == s.file &&
               (s'.writer.Link? <==> s.writer.Link?)
    ensures forall i: nat {:trigger BlockOk(s', i)} | i < |s'.blocks| :: BlockOk(s', i)
  {
    forall i: nat | i < |s'.blocks| ensures BlockOk(s', i) {
      UseBlock(s, i);
      BlockFrame(s, s', i);
    }
  }

  lemma AppendKeeps(s: State, e: Entry)
    requires Inv(s) && Enabled(s, Append(e))
    ensures Inv(Step(s, Append(e)))
  {
    BlocksFrame(s, Step(s, Append(e)));
  }

  lemma StoreBlock(s: State, i: nat)
    requires i < |s.blocks| && BlockOk(s, i) && WriterOk(s) && s.writer.Store? && WriterCan(s)
    ensures BlockOk(WriterStep(s), i)
  {
    var b := s.blocks[s.current];
    assert (b.data[..b.size] + s.writer.e)[..b.size] == b.data[..b.size];
  }

  lemma StoreKeeps(s: State)
    requires Inv(s) && s.writer.Store? && WriterCan(s)
    ensures Inv(WriterStep(s))
  {
    var s' := WriterStep(s);
    UseBlock(s, s.current);
    forall i: nat | i < |s'.blocks| ensures BlockOk(s', i) {
      UseBlock(s, i);
      StoreBlock(s, i);
    }
    LogFrame(s.blocks, s'.blocks, |s.blocks|);
    ReaderFrame(s, s');
  }

  lemma PublishBlock(s: State, i: nat)
    requires Inv(s) && s.writer.Publish? && WriterCan(s) && i < |s.blocks|
    ensures BlockOk(WriterStep(s), i)
  {
    var s', e := WriterStep(s), s.writer.e;
    var b := s.blocks[s.current];
    UseBlock(s, s.current);
    UseBlock(s, i);
    FlatSnoc(b.entries, e);
    assert (Flat(b.entries) + e)[..b.written] == Flat(b.entries)[..b.written];
  }

  lemma PublishKeeps(s: State)
    requires Inv(s) && s.writer.Publish? && WriterCan(s)
    ensures Inv(WriterStep(s))
  {
    var s', e := WriterStep(s), s.writer.e;
    forall i: nat | i < |s'.blocks| ensures BlockOk(s', i) {
      PublishBlock(s, i);
    }
    UseBlock(s, s.current);
    LogFrame(s.blocks, s'.blocks, s.current);
    assert Log(s') == Log(s) + [e];
    ReaderFrame(s, s');
  }

  /** Adding the unwritten rest of a block to the file completes the block there. */
  lemma WrittenRest(file: seq<byte>, data: seq<byte>, offset: nat, written: nat, size: nat, all: seq<byte>)
    requires offset + written == |file| && written <= size == |all| <= |data| && data[..size] == all
    requires file[offset..] == all[..written]
    ensures (file + data[written..size])[offset..offset + size] == all
  {
    assert data[written..size] == all[written..];
    assert (file + data[written..size])[offset..offset + size] == all[..written] + all[written..];
  }

  /** Writing the tail of the current block makes the file hold all of it and changes no other block's bytes. */
  lemma WriteBlock(s: State, i: nat)
    requires Inv(s) && s.current == |s.blocks| - 1 && i < |s.blocks| && !s.writer.Link?
    requires var b := s.blocks[s.current]; b.written <= b.size <= |b.data|
    ensures BlockOk(WriteCurrent(s), i)
  {
    var b, c := s.blocks[s.current], s.blocks[i];
    var s' := WriteCurrent(s);
    UseBlock(s, i);
    if i == s.current {
      assert s.file[b.offset..] == s.file[b.offset..b.offset + b.written];
      WrittenRest(s.file, b.data, b.offset, b.written, b.size, Flat(b.entries));
    } else {
      assert s'.file[c.offset..c.offset + c.written] == s.file[c.offset..c.offset + c.written];
    }
  }

  lemma WriteCurrentKeeps(s: State)
    requires Inv(s) && AtEnd(s) && s.blocks != [] && (s.writer.Ready? || s.writer.Flush?)
    requires var b := s.blocks[s.current]; b.written <= b.size <= |b.data|
    ensures Inv(WriteCurrent(s))
  {
    var s' := WriteCurrent(s);
    forall i: nat | i < |s'.blocks| ensures BlockOk(s', i) {
      WriteBlock(s, i);
    }
    LogFrame(s.blocks, s'.blocks, |s.blocks|);
    ReaderFrame(s, s');
  }

  /** BlockOk looks at the writer's position only to see whether it is about to link. */
  lemma MoveWriter(s: State, w: WriterPc)
    requires Inv(s) && !s.writer.Link? && !w.Link? && WriterOk(s.(writer := w))
    ensures Inv(s.(writer := w))
  {
    BlocksFrame(s, s.(writer := w));
  }

  lemma FlushKeeps(s: State)
    requires Inv(s) && s.writer.Flush? && WriterCan(s)
    ensures Inv(WriterStep(s))
  {
    WriteCurrentKeeps(s);
    MoveWriter(WriteCurrent(s), Open(s.writer.e));
  }

  lemma FlatOne(e: Entry)
    ensures Flat([e]) == e
  {
    assert [e][..0] == [];
  }

  lemma OpenBlock(s: State, i: nat)
    requires Inv(s) && s.writer.Open? && i <= |s.blocks|
    ensures BlockOk(WriterStep(s), i)
  {
    FlatOne(s.writer.e);
    if i < |s.blocks| {
      UseBlock(s, i);
    }
    if i > 0 {
      UseBlock(s, i - 1);
    }
  }

  lemma OpenKeeps(s: State)
    requires Inv(s) && s.writer.Open?
    ensures Inv(WriterStep(s))
  {
    var s', e := WriterStep(s), s.writer.e;
    forall i: nat | i < |s'.blocks| ensures BlockOk(s', i) {
      OpenBlock(s, i);
    }
    LogFrame(s.blocks, s'.blocks, |s.blocks|);
    assert Log(s') == Log(s) + [e];
    ReaderFrame(s, s');
    assert s'.blocks[|s.blocks|].entries == [e];
  }

  lemma LinkBlock(s: State, i: nat)
    requires i < |s.blocks| && BlockOk(s, i) && WriterOk(s)
    requires (s.writer.Link? || s.writer.Leave?) && WriterCan(s)
    ensures BlockOk(WriterStep(s), i)
  {
  }

  lemma LinkKeeps(s: State)
    requires Inv(s) && (s.writer.Link? || s.writer.Leave?) && WriterCan(s)
    ensures Inv(WriterStep(s))
  {
    var s' := WriterStep(s);
    forall i: nat | i < |s'.blocks| ensures BlockOk(s', i) {
      UseBlock(s, i);
      LinkBlock(s, i);
    }
    UseBlock(s, s.current + 1);
    LogFrame(s.blocks, s'.blocks, |s.blocks|);
    ReaderFrame(s, s');
  }

  lemma WriterKeeps(s: State)
    requires Inv(s) && WriterCan(s)
    ensures Inv(WriterStep(s))
  {
    match s.writer
    case Ready =>
    case Store(_) => StoreKeeps(s);
    case Publish(_) => PublishKeeps(s);
    case Flush(_) => FlushKeeps(s);
    case Open(_) => OpenKeeps(s);
    case Link => LinkKeeps(s);
    case Leave => LinkKeeps(s);
  }

  // ---------------------------------------------------------------- cache steps

  /** Block i is evicted, or loaded with exactly its entries; the current block stays as it is. */
  ghost predicate Cached(s: State, i: nat, b: Block)
    requires i < |s.blocks|
  {
    && b == s.blocks[i].(loaded := b.loaded, data := b.data)
    && (b.loaded ==> b.data == Flat(b.entries))
    && (!b.loaded ==> b.data == [] && (s.reader.Reader? ==> i != s.reader.at))
    && i < s.current
  }

  lemma CacheBlock(s: State, i: nat, b: Block, j: nat)
    requires i < |s.blocks| && Cached(s, i, b) && j < |s.blocks| && BlockOk(s, i) && BlockOk(s, j)
    ensures BlockOk(SetBlock(s, i, b), j)
  {
  }

  lemma CacheWriter(s: State, i: nat, b: Block)
    requires Inv(s) && i < |s.blocks| && Cached(s, i, b)
    ensures WriterOk(SetBlock(s, i, b)) && Log(SetBlock(s, i, b)) == Log(s)
  {
    LogFrame(s.blocks, SetBlock(s, i, b).blocks, |s.blocks|);
  }

  lemma CacheKeeps(s: State, i: nat, b: Block)
    requires Inv(s) && i < |s.blocks| && Cached(s, i, b)
    ensures Inv(SetBlock(s, i, b))
  {
    var s' := SetBlock(s, i, b);
    forall j: nat | j < |s'.blocks| ensures BlockOk(s', j) {
      UseBlock(s, i);
      UseBlock(s, j);
      CacheBlock(s, i, b, j);
    }
    CacheWriter(s, i, b);
    ReaderFrame(s, s');
  }

  /** An evicted block is completely in the file, so reloading gives back its bytes. */
  lemma ReloadGivesSameBytes(s: State, i: nat)
    requires Inv(s) && i < |s.blocks|
    ensures Inv(LoadBlock(s, i))
    ensures var b := LoadBlock(s, i).blocks[i];
            && b == s.blocks[i].(loaded := true, data := b.data)
            && b.size <= |b.data| && b.data[..b.size] == Flat(b.entries)
    ensures LoadBlock(s, i) == SetBlock(s, i, LoadBlock(s, i).blocks[i])
  {
    UseBlock(s, i);
    if !s.blocks[i].loaded {
      CacheKeeps(s, i, LoadBlock(s, i).blocks[i]);
    }
  }

  lemma EvictKeeps(s: State, i: nat)
    requires Inv(s) && Enabled(s, Evict(i))
    ensures Inv(Step(s, Evict(i)))
  {
    CacheKeeps(s, i, s.blocks[i].(loaded := false, data := []));
  }

  // ---------------------------------------------------------------- iterator steps

  /** The iterator's own step: the blocks stay. */
  lemma MoveReader(s: State, r: Reader)
    requires Inv(s) && ReaderOk(s.(reader := r))
    ensures Inv(s.(reader := r))
  {
    BlocksFrame(s, s.(reader := r));
  }

  /**
    Where the iterator stands, its offset reaches the end of the published part exactly when it has passed all
    entries.
   */
  lemma {:induction false} Boundary(entries: seq<Entry>, k: nat)
    requires k <= |entries| && forall i | 0 <= i < |entries| :: Framed(entries[i])
    ensures |Flat(entries[..k])| == |Flat(entries)| <==> k == |entries|
  {
    assert entries[..|entries|] == entries;
    if k < |entries| {
      FlatAt(entries, k);
    }
  }

  lemma SearchKeeps(s: State, at: nat, k: nat)
    requires Inv(s) && Enabled(s, Search(at, k))
    ensures Inv(SearchStep(s, at, k))
  {
    ReloadGivesSameBytes(s, at);
    var s1 := LoadBlock(s, at);
    LogFrame(s.blocks, s1.blocks, at);
    LogAt(s1.blocks, at, |s1.blocks|);
    MoveReader(s1, SearchStep(s, at, k).reader);
  }

  /** At the end of a linked block the start of the next block is the same place in the log. */
  lemma RotatedReader(s: State, r: Reader)
    requires Inv(s) && s.reader.Reader? && s.reader.pc.Recheck? && s.reader.at + 1 < |s.blocks|
    requires s.reader.passed == |s.blocks[s.reader.at].entries| && s.blocks[s.reader.at + 1].loaded
    requires r == s.reader.(pc := TestSize, at := s.reader.at + 1, offset := 0, passed := 0)
    ensures ReaderOk(s.(reader := r))
  {
    assert s.blocks[r.at].entries[..0] == [];
  }

  lemma RotateMoves(s: State)
    requires Inv(s) && s.reader.Reader? && s.reader.pc.Recheck? && s.reader.at + 1 < |s.blocks|
    requires s.reader.passed == |s.blocks[s.reader.at].entries|
    ensures var r := s.reader.(pc := TestSize, at := s.reader.at + 1, offset := 0, passed := 0);
            Inv(LoadBlock(s, r.at).(reader := r))
  {
    var r := s.reader.(pc := TestSize, at := s.reader.at + 1, offset := 0, passed := 0);
    ReloadGivesSameBytes(s, r.at);
    var s1 := LoadBlock(s, r.at);
    RotatedReader(s1, r);
    MoveReader(s1, r);
  }

  lemma RotateStays(s: State)
    requires Inv(s) && s.reader.Reader? && s.reader.pc.Recheck?
    ensures Inv(s.(reader := s.reader.(pc := TestSize)))
  {
    MoveReader(s, s.reader.(pc := TestSize));
  }

  /** An iterator that stands at the end of its block has passed every entry of it. */
  lemma AllPassed(s: State)
    requires Inv(s) && s.reader.Reader? && s.reader.offset == s.blocks[s.reader.at].size
    ensures s.reader.passed == |s.blocks[s.reader.at].entries|
  {
    UseBlock(s, s.reader.at);
    Boundary(s.blocks[s.reader.at].entries, s.reader.passed);
  }

  lemma RotateKeeps(s: State)
    requires Inv(s) && s.reader.Reader? && s.reader.pc.Recheck? && ReaderCan(s)
    ensures Inv(ReaderStep(s))
  {
    if s.reader.offset == s.blocks[s.reader.at].size {
      AllPassed(s);
      RotateMoves(s);
    } else {
      RotateStays(s);
    }
  }

  /** The entry lying at the iterator's offset is the next one of the log. */
  lemma FetchEntry(s: State)
    requires Inv(s) && s.reader.Reader? && s.reader.passed < |s.blocks[s.reader.at].entries|
    ensures var r := s.reader; var b := s.blocks[r.at]; var e := b.entries[r.passed];
            && r.offset + |e| <= b.size <= |b.data| && 4 <= |e|
            && GetU32(b.data, r.offset) == |e|
            && b.data[r.offset..r.offset + |e|] == e
            && Flat(b.entries[..r.passed + 1]) == Flat(b.entries[..r.passed]) + e
            && r.from + |r.out| < |Log(s)| && Log(s)[r.from + |r.out|] == e
  {
    UseBlock(s, s.reader.at);
    var b := s.blocks[s.reader.at];
    EntryBytes(b.data, b.size, b.entries, s.reader.passed);
    EntryOfLog(s.blocks, s.reader.at, s.reader.passed);
  }

  lemma EntryOfLog(blocks: seq<Block>, i: nat, k: nat)
    requires i < |blocks| && k < |blocks[i].entries|
    ensures var c := CountEntries(blocks, i) + k;
            c < |LogOf(blocks, |blocks|)| && LogOf(blocks, |blocks|)[c] == blocks[i].entries[k]
  {
    LogAt(blocks, i, |blocks|);
    var c := CountEntries(blocks, i);
    assert LogOf(blocks, |blocks|)[c..c + |blocks[i].entries|][k] == blocks[i].entries[k];
  }

  lemma FetchedReader(s: State, r: Reader, e: Entry)
    requires ReaderOk(s) && s.reader.Reader? && s.reader.pc.Fetch?
    requires var b := s.blocks[s.reader.at]; s.reader.passed < |b.entries| && e == b.entries[s.reader.passed]
    requires var i := s.reader.from + |s.reader.out|; i < |Log(s)| && Log(s)[i] == e
    requires var b := s.blocks[s.reader.at];
             Flat(b.entries[..s.reader.passed + 1]) == Flat(b.entries[..s.reader.passed]) + e
    requires r == s.reader.(pc := Resting, offset := s.reader.offset + |e|, passed := s.reader.passed + 1,
               out := s.reader.out + [e])
    ensures ReaderOk(s.(reader := r))
  {
  }

  lemma FetchKeeps(s: State)
    requires Inv(s) && s.reader.Reader? && s.reader.pc.Fetch? && ReaderCan(s)
    ensures Inv(ReaderStep(s))
    ensures ReaderStep(s).reader.out == s.reader.out + [s.blocks[s.reader.at].entries[s.reader.passed]]
  {
    FetchEntry(s);
    FetchedReader(s, ReaderStep(s).reader, s.blocks[s.reader.at].entries[s.reader.passed]);
    MoveReader(s, ReaderStep(s).reader);
  }

  lemma {:induction false} LogLength(blocks: seq<Block>, i: nat)
    requires i < |blocks|
    ensures |LogOf(blocks, i + 1)| == CountEntries(blocks, i) + |blocks[i].entries|
  {
    LogFrame(blocks, blocks, i + 1);
  }

  /** The entries of all blocks but one that is just being linked are at least those accepted. */
  lemma AcceptedBefore(s: State, i: nat)
    requires Inv(s) && i < |s.blocks| && !s.blocks[i].linked
    ensures |s.accepted| <= |LogOf(s.blocks, i + 1)|
  {
    UseBlock(s, i);
    LogLength(s.blocks, |s.blocks| - 1);
  }

  /** At the end of a block that is not linked everything accepted has been passed. */
  lemma AllReturned(s: State)
    requires Inv(s) && s.reader.Reader?
    requires s.reader.offset == s.blocks[s.reader.at].size && !s.blocks[s.reader.at].linked
    ensures |s.accepted| <= s.reader.from + |s.reader.out|
  {
    AllPassed(s);
    LogLength(s.blocks, s.reader.at);
    AcceptedBefore(s, s.reader.at);
  }

  lemma TestSizeKeeps(s: State)
    requires Inv(s) && s.reader.Reader? && s.reader.pc.TestSize? && ReaderCan(s)
    ensures Inv(ReaderStep(s))
  {
    UseBlock(s, s.reader.at);
    Boundary(s.blocks[s.reader.at].entries, s.reader.passed);
    if s.reader.offset == s.blocks[s.reader.at].size && !s.blocks[s.reader.at].linked {
      AllReturned(s);
    }
    MoveReader(s, ReaderStep(s).reader);
  }

  lemma TestNextKeeps(s: State)
    requires Inv(s) && s.reader.Reader? && s.reader.pc.TestNext? && ReaderCan(s)
    ensures Inv(ReaderStep(s))
  {
    MoveReader(s, ReaderStep(s).reader);
  }

  lemma ReaderKeeps(s: State)
    requires Inv(s) && ReaderCan(s)
    ensures Inv(ReaderStep(s))
  {
    if s.reader.Reader? {
      match s.reader.pc
      case Resting =>
      case Recheck => RotateKeeps(s);
      case Fetch => FetchKeeps(s);
      case TestSize => TestSizeKeeps(s);
      case TestNext => TestNextKeeps(s);
    }
  }

  /** The iterator can always take its next step: it never reads outside a block or through a missing link. */
  lemma ReaderNeverStuck(s: State)
    requires Inv(s)
    ensures ReaderCan(s)
  {
    if s.reader.Reader? {
      UseBlock(s, s.reader.at);
      if s.reader.pc.Fetch? {
        FetchEntry(s);
      }
    }
  }

  /** The writer never writes beyond the memory of a block or into a block that is not loaded. */
  lemma WriterNeverStuck(s: State)
    requires Inv(s)
    ensures WriterCan(s)
    ensures s.writer.Store? ==>
              var b := s.blocks[s.current]; b.loaded && b.size + |s.writer.e| <= b.volume
  {
    if s.current < |s.blocks| {
      UseBlock(s, s.current);
    }
  }

  // ---------------------------------------------------------------- all interleavings

  lemma StepKeeps(s: State, a: Action)
    requires Inv(s)
    ensures Inv(Step(s, a))
  {
    if Enabled(s, a) {
      match a
      case Append(e) => AppendKeeps(s, e);
      case Write => WriterKeeps(s);
      case FlushIdle => WriteCurrentKeeps(s);
      case Search(at, k) => SearchKeeps(s, at, k);
      case Next => MoveReader(s, Step(s, a).reader);
      case Read => ReaderKeeps(s);
      case Evict(i) => EvictKeeps(s, i);
      case Reload(i) => ReloadGivesSameBytes(s, i);
    }
  }

  lemma {:induction false} RunInv(conf: Config, head: seq<byte>, run: seq<Action>)
    requires |head| == HEAD_SIZE
    ensures Inv(Run(conf, head, run))
  {
    if run != [] {
      RunInv(conf, head, run[..|run| - 1]);
      StepKeeps(Run(conf, head, run[..|run| - 1]), run[|run| - 1]);
    }
  }

  /**
    In every interleaving the iterator has returned exactly the entries of the log from its start on, none
    skipped or repeated, and the log consists of the accepted appends (plus the entry of a new block whose
    append has not returned yet). Neither thread ever steps outside a block.
   */
  lemma ReaderSeesTheLog(conf: Config, head: seq<byte>, run: seq<Action>)
    requires |head| == HEAD_SIZE
    ensures var s := Run(conf, head, run);
            && (s.reader.Reader? ==>
                  && s.reader.from + |s.reader.out| <= |Log(s)|
                  && s.reader.out == Log(s)[s.reader.from..s.reader.from + |s.reader.out|])
            && s.accepted <= Log(s)
            && (s.writer.Ready? ==> s.accepted == Log(s))
            && ReaderCan(s) && WriterCan(s)
  {
    RunInv(conf, head, run);
    var s := Run(conf, head, run);
    ReaderNeverStuck(s);
    WriterNeverStuck(s);
  }

  /** Every block starts in the file where the one before it ends, and the file holds what has been written of it. */
  lemma BlocksTileTheFile(conf: Config, head: seq<byte>, run: seq<Action>, i: nat)
    requires |head| == HEAD_SIZE && i < |Run(conf, head, run).blocks|
    ensures BlockOk(Run(conf, head, run), i)
  {
    RunInv(conf, head, run);
    UseBlock(Run(conf, head, run), i);
  }

  lemma RunNext(conf: Config, head: seq<byte>, run: seq<Action>, n: nat)
    requires |head| == HEAD_SIZE && n < |run|
    ensures Run(conf, head, run[..n + 1]) == Step(Run(conf, head, run[..n]), run[n])
  {
    assert run[..n + 1][..n] == run[..n];
  }

  /**
    The reader's last call of next() was made in the state s0: once it has answered, with null or with one
    entry more, the reader rests.
   */
  predicate AskedAt(s: State, s0: State) {
    && s.reader.Reader? && s0.reader.Reader? && s.reader.asked == s0.accepted && s.reader.from == s0.reader.from
    && |s.reader.out| == |s0.reader.out| + if s.reader.pc.Resting? && !s.reader.empty then 1 else 0
  }

  /** A step that is not a call of next() belongs to the last call, or changes nothing for the reader. */
  lemma AskedStays(s: State, s0: State, a: Action)
    requires Inv(s) && AskedAt(s, s0) && !(a.Next? && Enabled(s, a))
    ensures AskedAt(Step(s, a), s0)
  {
  }

  lemma AskedFirst(conf: Config, head: seq<byte>, run: seq<Action>, k: nat)
    requires |head| == HEAD_SIZE && k < |run| && CallsNext(conf, head, run, k)
    ensures AskedAt(Run(conf, head, run[..k + 1]), Run(conf, head, run[..k]))
  {
    RunNext(conf, head, run, k);
  }

  lemma AskedNext(conf: Config, head: seq<byte>, run: seq<Action>, k: nat, n: nat)
    requires |head| == HEAD_SIZE && k < n < |run| && !CallsNext(conf, head, run, n)
    requires AskedAt(Run(conf, head, run[..n]), Run(conf, head, run[..k]))
    ensures AskedAt(Run(conf, head, run[..n + 1]), Run(conf, head, run[..k]))
  {
    RunInv(conf, head, run[..n]);
    RunNext(conf, head, run, n);
    AskedStays(Run(conf, head, run[..n]), Run(conf, head, run[..k]), run[n]);
  }

  lemma AskedSince(conf: Config, head: seq<byte>, run: seq<Action>, k: nat)
    requires |head| == HEAD_SIZE && k < |run| && LastCall(conf, head, run, k)
    ensures AskedAt(Run(conf, head, run[..|run|]), Run(conf, head, run[..k]))
  {
    var p: nat -> bool := (n: nat) => n <= |run| && AskedAt(Run(conf, head, run[..n]), Run(conf, head, run[..k]));
    AskedFirst(conf, head, run, k);
    forall n: nat | k < n < |run| && p(n) ensures p(n + 1) {
      assert !CallsNext(conf, head, run, n);
      AskedNext(conf, head, run, k, n);
    }
    Since(p, k, |run|);
  }

  /** Action k of the run is a call of next(). */
  predicate CallsNext(conf: Config, head: seq<byte>, run: seq<Action>, k: nat)
    requires |head| == HEAD_SIZE && k < |run|
  {
    run[k].Next? && Enabled(Run(conf, head, run[..k]), Next)
  }

  /** Action k is the last call of next() in the run. */
  ghost predicate LastCall(conf: Config, head: seq<byte>, run: seq<Action>, k: nat)
    requires |head| == HEAD_SIZE && k < |run|
  {
    && CallsNext(conf, head, run, k)
    && forall j: nat {:trigger CallsNext(conf, head, run, j)} | k < j < |run| :: !CallsNext(conf, head, run, j)
  }

  /**
    In every interleaving: when a call of next() has answered null, everything that was accepted before the
    call, from the iterator's start on, has been returned, in order.
   */
  lemma NothingMoreMeansAll(conf: Config, head: seq<byte>, run: seq<Action>, k: nat)
    requires |head| == HEAD_SIZE && k < |run| && LastCall(conf, head, run, k)
    requires Run(conf, head, run).reader.Reader? && Run(conf, head, run).reader.empty
    ensures var r, accepted := Run(conf, head, run).reader, Run(conf, head, run[..k]).accepted;
            |accepted| <= r.from + |r.out| && (r.from <= |accepted| ==> accepted[r.from..] <= r.out)
  {
    assert run[..|run|] == run;
    AskedSince(conf, head, run, k);
    RunInv(conf, head, run);
    ReaderSeesTheLog(conf, head, run);
  }

  /** In every interleaving a call of next() that has returned has answered null or exactly one entry more. */
  lemma OneEntryPerCall(conf: Config, head: seq<byte>, run: seq<Action>, k: nat)
    requires |head| == HEAD_SIZE && k < |run| && LastCall(conf, head, run, k)
    ensures var r, r0 := Run(conf, head, run).reader, Run(conf, head, run[..k]).reader;
            r.Reader? && r0.Reader? && (r.pc.Resting? ==> |r.out| == |r0.out| + if r.empty then 0 else 1)
  {
    assert run[..|run|] == run;
    AskedSince(conf, head, run, k);
  }
}
