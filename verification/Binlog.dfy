/**
  The binlog files of MySQLParser/BinlogFile.cpp: WriteBinlogFile collects events in a buffer and writes
  them out in batches; ReadBinlogFile reads a finished file back. File operations are taken to succeed.
 */
module Binlog {
  import opened Bytes

  const MAGIC: seq<byte> := [0xfe, 0x62, 0x69, 0x6e]
  const MAGIC_SIZE: nat := 4
  const TYPE_AT: nat := 4
  const SERVER_ID_AT: nat := 5
  const LENGTH_AT: nat := 9
  const POSITION_AT: nat := 13
  const HEADER_SIZE: nat := 19

  const STOP_EVENT: byte := 3
  const ROTATE_EVENT: byte := 4
  const FORMAT_EVENT: byte := 15

  type Event = seq<byte>

  function Length(e: Event): nat
    requires |e| >= HEADER_SIZE
  {
    GetU32(e, LENGTH_AT)
  }

  function Position(e: Event): nat
    requires |e| >= HEADER_SIZE
  {
    GetU32(e, POSITION_AT)
  }

  predicate HaveHeaders(events: seq<Event>) { forall i | 0 <= i < |events| :: |events[i]| >= HEADER_SIZE }

  // ---------------------------------------------------------------- what a file holds

  /** Where event k begins in the file. */
  function StartOf(events: seq<Event>, k: nat): nat
    requires k <= |events|
  {
    MAGIC_SIZE + |Flat(events[..k])|
  }

  /** An event that a reader standing at `start` accepts: its length, and its end position modulo 2^32. */
  predicate EventAt(e: Event, start: nat) {
    |e| >= HEADER_SIZE && Length(e) == |e| && Position(e) == (start + |e|) % WORD32
  }

  /** A format event may carry position 0 when it is the first thing in the file. */
  predicate UnpositionedFormat(e: Event, start: nat) {
    |e| >= HEADER_SIZE && start == MAGIC_SIZE && e[TYPE_AT] == FORMAT_EVENT && Length(e) == |e| && Position(e) == 0
  }

  ghost predicate StoredOk(events: seq<Event>, k: nat)
    requires k < |events|
  {
    |events[k]| >= HEADER_SIZE ==>
      EventAt(events[k], StartOf(events, k)) || UnpositionedFormat(events[k], StartOf(events, k))
  }

  ghost predicate AllStoredOk(events: seq<Event>) {
    forall k: nat {:trigger StoredOk(events, k)} | k < |events| :: StoredOk(events, k)
  }

  lemma StartAfter(events: seq<Event>, k: nat)
    requires k < |events|
    ensures StartOf(events, k + 1) == StartOf(events, k) + |events[k]|
  {
    FlatAt(events, k);
  }

  // ---------------------------------------------------------------- writing

  datatype Verdict = Store | Ignore | Reject

  /** The checks of writeBinlogEvent, lines 534-560. */
  function Judge(e: Event, offset: nat): Verdict
    requires |e| >= HEADER_SIZE
  {
    if Length(e) > |e| then Reject
    else if e[TYPE_AT] == FORMAT_EVENT && offset > MAGIC_SIZE then Ignore
    else if Position(e) != (offset + Length(e)) % WORD32 &&
            !(offset == MAGIC_SIZE && e[TYPE_AT] == FORMAT_EVENT && Position(e) == 0) then Reject
    else Store
  }

  lemma HeaderOfPrefix(e: Event, n: nat)
    requires HEADER_SIZE <= n <= |e|
    ensures Length(e[..n]) == Length(e) && Position(e[..n]) == Position(e) && e[..n][TYPE_AT] == e[TYPE_AT]
  {
    SliceOfPrefix(e, n, LENGTH_AT, LENGTH_AT + 4);
    SliceOfPrefix(e, n, POSITION_AT, POSITION_AT + 4);
  }

  lemma StoredNext(events: seq<Event>, e: Event)
    requires AllStoredOk(events) && |e| >= HEADER_SIZE && Judge(e, StartOf(events, |events|)) == Store
    ensures AllStoredOk(events + [e[..Length(e)]])
  {
    var stored := e[..Length(e)];
    var events' := events + [stored];
    assert events[..|events|] == events;
    forall k: nat | k < |events'| ensures StoredOk(events', k) {
      assert events'[..k] == events[..k];
      if k < |events| {
        assert StoredOk(events, k);
      } else if |stored| >= HEADER_SIZE {
        HeaderOfPrefix(e, Length(e));
      }
    }
  }

  lemma {:induction false} ImageNext(image: seq<byte>, stored: seq<Event>, bytes: Event)
    requires image == MAGIC + Flat(stored)
    ensures image + bytes == MAGIC + Flat(stored + [bytes])
    ensures StartOf(stored + [bytes], |stored| + 1) == StartOf(stored, |stored|) + |bytes|
  {
    FlatSnoc(stored, bytes);
    assert image + bytes == MAGIC + (Flat(stored) + bytes);
    assert (stored + [bytes])[..|stored| + 1] == stored + [bytes] && stored[..|stored|] == stored;
  }

  class WriteBinlogFile {
    const batch: nat
    var buf: seq<byte>
    var logOffset: nat
    var file: seq<byte>
    ghost var stored: seq<Event>

    /** The file and the buffer together are the magic number and the stored events, in order. */
    ghost predicate Valid()
      reads this
    {
      && |buf| <= batch
      && file + buf == MAGIC + Flat(stored)
      && logOffset == StartOf(stored, |stored|)
      && AllStoredOk(stored)
    }

    /** The constructor, and setFileInfo on an empty file. */
    constructor (batch: nat)
      ensures Valid() && stored == [] && this.batch == batch
    {
      this.batch := batch;
      buf, logOffset, file, stored := [], MAGIC_SIZE, MAGIC, [];
    }

    /** flushBuf, lines 483-519. */
    method FlushBuf()
      requires |buf| <= batch
      modifies this`buf, this`file
      ensures buf == [] && file == old(file) + old(buf)
    {
      if batch > 0 && buf != [] {
        file := file + buf;
        buf := [];
      }
    }

    /** The write paths of lines 561-618: through the buffer when the event fits it, past it otherwise. */
    method Write(bytes: Event, due: bool) returns (flushed: bool)
      requires |buf| <= batch
      modifies this`buf, this`file
      ensures |buf| <= batch && file + buf == old(file + buf) + bytes
      ensures batch == 0 || |bytes| > batch ==> flushed
      ensures batch > 0 && |old(buf)| + |bytes| <= batch ==>
                flushed == due && buf == if due then [] else old(buf) + bytes
    {
      flushed := false;
      if batch > 0 {
        if |bytes| > batch {
          FlushBuf();
          file := file + bytes;
          flushed := true;
        } else {
          if |buf| + |bytes| > batch {
            FlushBuf();
            flushed := true;
          }
          buf := buf + bytes;
          if !flushed && due {
            FlushBuf();
            flushed := true;
          }
        }
      } else {
        file := file + bytes;
        flushed := true;
      }
      assert file + buf == old(file + buf) + bytes;
    }

    /** writeBinlogEvent, lines 534-621; `due` tells that the flush cycle has passed. */
    method WriteBinlogEvent(e: Event, due: bool) returns (r: int, flushed: bool)
      requires Valid() && |e| >= HEADER_SIZE
      modifies this
      ensures Valid()
      ensures stored == old(stored) + (if Judge(e, old(logOffset)) == Store then [e[..Length(e)]] else [])
      ensures r == if Judge(e, old(logOffset)) == Reject then -1 else 0
    {
      flushed := false;
      match Judge(e, logOffset)
      case Reject => return -1, false;
      case Ignore => return 0, false;
      case Store =>
        var bytes := e[..Length(e)];
        StoredNext(stored, e);
        ImageNext(file + buf, stored, bytes);
        flushed := Write(bytes, due);
        logOffset := logOffset + |bytes|;
        stored := stored + [bytes];
        r := 0;
    }

    /** finish, lines 410-434: everything is in the file. */
    method Finish()
      requires Valid()
      modifies this`buf, this`file
      ensures Valid() && file == MAGIC + Flat(stored)
    {
      FlushBuf();
      assert file + [] == file;
    }
  }

  // ---------------------------------------------------------------- reading

  datatype Status = FakeRotate | Format | Data | End
  datatype Error = Fine | Eof | BadLength | Incomplete | BadFilename

  /** Lines 331-360 find a next file name: the last digits plus one, without reaching the first byte of the name. */
  predicate HasNextName(name: seq<char>, at: nat)
    requires at < |name|
  {
    '0' <= name[at] <= '9' && at > 0 && (name[at] == '9' ==> HasNextName(name, at - 1))
  }

  predicate Nines(name: seq<char>, i: nat, at: nat)
    requires at < |name|
  {
    forall j | i < j <= at :: name[j] == '9'
  }

  /**
    A name has a next one exactly when behind its first byte there is a digit below 9 followed by nothing but
    nines.
   */
  lemma {:induction false} HasNextNameWhen(name: seq<char>, at: nat)
    requires at < |name|
    ensures HasNextName(name, at) <==> exists i: nat :: 0 < i <= at && '0' <= name[i] <= '8' && Nines(name, i, at)
  {
    if name[at] == '9' && at > 0 {
      HasNextNameWhen(name, at - 1);
      if HasNextName(name, at - 1) {
        var i: nat :| 0 < i <= at - 1 && '0' <= name[i] <= '8' && Nines(name, i, at - 1);
        assert Nines(name, i, at);
      }
      if i: nat :| 0 < i <= at && '0' <= name[i] <= '8' && Nines(name, i, at) {
        assert Nines(name, i, at - 1);
      }
    } else if at > 0 {
      assert Nines(name, at, at);
    }
  }

  datatype Item = NoEvent | FakeRotateEvent(offset: nat) | FileEvent(bytes: Event)

  /** readBinlog, lines 186-274: the next event at the reading position, or why there is none. */
  datatype ReadResult = Got(e: Event) | Failed(error: Error)

  function ReadAt(file: seq<byte>, offset: nat): (r: ReadResult)
    requires offset <= |file|
    ensures r.Got? ==> HEADER_SIZE <= |r.e| && offset + |r.e| <= |file|
  {
    var rest := file[offset..];
    if rest == [] then Failed(Eof)
    else if |rest| < HEADER_SIZE then Failed(Incomplete)
    else
      var size := GetU32(rest, LENGTH_AT);
      if size < HEADER_SIZE then Failed(BadLength)
      else if size > |rest| then Failed(Incomplete)
      else if GetU32(rest, POSITION_AT) != (offset + size) % WORD32 then Failed(BadLength)
      else Got(rest[..size])
  }

  /** Why reading fails: nothing is left, less than a header or than the declared length is left, or a wrong number. */
  lemma ReadFails(file: seq<byte>, offset: nat)
    requires offset <= |file|
    ensures var rest, r := file[offset..], ReadAt(file, offset);
            && (r == Failed(Eof) <==> offset == |file|)
            && (r == Failed(Incomplete) <==>
                  0 < |rest| < HEADER_SIZE || (|rest| >= HEADER_SIZE && |rest| < Length(rest)))
            && (r == Failed(BadLength) <==>
                  |rest| >= HEADER_SIZE && Length(rest) <= |rest| &&
                  (Length(rest) < HEADER_SIZE || Position(rest) != (offset + Length(rest)) % WORD32))
  {
  }

  /** A file whose events all pass the reader's checks. */
  ghost predicate Readable(events: seq<Event>) {
    forall k: nat {:trigger EventAt(events[k], StartOf(events, k))} | k < |events| ::
        EventAt(events[k], StartOf(events, k))
  }

  lemma {:induction false} EventInFile(file: seq<byte>, events: seq<Event>, k: nat)
    requires file == MAGIC + Flat(events) && k < |events|
    ensures StartOf(events, k) + |events[k]| == StartOf(events, k + 1) <= |file|
    ensures file[StartOf(events, k)..][..|events[k]|] == events[k]
  {
    var at, e := StartOf(events, k), events[k];
    FlatAt(events, k);
    assert file[at..at + |e|] == Flat(events)[at - MAGIC_SIZE..at - MAGIC_SIZE + |e|];
  }

  /**
    In any file, reading at the start of event k gives event k if and only if it carries its own length and
    end position.
   */
  lemma {:induction false} ReadGivesEventWhen(file: seq<byte>, events: seq<Event>, k: nat)
    requires file == MAGIC + Flat(events) && k < |events|
    ensures StartOf(events, k) <= |file|
    ensures ReadAt(file, StartOf(events, k)) == Got(events[k]) <==> EventAt(events[k], StartOf(events, k))
  {
    EventInFile(file, events, k);
    var rest := file[StartOf(events, k)..];
    if |events[k]| >= HEADER_SIZE {
      HeaderOfPrefix(rest, |events[k]|);
    }
  }

  /** Reading at the start of event k gives event k; reading at the end gives the end of the file. */
  lemma {:induction false} ReadGivesEvent(file: seq<byte>, events: seq<Event>, k: nat)
    requires file == MAGIC + Flat(events) && k <= |events| && Readable(events)
    ensures StartOf(events, k) <= |file|
    ensures ReadAt(file, StartOf(events, k)) == if k < |events| then Got(events[k]) else Failed(Eof)
    ensures k < |events| ==>
              |events[k]| >= HEADER_SIZE && StartOf(events, k + 1) == StartOf(events, k) + |events[k]| <= |file|
    ensures k == |events| ==> StartOf(events, k) == |file|
  {
    if k == |events| {
      assert events[..k] == events;
    } else {
      assert EventAt(events[k], StartOf(events, k));
      EventInFile(file, events, k);
      HeaderOfPrefix(file[StartOf(events, k)..], |events[k]|);
    }
  }

  /** Only the last event ends at the end of the file. */
  lemma {:induction false} EndsOnlyOnce(file: seq<byte>, events: seq<Event>, k: nat)
    requires file == MAGIC + Flat(events) && k < |events| && Readable(events)
    ensures StartOf(events, k + 1) == |file| <==> k + 1 == |events|
  {
    if k + 1 < |events| {
      ReadGivesEvent(file, events, k + 1);
    } else {
      assert events[..k + 1] == events;
    }
  }

  // ---------------------------------------------------------------- what a reader returns

  /** The reading position, the error and the status of a reader. */
  datatype Pos = Pos(offset: nat, err: Error, status: Status)

  /**
    readFormatEvent on any file, lines 131-148: the first event, after which the reader returns to its
    position. A first event of another type is no error, but stops the call. The last test of the code
    cannot fail, because readBinlog has made it.
   */
  function FormatCall(file: seq<byte>, offset: nat): (r: (nat, ReadResult))
    requires MAGIC_SIZE <= |file| && offset <= |file|
    ensures r.0 <= |file|
  {
    match ReadAt(file, MAGIC_SIZE)
    case Failed(error) => (MAGIC_SIZE, Failed(error))
    case Got(e) =>
      if e[TYPE_AT] != FORMAT_EVENT then (MAGIC_SIZE + |e|, Failed(Fine))
      else (if offset > MAGIC_SIZE then offset else MAGIC_SIZE + |e|, Got(e))
  }

  /** readBinlogEvent behind the format event, on any file. */
  function DataCall(name: seq<char>, file: seq<byte>, p: Pos): (r: (Pos, Item))
    requires name != [] && p.offset <= |file|
    ensures r.0.offset <= |file|
  {
    match ReadAt(file, p.offset)
    case Failed(error) => (p.(err := error), NoEvent)
    case Got(e) =>
      var end := p.offset + |e|;
      if e[TYPE_AT] == ROTATE_EVENT then (Pos(end, Eof, End), FileEvent(e))
      else if e[TYPE_AT] == STOP_EVENT && end == |file| then
        if HasNextName(name, |name| - 1) then (Pos(end, Eof, End), FileEvent(e))
        else (Pos(end, BadFilename, End), NoEvent)
      else (p.(offset := end), FileEvent(e))
  }

  /** One call of readBinlogEvent on any file. */
  function ReadCall(name: seq<char>, file: seq<byte>, p: Pos): (r: (Pos, Item))
    requires name != [] && MAGIC_SIZE <= |file| && p.offset <= |file|
    ensures r.0.offset <= |file|
  {
    if p.err != Fine then (p, NoEvent)
    else if p.status == FakeRotate then (p.(status := Format), FakeRotateEvent(p.offset))
    else if p.status == Format then
      var (offset, got) := FormatCall(file, p.offset);
      match got
      case Failed(error) => (Pos(offset, error, Format), NoEvent)
      case Got(e) => (Pos(offset, Fine, Data), FileEvent(e))
    else DataCall(name, file, p)
  }

  class ReadBinlogFile {
    const name: seq<char>
    const file: seq<byte>
    var offset: nat
    var err: Error
    var status: Status

    ghost predicate Valid()
      reads this
    {
      name != [] && MAGIC_SIZE <= |file| && offset <= |file|
    }

    ghost function Where(): Pos
      reads this
    {
      Pos(offset, err, status)
    }

    /** setFile with a starting position inside the file. */
    constructor (name: seq<char>, file: seq<byte>, start: nat)
      requires MAGIC_SIZE <= start <= |file| && name != []
      ensures Valid() && this.name == name && this.file == file && Where() == Pos(start, Fine, FakeRotate)
    {
      this.name, this.file := name, file;
      offset, err, status := start, Fine, FakeRotate;
    }

    /** readFormatEvent, lines 131-148. */
    method ReadFormatEvent() returns (got: ReadResult)
      requires Valid()
      modifies this`offset
      ensures Valid() && (offset, got) == FormatCall(file, old(offset))
    {
      var saved := offset;
      offset := MAGIC_SIZE;
      got := ReadAt(file, offset);
      if got.Got? {
        offset := offset + |got.e|;
        if got.e[TYPE_AT] != FORMAT_EVENT {
          return Failed(Fine);
        }
        if saved > MAGIC_SIZE {
          offset := saved;
        }
      }
    }

    /** readBinlogEvent, lines 281-378. */
    method ReadBinlogEvent() returns (r: int, item: Item)
      requires Valid()
      modifies this`offset, this`err, this`status
      ensures Valid() && (Where(), item) == ReadCall(name, file, old(Where()))
      ensures r == if item.NoEvent? then -1 else 0
    {
      if err != Fine {
        return -1, NoEvent;
      }
      if status == FakeRotate {
        status := Format;
        return 0, FakeRotateEvent(offset);
      }
      if status == Format {
        var got := ReadFormatEvent();
        if got.Failed? {
          err := got.error;
          return -1, NoEvent;
        }
        status := Data;
        return 0, FileEvent(got.e);
      }
      var got := ReadAt(file, offset);
      if got.Failed? {
        err := got.error;
        return -1, NoEvent;
      }
      var e := got.e;
      offset := offset + |e|;
      if e[TYPE_AT] == ROTATE_EVENT {
        err, status := Eof, End;
      } else if e[TYPE_AT] == STOP_EVENT && offset == |file| {
        status := End;
        if !HasNextName(name, |name| - 1) {
          err := BadFilename;
          return -1, NoEvent;
        }
        err := Eof;
      }
      return 0, FileEvent(e);
    }
  }

  // ---------------------------------------------------------------- a file whose events are readable

  /** A reader that stands before event k. */
  datatype View = View(k: nat, err: Error, status: Status)

  function PosOf(events: seq<Event>, v: View): Pos
    requires v.k <= |events|
  {
    Pos(StartOf(events, v.k), v.err, v.status)
  }

  /** One call of readBinlogEvent, in terms of the events alone. */
  function Next(name: seq<char>, events: seq<Event>, v: View): (r: (View, Item))
    requires name != [] && v.k <= |events| && HaveHeaders(events)
    ensures r.0.k <= |events|
  {
    if v.err != Fine then (v, NoEvent)
    else if v.status == FakeRotate then (v.(status := Format), FakeRotateEvent(StartOf(events, v.k)))
    else if v.status == Format then
      if events == [] then (View(0, Eof, Format), NoEvent)
      else if events[0][TYPE_AT] != FORMAT_EVENT then (View(1, Fine, Format), NoEvent)
      else (View(if v.k == 0 then 1 else v.k, Fine, Data), FileEvent(events[0]))
    else if v.k == |events| then (v.(err := Eof), NoEvent)
    else
      var e := events[v.k];
      if e[TYPE_AT] == ROTATE_EVENT then (View(v.k + 1, Eof, End), FileEvent(e))
      else if e[TYPE_AT] == STOP_EVENT && v.k + 1 == |events| then
        if HasNextName(name, |name| - 1) then (View(v.k + 1, Eof, End), FileEvent(e))
        else (View(v.k + 1, BadFilename, End), NoEvent)
      else (View(v.k + 1, Fine, v.status), FileEvent(e))
  }

  lemma {:induction false} FormatCallIsNext(file: seq<byte>, events: seq<Event>, k: nat)
    requires file == MAGIC + Flat(events) && Readable(events) && k <= |events|
    ensures StartOf(events, k) <= |file| && (events != [] ==> |events[0]| >= HEADER_SIZE)
    ensures FormatCall(file, StartOf(events, k)) ==
              if events == [] then (MAGIC_SIZE, Failed(Eof))
              else if events[0][TYPE_AT] != FORMAT_EVENT then (StartOf(events, 1), Failed(Fine))
              else (StartOf(events, if k == 0 then 1 else k), Got(events[0]))
  {
    ReadGivesEvent(file, events, k);
    ReadGivesEvent(file, events, 0);
    PositiveStart(events, k);
    assert events[..0] == [];
  }

  lemma {:induction false} DataCallIsNext(name: seq<char>, file: seq<byte>, events: seq<Event>, v: View)
    requires name != [] && file == MAGIC + Flat(events) && Readable(events) && HaveHeaders(events) && v.k <= |events|
    requires v.err == Fine && v.status != FakeRotate && v.status != Format
    ensures StartOf(events, v.k) <= |file|
    ensures var (v', item) := Next(name, events, v); DataCall(name, file, PosOf(events, v)) == (PosOf(events, v'), item)
  {
    ReadGivesEvent(file, events, v.k);
    if v.k < |events| {
      EndsOnlyOnce(file, events, v.k);
    }
  }

  /**
    On a file of readable events every call, from any event and in any status, returns what the list of events
    prescribes.
   */
  lemma {:induction false} CallIsNext(name: seq<char>, file: seq<byte>, events: seq<Event>, v: View)
    requires name != [] && file == MAGIC + Flat(events) && Readable(events) && v.k <= |events|
    ensures StartOf(events, v.k) <= |file| && HaveHeaders(events)
    ensures var (v', item) := Next(name, events, v); ReadCall(name, file, PosOf(events, v)) == (PosOf(events, v'), item)
  {
    HeadersInside(events);
    FormatCallIsNext(file, events, v.k);
    if v.err == Fine && v.status != FakeRotate && v.status != Format {
      DataCallIsNext(name, file, events, v);
    }
  }

  lemma HeadersInside(events: seq<Event>)
    requires Readable(events)
    ensures HaveHeaders(events)
  {
    forall i: nat | i < |events| ensures |events[i]| >= HEADER_SIZE {
      assert EventAt(events[i], StartOf(events, i));
    }
  }

  lemma {:induction false} PositiveStart(events: seq<Event>, k: nat)
    requires Readable(events) && k <= |events|
    ensures StartOf(events, k) > MAGIC_SIZE <==> k > 0
  {
    if k > 0 {
      StartAfter(events, k - 1);
      assert EventAt(events[k - 1], StartOf(events, k - 1));
    } else {
      assert events[..0] == [];
    }
  }

  // ---------------------------------------------------------------- a whole file

  /** The items of n calls on any file. */
  function ReadCalls(name: seq<char>, file: seq<byte>, p: Pos, n: nat): (items: seq<Item>)
    requires name != [] && MAGIC_SIZE <= |file| && p.offset <= |file|
    ensures |items| == n
    decreases n
  {
    if n == 0 then [] else var (p', item) := ReadCall(name, file, p); [item] + ReadCalls(name, file, p', n - 1)
  }

  function Start(): Pos { Pos(MAGIC_SIZE, Fine, FakeRotate) }

  function FileEvents(events: seq<Event>): (items: seq<Item>)
    ensures |items| == |events|
  {
    seq(|events|, i requires 0 <= i < |events| => FileEvent(events[i]))
  }

  /** What a reader of a whole file should return: the fake rotate, every event in order, then nothing. */
  function AllOf(events: seq<Event>): seq<Item> {
    [FakeRotateEvent(MAGIC_SIZE)] + FileEvents(events) + [NoEvent]
  }

  /**
    A file as a server leaves it: a format event first, a rotate event only last, a last stop event only
    under a numbered name.
   */
  ghost predicate WellFormed(name: seq<char>, events: seq<Event>) {
    && name != [] && HaveHeaders(events)
    && (events != [] ==> events[0][TYPE_AT] == FORMAT_EVENT)
    && (forall i | 0 <= i < |events| - 1 :: events[i][TYPE_AT] != ROTATE_EVENT)
    && (events != [] && events[|events| - 1][TYPE_AT] == STOP_EVENT ==> HasNextName(name, |name| - 1))
  }

  /** Event i passes the reader's checks and lets it go on as far as it should. */
  ghost predicate PassesAt(name: seq<char>, events: seq<Event>, i: nat)
    requires name != [] && i < |events|
  {
    && EventAt(events[i], StartOf(events, i))
    && (i < |events| - 1 ==> events[i][TYPE_AT] != ROTATE_EVENT)
    && (i == |events| - 1 && events[i][TYPE_AT] == STOP_EVENT ==> HasNextName(name, |name| - 1))
  }

  ghost predicate PassFrom(name: seq<char>, events: seq<Event>, k: nat)
    requires name != []
  {
    forall i: nat {:trigger PassesAt(name, events, i)} | k <= i < |events| :: PassesAt(name, events, i)
  }

  lemma PassNext(name: seq<char>, events: seq<Event>, k: nat)
    requires name != [] && k < |events|
    ensures PassFrom(name, events, k) <==> PassesAt(name, events, k) && PassFrom(name, events, k + 1)
  {
  }

  /** Once a call has failed for an error, all later ones return nothing. */
  lemma {:induction false} NothingAfterError(name: seq<char>, file: seq<byte>, p: Pos, n: nat)
    requires name != [] && MAGIC_SIZE <= |file| && p.offset <= |file| && p.err != Fine
    ensures forall i | 0 <= i < n :: ReadCalls(name, file, p, n)[i] == NoEvent
  {
    if n > 0 {
      NothingAfterError(name, file, p, n - 1);
    }
  }

  /** After an error the rest is as it should be exactly when no event is left. */
  lemma {:induction false} ErrorEnds(name: seq<char>, file: seq<byte>, p: Pos, events: seq<Event>, k: nat)
    requires name != [] && MAGIC_SIZE <= |file| && p.offset <= |file| && p.err != Fine && k <= |events|
    ensures ReadCalls(name, file, p, |events| - k + 1) == FileEvents(events[k..]) + [NoEvent] <==> k == |events|
  {
    NothingAfterError(name, file, p, |events| - k + 1);
    if k < |events| {
      assert (FileEvents(events[k..]) + [NoEvent])[0] == FileEvent(events[k]);
    }
  }

  lemma HeadAndTail(a: Item, x: seq<Item>, b: Item, y: seq<Item>)
    ensures [a] + x == [b] + y <==> a == b && x == y
  {
    if [a] + x == [b] + y {
      assert a == ([a] + x)[0] && x == ([a] + x)[1..] && y == ([b] + y)[1..];
    }
  }

  /** The items of the events still to come, one call at a time. */
  lemma {:induction false} OneCall(name: seq<char>, file: seq<byte>, p: Pos, events: seq<Event>)
    requires name != [] && MAGIC_SIZE <= |file| && p.offset <= |file| && events != []
    ensures var r := ReadCall(name, file, p);
            ReadCalls(name, file, p, |events| + 1) == FileEvents(events) + [NoEvent] <==>
            r.1 == FileEvent(events[0]) && ReadCalls(name, file, r.0, |events|) == FileEvents(events[1..]) + [NoEvent]
  {
    var r := ReadCall(name, file, p);
    assert FileEvents(events) + [NoEvent] == [FileEvent(events[0])] + (FileEvents(events[1..]) + [NoEvent]);
    HeadAndTail(r.1, ReadCalls(name, file, r.0, |events|), FileEvent(events[0]), FileEvents(events[1..]) + [NoEvent]);
  }

  lemma {:induction false} OneCallAt(name: seq<char>, file: seq<byte>, p: Pos, events: seq<Event>, k: nat)
    requires name != [] && MAGIC_SIZE <= |file| && p.offset <= |file| && k < |events|
    ensures var r := ReadCall(name, file, p);
            ReadCalls(name, file, p, |events| - k + 1) == FileEvents(events[k..]) + [NoEvent] <==>
            r.1 == FileEvent(events[k]) && ReadCalls(name, file, r.0, |events| - k) ==
                FileEvents(events[k + 1..]) + [NoEvent]
  {
    OneCall(name, file, p, events[k..]);
    assert events[k..][1..] == events[k + 1..];
  }

  /** What a call behind the format event returns is what lies at its position. */
  lemma ReturnedIsRead(name: seq<char>, file: seq<byte>, p: Pos, e: Event)
    requires name != [] && MAGIC_SIZE <= |file| && p.offset <= |file| && p.err == Fine && p.status == Data
    ensures ReadCall(name, file, p).1 == FileEvent(e) ==> ReadAt(file, p.offset) == Got(e)
  {
    match ReadAt(file, p.offset)
    case Failed(_) =>
    case Got(_) =>
  }

  /** An event that does not carry its length and position is not returned as it is. */
  lemma {:induction false} NotReturned(name: seq<char>, file: seq<byte>, events: seq<Event>, k: nat)
    requires name != [] && file == MAGIC + Flat(events) && k < |events| && !EventAt(events[k], StartOf(events, k))
    ensures StartOf(events, k) <= |file|
    ensures ReadCall(name, file, Pos(StartOf(events, k), Fine, Data)).1 != FileEvent(events[k])
  {
    ReadGivesEventWhen(file, events, k);
    ReturnedIsRead(name, file, Pos(StartOf(events, k), Fine, Data), events[k]);
  }

  /** A stop event at the end of the file that is not the last one is followed by events without bytes. */
  lemma {:induction false} NothingBehind(file: seq<byte>, events: seq<Event>, k: nat)
    requires file == MAGIC + Flat(events) && k < |events|
    ensures k + 1 == |events| ==> StartOf(events, k + 1) == |file|
    ensures k + 1 < |events| && StartOf(events, k + 1) == |file| ==> !EventAt(events[k + 1], StartOf(events, k + 1))
  {
    if k + 1 == |events| {
      assert events[..k + 1] == events;
    } else {
      EventInFile(file, events, k + 1);
    }
  }

  /**
    On any file, from the start of event k on: the calls return the events in order and then nothing if and
    only if every one of them passes.
   */
  lemma {:induction false} DataExactly(name: seq<char>, file: seq<byte>, events: seq<Event>, k: nat)
    requires name != [] && file == MAGIC + Flat(events) && k <= |events|
    ensures StartOf(events, k) <= |file|
    ensures ReadCalls(name, file, Pos(StartOf(events, k), Fine, Data), |events| - k + 1) ==
              FileEvents(events[k..]) + [NoEvent]
            <==> PassFrom(name, events, k)
    decreases |events| - k
  {
    var p := Pos(StartOf(events, k), Fine, Data);
    if k == |events| {
      assert events[..k] == events;
      assert ReadCalls(name, file, p, 1) == [NoEvent] + ReadCalls(name, file, p.(err := Eof), 0);
    } else {
      EventInFile(file, events, k);
      OneCallAt(name, file, p, events, k);
      PassNext(name, events, k);
      if EventAt(events[k], StartOf(events, k)) {
        DataPasses(name, file, events, k);
      } else {
        NotReturned(name, file, events, k);
      }
    }
  }

  /** What the call that reads event k does. */
  lemma {:induction false} CallAtEvent(name: seq<char>, file: seq<byte>, events: seq<Event>, k: nat)
    requires name != [] && file == MAGIC + Flat(events) && k < |events| && EventAt(events[k], StartOf(events, k))
    ensures StartOf(events, k) <= |file| && StartOf(events, k + 1) <= |file|
    ensures var (p', item) := ReadCall(name, file, Pos(StartOf(events, k), Fine, Data));
            if p'.err == Fine then
              p' == Pos(StartOf(events, k + 1), Fine, Data) && item == FileEvent(events[k]) && PassesAt(name, events, k)
            else if k + 1 == |events| then item == FileEvent(events[k]) <==> PassesAt(name, events, k)
            else !PassesAt(name, events, k) || !EventAt(events[k + 1], StartOf(events, k + 1))
  {
    ReadGivesEventWhen(file, events, k);
    EventInFile(file, events, k);
    NothingBehind(file, events, k);
  }

  /** The step of DataExactly at an event that is read as it is. */
  lemma {:induction false} DataPasses(name: seq<char>, file: seq<byte>, events: seq<Event>, k: nat)
    requires name != [] && file == MAGIC + Flat(events) && k < |events| && EventAt(events[k], StartOf(events, k))
    ensures StartOf(events, k) <= |file|
    ensures var r := ReadCall(name, file, Pos(StartOf(events, k), Fine, Data));
            r.1 == FileEvent(events[k]) && ReadCalls(name, file, r.0, |events| - k) ==
                FileEvents(events[k + 1..]) + [NoEvent]
            <==> PassesAt(name, events, k) && PassFrom(name, events, k + 1)
    decreases |events| - k, 0
  {
    CallAtEvent(name, file, events, k);
    var (p', item) := ReadCall(name, file, Pos(StartOf(events, k), Fine, Data));
    if p'.err == Fine {
      DataExactly(name, file, events, k + 1);
    } else {
      ErrorEnds(name, file, p', events, k + 1);
      if k + 1 < |events| {
        PassNext(name, events, k + 1);
      }
    }
  }

  /** Reading any file from its start, with one call more than it has events and the fake rotate. */
  lemma {:induction false} FileIsReadBack(name: seq<char>, events: seq<Event>)
    requires name != []
    ensures ReadCalls(name, MAGIC + Flat(events), Start(), |events| + 2) == AllOf(events) <==>
              WellFormed(name, events) && Readable(events)
  {
    var file, p := MAGIC + Flat(events), Pos(MAGIC_SIZE, Fine, Format);
    WholeIs(name, events);
    assert AllOf(events) == [FakeRotateEvent(MAGIC_SIZE)] + (FileEvents(events) + [NoEvent]);
    HeadAndTail(FakeRotateEvent(MAGIC_SIZE), ReadCalls(name, file, p, |events| + 1),
                FakeRotateEvent(MAGIC_SIZE), FileEvents(events) + [NoEvent]);
    FormatExactly(name, file, events);
  }

  /** The whole file passes when its events do and the first one is a format event. */
  lemma WholeIs(name: seq<char>, events: seq<Event>)
    requires name != []
    ensures WellFormed(name, events) && Readable(events) <==>
              PassFrom(name, events, 0) && (events != [] ==>
                  |events[0]| >= HEADER_SIZE && events[0][TYPE_AT] == FORMAT_EVENT)
  {
    if PassFrom(name, events, 0) {
      forall i: nat | i < |events|
        ensures EventAt(events[i], StartOf(events, i)) && (i < |events| - 1 ==> events[i][TYPE_AT] != ROTATE_EVENT)
        ensures i == |events| - 1 && events[i][TYPE_AT] == STOP_EVENT ==> HasNextName(name, |name| - 1)
      {
        assert PassesAt(name, events, i);
      }
    }
    if WellFormed(name, events) && Readable(events) {
      forall i: nat | i < |events| ensures PassesAt(name, events, i) {
        assert EventAt(events[i], StartOf(events, i));
      }
    }
  }

  lemma {:induction false} FormatExactly(name: seq<char>, file: seq<byte>, events: seq<Event>)
    requires name != [] && file == MAGIC + Flat(events)
    ensures ReadCalls(name, file, Pos(MAGIC_SIZE, Fine, Format), |events| + 1) == FileEvents(events) + [NoEvent] <==>
              PassFrom(name, events, 0) && (events != [] ==>
                  |events[0]| >= HEADER_SIZE && events[0][TYPE_AT] == FORMAT_EVENT)
  {
    var p := Pos(MAGIC_SIZE, Fine, Format);
    assert events[..0] == [] && events[0..] == events;
    if events == [] {
      assert ReadCalls(name, file, p, 1) == [NoEvent] + ReadCalls(name, file, p.(err := Eof), 0);
    } else {
      FormatThenData(name, file, events);
    }
  }

  lemma {:induction false} FormatThenData(name: seq<char>, file: seq<byte>, events: seq<Event>)
    requires name != [] && file == MAGIC + Flat(events) && events != []
    ensures ReadCalls(name, file, Pos(MAGIC_SIZE, Fine, Format), |events| + 1) == FileEvents(events) + [NoEvent] <==>
              PassFrom(name, events, 0) && |events[0]| >= HEADER_SIZE && events[0][TYPE_AT] == FORMAT_EVENT
  {
    var p := Pos(MAGIC_SIZE, Fine, Format);
    var r := ReadCall(name, file, p);
    OneCall(name, file, p, events);
    FormatFirst(name, file, events);
    DataBehindFormat(name, file, events, r.0, r.1);
  }

  lemma {:induction false} DataBehindFormat(name: seq<char>, file: seq<byte>, events: seq<Event>, p: Pos, item: Item)
    requires name != [] && file == MAGIC + Flat(events) && events != [] && p.offset <= |file|
    requires item == FileEvent(events[0]) <==> EventAt(events[0], MAGIC_SIZE) && events[0][TYPE_AT] == FORMAT_EVENT
    requires item == FileEvent(events[0]) ==> p == Pos(StartOf(events, 1), Fine, Data) && PassesAt(name, events, 0)
    ensures item == FileEvent(events[0]) &&
              ReadCalls(name, file, p, |events|) == FileEvents(events[1..]) + [NoEvent] <==>
              PassFrom(name, events, 0) && |events[0]| >= HEADER_SIZE && events[0][TYPE_AT] == FORMAT_EVENT
  {
    PassNext(name, events, 0);
    assert events[..0] == [];
    if item == FileEvent(events[0]) {
      DataExactly(name, file, events, 1);
    }
  }

  /** The call that reads the format event of any file. */
  lemma {:induction false} FormatFirst(name: seq<char>, file: seq<byte>, events: seq<Event>)
    requires name != [] && file == MAGIC + Flat(events) && events != []
    ensures var r := ReadCall(name, file, Pos(MAGIC_SIZE, Fine, Format));
            && (r.1 == FileEvent(events[0]) <==> EventAt(events[0], MAGIC_SIZE) && events[0][TYPE_AT] == FORMAT_EVENT)
            && (r.1 == FileEvent(events[0]) ==> r.0 == Pos(StartOf(events, 1), Fine, Data) && PassesAt(name, events, 0))
  {
    assert events[..0] == [];
    ReadGivesEventWhen(file, events, 0);
    EventInFile(file, events, 0);
  }

  /**
    What the writer has stored the reader accepts if and only if every event has its header and the first one
    its position.
   */
  lemma {:induction false} StoredIsReadable(events: seq<Event>)
    requires AllStoredOk(events)
    ensures Readable(events) <==>
              && HaveHeaders(events)
              && (events != [] ==> EventAt(events[0], MAGIC_SIZE))
  {
    assert events[..0] == [];
    if Readable(events) {
      HeadersInside(events);
      if events != [] {
        assert EventAt(events[0], StartOf(events, 0));
      }
    } else if HaveHeaders(events) {
      var k: nat :| k < |events| && !EventAt(events[k], StartOf(events, k));
      assert StoredOk(events, k);
      if k > 0 {
        LaterStart(events, k);
        assert false;
      }
    }
  }

  lemma {:induction false} LaterStart(events: seq<Event>, k: nat)
    requires 0 < k <= |events| && HaveHeaders(events)
    ensures StartOf(events, k) > MAGIC_SIZE
  {
    StartAfter(events, k - 1);
  }

  // ---------------------------------------------------------------- from the writer to the reader

  /** n calls of readBinlogEvent on a new reader of any file. */
  method ReadFile(name: seq<char>, file: seq<byte>, n: nat) returns (items: seq<Item>)
    requires name != [] && MAGIC_SIZE <= |file|
    ensures items == ReadCalls(name, file, Start(), n)
  {
    var reader := new ReadBinlogFile(name, file, MAGIC_SIZE);
    items := [];
    for i := 0 to n
      invariant reader.Valid() && fresh(reader) && reader.name == name && reader.file == file
      invariant items + ReadCalls(name, file, reader.Where(), n - i) == ReadCalls(name, file, Start(), n)
    {
      ghost var rest := ReadCall(name, file, reader.Where()).0;
      var r, item := reader.ReadBinlogEvent();
      assert items + ([item] + ReadCalls(name, file, rest, n - i - 1)) ==
          (items + [item]) + ReadCalls(name, file, rest, n - i - 1);
      items := items + [item];
    }
    assert items + [] == items;
  }

  /** The events that are kept of those given to the writer: each is judged by where the kept ones end. */
  function Kept(given: seq<Event>): seq<Event>
    requires HaveHeaders(given)
  {
    if given == [] then []
    else
      var before, e := Kept(given[..|given| - 1]), given[|given| - 1];
      before + if Judge(e, StartOf(before, |before|)) == Store then [e[..Length(e)]] else []
  }

  /**
    An event that is taken over as it is: it has the length it declares, it carries its end position (or is a
    format event without a position, the first of all), and a format event comes only first.
   */
  predicate FitsAt(given: seq<Event>, k: nat)
    requires k < |given|
  {
    var e := given[k];
    && |e| >= HEADER_SIZE && Length(e) == |e|
    && (e[TYPE_AT] == FORMAT_EVENT ==> k == 0)
    && (Position(e) == (StartOf(given, k) + |e|) % WORD32
        || (e[TYPE_AT] == FORMAT_EVENT && Position(e) == 0))
  }

  lemma {:induction false} KeptAtMost(given: seq<Event>)
    requires HaveHeaders(given)
    ensures |Kept(given)| <= |given|
  {
    if given != [] {
      KeptAtMost(given[..|given| - 1]);
    }
  }

  /** The writer keeps every event as it was given if and only if every event fits where it comes. */
  lemma {:induction false} AllAreKept(given: seq<Event>)
    requires HaveHeaders(given)
    ensures Kept(given) == given <==> forall k: nat {:trigger FitsAt(given, k)} | k < |given| :: FitsAt(given, k)
  {
    if given != [] {
      var n := |given| - 1;
      var front, e := given[..n], given[n];
      AllAreKept(front);
      KeptAtMost(front);
      FitsInFront(given);
      LastIsKept(given);
      if forall k: nat {:trigger FitsAt(front, k)} | k < n :: FitsAt(front, k) {
        forall k: nat | k < n ensures FitsAt(given, k) {
          assert FitsAt(front, k);
        }
      }
    }
  }

  lemma FitsInFront(given: seq<Event>)
    requires given != []
    ensures forall k: nat {:trigger FitsAt(given[..|given| - 1], k)} | k < |given| - 1 ::
              FitsAt(given[..|given| - 1], k) <==> FitsAt(given, k)
  {
    var front := given[..|given| - 1];
    forall k: nat | k < |front| ensures FitsAt(front, k) <==> FitsAt(given, k) {
      assert front[..k] == given[..k];
    }
  }

  /** An event fits exactly when the writer stores it and stores all of it. */
  lemma {:induction false} StoredWhole(given: seq<Event>, n: nat)
    requires HaveHeaders(given) && n < |given|
    ensures FitsAt(given, n) <==> Judge(given[n], StartOf(given, n)) == Store && Length(given[n]) == |given[n]|
  {
    if n > 0 {
      LaterStart(given, n);
    } else {
      assert given[..0] == [];
    }
  }

  /** What becomes of the last event. */
  lemma {:induction false} KeptSnoc(front: seq<Event>, e: Event)
    requires HaveHeaders(front) && |e| >= HEADER_SIZE
    ensures HaveHeaders(front + [e])
    ensures Kept(front + [e]) ==
              Kept(front) + if Judge(e, StartOf(Kept(front), |Kept(front)|)) == Store then [e[..Length(e)]] else []
  {
    assert (front + [e])[..|front|] == front;
  }

  lemma EqualSnoc(kept: seq<Event>, front: seq<Event>, x: Event, e: Event)
    ensures kept + [x] == front + [e] <==> kept == front && x == e
  {
    if kept + [x] == front + [e] {
      assert kept == (kept + [x])[..|kept|] && front == (front + [e])[..|front|];
      assert x == (kept + [x])[|kept|] && e == (front + [e])[|front|];
    }
  }

  /** The last event, when all before it were kept. */
  lemma {:induction false} LastIsKept(given: seq<Event>)
    requires given != [] && HaveHeaders(given)
    ensures var n := |given| - 1;
            Kept(given) == given <==> Kept(given[..n]) == given[..n] && FitsAt(given, n)
  {
    var n := |given| - 1;
    var front, e := given[..n], given[n];
    assert given == front + [e];
    KeptAtMost(front);
    KeptSnoc(front, e);
    StoredWhole(given, n);
    if Length(e) <= |e| {
      EqualSnoc(Kept(front), front, e[..Length(e)], e);
    }
    assert front[..n] == front;
  }

  /** The condition of a complete read, as a caller can check it on the kept events. */
  predicate Complete(name: seq<char>, events: seq<Event>) {
    && name != [] && HaveHeaders(events)
    && (events != [] ==> EventAt(events[0], MAGIC_SIZE) && events[0][TYPE_AT] == FORMAT_EVENT)
    && (forall i | 0 <= i < |events| - 1 :: events[i][TYPE_AT] != ROTATE_EVENT)
    && (events != [] && events[|events| - 1][TYPE_AT] == STOP_EVENT ==> HasNextName(name, |name| - 1))
  }

  /**
    Events are written in batches of any size, flushed whenever the cycle is due, and the finished file is
    read: the calls return exactly the kept events, in order, if and only if these are complete.
   */
  method WriteAndReadBack(name: seq<char>, given: seq<Event>, batch: nat, due: seq<bool>) returns (items: seq<Item>)
    requires name != [] && |due| == |given| && HaveHeaders(given)
    ensures items == ReadCalls(name, MAGIC + Flat(Kept(given)), Start(), |Kept(given)| + 2)
    ensures items == AllOf(Kept(given)) <==> Complete(name, Kept(given))
  {
    var writer := new WriteBinlogFile(batch);
    var count := 0;
    for i := 0 to |given|
      invariant writer.Valid() && fresh(writer) && writer.stored == Kept(given[..i]) && count == |writer.stored|
    {
      assert given[..i + 1][..i] == given[..i];
      var stores := Judge(given[i], writer.logOffset) == Store;
      var r, flushed := writer.WriteBinlogEvent(given[i], due[i]);
      count := if stores then count + 1 else count;
    }
    assert given[..|given|] == given;
    writer.Finish();
    StoredIsReadable(writer.stored);
    FileIsReadBack(name, writer.stored);
    items := ReadFile(name, writer.file, count + 2);
  }

  // ---------------------------------------------------------------- files that are not read back

  lemma KeptOne(e: Event)
    requires |e| >= HEADER_SIZE && Judge(e, MAGIC_SIZE) == Store
    ensures Kept([e]) == [e[..Length(e)]] && Flat(Kept([e])) == e[..Length(e)]
  {
    assert [e][..0] == [];
    var kept := [e[..Length(e)]];
    assert kept[..0] == [];
  }

  /** A first event that cannot be read leaves the reader with nothing but the fake rotate. */
  lemma FirstFails(name: seq<char>, file: seq<byte>, error: Error)
    requires name != [] && MAGIC_SIZE <= |file| && ReadAt(file, MAGIC_SIZE) == Failed(error) && error != Fine
    ensures ReadCalls(name, file, Start(), 3) == [FakeRotateEvent(MAGIC_SIZE), NoEvent, NoEvent]
  {
    var p1, p2 := Pos(MAGIC_SIZE, Fine, Format), Pos(MAGIC_SIZE, error, Format);
    assert ReadCalls(name, file, p2, 1) == [NoEvent] + ReadCalls(name, file, p2, 0);
    assert ReadCalls(name, file, p1, 2) == [NoEvent] + ReadCalls(name, file, p2, 1);
    assert ReadCalls(name, file, Start(), 3) == [FakeRotateEvent(MAGIC_SIZE)] + ReadCalls(name, file, p1, 2);
  }

  /** A last event that declares less than a header is stored; the reader meets the end, or an incomplete event. */
  method ShortEventIsStored(name: seq<char>, e: Event, batch: nat) returns (items: seq<Item>)
    requires name != [] && |e| >= HEADER_SIZE && Length(e) < HEADER_SIZE && e[TYPE_AT] != FORMAT_EVENT
    requires Position(e) == MAGIC_SIZE + Length(e)
    ensures Judge(e, MAGIC_SIZE) == Store
    ensures ReadAt(MAGIC + e[..Length(e)], MAGIC_SIZE) == Failed(if Length(e) == 0 then Eof else Incomplete)
    ensures items == [FakeRotateEvent(MAGIC_SIZE), NoEvent, NoEvent]
  {
    KeptOne(e);
    ghost var file := MAGIC + e[..Length(e)];
    assert file[MAGIC_SIZE..] == e[..Length(e)];
    FirstFails(name, file, if Length(e) == 0 then Eof else Incomplete);
    items := WriteAndReadBack(name, [e], batch, [true]);
  }

  /** A first format event without its position is stored; the reader refuses it for its length. */
  method UnpositionedFormatIsStored(name: seq<char>, e: Event, batch: nat) returns (items: seq<Item>)
    requires name != [] && HEADER_SIZE <= |e| && HEADER_SIZE <= Length(e) <= |e| && MAGIC_SIZE + Length(e) != WORD32
    requires e[TYPE_AT] == FORMAT_EVENT && Position(e) == 0
    ensures Judge(e, MAGIC_SIZE) == Store
    ensures ReadAt(MAGIC + e[..Length(e)], MAGIC_SIZE) == Failed(BadLength)
    ensures items == [FakeRotateEvent(MAGIC_SIZE), NoEvent, NoEvent]
  {
    KeptOne(e);
    HeaderOfPrefix(e, Length(e));
    LittleEndianOfNumber(e[LENGTH_AT..LENGTH_AT + 4]);
    WordRange();
    ghost var file := MAGIC + e[..Length(e)];
    assert file[MAGIC_SIZE..] == e[..Length(e)];
    FirstFails(name, file, BadLength);
    items := WriteAndReadBack(name, [e], batch, [true]);
  }

  /**
    Two events of which the first declares four bytes, so that the reader takes the second one for a part of
    it: its first byte for a type, its server id for a length and its length for a position.
   */
  predicate Misleads(a: Event, b: Event) {
    && |a| >= HEADER_SIZE && a[TYPE_AT] != FORMAT_EVENT && Length(a) == 4 && Position(a) == 8
    && |b| == 23 && b[TYPE_AT] != FORMAT_EVENT && Length(b) == 23 && Position(b) == 31
    && b[0] == FORMAT_EVENT && GetU32(b, SERVER_ID_AT) == HEADER_SIZE
  }

  lemma SmallWord(b: seq<byte>, at: nat)
    requires at + 4 <= |b| && b[at + 1] == b[at + 2] == b[at + 3] == 0
    ensures GetU32(b, at) == b[at]
  {
    var w := b[at..at + 4];
    assert w[1..][1..][1..] == [0] && Number([0]) == 0;
    assert Number(w[1..][1..]) == 0 && Number(w[1..]) == 0;
  }

  lemma ShortOne() returns (a: Event)
    ensures |a| >= HEADER_SIZE && a[TYPE_AT] != FORMAT_EVENT && Length(a) == 4 && Position(a) == 8
  {
    a := [0, 0, 0, 0, 2, 0, 0, 0, 0, 4, 0, 0, 0, 8, 0, 0, 0, 0, 0];
    SmallWord(a, LENGTH_AT);
    SmallWord(a, POSITION_AT);
  }

  lemma NextOne() returns (b: Event)
    ensures |b| == 23 && b[TYPE_AT] != FORMAT_EVENT && Length(b) == 23 && Position(b) == 31
    ensures b[0] == FORMAT_EVENT && GetU32(b, SERVER_ID_AT) == HEADER_SIZE
  {
    b := [FORMAT_EVENT, 0, 0, 0, 2, 19, 0, 0, 0, 23, 0, 0, 0, 31, 0, 0, 0, 0, 0, 0, 0, 0, 0];
    SmallWord(b, SERVER_ID_AT);
    SmallWord(b, LENGTH_AT);
    SmallWord(b, POSITION_AT);
  }

  /** There are such events. */
  lemma MisleadingEvents() returns (a: Event, b: Event)
    ensures Misleads(a, b)
  {
    a := ShortOne();
    b := NextOne();
  }

  lemma BothKept(a: Event, b: Event)
    requires Misleads(a, b)
    ensures HaveHeaders([a, b]) && Kept([a, b]) == [a[..4], b] && Flat(Kept([a, b])) == a[..4] + b
  {
    var kept := [a[..4]];
    KeptOne(a);
    assert [a, b][..1] == [a] && kept[..1] == kept;
    assert b[..23] == b;
    assert Kept([a, b]) == kept + [b];
    FlatSnoc(kept, b);
  }

  /** The bytes at the reading position then look like a format event of 19 bytes. */
  lemma LooksLikeFormat(a: Event, b: Event, file: seq<byte>)
    requires Misleads(a, b) && file == MAGIC + (a[..4] + b)
    ensures ReadAt(file, MAGIC_SIZE) == Got(a[..4] + b[..15]) && (a[..4] + b[..15])[TYPE_AT] == FORMAT_EVENT
    ensures ReadAt(file, 23) == Failed(Incomplete)
  {
    var rest := file[MAGIC_SIZE..];
    assert rest == a[..4] + b;
    assert rest[LENGTH_AT..LENGTH_AT + 4] == b[SERVER_ID_AT..SERVER_ID_AT + 4];
    assert rest[POSITION_AT..POSITION_AT + 4] == b[LENGTH_AT..LENGTH_AT + 4];
    assert rest[..19] == a[..4] + b[..15];
  }

  lemma MisreadCalls(name: seq<char>, file: seq<byte>, e: Event)
    requires name != [] && |file| == 31 && ReadAt(file, 23) == Failed(Incomplete)
    requires ReadAt(file, MAGIC_SIZE) == Got(e) && |e| == 19 && e[TYPE_AT] == FORMAT_EVENT
    ensures ReadCalls(name, file, Start(), 4) == [FakeRotateEvent(MAGIC_SIZE), FileEvent(e), NoEvent, NoEvent]
  {
    var p1, p2, p3 := Pos(MAGIC_SIZE, Fine, Format), Pos(23, Fine, Data), Pos(23, Incomplete, Data);
    assert ReadCalls(name, file, p3, 1) == [NoEvent] + ReadCalls(name, file, p3, 0);
    assert ReadCalls(name, file, p2, 2) == [NoEvent] + ReadCalls(name, file, p3, 1);
    assert ReadCalls(name, file, p1, 3) == [FileEvent(e)] + ReadCalls(name, file, p2, 2);
    assert ReadCalls(name, file, Start(), 4) == [FakeRotateEvent(MAGIC_SIZE)] + ReadCalls(name, file, p1, 3);
  }

  /** Two accepted events from which the reader makes a format event that nobody wrote. */
  method EventsAreMisread(name: seq<char>, a: Event, b: Event, batch: nat) returns (items: seq<Item>)
    requires name != [] && Misleads(a, b)
    ensures items == [FakeRotateEvent(MAGIC_SIZE), FileEvent(a[..4] + b[..15]), NoEvent, NoEvent]
    ensures HaveHeaders([a, b]) && a[..4] + b[..15] !in Kept([a, b])
  {
    ghost var file := MAGIC + (a[..4] + b);
    BothKept(a, b);
    LooksLikeFormat(a, b, file);
    MisreadCalls(name, file, a[..4] + b[..15]);
    items := WriteAndReadBack(name, [a, b], batch, [true, true]);
  }
}
