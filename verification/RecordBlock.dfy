/**
  The appending block of database/appendingBlock.cpp: records are copied into pages of their table and
  addressed by a packed word of page and offset; toSolidBlock lays the pages of all tables out anew and
  rewrites the addresses. Only DML records that are copied into the block are modelled.
 */
module RecordBlock {
  import opened Bytes
  import Row

  const MAX_RECORDS: nat := 131072
  const PAGE_SIZE: nat := 512 * 1024
  const OFFSET_LIMIT: nat := 0x10_0000
  const PAGE_LIMIT: nat := 4096
  const RECORD_ID_AT: nat := 10
  const LOG_OFFSET_AT: nat := 18

  datatype Rec = Rec(table: nat, bytes: seq<byte>)

  /** A page belongs to a table and is number `rank` in its list; `data` is the used part. */
  datatype Page = Page(capacity: nat, data: seq<byte>, table: nat, rank: nat)

  /** A registered table: how many indexes it has, its pages and its records. */
  datatype Table = Table(id: nat, indexes: nat, pages: seq<nat>, records: seq<nat>)

  type Pages = map<nat, Page>

  // ---------------------------------------------------------------- packed addresses

  /** setRecordPosition, pageId and offsetInPage of block.h lines 61-63. */
  function Packed(page: nat, offset: nat): nat { (page * OFFSET_LIMIT + offset) % WORD32 }
  function PageOf(position: nat): nat { position / OFFSET_LIMIT }
  function OffsetOf(position: nat): nat { position % OFFSET_LIMIT }

  lemma Unpacked(page: nat, offset: nat)
    requires page < PAGE_LIMIT && offset < OFFSET_LIMIT
    ensures PageOf(Packed(page, offset)) == page && OffsetOf(Packed(page, offset)) == offset
  {
  }

  // ---------------------------------------------------------------- what the block holds

  /** The record as it lies in its page: line 322 stores its record id in the head. */
  function Stored(bytes: seq<byte>, id: nat): (b: seq<byte>)
    requires |bytes| >= Row.HEAD_SIZE
    ensures |b| == |bytes|
  {
    Spliced(bytes, RECORD_ID_AT, LittleEndian(id, 8))
  }

  /** The stored record carries its id, and is otherwise the record. */
  lemma StoredRecord(bytes: seq<byte>, id: nat)
    requires |bytes| >= Row.HEAD_SIZE && id < WORD64
    ensures GetU64(Stored(bytes, id), RECORD_ID_AT) == id
    ensures forall k | 0 <= k < |bytes| && !(RECORD_ID_AT <= k < RECORD_ID_AT + 8) :: Stored(bytes, id)[k] == bytes[k]
  {
    WordRange();
    NumberOfLittleEndian(id, 8);
    assert Stored(bytes, id)[RECORD_ID_AT..RECORD_ID_AT + 8] == LittleEndian(id, 8);
  }

  /** The numbers of the records of one table, in order. */
  function RecordsOf(history: seq<Rec>, id: nat): seq<nat> {
    if history == [] then []
    else
      var n := |history| - 1;
      RecordsOf(history[..n], id) + if history[n].table == id then [n] else []
  }

  ghost predicate IdsRise(tables: seq<Table>) {
    forall i, j | 0 <= i < j < |tables| :: tables[i].id < tables[j].id
  }

  ghost predicate HasTable(tables: seq<Table>, id: nat) {
    exists j :: 0 <= j < |tables| && tables[j].id == id
  }

  ghost predicate TableOk(pages: Pages, history: seq<Rec>, t: Table) {
    && t.records == RecordsOf(history, t.id)
    && (forall m | 0 <= m < |t.pages| ::
         t.pages[m] in pages && pages[t.pages[m]].table == t.id && pages[t.pages[m]].rank == m)
  }

  ghost predicate TablesOk(tables: seq<Table>, pages: Pages, history: seq<Rec>) {
    && IdsRise(tables)
    && (forall j {:trigger TableOk(pages, history, tables[j])} | 0 <= j < |tables| ::
         TableOk(pages, history, tables[j]))
  }

  ghost predicate Lists(t: Table, p: nat, page: Page) {
    t.id == page.table && page.rank < |t.pages| && t.pages[page.rank] == p
  }

  ghost predicate PageOk(tables: seq<Table>, pageCount: nat, p: nat, page: Page) {
    && p < pageCount && |page.data| <= page.capacity
    && (exists j :: 0 <= j < |tables| && Lists(tables[j], p, page))
  }

  ghost predicate PagesOk(tables: seq<Table>, pages: Pages, pageCount: nat) {
    forall p {:trigger PageOk(tables, pageCount, p, pages[p])} | p in pages :: PageOk(tables, pageCount, p, pages[p])
  }

  /** A page larger than usual was made for one record and is full. */
  ghost predicate LargePagesFull(pages: Pages) {
    forall p {:trigger LargeOk(pages, p)} | p in pages :: LargeOk(pages, p)
  }

  ghost predicate LargeOk(pages: Pages, p: nat)
    requires p in pages
  {
    pages[p].capacity > PAGE_SIZE ==> |pages[p].data| == pages[p].capacity
  }

  /** The record lies at its packed address, in a page of its table. */
  ghost predicate RecordOk(pages: Pages, position: nat, r: Rec, id: nat) {
    && |r.bytes| >= Row.HEAD_SIZE && PageOf(position) in pages
    && var page := pages[PageOf(position)];
    page.table == r.table && Holds(page.data, OffsetOf(position), Stored(r.bytes, id))
  }

  ghost predicate RecordsOk(pages: Pages, positions: seq<nat>, history: seq<Rec>, minId: nat) {
    && |positions| == |history|
    && (forall i: nat {:trigger RecordAt(pages, positions, history, minId, i)} | i < |positions| ::
         RecordAt(pages, positions, history, minId, i))
  }

  ghost predicate RecordAt(pages: Pages, positions: seq<nat>, history: seq<Rec>, minId: nat, i: nat)
    requires i < |positions| == |history|
  {
    RecordOk(pages, positions[i], history[i], minId + i)
  }

  ghost predicate TablesKnown(tables: seq<Table>, history: seq<Rec>) {
    forall i {:trigger HasTable(tables, history[i].table)} | 0 <= i < |history| :: HasTable(tables, history[i].table)
  }

  /** Pages a table has used up: when it gets its first page, one for each index as well (lines 268-287). */
  function PageCost(t: Table): nat { if t.pages == [] then 0 else t.indexes + |t.pages| }

  // ---------------------------------------------------------------- registering a table

  lemma {:induction false} NoRecordsYet(history: seq<Rec>, id: nat)
    requires forall i | 0 <= i < |history| :: history[i].table != id
    ensures RecordsOf(history, id) == []
  {
    if history != [] {
      NoRecordsYet(history[..|history| - 1], id);
    }
  }

  function Inserted(tables: seq<Table>, at: nat, t: Table): seq<Table>
    requires at <= |tables|
  {
    tables[..at] + [t] + tables[at..]
  }

  ghost predicate Gap(tables: seq<Table>, at: nat, id: nat) {
    && at <= |tables|
    && (forall i | 0 <= i < at :: tables[i].id < id)
    && (forall i | at <= i < |tables| :: id < tables[i].id)
  }

  /** The table at position i after an insertion. */
  lemma InsertedAt(tables: seq<Table>, at: nat, t: Table, i: nat)
    requires at <= |tables| && i < |tables|
    ensures Inserted(tables, at, t)[if i < at then i else i + 1] == tables[i] && Inserted(tables, at, t)[at] == t
    ensures |Inserted(tables, at, t)| == |tables| + 1
  {
  }

  lemma RegisterTables(tables: seq<Table>, pages: Pages, history: seq<Rec>, at: nat, t: Table)
    requires TablesOk(tables, pages, history) && Gap(tables, at, t.id) && t.pages == []
    requires t.records == RecordsOf(history, t.id)
    ensures TablesOk(Inserted(tables, at, t), pages, history)
  {
    var ts := Inserted(tables, at, t);
    forall i | 0 <= i < |ts| ensures TableOk(pages, history, ts[i]) {
      if i != at {
        assert TableOk(pages, history, tables[if i < at then i else i - 1]);
      }
    }
  }

  lemma RegisterPages(tables: seq<Table>, pages: Pages, pageCount: nat, at: nat, t: Table)
    requires PagesOk(tables, pages, pageCount) && at <= |tables|
    ensures PagesOk(Inserted(tables, at, t), pages, pageCount)
  {
    var ts := Inserted(tables, at, t);
    forall p | p in pages ensures PageOk(ts, pageCount, p, pages[p]) {
      assert PageOk(tables, pageCount, p, pages[p]);
      var j: nat :| j < |tables| && Lists(tables[j], p, pages[p]);
      InsertedAt(tables, at, t, j);
      assert Lists(ts[if j < at then j else j + 1], p, pages[p]);
    }
  }

  lemma RegisterKnown(tables: seq<Table>, history: seq<Rec>, at: nat, t: Table)
    requires TablesKnown(tables, history) && at <= |tables|
    ensures TablesKnown(Inserted(tables, at, t), history)
  {
    var ts := Inserted(tables, at, t);
    forall i | 0 <= i < |history| ensures HasTable(ts, history[i].table) {
      assert HasTable(tables, history[i].table);
      var j: nat :| j < |tables| && tables[j].id == history[i].table;
      InsertedAt(tables, at, t, j);
      assert ts[if j < at then j else j + 1].id == history[i].table;
    }
  }

  lemma RegisterKeeps(tables: seq<Table>, pages: Pages, pageCount: nat, history: seq<Rec>, at: nat, t: Table)
    requires TablesOk(tables, pages, history) && PagesOk(tables, pages, pageCount) && TablesKnown(tables, history)
    requires Gap(tables, at, t.id) && t.pages == [] && t.records == []
    ensures var ts := Inserted(tables, at, t);
            TablesOk(ts, pages, history) && PagesOk(ts, pages, pageCount) && TablesKnown(ts, history)
    ensures Sum(PageCost, Inserted(tables, at, t)) == Sum(PageCost, tables)
  {
    NewTableHasNoRecords(tables, history, at, t.id);
    SumInsert(PageCost, tables, at, t);
    RegisterTables(tables, pages, history, at, t);
    RegisterPages(tables, pages, pageCount, at, t);
    RegisterKnown(tables, history, at, t);
  }

  lemma NewTableHasNoRecords(tables: seq<Table>, history: seq<Rec>, at: nat, id: nat)
    requires TablesKnown(tables, history) && Gap(tables, at, id)
    ensures RecordsOf(history, id) == []
  {
    forall i | 0 <= i < |history| ensures history[i].table != id {
      assert HasTable(tables, history[i].table);
    }
    NoRecordsYet(history, id);
  }

  // ---------------------------------------------------------------- a new page

  lemma NewPageKeeps(tables: seq<Table>, pages: Pages, pageCount: nat, history: seq<Rec>, j: nat, p: nat, capacity: nat)
    requires TablesOk(tables, pages, history) && PagesOk(tables, pages, pageCount)
    requires j < |tables| && pageCount <= p
    ensures var t := tables[j];
            var ts := tables[j := t.(pages := t.pages + [p])];
            var ps := pages[p := Page(capacity, [], t.id, |t.pages|)];
            && TablesOk(ts, ps, history) && PagesOk(ts, ps, p + 1) && p !in pages
            && Sum(PageCost, ts) == Sum(PageCost, tables) + if t.pages == [] then t.indexes + 1 else 1
  {
    var t := tables[j];
    var t' := t.(pages := t.pages + [p]);
    var ts := tables[j := t'];
    var ps := pages[p := Page(capacity, [], t.id, |t.pages|)];
    SumUpdate(PageCost, tables, j, t');
    assert p in pages ==> PageOk(tables, pageCount, p, pages[p]);
    forall q | q in ps ensures PageOk(ts, p + 1, q, ps[q]) {
      if q == p {
        assert Lists(ts[j], p, ps[p]);
      } else {
        assert PageOk(tables, pageCount, q, pages[q]);
        var i :| 0 <= i < |tables| && Lists(tables[i], q, pages[q]);
        assert Lists(ts[i], q, ps[q]);
      }
    }
    forall i | 0 <= i < |ts| ensures TableOk(ps, history, ts[i]) {
      assert TableOk(pages, history, tables[i]);
    }
  }

  lemma RecordsKeptByNewPage(pages: Pages, positions: seq<nat>, history: seq<Rec>, minId: nat, p: nat, page: Page)
    requires RecordsOk(pages, positions, history, minId) && p !in pages
    ensures RecordsOk(pages[p := page], positions, history, minId)
  {
    var ps := pages[p := page];
    forall i: nat | i < |positions| ensures RecordAt(ps, positions, history, minId, i) {
      assert RecordAt(pages, positions, history, minId, i);
    }
  }

  // ---------------------------------------------------------------- one more record

  lemma RecordsOfSnoc(history: seq<Rec>, r: Rec, id: nat)
    ensures RecordsOf(history + [r], id) == RecordsOf(history, id) + if r.table == id then [|history|] else []
  {
    assert (history + [r])[..|history|] == history;
  }

  lemma CopyKeepsPages(tables: seq<Table>, pages: Pages, pageCount: nat, j: nat, p: nat, t: Table, page: Page)
    requires PagesOk(tables, pages, pageCount) && j < |tables| && t == tables[j].(records := t.records)
    requires p in pages && page == pages[p].(data := page.data) && |page.data| <= page.capacity
    ensures PagesOk(tables[j := t], pages[p := page], pageCount)
  {
    var ts, ps := tables[j := t], pages[p := page];
    forall q | q in ps ensures PageOk(ts, pageCount, q, ps[q]) {
      assert PageOk(tables, pageCount, q, pages[q]);
      var i :| 0 <= i < |tables| && Lists(tables[i], q, pages[q]);
      assert Lists(ts[i], q, ps[q]);
    }
  }

  /** Lines 307 and 322-324: the record goes behind the used part of page p of table j. */
  lemma CopyKeepsTables(tables: seq<Table>, pages: Pages, history: seq<Rec>, j: nat, p: nat, r: Rec, page: Page)
    requires TablesOk(tables, pages, history) && TablesKnown(tables, history)
    requires j < |tables| && tables[j].id == r.table && p in pages && page == pages[p].(data := page.data)
    ensures var ts := tables[j := tables[j].(records := tables[j].records + [|history|])];
            && TablesOk(ts, pages[p := page], history + [r]) && TablesKnown(ts, history + [r])
            && Sum(PageCost, ts) == Sum(PageCost, tables)
  {
    var t' := tables[j].(records := tables[j].records + [|history|]);
    var ts, ps := tables[j := t'], pages[p := page];
    SumUpdate(PageCost, tables, j, t');
    forall i | 0 <= i < |ts| ensures TableOk(ps, history + [r], ts[i]) {
      assert TableOk(pages, history, tables[i]);
      RecordsOfSnoc(history, r, tables[i].id);
    }
    KnownAfter(tables, ts, history, r, j);
  }

  lemma KnownAfter(tables: seq<Table>, ts: seq<Table>, history: seq<Rec>, r: Rec, j: nat)
    requires TablesKnown(tables, history) && |ts| == |tables| && forall i | 0 <= i < |ts| :: ts[i].id == tables[i].id
    requires j < |tables| && tables[j].id == r.table
    ensures TablesKnown(ts, history + [r])
  {
    var h := history + [r];
    forall i | 0 <= i < |h| ensures HasTable(ts, h[i].table) {
      if i < |history| {
        assert HasTable(tables, history[i].table);
        var k :| 0 <= k < |tables| && tables[k].id == history[i].table;
        assert ts[k].id == h[i].table;
      } else {
        assert ts[j].id == h[i].table;
      }
    }
  }

  lemma CopyKeepsRecords(pages: Pages, positions: seq<nat>, history: seq<Rec>, minId: nat, p: nat, r: Rec)
    requires RecordsOk(pages, positions, history, minId) && p in pages && p < PAGE_LIMIT && |r.bytes| >= Row.HEAD_SIZE
    requires pages[p].table == r.table && |pages[p].data| < OFFSET_LIMIT
    ensures var ps := pages[p := pages[p].(data := pages[p].data + Stored(r.bytes, minId + |history|))];
            RecordsOk(ps, positions + [Packed(p, |pages[p].data|)], history + [r], minId)
  {
    var data := pages[p].data;
    var stored := Stored(r.bytes, minId + |history|);
    var ps := pages[p := pages[p].(data := data + stored)];
    var xs, h := positions + [Packed(p, |data|)], history + [r];
    Unpacked(p, |data|);
    forall i: nat | i < |xs| ensures RecordAt(ps, xs, h, minId, i) {
      if i < |positions| {
        assert RecordAt(pages, positions, history, minId, i);
        HoldsLonger(pages[PageOf(xs[i])].data, stored, OffsetOf(xs[i]), Stored(h[i].bytes, minId + i));
      }
    }
  }

  lemma HoldsLonger(s: seq<byte>, more: seq<byte>, at: nat, b: seq<byte>)
    requires Holds(s, at, b)
    ensures Holds(s + more, at, b)
  {
    assert (s + more)[at..at + |b|] == s[at..at + |b|];
  }

  // ---------------------------------------------------------------- the block

  datatype Status = Ok | Full | Illegal

  /** The checks of allocMemForRecord (lines 259-287) for a record of n bytes. */
  predicate NeedsPage(t: Table, pages: Pages, n: nat)
    requires t.pages != [] ==> t.pages[|t.pages| - 1] in pages
  {
    t.pages == [] || var page := pages[t.pages[|t.pages| - 1]]; |page.data| + n > page.capacity
  }

  function PageFor(n: nat): nat { if n > PAGE_SIZE then n else PAGE_SIZE }

  /** The last page of the table takes n more bytes. */
  predicate FitsLastPage(t: Table, pages: Pages, n: nat)
    requires t.pages != [] ==> t.pages[|t.pages| - 1] in pages
  {
    t.pages != [] && |pages[t.pages[|t.pages| - 1]].data| + n <= pages[t.pages[|t.pages| - 1]].capacity
  }

  /**
    When allocMemForRecord reports that the block is full: it has as many records as it may, or the record
    needs a page and the page numbers (with the first page one for each index as well) or the memory are used up.
   */
  predicate NoRoom(t: Table, pages: Pages, pageCount: nat, count: nat, size: nat, maxPageCount: nat, maxSize: nat,
                   n: nat)
    requires t.pages != [] ==> t.pages[|t.pages| - 1] in pages
  {
    || count >= MAX_RECORDS
    || (!FitsLastPage(t, pages, n)
        && (|| pageCount + (if t.pages == [] then 1 + t.indexes else 1) >= maxPageCount
            || size + n >= maxSize || size + PAGE_SIZE >= maxSize))
  }

  /** The entry of a table, a new one when it is not registered. */
  function Entry(tables: seq<Table>, id: nat, indexes: nat): Table {
    if tables == [] then Table(id, indexes, [], [])
    else if tables[0].id == id then tables[0]
    else Entry(tables[1..], id, indexes)
  }

  lemma {:induction false} EntryAt(tables: seq<Table>, id: nat, indexes: nat, j: nat)
    requires j <= |tables| && (forall i | 0 <= i < j :: tables[i].id < id)
    requires forall i | j < i < |tables| :: id < tables[i].id
    requires j < |tables| ==> tables[j].id >= id
    ensures Entry(tables, id, indexes) == if j < |tables| && tables[j].id == id then tables[j]
              else Table(id, indexes, [], [])
  {
    if tables != [] && tables[0].id != id {
      EntryAt(tables[1..], id, indexes, if j > 0 then j - 1 else 0);
    }
  }

  function LogOffset(r: Rec): nat { if |r.bytes| < LOG_OFFSET_AT + 8 then 0 else GetU64(r.bytes, LOG_OFFSET_AT) }

  /** The log offset of the last record, 0 when there is none. */
  function LastOffset(history: seq<Rec>): nat { if history == [] then 0 else LogOffset(history[|history| - 1]) }

  /** The records are in log order. */
  ghost predicate OffsetsRise(history: seq<Rec>) {
    forall i, j | 0 <= i <= j < |history| :: LogOffset(history[i]) <= LogOffset(history[j])
  }

  lemma OffsetsRiseOn(history: seq<Rec>, r: Rec)
    requires OffsetsRise(history) && LastOffset(history) <= LogOffset(r)
    ensures OffsetsRise(history + [r]) && LastOffset(history + [r]) == LogOffset(r)
  {
    var h := history + [r];
    forall i, j | 0 <= i <= j < |h| ensures LogOffset(h[i]) <= LogOffset(h[j]) {
      if i < |history| == j {
        assert LogOffset(history[i]) <= LogOffset(history[|history| - 1]);
      }
    }
  }

  /** The memory of the pages with numbers below n. */
  function Capacities(pages: Pages, n: nat): nat {
    if n == 0 then 0 else Capacities(pages, n - 1) + if n - 1 in pages then pages[n - 1].capacity else 0
  }

  /** Only the capacities of pages with small numbers count. */
  lemma {:induction false} CapacitiesFrame(pages: Pages, pages': Pages, n: nat)
    requires forall p | 0 <= p < n :: p in pages' <==> p in pages
    requires forall p | 0 <= p < n && p in pages :: pages'[p].capacity == pages[p].capacity
    ensures Capacities(pages', n) == Capacities(pages, n)
  {
    if n > 0 {
      CapacitiesFrame(pages, pages', n - 1);
    }
  }

  /** One page more, behind numbers that have no page yet. */
  lemma {:induction false} CapacitiesNext(pages: Pages, n: nat, p: nat, page: Page)
    requires n <= p && forall q | q in pages :: q < n
    ensures Capacities(pages[p := page], p + 1) == Capacities(pages, n) + page.capacity
  {
    CapacitiesFrame(pages, pages[p := page], p);
    NoPagesBetween(pages, n, p);
  }

  lemma {:induction false} NoPagesBetween(pages: Pages, n: nat, m: nat)
    requires n <= m && forall q | q in pages :: q < n
    ensures Capacities(pages, m) == Capacities(pages, n)
    decreases m
  {
    if n < m {
      NoPagesBetween(pages, n, m - 1);
    }
  }

  /** Everything a block keeps about its tables, pages and records. */
  ghost predicate Structure(tables: seq<Table>, pages: Pages, pageCount: nat, positions: seq<nat>,
                            history: seq<Rec>, minId: nat, maxPageCount: nat) {
    && TablesOk(tables, pages, history) && PagesOk(tables, pages, pageCount) && TablesKnown(tables, history)
    && RecordsOk(pages, positions, history, minId)
    && pageCount == Sum(PageCost, tables) && (pageCount > 0 ==> pageCount < maxPageCount)
    && maxPageCount <= PAGE_LIMIT
  }

  /** Page p of table `id` takes n more bytes, after which every large page is full. */
  ghost predicate HasRoom(pages: Pages, id: nat, p: nat, n: nat) {
    && p in pages && pages[p].table == id && p < PAGE_LIMIT
    && |pages[p].data| + n <= pages[p].capacity && |pages[p].data| < OFFSET_LIMIT
    && LargeFullAfter(pages, p, n)
  }

  /** Page p is at most as large as usual, or the n bytes fill it; every other large page is full. */
  ghost predicate LargeFullAfter(pages: Pages, p: nat, n: nat)
    requires p in pages
  {
    && (pages[p].capacity > PAGE_SIZE ==> |pages[p].data| + n == pages[p].capacity)
    && (forall q {:trigger LargeOk(pages, q)} | q in pages && q != p :: LargeOk(pages, q))
  }

  lemma LastPageHasRoom(tables: seq<Table>, pages: Pages, pageCount: nat, positions: seq<nat>,
                        history: seq<Rec>, minId: nat, maxPageCount: nat, j: nat, n: nat)
    requires Structure(tables, pages, pageCount, positions, history, minId, maxPageCount) && LargePagesFull(pages)
    requires j < |tables| && n > 0
    ensures var t := tables[j];
            && (t.pages != [] ==> t.pages[|t.pages| - 1] in pages)
            && (!NeedsPage(t, pages, n) ==> HasRoom(pages, t.id, t.pages[|t.pages| - 1], n))
  {
    var t := tables[j];
    assert TableOk(pages, history, t);
    if !NeedsPage(t, pages, n) {
      assert PageOk(tables, pageCount, t.pages[|t.pages| - 1], pages[t.pages[|t.pages| - 1]]);
      assert LargeOk(pages, t.pages[|t.pages| - 1]);
    }
  }

  /** Lines 268-292: the page a table gets, behind the numbers kept for its indexes if it is the first one. */
  lemma NewPageHasRoom(tables: seq<Table>, pages: Pages, pageCount: nat, positions: seq<nat>,
                       history: seq<Rec>, minId: nat, maxPageCount: nat, j: nat, n: nat)
    requires Structure(tables, pages, pageCount, positions, history, minId, maxPageCount) && LargePagesFull(pages)
    requires j < |tables| && n > 0
    requires var t := tables[j]; pageCount + 1 + (if t.pages == [] then t.indexes else 0) < maxPageCount
    ensures var t := tables[j];
            var p := pageCount + if t.pages == [] then t.indexes else 0;
            var ts := tables[j := t.(pages := t.pages + [p])];
            var ps := pages[p := Page(PageFor(n), [], t.id, |t.pages|)];
            Structure(ts, ps, p + 1, positions, history, minId, maxPageCount) && HasRoom(ps, t.id, p, n)
  {
    var t := tables[j];
    var p := pageCount + if t.pages == [] then t.indexes else 0;
    NewPageKeeps(tables, pages, pageCount, history, j, p, PageFor(n));
    RecordsKeptByNewPage(pages, positions, history, minId, p, Page(PageFor(n), [], t.id, |t.pages|));
    KnownKept(tables, tables[j := t.(pages := t.pages + [p])], history);
    var ps := pages[p := Page(PageFor(n), [], t.id, |t.pages|)];
    forall q | q in ps && q != p ensures LargeOk(ps, q) {
      assert LargeOk(pages, q);
    }
  }

  lemma PagesAreCounted(tables: seq<Table>, pages: Pages, pageCount: nat)
    requires PagesOk(tables, pages, pageCount)
    ensures forall q | q in pages :: q < pageCount
  {
    forall q | q in pages ensures q < pageCount {
      assert PageOk(tables, pageCount, q, pages[q]);
    }
  }

  lemma KnownKept(tables: seq<Table>, ts: seq<Table>, history: seq<Rec>)
    requires TablesKnown(tables, history) && |ts| == |tables| && forall i | 0 <= i < |ts| :: ts[i].id == tables[i].id
    ensures TablesKnown(ts, history)
  {
    forall i | 0 <= i < |history| ensures HasTable(ts, history[i].table) {
      assert HasTable(tables, history[i].table);
      var k :| 0 <= k < |tables| && tables[k].id == history[i].table;
      assert ts[k].id == history[i].table;
    }
  }

  lemma CopyKeeps(tables: seq<Table>, pages: Pages, pageCount: nat, positions: seq<nat>,
                  history: seq<Rec>, minId: nat, maxPageCount: nat, j: nat, p: nat, r: Rec)
    requires Structure(tables, pages, pageCount, positions, history, minId, maxPageCount)
    requires j < |tables| && tables[j].id == r.table && |r.bytes| >= Row.HEAD_SIZE
    requires HasRoom(pages, r.table, p, |r.bytes|)
    ensures var ts := tables[j := tables[j].(records := tables[j].records + [|positions|])];
            var ps := pages[p := pages[p].(data := pages[p].data + Stored(r.bytes, minId + |positions|))];
            && Structure(ts, ps, pageCount, positions + [Packed(p, |pages[p].data|)], history + [r], minId,
                 maxPageCount)
            && LargePagesFull(ps)
  {
    var t := tables[j].(records := tables[j].records + [|positions|]);
    var page := pages[p].(data := pages[p].data + Stored(r.bytes, minId + |positions|));
    CopyKeepsRecords(pages, positions, history, minId, p, r);
    CopyKeepsTables(tables, pages, history, j, p, r, page);
    CopyKeepsPages(tables, pages, pageCount, j, p, t, page);
    LargeKept(pages, p, page);
  }

  lemma LargeKept(pages: Pages, p: nat, page: Page)
    requires p in pages && |page.data| >= |pages[p].data| && page == pages[p].(data := page.data)
    requires LargeFullAfter(pages, p, |page.data| - |pages[p].data|)
    ensures LargePagesFull(pages[p := page])
  {
    var ps := pages[p := page];
    forall q | q in ps ensures LargeOk(ps, q) {
      if q != p {
        assert LargeOk(pages, q);
      }
    }
  }

  // ---------------------------------------------------------------- the solid block

  /** An index page, or a page of records, which keeps the number it had before. */
  datatype SolidPage = IndexPage(table: nat, k: nat) | DataPage(was: nat, data: seq<byte>)
  datatype Info = Info(offset: nat, tableIndex: nat, logOffset: nat)

  /** tableDataInfo of block.h; the two record fields stay 0 when the table has no records. */
  datatype TableInfo = TableInfo(id: nat, firstPage: nat, recordCount: nat, recordIdsOffset: nat)

  function AllPages(t: Table): nat { t.indexes + |t.pages| }

  function RecordLists(tables: seq<Table>): (ls: seq<seq<nat>>)
    ensures |ls| == |tables|
  {
    seq(|tables|, j requires 0 <= j < |tables| => tables[j].records)
  }

  /** The assertion of line 518: all page numbers are used up exactly when every table with an index owns a page. */
  lemma {:induction false} SolidSize(tables: seq<Table>)
    ensures Sum(PageCost, tables) <= Sum(AllPages, tables)
    ensures Sum(AllPages, tables) == Sum(PageCost, tables) <==>
              forall j | 0 <= j < |tables| && tables[j].indexes > 0 :: tables[j].pages != []
  {
    if tables != [] {
      SolidSize(tables[..|tables| - 1]);
    }
  }

  /** Page p of the appending block is found in the solid block under its new number. */
  ghost predicate Renumbered(solid: seq<SolidPage>, pageMap: map<nat, nat>, p: nat, page: Page) {
    p in pageMap && pageMap[p] < |solid| && solid[pageMap[p]] == DataPage(p, page.data)
  }

  ghost predicate TablePlaced(pages: Pages, solid: seq<SolidPage>, pageMap: map<nat, nat>, t: Table) {
    forall m | 0 <= m < |t.pages| :: t.pages[m] in pages && Renumbered(solid, pageMap, t.pages[m], pages[t.pages[m]])
  }

  ghost predicate PagesPlaced(tables: seq<Table>, pages: Pages, solid: seq<SolidPage>, pageMap: map<nat, nat>, n: nat) {
    && n <= |tables|
    && (forall j {:trigger TablePlaced(pages, solid, pageMap, tables[j])} | 0 <= j < n ::
         TablePlaced(pages, solid, pageMap, tables[j]))
  }

  /** The pages of a table's indexes stand in order from `at` on. */
  ghost predicate IndexesPlaced(solid: seq<SolidPage>, at: nat, t: Table) {
    at + t.indexes <= |solid| && forall k | 0 <= k < t.indexes :: solid[at + k] == IndexPage(t.id, k)
  }

  /** Lines 461-497: the index pages of a table, then its pages of records. */
  method PlacePages(t: Table, pages: Pages, before: seq<SolidPage>, mapBefore: map<nat, nat>)
    returns (solid: seq<SolidPage>, pageMap: map<nat, nat>)
    requires forall m | 0 <= m < |t.pages| :: t.pages[m] in pages && pages[t.pages[m]].rank == m
    ensures before <= solid && |solid| == |before| + AllPages(t)
    ensures TablePlaced(pages, solid, pageMap, t) && IndexesPlaced(solid, |before|, t)
    ensures forall p | p in mapBefore && p !in t.pages :: p in pageMap && pageMap[p] == mapBefore[p]
  {
    solid, pageMap := before, mapBefore;
    for k := 0 to t.indexes
      invariant before <= solid && |solid| == |before| + k
      invariant forall i | 0 <= i < k :: solid[|before| + i] == IndexPage(t.id, i)
    {
      solid := solid + [IndexPage(t.id, k)];
    }
    for m := 0 to |t.pages|
      invariant before <= solid && |solid| == |before| + t.indexes + m && IndexesPlaced(solid, |before|, t)
      invariant forall i | 0 <= i < m :: Renumbered(solid, pageMap, t.pages[i], pages[t.pages[i]])
      invariant forall p | p in mapBefore && p !in t.pages :: p in pageMap && pageMap[p] == mapBefore[p]
    {
      var p := t.pages[m];
      pageMap := pageMap[p := |solid|];
      solid := solid + [DataPage(p, pages[p].data)];
    }
  }

  lemma PlacedNext(tables: seq<Table>, pages: Pages, history: seq<Rec>, solid: seq<SolidPage>, pageMap: map<nat, nat>,
                   solid': seq<SolidPage>, pageMap': map<nat, nat>, j: nat)
    requires TablesOk(tables, pages, history) && j < |tables| && PagesPlaced(tables, pages, solid, pageMap, j)
    requires solid <= solid' && TablePlaced(pages, solid', pageMap', tables[j])
    requires forall p | p in pageMap && p !in tables[j].pages :: p in pageMap' && pageMap'[p] == pageMap[p]
    ensures PagesPlaced(tables, pages, solid', pageMap', j + 1)
  {
    forall i | 0 <= i < j ensures TablePlaced(pages, solid', pageMap', tables[i]) {
      assert TablePlaced(pages, solid, pageMap, tables[i]);
      assert TableOk(pages, history, tables[i]) && TableOk(pages, history, tables[j]);
    }
  }

  lemma AllPlaced(tables: seq<Table>, pages: Pages, pageCount: nat, solid: seq<SolidPage>, pageMap: map<nat, nat>)
    requires PagesOk(tables, pages, pageCount) && PagesPlaced(tables, pages, solid, pageMap, |tables|)
    ensures forall p | p in pages :: Renumbered(solid, pageMap, p, pages[p])
  {
    forall p | p in pages ensures Renumbered(solid, pageMap, p, pages[p]) {
      assert PageOk(tables, pageCount, p, pages[p]);
      var j :| 0 <= j < |tables| && Lists(tables[j], p, pages[p]);
      assert TablePlaced(pages, solid, pageMap, tables[j]);
    }
  }

  /** The record is read from the solid block at its new address. */
  ghost predicate SolidRecordOk(solid: seq<SolidPage>, position: nat, r: Rec, id: nat) {
    && |r.bytes| >= Row.HEAD_SIZE && PageOf(position) < |solid| && solid[PageOf(position)].DataPage?
    && Holds(solid[PageOf(position)].data, OffsetOf(position), Stored(r.bytes, id))
  }

  /** Record i has its new address and the number j of its table. */
  ghost predicate InfoAt(solid: seq<SolidPage>, infos: seq<Info>, history: seq<Rec>, minId: nat, j: nat, i: nat)
    requires i < |infos| == |history|
  {
    && SolidRecordOk(solid, infos[i].offset, history[i], minId + i)
    && infos[i].tableIndex == j && infos[i].logOffset == LogOffset(history[i])
  }

  /** All records of the first n tables have their new addresses. */
  ghost predicate RecordsPlaced(tables: seq<Table>, history: seq<Rec>, minId: nat, solid: seq<SolidPage>,
                                infos: seq<Info>, n: nat) {
    && n <= |tables| && |infos| == |history|
    && (forall j: nat, i: nat {:trigger InfoAt(solid, infos, history, minId, j, i)} |
          j < n && i < |infos| && history[i].table == tables[j].id :: InfoAt(solid, infos, history, minId, j, i))
  }

  /** The list of a table names exactly its records, in increasing order. */
  lemma {:induction false} RecordsOfTable(history: seq<Rec>, id: nat)
    ensures forall i: nat :: i in RecordsOf(history, id) <==> i < |history| && history[i].table == id
    ensures forall a, b | 0 <= a < b < |RecordsOf(history, id)| :: RecordsOf(history, id)[a] < RecordsOf(history, id)[b]
  {
    if history != [] {
      var n := |history| - 1;
      var before := RecordsOf(history[..n], id);
      RecordsOfTable(history[..n], id);
      assert forall a | 0 <= a < |before| :: before[a] in before;
    }
  }

  lemma TablePagesPlaced(tables: seq<Table>, pages: Pages, pageCount: nat, solid: seq<SolidPage>,
                         pageMap: map<nat, nat>, j: nat, p: nat)
    requires IdsRise(tables) && PagesOk(tables, pages, pageCount) && j < |tables|
    requires TablePlaced(pages, solid, pageMap, tables[j])
    requires p in pages && pages[p].table == tables[j].id
    ensures Renumbered(solid, pageMap, p, pages[p])
  {
    assert PageOk(tables, pageCount, p, pages[p]);
    var i :| 0 <= i < |tables| && Lists(tables[i], p, pages[p]);
    assert i < j ==> tables[i].id < tables[j].id;
    assert j < i ==> tables[j].id < tables[i].id;
  }

  lemma MovedRecord(pages: Pages, positions: seq<nat>, history: seq<Rec>, minId: nat,
                    solid: seq<SolidPage>, pageMap: map<nat, nat>, i: nat)
    requires RecordsOk(pages, positions, history, minId) && i < |positions| && |solid| <= PAGE_LIMIT
    requires var p := PageOf(positions[i]); p in pages && Renumbered(solid, pageMap, p, pages[p])
    ensures SolidRecordOk(solid, Packed(pageMap[PageOf(positions[i])], OffsetOf(positions[i])), history[i], minId + i)
  {
    assert RecordAt(pages, positions, history, minId, i);
    Unpacked(pageMap[PageOf(positions[i])], OffsetOf(positions[i]));
  }

  /** The log offset read from the head of a stored record is that of the record. */
  lemma HeldLogOffset(pages: Pages, position: nat, r: Rec, id: nat)
    requires RecordOk(pages, position, r, id)
    ensures PageOf(position) in pages && OffsetOf(position) + LOG_OFFSET_AT + 8 <= |pages[PageOf(position)].data|
    ensures GetU64(pages[PageOf(position)].data, OffsetOf(position) + LOG_OFFSET_AT) == LogOffset(r)
  {
    var data, at, b := pages[PageOf(position)].data, OffsetOf(position), Stored(r.bytes, id);
    assert b[LOG_OFFSET_AT..LOG_OFFSET_AT + 8] == r.bytes[LOG_OFFSET_AT..LOG_OFFSET_AT + 8];
    SliceOfSlice(data, at, at + |b|, LOG_OFFSET_AT, LOG_OFFSET_AT + 8);
  }

  /** Lines 498-515: the new address of every record of one table. */
  method PlaceRecords(t: Table, j: nat, positions: seq<nat>, ghost history: seq<Rec>, pages: Pages,
                      ghost solid: seq<SolidPage>, pageMap: map<nat, nat>, before: seq<Info>, ghost minId: nat)
    returns (infos: seq<Info>)
    requires RecordsOk(pages, positions, history, minId) && |before| == |positions|
    requires t.records == RecordsOf(history, t.id)
    requires forall p | p in pages && pages[p].table == t.id :: Renumbered(solid, pageMap, p, pages[p])
    ensures |infos| == |before|
    ensures forall i: nat | i < |infos| && history[i].table != t.id :: infos[i] == before[i]
    ensures |solid| <= PAGE_LIMIT ==>
              forall i: nat | i < |infos| && history[i].table == t.id :: InfoAt(solid, infos, history, minId, j, i)
  {
    RecordsOfTable(history, t.id);
    infos := before;
    for k := 0 to |t.records|
      invariant |infos| == |before|
      invariant forall i: nat | i < |infos| && history[i].table != t.id :: infos[i] == before[i]
      invariant |solid| <= PAGE_LIMIT ==> forall i: nat | i in t.records[..k] ::
                  i < |infos| && InfoAt(solid, infos, history, minId, j, i)
    {
      var i := t.records[k];
      assert i in t.records;
      assert RecordAt(pages, positions, history, minId, i);
      ghost var infos0 := infos;
      var page := PageOf(positions[i]);
      HeldLogOffset(pages, positions[i], history[i], minId + i);
      infos := infos[i := Info(Packed(pageMap[page], OffsetOf(positions[i])), j,
                               GetU64(pages[page].data, OffsetOf(positions[i]) + LOG_OFFSET_AT))];
      if |solid| <= PAGE_LIMIT {
        MovedRecord(pages, positions, history, minId, solid, pageMap, i);
        InfoKept(solid, infos0, infos, history, minId, j, i, t.records[..k]);
      }
      assert t.records[..k + 1] == t.records[..k] + [i];
    }
    assert t.records[..|t.records|] == t.records;
  }

  lemma InfoKept(solid: seq<SolidPage>, infos: seq<Info>, infos': seq<Info>, history: seq<Rec>, minId: nat, j: nat,
                 at: nat, done: seq<nat>)
    requires |infos| == |history| == |infos'| && at < |infos| && infos' == infos[at := infos'[at]]
    requires forall i: nat | i in done :: i < |infos| && InfoAt(solid, infos, history, minId, j, i)
    requires InfoAt(solid, infos', history, minId, j, at)
    ensures forall i: nat | i in done + [at] :: i < |infos'| && InfoAt(solid, infos', history, minId, j, i)
  {
    forall i: nat | i in done + [at] ensures i < |infos'| && InfoAt(solid, infos', history, minId, j, i) {
      if i != at {
        assert InfoAt(solid, infos, history, minId, j, i);
      }
    }
  }

  lemma RecordsNext(tables: seq<Table>, history: seq<Rec>, minId: nat, solid: seq<SolidPage>, solid': seq<SolidPage>,
                    infos: seq<Info>, infos': seq<Info>, j: nat)
    requires IdsRise(tables) && j < |tables| && RecordsPlaced(tables, history, minId, solid, infos, j)
    requires solid <= solid'
    requires |infos'| == |infos|
    requires forall i: nat | i < |infos'| && history[i].table != tables[j].id :: infos'[i] == infos[i]
    requires forall i: nat | i < |infos'| && history[i].table == tables[j].id ::
               InfoAt(solid', infos', history, minId, j, i)
    ensures RecordsPlaced(tables, history, minId, solid', infos', j + 1)
  {
    forall k: nat, i: nat | k < j + 1 && i < |infos'| && history[i].table == tables[k].id
      ensures InfoAt(solid', infos', history, minId, k, i)
    {
      if k < j {
        assert tables[k].id < tables[j].id;
        assert InfoAt(solid, infos, history, minId, k, i);
      }
    }
  }

  lemma AllRecordsPlaced(tables: seq<Table>, history: seq<Rec>, minId: nat, solid: seq<SolidPage>, infos: seq<Info>)
    requires TablesKnown(tables, history) && RecordsPlaced(tables, history, minId, solid, infos, |tables|)
    ensures forall i: nat | i < |infos| ::
              && SolidRecordOk(solid, infos[i].offset, history[i], minId + i)
              && infos[i].tableIndex < |tables| && tables[infos[i].tableIndex].id == history[i].table
              && infos[i].logOffset == LogOffset(history[i])
  {
    forall i: nat | i < |infos|
      ensures SolidRecordOk(solid, infos[i].offset, history[i], minId + i)
      ensures infos[i].tableIndex < |tables| && tables[infos[i].tableIndex].id == history[i].table
      ensures infos[i].logOffset == LogOffset(history[i])
    {
      assert HasTable(tables, history[i].table);
      var j: nat :| j < |tables| && tables[j].id == history[i].table;
      assert InfoAt(solid, infos, history, minId, j, i);
    }
  }

  // ---------------------------------------------------------------- the lists of all tables

  function ListsOf(tables: seq<Table>, history: seq<Rec>): (ls: seq<seq<nat>>)
    ensures |ls| == |tables|
  {
    seq(|tables|, j requires 0 <= j < |tables| => RecordsOf(history, tables[j].id))
  }

  lemma {:induction false} EmptyLists(tables: seq<Table>)
    ensures Flat(ListsOf(tables, [])) == []
  {
    if tables != [] {
      var n := |tables| - 1;
      EmptyLists(tables[..n]);
      assert ListsOf(tables, [])[..n] == ListsOf(tables[..n], []);
    }
  }

  lemma {:induction false} FlatUpdate<T>(parts: seq<seq<T>>, j: nat, x: T)
    requires j < |parts|
    ensures |Flat(parts[j := parts[j] + [x]])| == |Flat(parts)| + 1
  {
    var parts' := parts[j := parts[j] + [x]];
    assert parts == parts[..j] + [parts[j]] + parts[j + 1..];
    assert parts' == parts[..j] + [parts[j] + [x]] + parts[j + 1..];
    FlatConcat(parts[..j] + [parts[j]], parts[j + 1..]);
    FlatConcat(parts[..j] + [parts[j] + [x]], parts[j + 1..]);
    FlatSnoc(parts[..j], parts[j]);
    FlatSnoc(parts[..j], parts[j] + [x]);
  }

  /** Together the lists of the tables are as long as the history: every record is listed once. */
  lemma {:induction false} ListsCoverHistory(tables: seq<Table>, history: seq<Rec>)
    requires IdsRise(tables) && TablesKnown(tables, history)
    ensures |Flat(ListsOf(tables, history))| == |history|
  {
    if history == [] {
      EmptyLists(tables);
    } else {
      var n: nat := |history| - 1;
      var h, r := history[..n], history[n];
      assert history == h + [r];
      forall i | 0 <= i < |h| ensures HasTable(tables, h[i].table) {
        assert HasTable(tables, history[i].table);
      }
      ListsCoverHistory(tables, h);
      assert HasTable(tables, history[n].table);
      var j: nat :| j < |tables| && tables[j].id == r.table;
      ListsGrow(tables, h, r, j);
      var lists := ListsOf(tables, h);
      FlatUpdate(lists, j, n);
      assert ListsOf(tables, history) == lists[j := lists[j] + [n]];
    }
  }

  lemma ListsGrow(tables: seq<Table>, h: seq<Rec>, r: Rec, j: nat)
    requires IdsRise(tables) && j < |tables| && tables[j].id == r.table
    ensures ListsOf(tables, h + [r]) == ListsOf(tables, h)[j := ListsOf(tables, h)[j] + [|h|]]
  {
    forall i | 0 <= i < |tables|
      ensures ListsOf(tables, h + [r])[i] == ListsOf(tables, h)[j := ListsOf(tables, h)[j] + [|h|]][i]
    {
      RecordsOfSnoc(h, r, tables[i].id);
      assert i < j ==> tables[i].id < tables[j].id;
      assert j < i ==> tables[j].id < tables[i].id;
    }
  }

  lemma AllRecordsListed(tables: seq<Table>, pages: Pages, history: seq<Rec>)
    requires TablesOk(tables, pages, history) && TablesKnown(tables, history)
    ensures |Flat(RecordLists(tables))| == |history|
  {
    ListsCoverHistory(tables, history);
    forall j | 0 <= j < |tables| ensures RecordLists(tables)[j] == ListsOf(tables, history)[j] {
      assert TableOk(pages, history, tables[j]);
    }
    assert RecordLists(tables) == ListsOf(tables, history);
  }

  // ---------------------------------------------------------------- one table after the other

  /** Where the pages and the list of table j begin. */
  ghost predicate TableInfoOk(tables: seq<Table>, tableInfos: seq<TableInfo>, j: nat)
    requires j < |tables| && j < |tableInfos|
  {
    && tableInfos[j].id == tables[j].id && tableInfos[j].firstPage == Sum(AllPages, tables[..j])
    && tableInfos[j].recordCount == |tables[j].records|
    && tableInfos[j].recordIdsOffset == if tables[j].records == [] then 0 else |Flat(RecordLists(tables[..j]))|
  }

  lemma {:induction false} ListInOrder(tables: seq<Table>, tableInfos: seq<TableInfo>, j: nat)
    requires j < |tables| == |tableInfos| && TableInfoOk(tables, tableInfos, j) && tables[j].records != []
    ensures var at := tableInfos[j].recordIdsOffset;
            && at + tableInfos[j].recordCount <= |Flat(RecordLists(tables))|
            && Flat(RecordLists(tables))[at..at + tableInfos[j].recordCount] == tables[j].records
  {
    FlatAt(RecordLists(tables), j);
    assert RecordLists(tables)[..j] == RecordLists(tables[..j]);
  }

  /** Behind the first page of each table come the pages of its indexes. */
  ghost predicate AllIndexesPlaced(tables: seq<Table>, tableInfos: seq<TableInfo>, solid: seq<SolidPage>, n: nat) {
    && n <= |tables| && n <= |tableInfos|
    && forall j | 0 <= j < n :: IndexesPlaced(solid, tableInfos[j].firstPage, tables[j])
  }

  lemma IndexesStay(tables: seq<Table>, infos: seq<TableInfo>, infos': seq<TableInfo>, solid: seq<SolidPage>,
                    solid': seq<SolidPage>, n: nat)
    requires AllIndexesPlaced(tables, infos, solid, n) && solid <= solid' && infos <= infos'
    ensures AllIndexesPlaced(tables, infos', solid', n)
  {
    forall j | 0 <= j < n ensures IndexesPlaced(solid', infos'[j].firstPage, tables[j]) {
      assert IndexesPlaced(solid, infos[j].firstPage, tables[j]);
    }
  }

  /** The first n tables have their place in the solid block. */
  ghost predicate SoFar(tables: seq<Table>, pages: Pages, history: seq<Rec>, minId: nat,
                        solid: seq<SolidPage>, infos: seq<Info>, ordered: seq<nat>, tableInfos: seq<TableInfo>,
                        pageMap: map<nat, nat>, n: nat) {
    && n <= |tables| && |solid| == Sum(AllPages, tables[..n]) && |infos| == |history|
    && ordered == Flat(RecordLists(tables[..n]))
    && |tableInfos| == n && (forall j: nat {:trigger TableInfoOk(tables, tableInfos, j)} | j < n ::
         TableInfoOk(tables, tableInfos, j))
    && PagesPlaced(tables, pages, solid, pageMap, n) && AllIndexesPlaced(tables, tableInfos, solid, n)
    && (|solid| <= PAGE_LIMIT ==> RecordsPlaced(tables, history, minId, solid, infos, n))
  }

  lemma OneTableMore(tables: seq<Table>, j: nat)
    requires j < |tables|
    ensures Sum(AllPages, tables[..j + 1]) == Sum(AllPages, tables[..j]) + AllPages(tables[j])
    ensures Flat(RecordLists(tables[..j + 1])) == Flat(RecordLists(tables[..j])) + tables[j].records
  {
    assert tables[..j + 1] == tables[..j] + [tables[j]];
    SumSnoc(AllPages, tables[..j], tables[j]);
    FlatSnoc(RecordLists(tables[..j]), tables[j].records);
    assert RecordLists(tables[..j + 1]) == RecordLists(tables[..j]) + [tables[j].records];
  }

  /** One turn of the loop of toSolidBlock, lines 457-517. */
  method PlaceTable(tables: seq<Table>, pages: Pages, ghost pageCount: nat, positions: seq<nat>,
                    ghost history: seq<Rec>, ghost minId: nat,
                    solid0: seq<SolidPage>, infos0: seq<Info>, ordered0: seq<nat>, tableInfos0: seq<TableInfo>,
                    map0: map<nat, nat>, j: nat)
    returns (solid: seq<SolidPage>, infos: seq<Info>, ordered: seq<nat>, tableInfos: seq<TableInfo>,
             pageMap: map<nat, nat>)
    requires TablesOk(tables, pages, history) && PagesOk(tables, pages, pageCount)
    requires RecordsOk(pages, positions, history, minId)
    requires j < |tables| && SoFar(tables, pages, history, minId, solid0, infos0, ordered0, tableInfos0, map0, j)
    ensures SoFar(tables, pages, history, minId, solid, infos, ordered, tableInfos, pageMap, j + 1)
  {
    var t := tables[j];
    assert TableOk(pages, history, tables[j]);
    OneTableMore(tables, j);
    solid, pageMap := PlacePages(t, pages, solid0, map0);
    PlacedNext(tables, pages, history, solid0, map0, solid, pageMap, j);
    forall p | p in pages && pages[p].table == t.id ensures Renumbered(solid, pageMap, p, pages[p]) {
      TablePagesPlaced(tables, pages, pageCount, solid, pageMap, j, p);
    }
    infos := PlaceRecords(t, j, positions, history, pages, solid, pageMap, infos0, minId);
    ordered := ordered0 + t.records;
    tableInfos := tableInfos0 + [TableInfo(t.id, |solid0|, |t.records|, if t.records == [] then 0 else |ordered0|)];
    forall i: nat | i < j + 1 ensures TableInfoOk(tables, tableInfos, i) {
      if i < j {
        assert TableInfoOk(tables, tableInfos0, i);
      }
    }
    IndexesStay(tables, tableInfos0, tableInfos, solid0, solid, j);
    if |solid| <= PAGE_LIMIT {
      RecordsNext(tables, history, minId, solid0, solid, infos0, infos, j);
    }
  }

  /** The loop of toSolidBlock over all tables. */
  method PlaceAll(tables: seq<Table>, pages: Pages, ghost pageCount: nat, positions: seq<nat>, ghost history: seq<Rec>,
                  ghost minId: nat)
    returns (solid: seq<SolidPage>, infos: seq<Info>, ordered: seq<nat>, tableInfos: seq<TableInfo>,
             pageMap: map<nat, nat>)
    requires TablesOk(tables, pages, history) && PagesOk(tables, pages, pageCount)
    requires RecordsOk(pages, positions, history, minId)
    ensures SoFar(tables, pages, history, minId, solid, infos, ordered, tableInfos, pageMap, |tables|)
  {
    solid, ordered, tableInfos, pageMap := [], [], [], map[];
    infos := seq(|positions|, _ => Info(0, 0, 0));
    for j := 0 to |tables|
      invariant SoFar(tables, pages, history, minId, solid, infos, ordered, tableInfos, pageMap, j)
    {
      solid, infos, ordered, tableInfos, pageMap :=
        PlaceTable(tables, pages, pageCount, positions, history, minId, solid, infos, ordered, tableInfos, pageMap, j);
    }
  }

  class AppendingBlock {
    const maxPageCount: nat
    const maxSize: nat
    const minRecordId: nat
    var tables: seq<Table>
    var pages: Pages
    var pageCount: nat
    var positions: seq<nat>
    var size: nat
    var maxLogOffset: nat
    ghost var history: seq<Rec>

    /** The tables, pages and records agree, and the size is the memory of the pages. */
    ghost predicate Sound()
      reads this
    {
      && Structure(tables, pages, pageCount, positions, history, minRecordId, maxPageCount)
      && size == Capacities(pages, pageCount)
    }

    /** The records are in log order as well. */
    ghost predicate Valid()
      reads this
    {
      Sound() && LargePagesFull(pages) && OffsetsRise(history) && maxLogOffset == LastOffset(history)
    }

    constructor (maxPageCount: nat, maxSize: nat, minRecordId: nat)
      requires maxPageCount <= PAGE_LIMIT
      ensures Valid() && history == [] && tables == [] && pageCount == 0 && size == 0 && maxLogOffset == 0
      ensures this.maxPageCount == maxPageCount && this.maxSize == maxSize && this.minRecordId == minRecordId
    {
      this.maxPageCount, this.maxSize, this.minRecordId := maxPageCount, maxSize, minRecordId;
      tables, pages, pageCount, positions, size, maxLogOffset, history := [], map[], 0, [], 0, 0, [];
    }

    /** getTableData: the table's entry in the ordered map, made when it is new. */
    method GetTable(id: nat, indexes: nat) returns (j: nat)
      requires Valid()
      modifies this`tables
      ensures Valid() && j < |tables| && tables[j].id == id
      ensures tables == old(tables) || (j <= |old(tables)| &&
                tables == Inserted(old(tables), j, Table(id, indexes, [], [])))
      ensures tables[j] == Entry(old(tables), id, indexes)
    {
      j := 0;
      while j < |tables| && tables[j].id < id
        invariant j <= |tables| && forall i | 0 <= i < j :: tables[i].id < id
      {
        j := j + 1;
      }
      EntryAt(tables, id, indexes, j);
      if j == |tables| || tables[j].id != id {
        RegisterKeeps(tables, pages, pageCount, history, j, Table(id, indexes, [], []));
        tables := Inserted(tables, j, Table(id, indexes, [], []));
      }
    }

    /** allocMemForRecord, lines 257-296: the page that takes the next record of table j. */
    method AllocMem(j: nat, n: nat) returns (ok: bool, p: nat)
      requires Valid() && j < |tables| && n > 0
      modifies this`tables, this`pages, this`pageCount, this`size
      ensures Sound()
      ensures !ok ==> tables == old(tables) && pages == old(pages) && pageCount == old(pageCount) && size == old(size)
      ensures var t := old(tables)[j]; t.pages != [] ==> t.pages[|t.pages| - 1] in old(pages)
      ensures ok <==> !NoRoom(old(tables)[j], old(pages), old(pageCount), |positions|, old(size), maxPageCount, maxSize,
                n)
      ensures ok && FitsLastPage(old(tables)[j], old(pages), n) ==> pages == old(pages) && tables == old(tables)
      ensures ok ==>
                |tables| == |old(tables)| && tables[j].id == old(tables)[j].id && HasRoom(pages, tables[j].id, p, n)
    {
      LastPageHasRoom(tables, pages, pageCount, positions, history, minRecordId, maxPageCount, j, n);
      var t := tables[j];
      if |positions| >= MAX_RECORDS {
        return false, 0;
      }
      if !NeedsPage(t, pages, n) {
        return true, t.pages[|t.pages| - 1];
      }
      var capacity := PageFor(n);
      var extra := if t.pages == [] then t.indexes else 0;
      if pageCount + 1 + extra >= maxPageCount || size + capacity >= maxSize {
        return false, 0;
      }
      NewPageHasRoom(tables, pages, pageCount, positions, history, minRecordId, maxPageCount, j, n);
      PagesAreCounted(tables, pages, pageCount);
      CapacitiesNext(pages, pageCount, pageCount + extra, Page(capacity, [], t.id, |t.pages|));
      pageCount := pageCount + 1 + extra;
      p := pageCount - 1;
      tables := tables[j := t.(pages := t.pages + [p])];
      pages := pages[p := Page(capacity, [], t.id, |t.pages|)];
      size := size + capacity;
      ok := true;
    }

    /** copyRecord behind the allocation, lines 307-324, and the table's list of records. */
    method CopyRecord(j: nat, p: nat, r: Rec)
      requires Sound() && j < |tables| && tables[j].id == r.table && |r.bytes| >= Row.HEAD_SIZE
      requires HasRoom(pages, r.table, p, |r.bytes|)
      modifies this`tables, this`pages, this`positions, this`history
      ensures Sound() && LargePagesFull(pages) && history == old(history) + [r]
    {
      CopyKeeps(tables, pages, pageCount, positions, history, minRecordId, maxPageCount, j, p, r);
      var id, page := |positions|, pages[p];
      CapacitiesFrame(pages, pages[p := page.(data := page.data + Stored(r.bytes, minRecordId + id))], pageCount);
      pages := pages[p := page.(data := page.data + Stored(r.bytes, minRecordId + id))];
      positions := positions + [Packed(p, |page.data|)];
      tables := tables[j := tables[j].(records := tables[j].records + [id])];
      history := history + [r];
    }

    /** append, lines 327-374. */
    method Append(r: Rec, indexes: nat) returns (status: Status)
      requires Valid() && |r.bytes| >= Row.HEAD_SIZE
      modifies this
      ensures Valid()
      ensures history == old(history) + if status == Ok then [r] else []
      ensures status == Illegal <==> LogOffset(r) < LastOffset(old(history))
      ensures status == Full ==> Entry(old(tables), r.table, indexes) in tables && pageCount == old(pageCount)
      ensures var t := Entry(old(tables), r.table, indexes);
              && (status != Illegal && t.pages != [] ==> t.pages[|t.pages| - 1] in old(pages))
              && (status != Illegal ==>
                    (status == Full <==> NoRoom(t, old(pages), old(pageCount), |old(positions)|, old(size),
                        maxPageCount, maxSize, |r.bytes|)))
    {
      var logOffset := GetU64(r.bytes, LOG_OFFSET_AT);
      if maxLogOffset > logOffset {
        return Illegal;
      }
      var j := GetTable(r.table, indexes);
      var ok, p := AllocMem(j, |r.bytes|);
      if !ok {
        return Full;
      }
      OffsetsRiseOn(history, r);
      CopyRecord(j, p, r);
      maxLogOffset := logOffset;
      status := Ok;
    }

    /** toSolidBlock, lines 429-528. */
    method ToSolidBlock()
      returns (solid: seq<SolidPage>, infos: seq<Info>, ordered: seq<nat>, tableInfos: seq<TableInfo>,
               pageMap: map<nat, nat>)
      requires Valid()
      ensures |solid| == Sum(AllPages, tables) && |infos| == |positions|
      ensures |solid| == pageCount <==> forall j | 0 <= j < |tables| && tables[j].indexes > 0 :: tables[j].pages != []
      ensures forall p | p in pages :: Renumbered(solid, pageMap, p, pages[p])
      ensures ordered == Flat(RecordLists(tables)) && |ordered| == |history|
      ensures |tableInfos| == |tables| && forall j: nat | j < |tables| :: TableInfoOk(tables, tableInfos, j)
      ensures AllIndexesPlaced(tables, tableInfos, solid, |tables|)
      ensures |solid| <= PAGE_LIMIT ==>
                forall i: nat | i < |infos| ::
                  && SolidRecordOk(solid, infos[i].offset, history[i], minRecordId + i)
                  && infos[i].tableIndex < |tables| && tables[infos[i].tableIndex].id == history[i].table
                  && infos[i].logOffset == LogOffset(history[i])
    {
      solid, infos, ordered, tableInfos, pageMap := PlaceAll(tables, pages, pageCount, positions, history, minRecordId);
      assert tables[..|tables|] == tables;
      SolidSize(tables);
      AllRecordsListed(tables, pages, history);
      AllPlaced(tables, pages, pageCount, solid, pageMap);
      if |solid| <= PAGE_LIMIT {
        AllRecordsPlaced(tables, history, minRecordId, solid, infos);
      }
    }
  }

  /**
    Line 518 does not always hold: the first record of a table with indexes that is refused as too large for
    the block leaves the table registered without a page, and toSolidBlock then lays out pages for its
    indexes that were never counted.
   */
  method RefusedTableBreaksCount(r: Rec, indexes: nat) returns (status: Status, solidPages: nat, pageCount: nat)
    requires |r.bytes| >= Row.HEAD_SIZE && indexes > 0
    ensures status == Full && solidPages != pageCount
  {
    var block := new AppendingBlock(PAGE_SIZE / (32 * 1204), PAGE_SIZE, 0);
    status := block.Append(r, indexes);
    assert Table(r.table, indexes, [], []) in block.tables;
    var solid, infos, ordered, tableInfos, pageMap := block.ToSolidBlock();
    solidPages, pageCount := |solid|, block.pageCount;
  }
}
