/**
 Request logs written in batches instead of one by one: one flush leaves what writing the
 entries singly would, and over any interleaving of requests, swaps and writes nothing is
 lost, repeated or attributed differently.
 */
module LogBatching {
  import opened Wrappers

  datatype LogEntry = LogEntry(method_: string, path: string, statusCode: int, bytesOut: int,
                               durationMs: int, ip: string, apiKey: string)

  datatype LogRow = LogRow(method_: string, path: string, statusCode: int, bytesOut: int,
                           durationMs: int, ip: string, apiKeyId: Option<int>)

  datatype KeyRow = KeyRow(id: int, key: string)

  /** The key table, the log table, and the keys whose last use has been stamped. */
  datatype Db = Db(keys: seq<KeyRow>, logs: seq<LogRow>, stamped: set<int>)

  predicate UniqueKeys(keys: seq<KeyRow>) {
    forall i, j :: 0 <= i < j < |keys| ==> keys[i].key != keys[j].key
  }

  function RowFor(e: LogEntry, id: Option<int>): LogRow {
    LogRow(e.method_, e.path, e.statusCode, e.bytesOut, e.durationMs, e.ip, id)
  }

  // ----- One request at a time -----

  /** The first row with this key. */
  function SelectId(keys: seq<KeyRow>, key: string): Option<int> {
    if keys == [] then None
    else if keys[0].key == key then Some(keys[0].id)
    else SelectId(keys[1..], key)
  }

  function IdOf(keys: seq<KeyRow>, e: LogEntry): Option<int> {
    if e.apiKey == "" then None else SelectId(keys, e.apiKey)
  }

  function Persist(db: Db, e: LogEntry): Db {
    var id := IdOf(db.keys, e);
    Db(db.keys, db.logs + [RowFor(e, id)], db.stamped + if id.Some? then {id.value} else {})
  }

  function PersistAll(db: Db, batch: seq<LogEntry>): Db {
    if batch == [] then db else Persist(PersistAll(db, batch[..|batch| - 1]), batch[|batch| - 1])
  }

  // ----- A batch at a time -----

  /** Keys of the batch with their ids; rows without a positive id are ignored. */
  function Resolve(keys: seq<KeyRow>, wanted: set<string>): map<string, int> {
    if keys == [] then map[] else
    var last := keys[|keys| - 1];
    var ids := Resolve(keys[..|keys| - 1], wanted);
    if last.key in wanted && last.id > 0 then ids[last.key := last.id] else ids
  }

  function BatchId(ids: map<string, int>, e: LogEntry): Option<int> {
    if e.apiKey != "" && e.apiKey in ids then Some(ids[e.apiKey]) else None
  }

  function KeysIn(batch: seq<LogEntry>): set<string> {
    set e | e in batch && e.apiKey != "" :: e.apiKey
  }

  function BatchRows(ids: map<string, int>, batch: seq<LogEntry>): seq<LogRow> {
    if batch == [] then [] else
    BatchRows(ids, batch[..|batch| - 1]) + [RowFor(batch[|batch| - 1], BatchId(ids, batch[|batch| - 1]))]
  }

  function Flushed(db: Db, batch: seq<LogEntry>): Db {
    var ids := Resolve(db.keys, KeysIn(batch));
    Db(db.keys, db.logs + BatchRows(ids, batch), db.stamped + ids.Values)
  }

  method CollectKeys(batch: seq<LogEntry>) returns (wanted: set<string>)
    ensures wanted == KeysIn(batch)
  {
    wanted := {};
    for i := 0 to |batch|
      invariant wanted == KeysIn(batch[..i])
    {
      KeysInAppend(batch[..i], batch[i]);
      assert batch[..i + 1] == batch[..i] + [batch[i]];
      if batch[i].apiKey != "" {
        wanted := wanted + {batch[i].apiKey};
      }
    }
    assert batch[..|batch|] == batch;
  }

  method ResolveIds(keys: seq<KeyRow>, wanted: set<string>) returns (ids: map<string, int>)
    ensures ids == Resolve(keys, wanted)
  {
    ids := map[];
    for i := 0 to |keys|
      invariant ids == Resolve(keys[..i], wanted)
    {
      assert keys[..i + 1][..i] == keys[..i];
      if keys[i].key in wanted && keys[i].id > 0 {
        ids := ids[keys[i].key := keys[i].id];
      }
    }
    assert keys[..|keys|] == keys;
  }

  method Flush(db: Db, batch: seq<LogEntry>) returns (r: Db)
    ensures r == Flushed(db, batch)
  {
    var wanted := CollectKeys(batch);
    var ids: map<string, int> := map[];
    if wanted != {} {
      ids := ResolveIds(db.keys, wanted);
    } else {
      NothingWanted(db.keys);
    }
    var rows := [];
    for i := 0 to |batch|
      invariant rows == BatchRows(ids, batch[..i])
    {
      assert batch[..i + 1][..i] == batch[..i];
      var id := None;
      if batch[i].apiKey != "" && batch[i].apiKey in ids {
        id := Some(ids[batch[i].apiKey]);
      }
      rows := rows + [RowFor(batch[i], id)];
    }
    assert batch[..|batch|] == batch;
    r := Db(db.keys, db.logs + rows, db.stamped + ids.Values);
  }

  lemma {:induction false} NothingWanted(keys: seq<KeyRow>)
    ensures Resolve(keys, {}) == map[]
  {
    if keys != [] {
      NothingWanted(keys[..|keys| - 1]);
    }
  }

  lemma KeysInAppend(batch: seq<LogEntry>, e: LogEntry)
    ensures KeysIn(batch + [e]) == KeysIn(batch) + if e.apiKey != "" then {e.apiKey} else {}
  {
  }

  // ----- Refinement -----

  lemma {:induction false} SelectIdAppend(keys: seq<KeyRow>, row: KeyRow, key: string)
    ensures SelectId(keys + [row], key)
         == if SelectId(keys, key).Some? then SelectId(keys, key) else if row.key == key then Some(row.id) else None
  {
    if keys != [] {
      SelectIdAppend(keys[1..], row, key);
      assert (keys + [row])[1..] == keys[1..] + [row];
    }
  }

  lemma {:induction false} SelectIdMisses(keys: seq<KeyRow>, key: string)
    ensures SelectId(keys, key).None? <==> forall i :: 0 <= i < |keys| ==> keys[i].key != key
  {
    if keys != [] && keys[0].key != key {
      SelectIdMisses(keys[1..], key);
    }
  }

  /** What the batch query resolves is what single queries find, where positive. */
  lemma {:induction false} ResolveIsSelect(keys: seq<KeyRow>, wanted: set<string>, key: string)
    requires UniqueKeys(keys)
    ensures key in Resolve(keys, wanted) <==>
              key in wanted && SelectId(keys, key).Some? && SelectId(keys, key).value > 0
    ensures key in Resolve(keys, wanted) ==> SelectId(keys, key) == Some(Resolve(keys, wanted)[key])
  {
    if keys != [] {
      var init, last := keys[..|keys| - 1], keys[|keys| - 1];
      ResolveIsSelect(init, wanted, key);
      SelectIdMisses(init, key);
      assert keys == init + [last];
      SelectIdAppend(init, last, key);
    }
  }

  /** Every key of the batch that is known has a positive id. */
  ghost predicate PositiveIds(keys: seq<KeyRow>, batch: seq<LogEntry>) {
    forall i :: 0 <= i < |batch| ==> IdOf(keys, batch[i]).Some? ==> IdOf(keys, batch[i]).value > 0
  }

  /** The rows and stamps the entries call for, singly. */
  function Rows(keys: seq<KeyRow>, batch: seq<LogEntry>): seq<LogRow> {
    if batch == [] then [] else
    Rows(keys, batch[..|batch| - 1]) + [RowFor(batch[|batch| - 1], IdOf(keys, batch[|batch| - 1]))]
  }

  function Stamps(keys: seq<KeyRow>, batch: seq<LogEntry>): set<int> {
    set e | e in batch && IdOf(keys, e).Some? :: IdOf(keys, e).value
  }

  lemma {:induction false} PersistAllWrites(db: Db, batch: seq<LogEntry>)
    ensures PersistAll(db, batch) == Db(db.keys, db.logs + Rows(db.keys, batch), db.stamped + Stamps(db.keys, batch))
  {
    if batch != [] {
      var init, last := batch[..|batch| - 1], batch[|batch| - 1];
      PersistAllWrites(db, init);
      assert forall e :: e in batch <==> e in init || e == last;
    }
  }

  lemma {:induction false} BatchRowsAgree(keys: seq<KeyRow>, ids: map<string, int>, batch: seq<LogEntry>)
    requires forall i :: 0 <= i < |batch| ==> BatchId(ids, batch[i]) == IdOf(keys, batch[i])
    ensures BatchRows(ids, batch) == Rows(keys, batch)
  {
    if batch != [] {
      BatchRowsAgree(keys, ids, batch[..|batch| - 1]);
    }
  }

  lemma BatchIdAgrees(keys: seq<KeyRow>, batch: seq<LogEntry>, i: nat)
    requires UniqueKeys(keys) && i < |batch|
    ensures var single := IdOf(keys, batch[i]);
            BatchId(Resolve(keys, KeysIn(batch)), batch[i])
              == if single.Some? && single.value <= 0 then None else single
  {
    assert batch[i] in batch;
    ResolveIsSelect(keys, KeysIn(batch), batch[i].apiKey);
  }

  lemma ResolvedAreStamps(keys: seq<KeyRow>, batch: seq<LogEntry>)
    requires UniqueKeys(keys) && PositiveIds(keys, batch)
    ensures Resolve(keys, KeysIn(batch)).Values == Stamps(keys, batch)
  {
    var ids := Resolve(keys, KeysIn(batch));
    forall id | id in ids.Values ensures id in Stamps(keys, batch) {
      var key :| key in ids && ids[key] == id;
      ResolveIsSelect(keys, KeysIn(batch), key);
      var e :| e in batch && e.apiKey != "" && e.apiKey == key;
      assert IdOf(keys, e) == Some(id);
    }
    forall id | id in Stamps(keys, batch) ensures id in ids.Values {
      var e :| e in batch && IdOf(keys, e) == Some(id);
      var i :| 0 <= i < |batch| && batch[i] == e;
      ResolveIsSelect(keys, KeysIn(batch), e.apiKey);
      assert e.apiKey in ids;
    }
  }

  lemma FlushedWrites(db: Db, batch: seq<LogEntry>)
    requires UniqueKeys(db.keys) && PositiveIds(db.keys, batch)
    ensures Flushed(db, batch) == Db(db.keys, db.logs + Rows(db.keys, batch), db.stamped + Stamps(db.keys, batch))
  {
    var ids := Resolve(db.keys, KeysIn(batch));
    forall i | 0 <= i < |batch| ensures BatchId(ids, batch[i]) == IdOf(db.keys, batch[i]) {
      BatchIdAgrees(db.keys, batch, i);
    }
    BatchRowsAgree(db.keys, ids, batch);
    ResolvedAreStamps(db.keys, batch);
  }

  lemma {:induction false} RowAt(keys: seq<KeyRow>, ids: map<string, int>, batch: seq<LogEntry>, i: nat)
    requires i < |batch|
    ensures |Rows(keys, batch)| == |BatchRows(ids, batch)| == |batch|
    ensures Rows(keys, batch)[i].apiKeyId == IdOf(keys, batch[i])
    ensures BatchRows(ids, batch)[i].apiKeyId == BatchId(ids, batch[i])
  {
    var init := batch[..|batch| - 1];
    if init != [] {
      RowAt(keys, ids, init, if i < |init| then i else 0);
    }
  }

  lemma OddIdShows(db: Db, batch: seq<LogEntry>, i: nat)
    requires UniqueKeys(db.keys) && i < |batch|
    requires IdOf(db.keys, batch[i]).Some? && IdOf(db.keys, batch[i]).value <= 0
    ensures BatchRows(Resolve(db.keys, KeysIn(batch)), batch) != Rows(db.keys, batch)
  {
    BatchIdAgrees(db.keys, batch, i);
    RowAt(db.keys, Resolve(db.keys, KeysIn(batch)), batch, i);
  }

  lemma SamePrefix<T>(a: seq<T>, b: seq<T>, c: seq<T>)
    requires a + b == a + c
    ensures b == c
  {
    assert b == (a + b)[|a|..] && c == (a + c)[|a|..];
  }

  /** A flush leaves exactly what writing its entries one by one would, if and only if every
      known key among them has a positive id. */
  lemma FlushRefinesPersist(db: Db, batch: seq<LogEntry>)
    requires UniqueKeys(db.keys)
    ensures Flushed(db, batch) == PersistAll(db, batch) <==> PositiveIds(db.keys, batch)
  {
    PersistAllWrites(db, batch);
    if PositiveIds(db.keys, batch) {
      FlushedWrites(db, batch);
    } else {
      var i :| 0 <= i < |batch| && IdOf(db.keys, batch[i]).Some? && IdOf(db.keys, batch[i]).value <= 0;
      OddIdShows(db, batch, i);
      if Flushed(db, batch) == PersistAll(db, batch) {
        SamePrefix(db.logs, BatchRows(Resolve(db.keys, KeysIn(batch)), batch), Rows(db.keys, batch));
      }
    }
  }

  // ----- What a row says -----

  lemma {:induction false} RowsAt(keys: seq<KeyRow>, batch: seq<LogEntry>)
    ensures |Rows(keys, batch)| == |batch|
    ensures forall i :: 0 <= i < |batch| ==> Rows(keys, batch)[i] == RowFor(batch[i], IdOf(keys, batch[i]))
  {
    if batch != [] {
      RowsAt(keys, batch[..|batch| - 1]);
    }
  }

  lemma {:induction false} BatchRowsAt(ids: map<string, int>, batch: seq<LogEntry>)
    ensures |BatchRows(ids, batch)| == |batch|
    ensures forall i :: 0 <= i < |batch| ==> BatchRows(ids, batch)[i] == RowFor(batch[i], BatchId(ids, batch[i]))
  {
    if batch != [] {
      BatchRowsAt(ids, batch[..|batch| - 1]);
    }
  }

  /** The row is about this request. */
  predicate IsAbout(row: LogRow, e: LogEntry) {
    && row.method_ == e.method_ && row.path == e.path && row.statusCode == e.statusCode
    && row.bytesOut == e.bytesOut && row.durationMs == e.durationMs && row.ip == e.ip
  }

  /** Either writer leaves the earlier rows alone and adds one row about each request, in order. */
  lemma RowsAreAboutRequests(db: Db, batch: seq<LogEntry>)
    ensures forall after :: after in {Flushed(db, batch).logs, PersistAll(db, batch).logs} ==>
              && |after| == |db.logs| + |batch| && after[..|db.logs|] == db.logs
              && forall i :: 0 <= i < |batch| ==> IsAbout(after[|db.logs| + i], batch[i])
  {
    RowsAt(db.keys, batch);
    BatchRowsAt(Resolve(db.keys, KeysIn(batch)), batch);
    PersistAllWrites(db, batch);
  }

  /** The id on record for a key; a request without a key has none. */
  ghost predicate IsIdOf(keys: seq<KeyRow>, e: LogEntry, id: int) {
    e.apiKey != "" && exists j :: 0 <= j < |keys| && keys[j] == KeyRow(id, e.apiKey)
  }

  lemma {:induction false} SelectIdFinds(keys: seq<KeyRow>, key: string)
    ensures SelectId(keys, key).Some? ==>
              exists j :: 0 <= j < |keys| && keys[j] == KeyRow(SelectId(keys, key).value, key)
  {
    if keys != [] && keys[0].key != key {
      SelectIdFinds(keys[1..], key);
      if SelectId(keys, key).Some? {
        var j :| 0 <= j < |keys[1..]| && keys[1..][j] == KeyRow(SelectId(keys, key).value, key);
        assert keys[j + 1] == keys[1..][j];
      }
    } else if keys != [] {
      assert keys[0] == KeyRow(keys[0].id, key);
    }
  }

  lemma IdOfIsRecorded(keys: seq<KeyRow>, e: LogEntry, id: int)
    requires UniqueKeys(keys)
    ensures IdOf(keys, e) == Some(id) <==> IsIdOf(keys, e, id)
  {
    SelectIdFinds(keys, e.apiKey);
    SelectIdMisses(keys, e.apiKey);
  }

  /** The per-request writer files a request under the id of its key and stamps that id; the
      batch does so for positive ids. */
  lemma RowsCarryIds(db: Db, batch: seq<LogEntry>, i: nat, id: int)
    requires UniqueKeys(db.keys) && i < |batch|
    ensures var n, single, flushed := |db.logs| + i, PersistAll(db, batch), Flushed(db, batch);
            && |single.logs| > n && (single.logs[n].apiKeyId == Some(id) <==> IsIdOf(db.keys, batch[i], id))
            && |flushed.logs| > n && (flushed.logs[n].apiKeyId == Some(id) <==> IsIdOf(db.keys, batch[i], id) && id > 0)
  {
    RowsAt(db.keys, batch);
    BatchRowsAt(Resolve(db.keys, KeysIn(batch)), batch);
    PersistAllWrites(db, batch);
    IdOfIsRecorded(db.keys, batch[i], id);
    BatchIdAgrees(db.keys, batch, i);
  }

  lemma StampsAreIds(db: Db, batch: seq<LogEntry>, id: int)
    requires UniqueKeys(db.keys)
    ensures id in PersistAll(db, batch).stamped <==>
              id in db.stamped || exists i :: 0 <= i < |batch| && IsIdOf(db.keys, batch[i], id)
    ensures id in Flushed(db, batch).stamped <==>
              id in db.stamped || (id > 0 && exists i :: 0 <= i < |batch| && IsIdOf(db.keys, batch[i], id))
  {
    PersistAllWrites(db, batch);
    forall e ensures IdOf(db.keys, e) == Some(id) <==> IsIdOf(db.keys, e, id) {
      IdOfIsRecorded(db.keys, e, id);
    }
    var ids := Resolve(db.keys, KeysIn(batch));
    if i :| 0 <= i < |batch| && IsIdOf(db.keys, batch[i], id) {
      assert batch[i] in batch && id in Stamps(db.keys, batch);
      ResolveIsSelect(db.keys, KeysIn(batch), batch[i].apiKey);
      assert id > 0 ==> batch[i].apiKey in ids && ids[batch[i].apiKey] == id;
    }
    if id in ids.Values {
      var key :| key in ids && ids[key] == id;
      ResolveIsSelect(db.keys, KeysIn(batch), key);
      var e :| e in batch && e.apiKey != "" && e.apiKey == key;
      var i :| 0 <= i < |batch| && batch[i] == e;
      assert IsIdOf(db.keys, batch[i], id);
    }
  }

  // ----- The batcher -----

  class RequestLogBatcher {
    var entries: seq<LogEntry>
    const maxBatch: nat

    constructor (maxBatch: nat)
      ensures entries == [] && this.maxBatch == maxBatch
    {
      entries := [];
      this.maxBatch := maxBatch;
    }

    /** The caller starts a flush when told to. */
    method Add(entry: LogEntry) returns (needsFlush: bool)
      modifies this
      ensures entries == old(entries) + [entry]
      ensures needsFlush <==> |entries| >= maxBatch
    {
      entries := entries + [entry];
      needsFlush := |entries| >= maxBatch;
    }

    /** The locked part of a flush: take everything, leave an empty buffer. */
    method Swap() returns (batch: seq<LogEntry>)
      modifies this
      ensures batch == old(entries) && entries == []
    {
      batch := entries;
      entries := [];
    }
  }

  /** An entry with the id its key had when the request was served. */
  datatype Noted = Noted(entry: LogEntry, id: Option<int>)

  /** The buffer, the batches taken from it in order, which of them are written, the tables;
      and beside them the tables of a writer that persists every request as it is served. */
  datatype System = System(buffer: seq<Noted>, taken: seq<seq<Noted>>, written: set<nat>, db: Db, single: Db)

  /** Requests, the locked swaps of timer and overflow flushes, their writes, which may finish
      in any order, and changes of the key table. */
  datatype Step = Add(entry: LogEntry) | Swap | Write(batch: nat) | ChangeKeys(keys: seq<KeyRow>)

  /** Keys are unique and ids positive, as the schema has it. */
  predicate KeysOk(keys: seq<KeyRow>) {
    UniqueKeys(keys) && forall i :: 0 <= i < |keys| ==> keys[i].id > 0
  }

  function Entries(batch: seq<Noted>): seq<LogEntry> {
    seq(|batch|, i requires 0 <= i < |batch| => batch[i].entry)
  }

  predicate CanWrite(s: System, i: nat) {
    i < |s.taken| && i !in s.written
  }

  function Next(s: System, step: Step): System {
    match step
    case Add(e) =>
      s.(buffer := s.buffer + [Noted(e, IdOf(s.db.keys, e))], single := Persist(s.single, e))
    case Swap => if s.buffer == [] then s else s.(taken := s.taken + [s.buffer], buffer := [])
    case Write(i) =>
      if !CanWrite(s, i) then s
      else s.(written := s.written + {i}, db := Flushed(s.db, Entries(s.taken[i])))
    case ChangeKeys(keys) =>
      if !KeysOk(keys) then s
      else s.(db := s.db.(keys := keys), single := s.single.(keys := keys))
  }

  function Run(db: Db, steps: seq<Step>): System {
    if steps == [] then System([], [], {}, db, db) else Next(Run(db, steps[..|steps| - 1]), steps[|steps| - 1])
  }

  function Added(steps: seq<Step>): seq<LogEntry> {
    if steps == [] then [] else
    Added(steps[..|steps| - 1]) + if steps[|steps| - 1].Add? then [steps[|steps| - 1].entry] else []
  }

  function Concat(batches: seq<seq<Noted>>): seq<Noted> {
    if batches == [] then [] else Concat(batches[..|batches| - 1]) + batches[|batches| - 1]
  }

  /** Everything in memory, oldest first. */
  function Held(s: System): seq<Noted> {
    Concat(s.taken) + s.buffer
  }

  lemma StepConserves(s: System, step: Step)
    ensures Held(Next(s, step)) == Held(s) + if step.Add? then [Noted(step.entry, IdOf(s.db.keys, step.entry))] else []
  {
  }

  /** Before the database: the batches in swap order, then the buffer, are the entries added. */
  lemma {:induction false} NothingLostInMemory(db: Db, steps: seq<Step>)
    ensures Entries(Held(Run(db, steps))) == Added(steps)
  {
    if steps != [] {
      NothingLostInMemory(db, steps[..|steps| - 1]);
      StepConserves(Run(db, steps[..|steps| - 1]), steps[|steps| - 1]);
    }
  }

  // ----- What a write leaves -----

  /** The rows and stamps of the per-request writer. */
  function NotedRows(batch: seq<Noted>): seq<LogRow> {
    seq(|batch|, i requires 0 <= i < |batch| => RowFor(batch[i].entry, batch[i].id))
  }

  function NotedStamps(batch: seq<Noted>): set<int> {
    set n | n in batch && n.id.Some? :: n.id.value
  }

  /** Every key of the batch still has the id it had when the request was served. */
  predicate Settled(keys: seq<KeyRow>, batch: seq<Noted>) {
    forall i :: 0 <= i < |batch| ==> IdOf(keys, batch[i].entry) == batch[i].id
  }

  lemma SettledStamps(keys: seq<KeyRow>, batch: seq<Noted>)
    requires Settled(keys, batch)
    ensures Stamps(keys, Entries(batch)) == NotedStamps(batch)
  {
    var entries := Entries(batch);
    forall id | id in Stamps(keys, entries) ensures id in NotedStamps(batch) {
      var e :| e in entries && IdOf(keys, e) == Some(id);
      var i :| 0 <= i < |entries| && entries[i] == e;
      assert batch[i] in batch;
    }
    forall id | id in NotedStamps(batch) ensures id in Stamps(keys, entries) {
      var n :| n in batch && n.id == Some(id);
      var i :| 0 <= i < |batch| && batch[i] == n;
      assert entries[i] in entries;
    }
  }

  lemma {:induction false} SelectIdPositive(keys: seq<KeyRow>, key: string)
    requires forall i :: 0 <= i < |keys| ==> keys[i].id > 0
    ensures SelectId(keys, key).Some? ==> SelectId(keys, key).value > 0
  {
    if keys != [] {
      SelectIdPositive(keys[1..], key);
    }
  }

  lemma AnyBatchIsPositive(keys: seq<KeyRow>, batch: seq<LogEntry>)
    requires KeysOk(keys)
    ensures PositiveIds(keys, batch)
  {
    forall i | 0 <= i < |batch| && IdOf(keys, batch[i]).Some? ensures IdOf(keys, batch[i]).value > 0 {
      SelectIdPositive(keys, batch[i].apiKey);
    }
  }

  /** A batch leaves the rows and stamps of the per-request writer if and only if every key in
      it has, when the batch is written, the id it had when the request was served. */
  lemma WriteIsFaithfulIff(db: Db, batch: seq<Noted>)
    requires KeysOk(db.keys)
    ensures Flushed(db, Entries(batch)) == Db(db.keys, db.logs + NotedRows(batch), db.stamped + NotedStamps(batch))
            <==> Settled(db.keys, batch)
  {
    var entries := Entries(batch);
    AnyBatchIsPositive(db.keys, entries);
    FlushedWrites(db, entries);
    RowsAt(db.keys, entries);
    if Settled(db.keys, batch) {
      assert Rows(db.keys, entries) == NotedRows(batch);
      SettledStamps(db.keys, batch);
    } else {
      var i :| 0 <= i < |batch| && IdOf(db.keys, batch[i].entry) != batch[i].id;
      assert Rows(db.keys, entries)[i] != NotedRows(batch)[i];
      if db.logs + Rows(db.keys, entries) == db.logs + NotedRows(batch) {
        SamePrefix(db.logs, Rows(db.keys, entries), NotedRows(batch));
      }
    }
  }

  // ----- Whole runs -----

  /** What the batches written so far should have put into the tables. */
  ghost function WrittenRows(taken: seq<seq<Noted>>, written: set<nat>): multiset<LogRow> {
    if taken == [] then multiset{} else
    WrittenRows(taken[..|taken| - 1], written)
    + if |taken| - 1 in written then multiset(NotedRows(taken[|taken| - 1])) else multiset{}
  }

  ghost function WrittenStamps(taken: seq<seq<Noted>>, written: set<nat>): set<int> {
    if taken == [] then {} else
    WrittenStamps(taken[..|taken| - 1], written)
    + if |taken| - 1 in written then NotedStamps(taken[|taken| - 1]) else {}
  }

  lemma {:induction false} OutOfRangeAddsNothing(taken: seq<seq<Noted>>, written: set<nat>, i: nat)
    requires i >= |taken|
    ensures WrittenRows(taken, written + {i}) == WrittenRows(taken, written)
    ensures WrittenStamps(taken, written + {i}) == WrittenStamps(taken, written)
  {
    if taken != [] {
      OutOfRangeAddsNothing(taken[..|taken| - 1], written, i);
    }
  }

  lemma {:induction false} WriteAddsRows(taken: seq<seq<Noted>>, written: set<nat>, i: nat)
    requires i < |taken| && i !in written
    ensures WrittenRows(taken, written + {i}) == WrittenRows(taken, written) + multiset(NotedRows(taken[i]))
  {
    var init := taken[..|taken| - 1];
    if i == |init| {
      OutOfRangeAddsNothing(init, written, i);
    } else {
      WriteAddsRows(init, written, i);
    }
  }

  lemma {:induction false} WriteAddsStamps(taken: seq<seq<Noted>>, written: set<nat>, i: nat)
    requires i < |taken| && i !in written
    ensures WrittenStamps(taken, written + {i}) == WrittenStamps(taken, written) + NotedStamps(taken[i])
  {
    var init := taken[..|taken| - 1];
    if i == |init| {
      OutOfRangeAddsNothing(init, written, i);
    } else {
      WriteAddsStamps(init, written, i);
    }
  }

  ghost predicate TablesOk(start: Db, s: System) {
    && s.single.keys == s.db.keys && KeysOk(s.db.keys)
    && (forall i :: i in s.written ==> i < |s.taken|)
    && multiset(s.db.logs) == multiset(start.logs) + WrittenRows(s.taken, s.written)
    && s.db.stamped == start.stamped + WrittenStamps(s.taken, s.written)
    && s.single.logs == start.logs + NotedRows(Held(s))
    && s.single.stamped == start.stamped + NotedStamps(Held(s))
  }

  /** Every write of the run finds the ids its entries were served with. */
  predicate AlwaysSettled(start: Db, steps: seq<Step>) {
    steps != [] ==>
      var s, step := Run(start, steps[..|steps| - 1]), steps[|steps| - 1];
      && AlwaysSettled(start, steps[..|steps| - 1])
      && (step.Write? && CanWrite(s, step.batch) ==> Settled(s.db.keys, s.taken[step.batch]))
  }

  lemma WriteKeepsTables(start: Db, s: System, i: nat)
    requires TablesOk(start, s) && CanWrite(s, i) && Settled(s.db.keys, s.taken[i])
    ensures TablesOk(start, Next(s, Write(i)))
  {
    WriteIsFaithfulIff(s.db, s.taken[i]);
    WriteAddsRows(s.taken, s.written, i);
    WriteAddsStamps(s.taken, s.written, i);
    var rows := NotedRows(s.taken[i]);
    assert multiset(s.db.logs + rows) == multiset(s.db.logs) + multiset(rows);
  }

  lemma AddKeepsTables(start: Db, s: System, e: LogEntry)
    requires TablesOk(start, s)
    ensures TablesOk(start, Next(s, Add(e)))
  {
    var n := Noted(e, IdOf(s.db.keys, e));
    StepConserves(s, Add(e));
    assert NotedRows(Held(s) + [n]) == NotedRows(Held(s)) + [RowFor(e, n.id)];
    assert NotedStamps(Held(s) + [n]) == NotedStamps(Held(s)) + if n.id.Some? then {n.id.value} else {};
  }

  lemma SwapKeepsTables(start: Db, s: System)
    requires TablesOk(start, s)
    ensures TablesOk(start, Next(s, Swap))
  {
    StepConserves(s, Swap);
    var taken := s.taken + [s.buffer];
    assert taken[..|taken| - 1] == s.taken;
  }

  lemma {:induction false} TablesAlwaysOk(start: Db, steps: seq<Step>)
    requires KeysOk(start.keys) && AlwaysSettled(start, steps)
    ensures TablesOk(start, Run(start, steps))
  {
    if steps != [] {
      var s, step := Run(start, steps[..|steps| - 1]), steps[|steps| - 1];
      TablesAlwaysOk(start, steps[..|steps| - 1]);
      match step
      case Add(e) => AddKeepsTables(start, s, e);
      case Swap => SwapKeepsTables(start, s);
      case Write(i) => if CanWrite(s, i) { WriteKeepsTables(start, s, i); }
      case ChangeKeys(_) => StepConserves(s, step);
    }
  }

  lemma {:induction false} AllWritten(taken: seq<seq<Noted>>, written: set<nat>)
    requires forall i :: 0 <= i < |taken| ==> i in written
    ensures WrittenRows(taken, written) == multiset(NotedRows(Concat(taken)))
    ensures WrittenStamps(taken, written) == NotedStamps(Concat(taken))
  {
    if taken != [] {
      var init, last := taken[..|taken| - 1], taken[|taken| - 1];
      AllWritten(init, written);
      assert NotedRows(Concat(init) + last) == NotedRows(Concat(init)) + NotedRows(last);
      assert forall n :: n in Concat(taken) <==> n in Concat(init) || n in last;
    }
  }

  /** Once every batch is written and the buffer is empty, the tables hold what the per-request
      writer has left, up to the order of the log rows, if every write found the ids its
      entries were served with. */
  lemma BatchingIsTransparent(start: Db, steps: seq<Step>)
    requires KeysOk(start.keys) && AlwaysSettled(start, steps)
    requires Run(start, steps).buffer == []
    requires forall i :: 0 <= i < |Run(start, steps).taken| ==> i in Run(start, steps).written
    ensures var s := Run(start, steps);
            && multiset(s.db.logs) == multiset(s.single.logs)
            && s.db.stamped == s.single.stamped && s.db.keys == s.single.keys
  {
    var s := Run(start, steps);
    assert Held(s) == Concat(s.taken);
    TablesAlwaysOk(start, steps);
    AllWritten(s.taken, s.written);
  }

  /** Nothing in memory would be attributed differently under these keys. */
  predicate InStep(s: System, keys: seq<KeyRow>) {
    && Settled(keys, s.buffer)
    && forall i :: 0 <= i < |s.taken| && i !in s.written ==> Settled(keys, s.taken[i])
  }

  /** No change of the key table touches an id that an entry in memory was served with. */
  predicate ChangesAreHarmless(start: Db, steps: seq<Step>) {
    steps != [] ==>
      var s, step := Run(start, steps[..|steps| - 1]), steps[|steps| - 1];
      ChangesAreHarmless(start, steps[..|steps| - 1]) && (step.ChangeKeys? ==> InStep(s, step.keys))
  }

  /** Which holds if each change of the key table, when it is made, leaves the ids of the
      entries in memory alone; in particular if the key table does not change. */
  lemma {:induction false} HarmlessChangesSettle(start: Db, steps: seq<Step>)
    requires ChangesAreHarmless(start, steps)
    ensures AlwaysSettled(start, steps) && InStep(Run(start, steps), Run(start, steps).db.keys)
  {
    if steps != [] {
      HarmlessChangesSettle(start, steps[..|steps| - 1]);
    }
  }

  lemma RunAppend(db: Db, steps: seq<Step>, step: Step)
    ensures Run(db, steps + [step]) == Next(Run(db, steps), step)
  {
    assert (steps + [step])[..|steps|] == steps;
  }

  /** A key deleted between request and write is enough: its row loses its id. */
  lemma DeletedKeyShows(e: LogEntry)
    requires e.apiKey != ""
    ensures var s := Run(Db([KeyRow(1, e.apiKey)], [], {}), [Add(e)] + [Swap] + [ChangeKeys([])] + [Write(0)]);
            s.single.logs == [RowFor(e, Some(1))] && s.db.logs == [RowFor(e, None)]
  {
    var start, n := Db([KeyRow(1, e.apiKey)], [], {}), Noted(e, Some(1));
    var single := Db(start.keys, [RowFor(e, Some(1))], {1});
    RunAppend(start, [], Add(e));
    assert [] + [Add(e)] == [Add(e)];
    assert Run(start, [Add(e)]) == System([n], [], {}, start, single);
    RunAppend(start, [Add(e)], Swap);
    RunAppend(start, [Add(e)] + [Swap], ChangeKeys([]));
    RunAppend(start, [Add(e)] + [Swap] + [ChangeKeys([])], Write(0));
    FlushWithoutKeys([n], e);
  }

  lemma FlushWithoutKeys(batch: seq<Noted>, e: LogEntry)
    requires |batch| == 1 && batch[0].entry == e
    ensures forall db: Db :: db.keys == [] ==> Flushed(db, Entries(batch)).logs == db.logs + [RowFor(e, None)]
  {
    assert Entries(batch) == [e] && BatchRows(map[], [e]) == [RowFor(e, None)];
  }
}
