/** The change-tracking record repository `CTRDataServiceWithTracking` of
    src/db/dexieDatabase.ts: a keyed record table, a change log whose entries
    carry a payload, and a table of pending patches that `savePendingChanges`
    flushes. The database is opened once by the constructor; its outcome is
    an input, and a failed opening is sticky because the rejected
    initialisation promise is awaited again by every later operation.
    Timestamps are the input `now`; whether the change-log table accepts an
    `add` is the input `logStored` (a refused add is swallowed by
    `logChange`). */
module TrackingService {
  import opened Types
  import opened Strings
  import opened DateRanges
  import opened Records

  /** How a change-log row is keyed: by the auto-increment generator, or
      by an `id` the logged payload brings with it. */
  datatype LogKey = Generated | Explicit(key: string)

  datatype Payload =
    | SavedPayload(data: seq<CrewMember>, crewInfo: CrewInfo)
    | DeletedPayload(record: CTRRecord)
    | FieldPayload(field: string, oldValue: string, newValue: string)

  datatype TrackedChange = TrackedChange(
    key: LogKey,
    dateRange: string,
    changeType: ChangeType,
    payload: Payload,
    timestamp: int,
    userId: string)

  const CurrentUser: string := "current-user"

  /** A partial record queued for a later flush; a present field overrides
      the stored one. */
  datatype RecordPatch = RecordPatch(data: Option<seq<CrewMember>>, crewInfo: Option<CrewInfo>)

  datatype PendingChange = PendingChange(id: nat, dateRange: string, changes: RecordPatch, timestamp: int)

  datatype Tables = Tables(
    records: map<string, CTRRecord>,
    changeLog: seq<TrackedChange>,
    pending: seq<PendingChange>,
    nextPendingId: nat)

  datatype Stats = Stats(totalRecords: nat, totalChanges: nat, pendingChanges: nat, lastModified: int)

  /** Pending ids are issued in increasing order. */
  ghost predicate OrderedPending(pending: seq<PendingChange>, nextId: nat)
  {
    && (forall i, j :: 0 <= i < j < |pending| ==> pending[i].id < pending[j].id)
    && (forall i :: 0 <= i < |pending| ==> pending[i].id < nextId)
  }

  ghost predicate ValidTables(t: Tables)
  {
    WellKeyed(t.records) && OrderedPending(t.pending, t.nextPendingId)
  }

  /** The `creating` hook: a new record gets version 1. */
  function CreatingHookVersion(): nat
  {
    1
  }

  /** The `updating` hook: an overwritten record gets the stored version
      plus one. */
  function UpdatingHookVersion(stored: CTRRecord): nat
  {
    stored.version + 1
  }

  /** The version the hooks assign to a put agrees with the version
      `saveRecord` computes from its own read. */
  lemma HooksAgreeWithSave(records: map<string, CTRRecord>, key: string)
    ensures NextVersion(records, key) ==
      if key in records then UpdatingHookVersion(records[key]) else CreatingHookVersion()
  {
  }

  predicate KeyTaken(log: seq<TrackedChange>, key: string)
    ensures KeyTaken(log, key) <==> exists i :: 0 <= i < |log| && log[i].key == Explicit(key)
  {
    if log == [] then false
    else log[|log| - 1].key == Explicit(key) || KeyTaken(log[..|log| - 1], key)
  }

  /** `logChange`: appends one entry, unless the table refuses the add or
      the entry brings a key already in use (the add fails and the error is
      swallowed). */
  function Logged(t: Tables, key: LogKey, dateRange: string, c: ChangeType, payload: Payload, now: int, logStored: bool): Tables
  {
    if !logStored || (key.Explicit? && KeyTaken(t.changeLog, key.key)) then t
    else t.(changeLog := t.changeLog + [TrackedChange(key, dateRange, c, payload, now, CurrentUser)])
  }

  /** `saveRecord(date1, date2, data, crewInfo)`: read the key, put the
      record with the next version, then log the write with its data. */
  function Saved(t: Tables, date1: string, date2: string, data: seq<CrewMember>, crewInfo: CrewInfo, now: int, logStored: bool): Tables
  {
    var key := RangeKey(date1, date2);
    var written := t.(records := t.records[key := CTRRecord(key, key, data, crewInfo, now, NextVersion(t.records, key))]);
    Logged(written, Generated, key, WriteType(t.records, key), SavedPayload(data, crewInfo), now, logStored)
  }

  /** `deleteRecord(dateRange)` as the repository means it: on a stored key,
      log one `Delete` entry holding the old record, then remove the key; on
      an absent key, do nothing. */
  function Deleted(t: Tables, dateRange: string, now: int, logStored: bool): Tables
  {
    if dateRange !in t.records then t
    else
      var logged := Logged(t, Generated, dateRange, Delete, DeletedPayload(t.records[dateRange]), now, logStored);
      logged.(records := Without(logged.records, dateRange))
  }

  /** `deleteRecord` as written: the old record is spread into the log
      entry together with its `id`, so the entry is keyed by the date range
      instead of by the generator. */
  function DeletedAsWritten(t: Tables, dateRange: string, now: int, logStored: bool): Tables
  {
    if dateRange !in t.records then t
    else
      var stored := t.records[dateRange];
      var logged := Logged(t, Explicit(stored.id), dateRange, Delete, DeletedPayload(stored), now, logStored);
      logged.(records := Without(logged.records, dateRange))
  }

  /** The flush merge: the patch's fields win over the stored record's. */
  function Merged(r: CTRRecord, p: RecordPatch): (m: CTRRecord)
  {
    r.(data := if p.data.Some? then p.data.value else r.data,
       crewInfo := if p.crewInfo.Some? then p.crewInfo.value else r.crewInfo)
  }

  /** Merging is a right-biased overwrite: an empty patch keeps the record,
      and merging the same patch twice is the same as once. */
  lemma MergeOverwrites(r: CTRRecord, p: RecordPatch)
    ensures Merged(r, RecordPatch(None, None)) == r
    ensures Merged(Merged(r, p), p) == Merged(r, p)
    ensures p.data.Some? ==> Merged(r, p).data == p.data.value
    ensures p.crewInfo.Some? ==> Merged(r, p).crewInfo == p.crewInfo.value
    ensures Merged(r, p).id == r.id && Merged(r, p).version == r.version
  {
  }

  function RemoveId(pending: seq<PendingChange>, id: nat): (r: seq<PendingChange>)
    ensures forall p :: p in r <==> p in pending && p.id != id
    ensures |r| <= |pending|
  {
    if pending == [] then []
    else (if pending[0].id == id then [] else [pending[0]]) + RemoveId(pending[1..], id)
  }

  /** One iteration of the flush loop: a patch for a stored key is merged
      and saved again under the key rebuilt from the two halves of its date
      range; the pending entry is deleted whether or not a record was
      found. */
  function FlushOne(t: Tables, p: PendingChange, now: int, logStored: bool): Tables
  {
    var saved :=
      if p.dateRange in t.records then
        var m := Merged(t.records[p.dateRange], p.changes);
        Saved(t, FirstDate(p.dateRange), SecondDate(p.dateRange), m.data, m.crewInfo, now, logStored)
      else t;
    saved.(pending := RemoveId(saved.pending, p.id))
  }

  /** The flush loop over a snapshot of the pending table. */
  function Flush(t: Tables, snapshot: seq<PendingChange>, now: int, logStored: bool): Tables
    decreases |snapshot|
  {
    if snapshot == [] then t
    else Flush(FlushOne(t, snapshot[0], now, logStored), snapshot[1..], now, logStored)
  }

  /** Saving only changes records and the log. */
  lemma SaveKeepsPending(t: Tables, date1: string, date2: string, data: seq<CrewMember>, crewInfo: CrewInfo, now: int, logStored: bool)
    ensures Saved(t, date1, date2, data, crewInfo, now, logStored).pending == t.pending
    ensures Saved(t, date1, date2, data, crewInfo, now, logStored).nextPendingId == t.nextPendingId
  {
  }

  /** Flushing the whole pending table empties it, whichever records were
      found. */
  lemma {:induction false} FlushEmptiesPending(t: Tables, now: int, logStored: bool)
    requires OrderedPending(t.pending, t.nextPendingId)
    ensures Flush(t, t.pending, now, logStored).pending == []
    decreases |t.pending|
  {
    if t.pending != [] {
      var p := t.pending[0];
      var t1 := FlushOne(t, p, now, logStored);
      RemoveFirstId(t.pending);
      assert t1.pending == t.pending[1..];
      assert OrderedPending(t1.pending, t1.nextPendingId);
      FlushEmptiesPending(t1, now, logStored);
    }
  }

  lemma OrderedTail(pending: seq<PendingChange>, nextId: nat)
    requires pending != [] && OrderedPending(pending, nextId)
    ensures OrderedPending(pending[1..], nextId)
  {
    var tail := pending[1..];
    forall i, j | 0 <= i < j < |tail| ensures tail[i].id < tail[j].id {
      assert tail[i] == pending[i + 1] && tail[j] == pending[j + 1];
    }
  }

  lemma RemoveFirstId(pending: seq<PendingChange>)
    requires pending != []
    requires forall i, j :: 0 <= i < j < |pending| ==> pending[i].id < pending[j].id
    ensures RemoveId(pending, pending[0].id) == pending[1..]
  {
    var id := pending[0].id;
    NoIdIn(pending[1..], id);
  }

  lemma {:induction false} NoIdIn(pending: seq<PendingChange>, id: nat)
    requires forall i :: 0 <= i < |pending| ==> pending[i].id > id
    ensures RemoveId(pending, id) == pending
    decreases |pending|
  {
    if pending != [] {
      NoIdIn(pending[1..], id);
    }
  }

  /** A patch whose key has no stored record is dropped without any write;
      a patch for a stored key whose date range holds exactly one separator
      is saved back under that same key with the merged data and the next
      version. */
  lemma FlushOneEffect(t: Tables, p: PendingChange, now: int, logStored: bool)
    ensures p.dateRange !in t.records ==>
      FlushOne(t, p, now, logStored) == t.(pending := RemoveId(t.pending, p.id))
    ensures p.dateRange in t.records && |Split(p.dateRange, Separator)| == 2 ==>
      var t' := FlushOne(t, p, now, logStored);
      var m := Merged(t.records[p.dateRange], p.changes);
      && p.dateRange in t'.records
      && t'.records[p.dateRange].data == m.data
      && t'.records[p.dateRange].crewInfo == m.crewInfo
      && t'.records[p.dateRange].version == t.records[p.dateRange].version + 1
      && t'.records.Keys == t.records.Keys
  {
    if p.dateRange in t.records && |Split(p.dateRange, Separator)| == 2 {
      RejoinIdentity(p.dateRange);
    }
  }

  /** A pending patch for a key without a separator, such as the draft key,
      is saved under a different key: its second half reads "undefined". */
  lemma DraftPatchSavedElsewhere(t: Tables, p: PendingChange, now: int, logStored: bool)
    requires p.dateRange == "draft" && p.dateRange in t.records
    ensures "draft to undefined" in FlushOne(t, p, now, logStored).records
  {
    DraftKeyRejoin();
  }

  /** A save writes the next version and logs `Update` exactly when the key
      was stored before; a refused log add leaves the record written and the
      log unchanged. */
  lemma SaveVersionAndLog(t: Tables, date1: string, date2: string, data: seq<CrewMember>, crewInfo: CrewInfo, now: int, logStored: bool)
    ensures var key := RangeKey(date1, date2);
      var t' := Saved(t, date1, date2, data, crewInfo, now, logStored);
      && key in t'.records
      && t'.records[key].version == NextVersion(t.records, key)
      && t'.records[key].data == data && t'.records[key].crewInfo == crewInfo
      && (logStored ==> t'.changeLog == t.changeLog + [TrackedChange(Generated, key,
            if key in t.records then Update else Create, SavedPayload(data, crewInfo), now, CurrentUser)])
      && (!logStored ==> t'.changeLog == t.changeLog)
  {
  }

  /** Deleting an absent key changes nothing; deleting a stored key logs
      one `Delete` entry with the old record and removes the key. */
  lemma DeleteEffect(t: Tables, dateRange: string, now: int, logStored: bool)
    ensures dateRange !in t.records ==> Deleted(t, dateRange, now, logStored) == t
    ensures dateRange in t.records ==>
      var t' := Deleted(t, dateRange, now, logStored);
      && dateRange !in t'.records
      && t'.records.Keys == t.records.Keys - {dateRange}
      && t'.changeLog == t.changeLog + (if logStored then
           [TrackedChange(Generated, dateRange, Delete, DeletedPayload(t.records[dateRange]), now, CurrentUser)]
         else [])
  {
  }

  /** A deletion as written: deleting an absent key changes nothing;
      deleting a stored key removes it and logs one `Delete` entry under the
      record's own id, unless an entry already holds that id, in which case
      the refused `add` is swallowed and nothing is logged. */
  lemma DeleteEffectAsWritten(t: Tables, dateRange: string, now: int, logStored: bool)
    ensures dateRange !in t.records ==> DeletedAsWritten(t, dateRange, now, logStored) == t
    ensures dateRange in t.records ==>
      var t' := DeletedAsWritten(t, dateRange, now, logStored);
      var gone := t.records[dateRange];
      && dateRange !in t'.records
      && t'.records.Keys == t.records.Keys - {dateRange}
      && t'.changeLog == t.changeLog + (if logStored && !KeyTaken(t.changeLog, gone.id) then
           [TrackedChange(Explicit(gone.id), dateRange, Delete, DeletedPayload(gone), now, CurrentUser)]
         else [])
  {
  }

  /** Save, delete, save, delete on one fresh key as written: the second
      deletion finds its key taken by the first deletion's entry and is not
      logged, so only three entries are added and the last is the second
      save's `Create`. */
  lemma SecondDeleteUnloggedAsWritten(t: Tables, date1: string, date2: string, data: seq<CrewMember>, crewInfo: CrewInfo, now: int)
    requires RangeKey(date1, date2) !in t.records
    requires !KeyTaken(t.changeLog, RangeKey(date1, date2))
    ensures var k := RangeKey(date1, date2);
      var w := DeletedAsWritten(Saved(DeletedAsWritten(Saved(t, date1, date2, data, crewInfo, now, true), k, now, true),
                                      date1, date2, data, crewInfo, now, true), k, now, true);
      && k !in w.records
      && |w.changeLog| == |t.changeLog| + 3
      && w.changeLog[|t.changeLog| + 2].changeType == Create
  {
    var k := RangeKey(date1, date2);
    var w1 := Saved(t, date1, date2, data, crewInfo, now, true);
    var w2 := DeletedAsWritten(w1, k, now, true);
    assert w1.records[k].id == k;
    assert KeyTaken(w2.changeLog, k) by {
      assert w2.changeLog[|w2.changeLog| - 1].key == Explicit(k);
    }
    var w3 := Saved(w2, date1, date2, data, crewInfo, now, true);
    assert KeyTaken(w3.changeLog, k) by {
      assert w3.changeLog[|w2.changeLog| - 1] == w2.changeLog[|w2.changeLog| - 1];
    }
  }

  /** The same four calls with the deletion logged under a generated id:
      four entries are added and the last is the second `Delete`. */
  lemma SecondDeleteLogged(t: Tables, date1: string, date2: string, data: seq<CrewMember>, crewInfo: CrewInfo, now: int)
    requires RangeKey(date1, date2) !in t.records
    ensures var k := RangeKey(date1, date2);
      var c := Deleted(Saved(Deleted(Saved(t, date1, date2, data, crewInfo, now, true), k, now, true),
                             date1, date2, data, crewInfo, now, true), k, now, true);
      && k !in c.records
      && |c.changeLog| == |t.changeLog| + 4
      && c.changeLog[|t.changeLog| + 3].changeType == Delete
  {
    var k := RangeKey(date1, date2);
    var c1 := Saved(t, date1, date2, data, crewInfo, now, true);
    var c2 := Deleted(c1, k, now, true);
    assert |c2.changeLog| == |t.changeLog| + 2 && k !in c2.records;
    var c3 := Saved(c2, date1, date2, data, crewInfo, now, true);
    assert |c3.changeLog| == |t.changeLog| + 3 && k in c3.records;
  }

  /** Newest first: timestamps never increase along the sequence. */
  predicate NewestFirst(xs: seq<TrackedChange>)
  {
    forall i, j :: 0 <= i < j < |xs| ==> xs[i].timestamp >= xs[j].timestamp
  }

  lemma NewestFirstTail(xs: seq<TrackedChange>)
    requires NewestFirst(xs) && |xs| > 0
    ensures NewestFirst(xs[1..])
  {
    forall i, j | 0 <= i < j < |xs| - 1 ensures xs[1..][i].timestamp >= xs[1..][j].timestamp {
      assert xs[1..][i] == xs[i + 1] && xs[1..][j] == xs[j + 1];
    }
  }

  lemma NewestFirstCons(h: TrackedChange, t: seq<TrackedChange>)
    requires NewestFirst(t) && (|t| > 0 ==> h.timestamp >= t[0].timestamp)
    ensures NewestFirst([h] + t)
  {
    var s := [h] + t;
    forall i, j | 0 <= i < j < |s| ensures s[i].timestamp >= s[j].timestamp {
      if i == 0 {
        assert s[j] == t[j - 1];
        assert t[0].timestamp >= t[j - 1].timestamp || j == 1;
      } else {
        assert s[i] == t[i - 1] && s[j] == t[j - 1];
      }
    }
  }

  /** Keeping the head in front of the insertion into the tail. */
  lemma InsertBehindHead(xs: seq<TrackedChange>, x: TrackedChange, rest: seq<TrackedChange>)
    requires NewestFirst(xs) && |xs| > 0 && x.timestamp < xs[0].timestamp
    requires NewestFirst(rest) && multiset(rest) == multiset(xs[1..]) + multiset{x}
    requires rest[0] == x || (|xs| > 1 && rest[0] == xs[1])
    ensures NewestFirst([xs[0]] + rest)
    ensures multiset([xs[0]] + rest) == multiset(xs) + multiset{x}
  {
    assert xs == [xs[0]] + xs[1..];
    assert multiset(xs) == multiset{xs[0]} + multiset(xs[1..]);
    assert multiset([xs[0]] + rest) == multiset{xs[0]} + multiset(rest);
    assert xs[0].timestamp >= rest[0].timestamp;
    NewestFirstCons(xs[0], rest);
  }

  function InsertByTime(xs: seq<TrackedChange>, x: TrackedChange): (r: seq<TrackedChange>)
    requires NewestFirst(xs)
    ensures NewestFirst(r) && multiset(r) == multiset(xs) + multiset{x}
    ensures r[0] == x || (|xs| > 0 && r[0] == xs[0])
  {
    if xs == [] then [x]
    else if x.timestamp >= xs[0].timestamp then
      NewestFirstCons(x, xs);
      [x] + xs
    else
      NewestFirstTail(xs);
      var rest := InsertByTime(xs[1..], x);
      InsertBehindHead(xs, x, rest);
      [xs[0]] + rest
  }

  /** `sortBy('timestamp')` on a reversed collection. */
  function SortNewestFirst(xs: seq<TrackedChange>): (r: seq<TrackedChange>)
    ensures NewestFirst(r) && multiset(r) == multiset(xs)
  {
    if xs == [] then []
    else
      assert xs == xs[..|xs| - 1] + [xs[|xs| - 1]];
      InsertByTime(SortNewestFirst(xs[..|xs| - 1]), xs[|xs| - 1])
  }

  /** The entries of `log` that satisfy `keep`, in log order. */
  function Select(log: seq<TrackedChange>, keep: TrackedChange -> bool): (r: seq<TrackedChange>)
    ensures forall e :: multiset(r)[e] == if keep(e) then multiset(log)[e] else 0
  {
    if log == [] then []
    else
      assert log == [log[0]] + log[1..];
      (if keep(log[0]) then [log[0]] else []) + Select(log[1..], keep)
  }

  class CTRDataServiceWithTracking {
    var records: map<string, CTRRecord>
    var changeLog: seq<TrackedChange>
    var pending: seq<PendingChange>
    var nextPendingId: nat
    /** The error the constructor's opening of the database ended with. */
    var initFailure: Option<string>

    function State(): Tables
      reads this
    {
      Tables(records, changeLog, pending, nextPendingId)
    }

    ghost predicate Valid()
      reads this
    {
      ValidTables(State())
    }

    /** The service over the persisted tables `stored` that opening the
        IndexedDB database finds, which a fresh database has empty. */
    constructor (stored: Tables, initFailure: Option<string>)
      requires ValidTables(stored)
      ensures Valid() && this.initFailure == initFailure
      ensures State() == stored
    {
      records := stored.records;
      changeLog := stored.changeLog;
      pending := stored.pending;
      nextPendingId := stored.nextPendingId;
      this.initFailure := initFailure;
    }

    /** `ensureDB`: fails with the opening's error for ever once the opening
        failed. */
    function EnsureDB(): (r: Outcome)
      reads this
      ensures r.Fail? <==> initFailure.Some?
      ensures r.Fail? ==> r.error == initFailure.value
    {
      if initFailure.Some? then Fail(initFailure.value) else Pass
    }

    method SaveRecord(date1: string, date2: string, data: seq<CrewMember>, crewInfo: CrewInfo, now: int, logStored: bool)
      returns (r: Outcome)
      requires Valid()
      modifies this
      ensures Valid() && r == EnsureDB() && initFailure == old(initFailure)
      ensures r.Fail? ==> State() == old(State())
      ensures r.Pass? ==> State() == Saved(old(State()), date1, date2, data, crewInfo, now, logStored)
    {
      r := EnsureDB();
      if r.Fail? {
        return;
      }
      var dateRange := RangeKey(date1, date2);
      var existing := if dateRange in records then Some(records[dateRange]) else None;
      var changeType := if existing.Some? then Update else Create;
      records := records[dateRange := CTRRecord(dateRange, dateRange, data, crewInfo, now,
                                                if existing.Some? then existing.value.version + 1 else 1)];
      LogChange(Generated, dateRange, changeType, SavedPayload(data, crewInfo), now, logStored);
    }

    /** `logChange`, whose own errors are caught and dropped. */
    method LogChange(key: LogKey, dateRange: string, c: ChangeType, payload: Payload, now: int, logStored: bool)
      modifies this
      ensures State() == Logged(old(State()), key, dateRange, c, payload, now, logStored)
      ensures initFailure == old(initFailure)
    {
      if logStored && !(key.Explicit? && KeyTaken(changeLog, key.key)) {
        changeLog := changeLog + [TrackedChange(key, dateRange, c, payload, now, CurrentUser)];
      }
    }

    method GetRecord(dateRange: string) returns (r: Result<Option<CTRRecord>>)
      ensures EnsureDB().Fail? ==> r == Err(EnsureDB().error)
      ensures EnsureDB().Pass? ==> r.Ok? && (r.value.Some? <==> dateRange in records)
      ensures EnsureDB().Pass? && dateRange in records ==> r.value.value == records[dateRange]
    {
      var ready := EnsureDB();
      if ready.Fail? {
        return Err(ready.error);
      }
      return Ok(if dateRange in records then Some(records[dateRange]) else None);
    }

    /** Every stored date range, in ascending string order. */
    method GetAllDateRanges() returns (r: Result<seq<string>>)
      requires Valid()
      ensures EnsureDB().Fail? ==> r == Err(EnsureDB().error)
      ensures EnsureDB().Pass? ==> r.Ok? && StrictlySorted(r.value) && |r.value| == |records|
      ensures EnsureDB().Pass? ==> forall x :: x in r.value <==> exists k :: k in records && records[k].dateRange == x
    {
      var ready := EnsureDB();
      if ready.Fail? {
        return Err(ready.error);
      }
      var ranges := SortKeys(records.Keys);
      assert forall x :: (exists k :: k in records && records[k].dateRange == x) ==> x in records;
      return Ok(ranges);
    }

    method DeleteRecord(dateRange: string, now: int, logStored: bool) returns (r: Outcome)
      requires Valid()
      modifies this
      ensures Valid() && r == EnsureDB() && initFailure == old(initFailure)
      ensures r.Fail? ==> State() == old(State())
      ensures r.Pass? ==> State() == Deleted(old(State()), dateRange, now, logStored)
    {
      r := EnsureDB();
      if r.Fail? {
        return;
      }
      if dateRange in records {
        LogChange(Generated, dateRange, Delete, DeletedPayload(records[dateRange]), now, logStored);
        records := Without(records, dateRange);
      }
    }

    /** That date range's entries, newest first. */
    method GetChangeHistory(dateRange: string) returns (r: Result<seq<TrackedChange>>)
      ensures EnsureDB().Fail? ==> r == Err(EnsureDB().error)
      ensures EnsureDB().Pass? ==> r.Ok? && NewestFirst(r.value)
      ensures EnsureDB().Pass? ==> (forall e :: multiset(r.value)[e] ==
                                          if e.dateRange == dateRange then multiset(changeLog)[e] else 0)
    {
      var ready := EnsureDB();
      if ready.Fail? {
        return Err(ready.error);
      }
      var entries := Select(changeLog, (e: TrackedChange) => e.dateRange == dateRange);
      return Ok(SortNewestFirst(entries));
    }

    /** The entries strictly later than `timestamp`, newest first. */
    method GetChangesSince(timestamp: int) returns (r: Result<seq<TrackedChange>>)
      ensures EnsureDB().Fail? ==> r == Err(EnsureDB().error)
      ensures EnsureDB().Pass? ==> r.Ok? && NewestFirst(r.value)
      ensures EnsureDB().Pass? ==> (forall e :: multiset(r.value)[e] ==
                                          if e.timestamp > timestamp then multiset(changeLog)[e] else 0)
    {
      var ready := EnsureDB();
      if ready.Fail? {
        return Err(ready.error);
      }
      var entries := Select(changeLog, (e: TrackedChange) => e.timestamp > timestamp);
      return Ok(SortNewestFirst(entries));
    }

    method TrackFieldChange(dateRange: string, field: string, oldValue: string, newValue: string, now: int, logStored: bool)
      returns (r: Outcome)
      modifies this
      ensures r == EnsureDB() && initFailure == old(initFailure)
      ensures r.Fail? ==> State() == old(State())
      ensures r.Pass? ==> State() == Logged(old(State()), Generated, dateRange, Update,
                                           FieldPayload(field, oldValue, newValue), now, logStored)
    {
      r := EnsureDB();
      if r.Fail? {
        return;
      }
      LogChange(Generated, dateRange, Update, FieldPayload(field, oldValue, newValue), now, logStored);
    }

    /** One turn of the flush loop. */
    method FlushEntry(p: PendingChange, now: int, logStored: bool)
      requires Valid() && EnsureDB().Pass?
      requires pending != [] && p == pending[0]
      modifies this
      ensures Valid() && initFailure == old(initFailure)
      ensures State() == FlushOne(old(State()), p, now, logStored)
      ensures pending == old(pending)[1..]
    {
      ghost var t0 := State();
      if p.dateRange in records {
        var m := Merged(records[p.dateRange], p.changes);
        var _ := SaveRecord(FirstDate(p.dateRange), SecondDate(p.dateRange), m.data, m.crewInfo, now, logStored);
        SaveKeepsPending(t0, FirstDate(p.dateRange), SecondDate(p.dateRange), m.data, m.crewInfo, now, logStored);
      }
      assert FlushOne(t0, p, now, logStored) == State().(pending := RemoveId(pending, p.id));
      RemoveFirstId(pending);
      OrderedTail(pending, nextPendingId);
      pending := RemoveId(pending, p.id);
    }

    /** Flushes every pending patch, in id order. */
    method SavePendingChanges(now: int, logStored: bool) returns (r: Outcome)
      requires Valid()
      modifies this
      ensures Valid() && r == EnsureDB() && initFailure == old(initFailure)
      ensures r.Fail? ==> State() == old(State())
      ensures r.Pass? ==> State() == Flush(old(State()), old(pending), now, logStored) && pending == []
    {
      r := EnsureDB();
      if r.Fail? {
        return;
      }
      FlushEmptiesPending(State(), now, logStored);
      var snapshot := pending;
      var i := 0;
      while i < |snapshot|
        invariant 0 <= i <= |snapshot|
        invariant Valid() && initFailure == old(initFailure) && EnsureDB().Pass?
        invariant pending == snapshot[i..]
        invariant Flush(State(), snapshot[i..], now, logStored) == Flush(old(State()), snapshot, now, logStored)
      {
        assert snapshot[i..][1..] == snapshot[i + 1..];
        FlushEntry(snapshot[i], now, logStored);
        i := i + 1;
      }
    }

    method AddPendingChange(dateRange: string, changes: RecordPatch, now: int) returns (r: Outcome)
      requires Valid()
      modifies this
      ensures Valid() && r == EnsureDB() && initFailure == old(initFailure)
      ensures r.Fail? ==> State() == old(State())
      ensures r.Pass? ==> records == old(records) && changeLog == old(changeLog)
      ensures r.Pass? ==> pending == old(pending) + [PendingChange(old(nextPendingId), dateRange, changes, now)]
    {
      r := EnsureDB();
      if r.Fail? {
        return;
      }
      pending := pending + [PendingChange(nextPendingId, dateRange, changes, now)];
      nextPendingId := nextPendingId + 1;
    }

    method GetPendingChangesCount() returns (r: Result<nat>)
      ensures EnsureDB().Fail? ==> r == Err(EnsureDB().error)
      ensures EnsureDB().Pass? ==> r == Ok(|pending|)
    {
      var ready := EnsureDB();
      if ready.Fail? {
        return Err(ready.error);
      }
      return Ok(|pending|);
    }

    method ClearPendingChanges() returns (r: Outcome)
      requires Valid()
      modifies this
      ensures Valid() && r == EnsureDB() && initFailure == old(initFailure)
      ensures r.Fail? ==> State() == old(State())
      ensures r.Pass? ==> State() == old(State()).(pending := [])
    {
      r := EnsureDB();
      if r.Fail? {
        return;
      }
      pending := [];
    }

    method GetDatabaseStats() returns (r: Result<Stats>)
      ensures EnsureDB().Fail? ==> r == Err(EnsureDB().error)
      ensures EnsureDB().Pass? ==> r.Ok? && r.value.totalRecords == |records|
      ensures EnsureDB().Pass? ==> r.value.totalChanges == |changeLog| && r.value.pendingChanges == |pending|
      ensures EnsureDB().Pass? ==> IsLatest(records, r.value.lastModified)
    {
      var ready := EnsureDB();
      if ready.Fail? {
        return Err(ready.error);
      }
      var latest := LatestModifiedOf(records);
      return Ok(Stats(|records|, |changeLog|, |pending|, latest));
    }
  }
}
