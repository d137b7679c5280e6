/** The simplified record repository of src/db/stableDexieService.ts: a
    keyed record table plus an append-only change log with an
    auto-incremented id. Every operation first obtains the database from the
    lifecycle gate; that step's outcome is an input (`db`), and a failure is
    passed on to the caller with nothing changed. Timestamps are the input
    `now`. */
module StableService {
  import opened Types
  import opened Strings
  import opened DateRanges
  import opened Records

  /** One change-log row: this repository logs no payload. */
  datatype LogEntry = LogEntry(id: nat, dateRange: string, changeType: ChangeType, timestamp: int)

  /** The two tables. */
  datatype Store = Store(records: map<string, CTRRecord>, changeLog: seq<LogEntry>)

  datatype Stats = Stats(totalRecords: nat, totalChanges: nat, lastModified: int)

  /** Log ids are the auto-increment sequence 1, 2, 3, ... */
  ghost predicate NumberedLog(log: seq<LogEntry>)
  {
    forall i :: 0 <= i < |log| ==> log[i].id == i + 1
  }

  ghost predicate ValidStore(s: Store)
  {
    WellKeyed(s.records) && NumberedLog(s.changeLog)
  }

  function Append(log: seq<LogEntry>, dateRange: string, c: ChangeType, now: int): seq<LogEntry>
  {
    log + [LogEntry(|log| + 1, dateRange, c, now)]
  }

  /** `saveRecord(date1, date2, data, crewInfo)` on a reachable database:
      read the key, put the record with the next version, log the write. */
  function Saved(s: Store, date1: string, date2: string, data: seq<CrewMember>, crewInfo: CrewInfo, now: int): Store
  {
    var key := RangeKey(date1, date2);
    Store(
      s.records[key := CTRRecord(key, key, data, crewInfo, now, NextVersion(s.records, key))],
      Append(s.changeLog, key, WriteType(s.records, key), now))
  }

  /** `deleteRecord(dateRange)`: log a deletion unconditionally, then delete
      the key whether or not it is stored. */
  function Deleted(s: Store, dateRange: string, now: int): Store
  {
    Store(Without(s.records, dateRange), Append(s.changeLog, dateRange, Delete, now))
  }

  /** Both writes keep every record under its own key and the log ids
      consecutive. */
  lemma WritesKeepStoreValid(s: Store, date1: string, date2: string, data: seq<CrewMember>, crewInfo: CrewInfo, dateRange: string, now: int)
    requires ValidStore(s)
    ensures ValidStore(Saved(s, date1, date2, data, crewInfo, now))
    ensures ValidStore(Deleted(s, dateRange, now))
  {
  }

  /** A save writes the version one past the stored one, or 1 for a new key,
      and appends exactly one entry: `Update` when the key was stored before
      the write, `Create` otherwise. */
  lemma SaveVersionAndLog(s: Store, date1: string, date2: string, data: seq<CrewMember>, crewInfo: CrewInfo, now: int)
    ensures var key := RangeKey(date1, date2);
      var s' := Saved(s, date1, date2, data, crewInfo, now);
      && key in s'.records
      && s'.records[key].version == (if key in s.records then s.records[key].version + 1 else 1)
      && s'.records[key].data == data && s'.records[key].crewInfo == crewInfo
      && |s'.changeLog| == |s.changeLog| + 1
      && s'.changeLog[..|s.changeLog|] == s.changeLog
      && s'.changeLog[|s.changeLog|].dateRange == key
      && (s'.changeLog[|s.changeLog|].changeType == Update <==> key in s.records)
      && s'.changeLog[|s.changeLog|].changeType != Delete
  {
    var key := RangeKey(date1, date2);
    var s' := Saved(s, date1, date2, data, crewInfo, now);
    assert s'.changeLog[..|s.changeLog|] == s.changeLog;
  }

  /** A save touches no other key. */
  lemma SaveOnlyTouchesItsKey(s: Store, date1: string, date2: string, data: seq<CrewMember>, crewInfo: CrewInfo, now: int, other: string)
    requires other != RangeKey(date1, date2)
    ensures var s' := Saved(s, date1, date2, data, crewInfo, now);
      (other in s'.records <==> other in s.records) &&
      (other in s.records ==> s'.records[other] == s.records[other])
  {
  }

  /** `n` saves of the same key, at the times `nows`. */
  function SaveRepeatedly(s: Store, date1: string, date2: string, data: seq<CrewMember>, crewInfo: CrewInfo, nows: seq<int>): Store
    decreases |nows|
  {
    if nows == [] then s
    else SaveRepeatedly(Saved(s, date1, date2, data, crewInfo, nows[0]), date1, date2, data, crewInfo, nows[1..])
  }

  /** After `n` saves of one key its version has grown by `n`, the log by
      exactly `n` entries for that key, and every entry but possibly the
      first is an `Update`. */
  lemma {:induction false} RepeatedSavesVersion(s: Store, date1: string, date2: string, data: seq<CrewMember>, crewInfo: CrewInfo, nows: seq<int>)
    ensures var key := RangeKey(date1, date2);
      var s' := SaveRepeatedly(s, date1, date2, data, crewInfo, nows);
      && (key in s'.records <==> key in s.records || |nows| > 0)
      && (|nows| > 0 ==> s'.records[key].version == (if key in s.records then s.records[key].version else 0) + |nows|)
      && |s'.changeLog| == |s.changeLog| + |nows|
      && s'.changeLog[..|s.changeLog|] == s.changeLog
      && (forall i :: |s.changeLog| <= i < |s'.changeLog| ==> s'.changeLog[i].dateRange == key)
      && (|nows| > 0 ==> s'.changeLog[|s.changeLog|].changeType == WriteType(s.records, key))
      && (forall i :: |s.changeLog| < i < |s'.changeLog| ==> s'.changeLog[i].changeType == Update)
    decreases |nows|
  {
    var key := RangeKey(date1, date2);
    if nows != [] {
      var s1 := Saved(s, date1, date2, data, crewInfo, nows[0]);
      SaveVersionAndLog(s, date1, date2, data, crewInfo, nows[0]);
      RepeatedSavesVersion(s1, date1, date2, data, crewInfo, nows[1..]);
      var s' := SaveRepeatedly(s1, date1, date2, data, crewInfo, nows[1..]);
      assert s'.changeLog[..|s.changeLog|] == s1.changeLog[..|s1.changeLog|][..|s.changeLog|];
      forall i | |s.changeLog| < i < |s'.changeLog| ensures s'.changeLog[i].changeType == Update {
        assert i >= |s1.changeLog|;
      }
      assert s'.changeLog[|s.changeLog|] == s1.changeLog[|s.changeLog|] by {
        assert s'.changeLog[..|s1.changeLog|] == s1.changeLog;
      }
      forall i | |s.changeLog| <= i < |s'.changeLog| ensures s'.changeLog[i].dateRange == key {
        if i < |s1.changeLog| {
          assert s'.changeLog[i] == s1.changeLog[i];
        }
      }
    }
  }

  /** `n` consecutive saves to a key not yet stored leave version `n` and
      exactly `n` new log entries, the first a `Create`. */
  lemma FreshKeySaves(s: Store, date1: string, date2: string, data: seq<CrewMember>, crewInfo: CrewInfo, nows: seq<int>)
    requires RangeKey(date1, date2) !in s.records && |nows| > 0
    ensures var s' := SaveRepeatedly(s, date1, date2, data, crewInfo, nows);
      && RangeKey(date1, date2) in s'.records
      && s'.records[RangeKey(date1, date2)].version == |nows|
      && |s'.changeLog| == |s.changeLog| + |nows|
      && s'.changeLog[|s.changeLog|].changeType == Create
  {
    RepeatedSavesVersion(s, date1, date2, data, crewInfo, nows);
  }

  /** A delete always logs, present key or not; two deletes of one key give
      two `Delete` entries and leave the key absent. */
  lemma DeleteTwiceLogsTwice(s: Store, dateRange: string, t1: int, t2: int)
    ensures var s' := Deleted(Deleted(s, dateRange, t1), dateRange, t2);
      && dateRange !in s'.records
      && |s'.changeLog| == |s.changeLog| + 2
      && s'.changeLog[|s.changeLog|].changeType == Delete
      && s'.changeLog[|s.changeLog| + 1].changeType == Delete
      && s'.changeLog[..|s.changeLog|] == s.changeLog
  {
    var s' := Deleted(Deleted(s, dateRange, t1), dateRange, t2);
    assert s'.changeLog[..|s.changeLog|] == s.changeLog;
  }

  class StableCTRService {
    var records: map<string, CTRRecord>
    var changeLog: seq<LogEntry>

    ghost predicate Valid()
      reads this
    {
      ValidStore(Tables())
    }

    function Tables(): Store
      reads this
    {
      Store(records, changeLog)
    }

    /** The service over the persisted tables `stored` of the database
        `databaseManager` opens, which a fresh database has empty. */
    constructor (stored: Store)
      requires ValidStore(stored)
      ensures Valid() && Tables() == stored
    {
      records := stored.records;
      changeLog := stored.changeLog;
    }

    method SaveRecord(db: Outcome, date1: string, date2: string, data: seq<CrewMember>, crewInfo: CrewInfo, now: int)
      returns (r: Outcome)
      requires Valid()
      modifies this
      ensures Valid()
      ensures r == db
      ensures db.Fail? ==> Tables() == old(Tables())
      ensures db.Pass? ==> Tables() == Saved(old(Tables()), date1, date2, data, crewInfo, now)
    {
      if db.Fail? {
        return db;
      }
      ghost var target := Saved(Tables(), date1, date2, data, crewInfo, now);
      WritesKeepStoreValid(Tables(), date1, date2, data, crewInfo, "", now);
      var dateRange := RangeKey(date1, date2);
      var existing := if dateRange in records then Some(records[dateRange]) else None;
      var version := if existing.Some? then existing.value.version + 1 else 1;
      var records' := records[dateRange := CTRRecord(dateRange, dateRange, data, crewInfo, now, version)];
      var changeLog' := changeLog + [LogEntry(|changeLog| + 1, dateRange, if existing.Some? then Update else Create, now)];
      assert records' == target.records && changeLog' == target.changeLog;
      records, changeLog := records', changeLog';
      return Pass;
    }

    method GetRecord(db: Outcome, dateRange: string) returns (r: Result<Option<CTRRecord>>)
      ensures db.Fail? ==> r == Err(db.error)
      ensures db.Pass? ==> r.Ok? && (r.value.Some? <==> dateRange in records)
      ensures db.Pass? && dateRange in records ==> r.value.value == records[dateRange]
    {
      if db.Fail? {
        return Err(db.error);
      }
      return Ok(if dateRange in records then Some(records[dateRange]) else None);
    }

    /** Every stored date range, in ascending string order. */
    method GetAllDateRanges(db: Outcome) returns (r: Result<seq<string>>)
      requires Valid()
      ensures db.Fail? ==> r == Err(db.error)
      ensures db.Pass? ==> r.Ok? && StrictlySorted(r.value) && |r.value| == |records|
      ensures db.Pass? ==> forall x :: x in r.value <==> exists k :: k in records && records[k].dateRange == x
    {
      if db.Fail? {
        return Err(db.error);
      }
      var ranges := SortKeys(records.Keys);
      assert forall x :: (exists k :: k in records && records[k].dateRange == x) ==> x in records;
      return Ok(ranges);
    }

    method DeleteRecord(db: Outcome, dateRange: string, now: int) returns (r: Outcome)
      requires Valid()
      modifies this
      ensures Valid()
      ensures r == db
      ensures db.Fail? ==> Tables() == old(Tables())
      ensures db.Pass? ==> Tables() == Deleted(old(Tables()), dateRange, now)
    {
      if db.Fail? {
        return db;
      }
      changeLog := changeLog + [LogEntry(|changeLog| + 1, dateRange, Delete, now)];
      records := Without(records, dateRange);
      WritesKeepStoreValid(old(Tables()), "", "", [], CrewInfo("", "", "", "", None, None), dateRange, now);
      return Pass;
    }

    method GetDatabaseStats(db: Outcome) returns (r: Result<Stats>)
      ensures db.Fail? ==> r == Err(db.error)
      ensures db.Pass? ==> r.Ok? && r.value.totalRecords == |records| && r.value.totalChanges == |changeLog|
      ensures db.Pass? ==> IsLatest(records, r.value.lastModified)
    {
      if db.Fail? {
        return Err(db.error);
      }
      var latest := LatestModifiedOf(records);
      return Ok(Stats(|records|, |changeLog|, latest));
    }
  }

  /** After `deleteRecord(k)`, `getRecord(k)` finds nothing. */
  lemma GetAfterDelete(s: Store, dateRange: string, now: int)
    ensures dateRange !in Deleted(s, dateRange, now).records
  {
  }
}
