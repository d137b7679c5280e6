/** The stored record and change-log vocabulary shared by both record
    repositories (the `CTRRecord` and `ChangeLog` interfaces of
    src/db/dexieDatabase.ts and src/db/databaseManager.ts). */
module Records {
  import opened Types

  /** One report, stored under its date-range key `id`. */
  datatype CTRRecord = CTRRecord(
    id: string,
    dateRange: string,
    data: seq<CrewMember>,
    crewInfo: CrewInfo,
    lastModified: int,
    version: nat)

  datatype ChangeType = Create | Update | Delete

  /** Records as the repositories keep them: every record sits under its own
      date range. */
  ghost predicate WellKeyed(records: map<string, CTRRecord>)
  {
    forall k :: k in records ==> records[k].id == k && records[k].dateRange == k
  }

  /** The version a write under `key` gives: one more than the stored
      record's, or 1 for a key not yet stored. */
  function NextVersion(records: map<string, CTRRecord>, key: string): (v: nat)
    ensures v >= 1
    ensures key !in records ==> v == 1
    ensures key in records ==> v > records[key].version
  {
    if key in records then records[key].version + 1 else 1
  }

  /** The change type a write under `key` logs, decided by the read before
      the write. */
  function WriteType(records: map<string, CTRRecord>, key: string): (c: ChangeType)
    ensures c != Delete
    ensures c == Update <==> key in records
  {
    if key in records then Update else Create
  }

  /** The `lastModified` of the last record in `lastModified` order, or 0
      when there is none: the largest stored `lastModified`. */
  ghost function LatestModified(records: map<string, CTRRecord>): (r: int)
    ensures IsLatest(records, r)
    decreases |records|
  {
    if records == map[] then 0
    else
      var k :| k in records;
      var rest := Without(records, k);
      if rest == map[] then
        assert records.Keys == {k};
        records[k].lastModified
      else
        var m := LatestModified(rest);
        if records[k].lastModified >= m then records[k].lastModified else m
  }

  /** `r` bounds every stored `lastModified` and is one of them, or is 0
      for an empty store. */
  ghost predicate IsLatest(records: map<string, CTRRecord>, r: int)
  {
    IsLatestOver(records, records.Keys, r)
  }

  /** `r` is the latest `lastModified` among the records under `keys`. */
  ghost predicate IsLatestOver(records: map<string, CTRRecord>, keys: set<string>, r: int)
    requires keys <= records.Keys
  {
    && (keys == {} ==> r == 0)
    && (keys != {} ==> exists k :: k in keys && records[k].lastModified == r)
    && (forall k :: k in keys ==> records[k].lastModified <= r)
  }

  lemma LatestUnique(records: map<string, CTRRecord>, r: int)
    requires IsLatest(records, r)
    ensures r == LatestModified(records)
  {
    var m := LatestModified(records);
    if records != map[] {
      var k1 :| k1 in records && records[k1].lastModified == r;
      var k2 :| k2 in records && records[k2].lastModified == m;
      assert r <= m && m <= r;
    }
  }

  function Without(records: map<string, CTRRecord>, k: string): (r: map<string, CTRRecord>)
    ensures r.Keys == records.Keys - {k}
    ensures k in records ==> |r| == |records| - 1
    ensures forall k' :: k' in r ==> r[k'] == records[k']
  {
    var r := map k' | k' in records && k' != k :: records[k'];
    assert r.Keys == records.Keys - {k};
    r
  }

  /** One step of the scan: taking in the record under `k`. */
  lemma LatestStep(records: map<string, CTRRecord>, done: set<string>, k: string, r: int)
    requires done <= records.Keys && k in records && IsLatestOver(records, done, r)
    ensures var r' := if done == {} || records[k].lastModified >= r then records[k].lastModified else r;
            IsLatestOver(records, done + {k}, r')
  {
    if done != {} {
      var w :| w in done && records[w].lastModified == r;
      assert w in done + {k};
    }
    assert k in done + {k};
  }

  /** Moving one key from the keys still to scan to the scanned ones. */
  lemma MoveKey(done: set<string>, todo: set<string>, keys: set<string>, k: string)
    requires todo !! done && todo + done == keys && k in todo
    ensures (todo - {k}) !! (done + {k}) && (todo - {k}) + (done + {k}) == keys
    ensures |todo - {k}| < |todo|
  {
  }

  /** The scan over the `lastModified` index that the statistics queries
      perform, as a loop over the stored keys. */
  method LatestModifiedOf(records: map<string, CTRRecord>) returns (r: int)
    ensures IsLatest(records, r)
  {
    r := 0;
    var done: set<string> := {};
    var todo := records.Keys;
    var first := true;
    while todo != {}
      invariant todo !! done && todo + done == records.Keys
      invariant first <==> done == {}
      invariant IsLatestOver(records, done, r)
      decreases |todo|
    {
      var k :| k in todo;
      LatestStep(records, done, k, r);
      MoveKey(done, todo, records.Keys, k);
      if first || records[k].lastModified >= r {
        r := records[k].lastModified;
      }
      first := false;
      done := done + {k};
      todo := todo - {k};
    }
  }
}
