/** Forward propagation of src/utils/changePropagate.ts: the fuzzy
    `valuesMatch` predicate, and `propagateChangesForward`, which scans the
    dates after `fromDate` in ascending order, overwrites each field whose
    stored value equals a change's old value, logs the applied changes, and
    stops at the first record where nothing matched. The three tables it
    reads are modelled abstractly: the dates table as the set of its dates,
    the per-date rows as a map from date to a field-to-value map, and the
    log as the sequence of entries added. A store write that throws is the
    input `fault`. */
module ChangePropagation {
  import opened Types
  import opened Strings

  // ---------------------------------------------------------------------
  // valuesMatch

  /** `value.trim().replace(/\s+/g, ' ')`. */
  function Clean(v: string): string
  {
    CollapseSpaces(Trim(v))
  }

  /** The lower-cased words of the cleaned value, `split(' ')`. */
  function Words(v: string): (ws: seq<string>)
    ensures |ws| >= 1
  {
    Split(ToLower(Clean(v)), " ")
  }

  /** One word starts with the other. */
  predicate Related(a: string, b: string)
  {
    StartsWith(a, b) || StartsWith(b, a)
  }

  /** `ws1.every(w => ws2.some(w2 => related))`. */
  predicate Covers(ws1: seq<string>, ws2: seq<string>)
  {
    forall i | 0 <= i < |ws1| :: exists j | 0 <= j < |ws2| :: Related(ws1[i], ws2[j])
  }

  predicate ValuesMatch(v1: string, v2: string)
  {
    v1 == v2 || Clean(v1) == Clean(v2) || Covers(Words(v1), Words(v2)) || Covers(Words(v2), Words(v1))
  }

  /** Identical values match, and so do values equal once trimmed and with
      white-space runs collapsed. */
  lemma MatchesWhenEqualOrCleanEqual(v1: string, v2: string)
    ensures ValuesMatch(v1, v1)
    ensures Clean(v1) == Clean(v2) ==> ValuesMatch(v1, v2)
  {
  }

  /** The predicate is symmetric. */
  lemma ValuesMatchSymmetric(v1: string, v2: string)
    ensures ValuesMatch(v1, v2) <==> ValuesMatch(v2, v1)
  {
  }

  lemma SplitEmpty(sep: string)
    requires |sep| > 0
    ensures Split("", sep) == [""]
  {
    var parts := Split("", sep);
    if |parts| > 1 {
      JoinLength(parts, sep);
    }
  }

  lemma {:induction false} JoinLength(parts: seq<string>, sep: string)
    requires |parts| > 1
    ensures |Join(parts, sep)| >= |sep|
    decreases |parts|
  {
    if |parts| > 2 {
      JoinLength(parts[1..], sep);
    }
  }

  /** A blank value has the empty string as its only word. */
  lemma BlankWords(v: string)
    requires AllSpace(v)
    ensures Words(v) == [""]
  {
    assert Trim(v) == "";
    assert ToLower(Clean(v)) == "";
    SplitEmpty(" ");
  }

  /** The empty word is a prefix of the first word of any word list. */
  lemma EmptyWordCovers(ws: seq<string>)
    requires |ws| >= 1
    ensures Covers([""], ws)
  {
    assert ws[0][..0] == "";
    assert Related([""][0], ws[0]);
  }

  /** A blank value matches every value through the word-prefix rule: its
      only word is the empty string, a prefix of any word. */
  lemma BlankMatchesEverything(v1: string, v2: string)
    requires AllSpace(v1)
    ensures ValuesMatch(v1, v2)
  {
    BlankWords(v1);
    EmptyWordCovers(Words(v2));
  }

  /** Word-by-word abbreviation matches (`"J Smith"` against
      `"John Smith"`): when each word of the first value begins the word in
      the same position of the second, the two values match, in either
      order. */
  lemma AbbreviationMatches(v1: string, v2: string)
    requires |Words(v1)| <= |Words(v2)|
    requires forall i :: 0 <= i < |Words(v1)| ==> StartsWith(Words(v2)[i], Words(v1)[i])
    ensures ValuesMatch(v1, v2) && ValuesMatch(v2, v1)
  {
  }

  // ---------------------------------------------------------------------
  // propagateChangesForward

  /** A stored row: field name to value. */
  type Row = map<string, string>

  datatype Entry = Entry(date: string, field: string, oldValue: string, newValue: string, timestamp: int)

  datatype StoreFault = StoreFault(index: nat, message: string)

  /** The change's field currently holds exactly its old value. */
  predicate Matches(c: CellChange, row: Row)
  {
    c.field in row && row[c.field] == c.oldValue
  }

  /** The `updates` object after the inner loop over `changes`: every
      matching change sets its field, a later one overriding an earlier. */
  function Updates(changes: seq<CellChange>, row: Row): (u: map<string, string>)
    ensures forall f :: f in u ==> exists i :: 0 <= i < |changes| && changes[i].field == f && Matches(changes[i], row)
    ensures forall i :: 0 <= i < |changes| && Matches(changes[i], row) ==> changes[i].field in u
    decreases |changes|
  {
    if changes == [] then map[]
    else
      var u := Updates(changes[..|changes| - 1], row);
      var c := changes[|changes| - 1];
      if Matches(c, row) then u[c.field := c.newValue] else u
  }

  /** The rows entries for one date: each change, in order, whose field
      received a non-empty value. */
  function LogEntries(changes: seq<CellChange>, u: map<string, string>, date: string, now: int): (es: seq<Entry>)
    ensures |es| <= |changes|
    ensures forall e :: e in es ==> e.date == date && e.field in u && u[e.field] != ""
    decreases |changes|
  {
    if changes == [] then []
    else
      var es := LogEntries(changes[..|changes| - 1], u, date, now);
      var c := changes[|changes| - 1];
      if c.field in u && u[c.field] != "" then es + [Entry(date, c.field, c.oldValue, c.newValue, now)] else es
  }

  datatype Scanned = Scanned(tables: map<string, Row>, entries: seq<Entry>, stopped: bool)

  /** The outer loop over the dates `ds`, in order. A date with no row is
      skipped; a row with at least one matching change is overwritten with
      the updates and continues the scan; a row with none stops it. */
  function Scan(ds: seq<string>, changes: seq<CellChange>, t: map<string, Row>, now: int): Scanned
    decreases |ds|
  {
    if ds == [] then Scanned(t, [], false)
    else
      var prev := Scan(ds[..|ds| - 1], changes, t, now);
      var d := ds[|ds| - 1];
      if prev.stopped || d !in prev.tables then prev
      else
        var u := Updates(changes, prev.tables[d]);
        if u == map[] then prev.(stopped := true)
        else Scanned(prev.tables[d := prev.tables[d] + u], prev.entries + LogEntries(changes, u, d, now), false)
  }

  /** One more date of a scan that has not stopped: skipped when it has no
      row, updated when some change applies. */
  lemma ScanStep(ds: seq<string>, i: nat, changes: seq<CellChange>, t: map<string, Row>, now: int,
                 t': map<string, Row>, added: seq<Entry>)
    requires i < |ds| && Scan(ds[..i], changes, t, now) == Scanned(t', added, false)
    ensures ds[i] !in t' ==> Scan(ds[..i + 1], changes, t, now) == Scanned(t', added, false)
    ensures ds[i] in t' && Updates(changes, t'[ds[i]]) != map[] ==>
              var u := Updates(changes, t'[ds[i]]);
              Scan(ds[..i + 1], changes, t, now)
              == Scanned(t'[ds[i] := t'[ds[i]] + u], added + LogEntries(changes, u, ds[i], now), false)
  {
    assert ds[..i + 1][..i] == ds[..i];
  }

  /** The scan only ever changes rows of the dates it visits, and never adds
      or removes a row. */
  lemma {:induction false} ScanFrame(ds: seq<string>, changes: seq<CellChange>, t: map<string, Row>, now: int)
    ensures Scan(ds, changes, t, now).tables.Keys == t.Keys
    ensures forall d :: d in t && d !in ds ==> Scan(ds, changes, t, now).tables[d] == t[d]
    decreases |ds|
  {
    if ds != [] {
      ScanFrame(ds[..|ds| - 1], changes, t, now);
    }
  }

  /** A visited row is changed only in the fields whose value `===` was a
      change's old value; every other field keeps its value. */
  lemma UpdateGate(changes: seq<CellChange>, row: Row, f: string)
    requires f in row
    requires forall i :: 0 <= i < |changes| && changes[i].field == f ==> row[f] != changes[i].oldValue
    ensures f in row + Updates(changes, row) && (row + Updates(changes, row))[f] == row[f]
  {
  }

  /** Once the scan meets a record where no change matches, it stops: the
      dates after it are not touched and nothing more is logged. */
  lemma {:induction false} StopsAtFirstMismatch(ds: seq<string>, k: nat, changes: seq<CellChange>, t: map<string, Row>, now: int)
    requires k < |ds|
    requires var prev := Scan(ds[..k], changes, t, now);
      !prev.stopped && ds[k] in prev.tables && Updates(changes, prev.tables[ds[k]]) == map[]
    ensures Scan(ds, changes, t, now) == Scan(ds[..k], changes, t, now).(stopped := true)
    decreases |ds|
  {
    if |ds| == k + 1 {
      assert ds[..|ds| - 1] == ds[..k];
    } else {
      var ds' := ds[..|ds| - 1];
      assert ds'[..k] == ds[..k];
      StopsAtFirstMismatch(ds', k, changes, t, now);
    }
  }

  /** A record where at least one change matches is overwritten and the
      scan goes on to the next date. */
  lemma ContinuesAfterMatch(ds: seq<string>, changes: seq<CellChange>, t: map<string, Row>, now: int)
    requires ds != [] && ds[0] in t && Updates(changes, t[ds[0]]) != map[]
    ensures var s := Scan(ds[..1], changes, t, now);
      && !s.stopped
      && s.tables == t[ds[0] := t[ds[0]] + Updates(changes, t[ds[0]])]
  {
    assert ds[..1][..0] == [];
  }

  /** A change whose new value is '' updates the field but is not logged. */
  lemma ClearingIsNotLogged(changes: seq<CellChange>, row: Row, date: string, now: int)
    requires forall i :: 0 <= i < |changes| ==> changes[i].newValue == ""
    ensures LogEntries(changes, Updates(changes, row), date, now) == []
  {
    ClearedUpdates(changes, row);
    NoEntriesForBlankUpdates(changes, Updates(changes, row), date, now);
  }

  lemma {:induction false} NoEntriesForBlankUpdates(changes: seq<CellChange>, u: map<string, string>, date: string, now: int)
    requires forall f :: f in u ==> u[f] == ""
    ensures LogEntries(changes, u, date, now) == []
    decreases |changes|
  {
    if changes != [] {
      NoEntriesForBlankUpdates(changes[..|changes| - 1], u, date, now);
    }
  }

  lemma {:induction false} ClearedUpdates(changes: seq<CellChange>, row: Row)
    requires forall i :: 0 <= i < |changes| ==> changes[i].newValue == ""
    ensures forall f :: f in Updates(changes, row) ==> Updates(changes, row)[f] == ""
    decreases |changes|
  {
    if changes != [] {
      ClearedUpdates(changes[..|changes| - 1], row);
    }
  }

  /** A change is logged whenever its field received a value, even from
      another change: with two changes of one field only the first of which
      matches, both are logged. */
  lemma UnmatchedChangeOfUpdatedFieldIsLogged()
    ensures var changes := [CellChange("name1", "a", "b"), CellChange("name1", "c", "d")];
      var row := map["name1" := "a"];
      |LogEntries(changes, Updates(changes, row), "2024-06-02", 0)| == 2
  {
    var changes := [CellChange("name1", "a", "b"), CellChange("name1", "c", "d")];
    var row := map["name1" := "a"];
    assert changes[..1][..0] == [];
    assert Updates(changes[..1], row) == map["name1" := "b"];
    assert Updates(changes, row) == map["name1" := "b"];
  }

  /** One step of the outer loop. */
  method VisitDate(d: string, changes: seq<CellChange>, tables: map<string, Row>, now: int)
    returns (u: map<string, string>, entries: seq<Entry>)
    requires d in tables
    ensures u == Updates(changes, tables[d])
    ensures entries == LogEntries(changes, u, d, now)
  {
    u := CollectUpdates(changes, tables[d]);
    entries := CollectEntries(changes, u, d, now);
  }

  /** The inner loop over `changes` that builds `updates`. */
  method CollectUpdates(changes: seq<CellChange>, row: Row) returns (u: map<string, string>)
    ensures u == Updates(changes, row)
  {
    u := map[];
    var j := 0;
    while j < |changes|
      invariant 0 <= j <= |changes|
      invariant u == Updates(changes[..j], row)
    {
      assert changes[..j + 1][..j] == changes[..j];
      if changes[j].field in row && row[changes[j].field] == changes[j].oldValue {
        u := u[changes[j].field := changes[j].newValue];
      }
      j := j + 1;
    }
    assert changes[..j] == changes;
  }

  /** The loop over `changes` that adds a log entry per applied non-empty
      value. */
  method CollectEntries(changes: seq<CellChange>, u: map<string, string>, d: string, now: int)
    returns (entries: seq<Entry>)
    ensures entries == LogEntries(changes, u, d, now)
  {
    entries := [];
    var j := 0;
    while j < |changes|
      invariant 0 <= j <= |changes|
      invariant entries == LogEntries(changes[..j], u, d, now)
    {
      assert changes[..j + 1][..j] == changes[..j];
      if changes[j].field in u && u[changes[j].field] != "" {
        entries := entries + [Entry(d, changes[j].field, changes[j].oldValue, changes[j].newValue, now)];
      }
      j := j + 1;
    }
    assert changes[..j] == changes;
  }

  /** `propagateChangesForward(changes, fromDate)`. `visited` is the result
      of the `above(fromDate)` query: the stored dates strictly after
      `fromDate`, ascending. On success the tables and the added log entries
      are those of the scan over `visited`; when the write of the date at
      `fault.index` throws, the error is passed on and the writes to earlier
      dates stay. */
  method PropagateChangesForward(changes: seq<CellChange>, fromDate: string, dates: set<string>,
                                 tables: map<string, Row>, now: int, fault: Option<StoreFault>)
    returns (r: Outcome, visited: seq<string>, tables': map<string, Row>, added: seq<Entry>)
    ensures StrictlySorted(visited)
    ensures forall d :: d in visited <==> d in dates && LexLt(fromDate, d)
    ensures r.Pass? ==> var s := Scan(visited, changes, tables, now); tables' == s.tables && added == s.entries
    ensures r.Fail? ==> && fault.Some? && r.error == fault.value.message
                        && fault.value.index < |visited|
                        && var s := Scan(visited[..fault.value.index], changes, tables, now);
                           && tables' == s.tables && added == s.entries && !s.stopped
                           && visited[fault.value.index] in s.tables
                           && Updates(changes, s.tables[visited[fault.value.index]]) != map[]
  {
    visited := SortKeys(set d | d in dates && LexLt(fromDate, d));
    r, tables', added := ScanDates(visited, changes, tables, now, fault);
  }

  /** The loop over the dates, in the given order. */
  method ScanDates(visited: seq<string>, changes: seq<CellChange>, tables: map<string, Row>, now: int,
                   fault: Option<StoreFault>)
    returns (r: Outcome, tables': map<string, Row>, added: seq<Entry>)
    ensures r.Pass? ==> var s := Scan(visited, changes, tables, now); tables' == s.tables && added == s.entries
    ensures r.Fail? ==> && fault.Some? && r.error == fault.value.message
                        && fault.value.index < |visited|
                        && var s := Scan(visited[..fault.value.index], changes, tables, now);
                           && tables' == s.tables && added == s.entries && !s.stopped
                           && visited[fault.value.index] in s.tables
                           && Updates(changes, s.tables[visited[fault.value.index]]) != map[]
  {
    tables' := tables;
    added := [];
    var i := 0;
    while i < |visited|
      invariant 0 <= i <= |visited|
      invariant Scan(visited[..i], changes, tables, now) == Scanned(tables', added, false)
    {
      var d := visited[i];
      if d in tables' {
        var u, entries := VisitDate(d, changes, tables', now);
        if u == map[] {
          StopsAtFirstMismatch(visited, i, changes, tables, now);
          return Pass, tables', added;
        }
        if fault.Some? && fault.value.index == i {
          return Fail(fault.value.message), tables', added;
        }
        ScanStep(visited, i, changes, tables, now, tables', added);
        tables' := tables'[d := tables'[d] + u];
        added := added + entries;
      } else {
        ScanStep(visited, i, changes, tables, now, tables', added);
      }
      i := i + 1;
    }
    assert visited[..i] == visited;
    r := Pass;
  }
}
