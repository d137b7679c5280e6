/** The print view of src/components/PrintableTable.tsx: the date format of
    its header, the twenty rows of the time table and the seven rows of the
    remarks table that `handlePrint` fills in. The HTML markup around the
    texts is left out; a remark row is its text. */
module PrintView {
  import opened Types
  import opened Strings
  import opened Remarks
  import ExcelTemplate

  // ---------------------------------------------------------------------
  // Dates

  /** `parts[0].slice(2)`. */
  function DropTwo(s: string): (r: string)
    ensures |s| >= 2 ==> r == s[2..]
    ensures |s| < 2 ==> r == ""
  {
    if |s| >= 2 then s[2..] else ""
  }

  /** `formatDate`: 'YYYY-MM-DD' becomes 'YY-MM-DD'; a string that does not
      split into exactly three '-' pieces is returned as it is. */
  function FormatDate(dateStr: string): (r: string)
    ensures dateStr == "" ==> r == ""
    ensures |Split(dateStr, "-")| != 3 ==> r == dateStr
  {
    if dateStr == "" then ""
    else
      var parts := Split(dateStr, "-");
      if |parts| == 3 then DropTwo(parts[0]) + "-" + parts[1] + "-" + parts[2] else dateStr
  }

  lemma JoinThree(parts: seq<string>, sep: string)
    requires |parts| == 3
    ensures Join(parts, sep) == parts[0] + sep + parts[1] + sep + parts[2]
  {
    assert parts[1..][1..] == [parts[2]];
    assert Join(parts[1..][1..], sep) == parts[2];
    assert Join(parts[1..], sep) == parts[1] + sep + parts[2];
  }

  lemma DropTwoOfDate(a: string, b: string, c: string)
    requires |a| >= 2
    ensures (a + "-" + b + "-" + c)[2..] == a[2..] + "-" + b + "-" + c
  {
  }

  /** On three pieces whose first has two characters or more, the result is
      the input without its first two characters. */
  lemma FormatDateDropsTwo(dateStr: string)
    requires |Split(dateStr, "-")| == 3 && |Split(dateStr, "-")[0]| >= 2
    ensures FormatDate(dateStr) == dateStr[2..]
  {
    var parts := Split(dateStr, "-");
    JoinThree(parts, "-");
    DropTwoOfDate(parts[0], parts[1], parts[2]);
  }

  predicate NoDash(s: string) { forall i :: 0 <= i < |s| ==> s[i] != '-' }

  lemma NoDashNoSplit(s: string)
    requires NoDash(s)
    ensures Split(s, "-") == [s]
  {
    forall j: nat ensures !OccursAt(s, "-", j) {
      if j + 1 <= |s| {
        assert s[j..j + 1][0] == s[j];
      }
    }
    SplitWithout(s, "-");
  }

  lemma DateConcat(year: string, month: string, day: string)
    ensures year + "-" + month + "-" + day == year + ['-'] + (month + ['-'] + day)
  {
    assert "-" == ['-'];
  }

  /** Splitting a piece, a dash and a tail that splits into `parts`. */
  lemma SplitPieceThenTail(piece: string, tail: string, parts: seq<string>)
    requires NoDash(piece) && Split(tail, "-") == parts
    ensures Split(piece + ['-'] + tail, "-") == [piece] + parts
  {
    SplitAfterPiece(piece, '-', tail);
  }

  /** A date of three dash-free pieces splits into those pieces. */
  lemma SplitDate(year: string, month: string, day: string)
    requires NoDash(year) && NoDash(month) && NoDash(day)
    ensures Split(year + "-" + month + "-" + day, "-") == [year, month, day]
  {
    NoDashNoSplit(day);
    SplitPieceThenTail(month, day, [day]);
    SplitPieceThenTail(year, month + ['-'] + day, [month, day]);
    DateConcat(year, month, day);
  }

  /** The Excel export shortens a date that starts with a four-digit year
      by dropping its first two characters. */
  lemma ExcelShortensLeadingYear(s: string)
    requires |s| >= 4 && AllDigits(s[..4])
    ensures ExcelTemplate.FormatDateWithTwoDigitYear(s) == s[2..]
  {
    assert s[0..4] == s[..4];
    assert ExcelTemplate.YearAt(s, 0);
    ExcelTemplate.ShortensFirstYear(s);
    assert s[..0] + s[2..4] + s[4..] == s[2..];
  }

  /** The print view and the Excel export shorten an ISO date the same
      way. */
  lemma IsoDatesAgree(year: string, month: string, day: string)
    requires |year| == 4 && AllDigits(year) && AllDigits(month) && AllDigits(day)
    ensures var s := year + "-" + month + "-" + day;
            FormatDate(s) == s[2..] == ExcelTemplate.FormatDateWithTwoDigitYear(s)
  {
    var s := year + "-" + month + "-" + day;
    SplitDate(year, month, day);
    FormatDateDropsTwo(s);
    assert s[..4] == year;
    ExcelShortensLeadingYear(s);
  }

  // ---------------------------------------------------------------------
  // Header

  const DefaultCrewName := "Dust Busters Plus LLC"

  datatype PrintHeader = PrintHeader(
    crewName: string, crewNumber: string, fireName: string, fireNumber: string,
    date1: string, date2: string)

  /** The header cells: the crew name falls back to the company name, the
      dates are the two days in the short format. */
  function HeaderOf(crewInfo: CrewInfo, days: seq<string>): (h: PrintHeader)
    ensures crewInfo.crewName == "" <==> h.crewName == DefaultCrewName && crewInfo.crewName != DefaultCrewName
    ensures crewInfo.crewName != "" ==> h.crewName == crewInfo.crewName
  {
    PrintHeader(if crewInfo.crewName != "" then crewInfo.crewName else DefaultCrewName,
                crewInfo.crewNumber, crewInfo.fireName, crewInfo.fireNumber,
                FormatDate(if |days| > 0 then days[0] else ""),
                FormatDate(if |days| > 1 then days[1] else ""))
  }

  // ---------------------------------------------------------------------
  // Time table

  /** The body rows of the time table in the template. */
  const BodyRows: nat := 20

  /** `data.filter(member => member.name || member.classification)`. */
  function Listed(data: seq<CrewMember>): (r: seq<CrewMember>)
    ensures |r| <= |data|
    ensures forall m :: m in r <==> m in data && !Blank(m)
  {
    if |data| == 0 then []
    else
      var before := Listed(data[..|data| - 1]);
      assert forall m :: m in data <==> m in data[..|data| - 1] || m == data[|data| - 1];
      if Blank(data[|data| - 1]) then before else before + [data[|data| - 1]]
  }

  /** `filter` keeps order: listing a concatenation lists each part in turn. */
  lemma {:induction false} ListedAppend(a: seq<CrewMember>, b: seq<CrewMember>)
    ensures Listed(a + b) == Listed(a) + Listed(b)
  {
    if |b| > 0 {
      var init := b[..|b| - 1];
      assert (a + b)[..|a + b| - 1] == a + init;
      assert b[..|b| - 1] == init;
      ListedAppend(a, init);
    } else {
      assert a + b == a;
    }
  }

  /** The first member is listed ahead of the rest exactly when it is not blank. */
  lemma ListedCons(m: CrewMember, rest: seq<CrewMember>)
    ensures Listed([m] + rest) == (if Blank(m) then [] else [m]) + Listed(rest)
  {
    ListedAppend([m], rest);
    assert [m][..0] == [];
  }

  /** `member.days[k]?.on || ''` and the OFF counterpart. */
  function OnOf(m: CrewMember, k: nat): string { if k < |m.days| then m.days[k].on else "" }
  function OffOf(m: CrewMember, k: nat): string { if k < |m.days| then m.days[k].off else "" }

  const EmptyRow: seq<string> := ["", "", "", "", "", "", ""]

  /** The seven cells of template row `index`: the listed member at that
      position if it has a name, otherwise seven empty cells. */
  function RowCells(listed: seq<CrewMember>, index: nat): (r: seq<string>)
    ensures |r| == 7
  {
    if index < |listed| && listed[index].name != "" then
      var m := listed[index];
      ["", m.name, m.classification, OnOf(m, 0), OffOf(m, 0), OnOf(m, 1), OffOf(m, 1)]
    else EmptyRow
  }

  /** `tbodyRows.forEach`: fills the twenty body rows. */
  method FillTimeTable(data: seq<CrewMember>) returns (rows: seq<seq<string>>)
    ensures |rows| == BodyRows
    ensures forall i :: 0 <= i < BodyRows ==> rows[i] == RowCells(Listed(data), i)
  {
    var validData := Listed(data);
    rows := [];
    var index := 0;
    while index < BodyRows
      invariant 0 <= index <= BodyRows && |rows| == index
      invariant forall i :: 0 <= i < index ==> rows[i] == RowCells(validData, i)
    {
      var cells := EmptyRow;
      if index < |validData| {
        var member := validData[index];
        if member.name != "" {
          cells := ["", member.name, member.classification,
                    OnOf(member, 0), OffOf(member, 0), OnOf(member, 1), OffOf(member, 1)];
        }
      }
      rows := rows + [cells];
      index := index + 1;
    }
  }

  /** A row shows a member exactly when the member is the `i`-th one with a
      name or classification and has a name; a member with only a
      classification takes its place but is printed blank, and members past
      the twentieth listed one are not printed. */
  lemma PrintedRows(data: seq<CrewMember>, i: nat)
    requires i < BodyRows
    ensures var listed := Listed(data);
            var cells := RowCells(listed, i);
            (cells != EmptyRow <==> i < |listed| && listed[i].name != "") &&
            (cells != EmptyRow ==> cells[1] == listed[i].name && cells[2] == listed[i].classification &&
                                   !Blank(listed[i]) && listed[i] in data)
  {
    var listed := Listed(data);
    if i < |listed| {
      assert listed[i] in listed;
    }
  }

  // ---------------------------------------------------------------------
  // Remarks table

  /** A row of the remarks table: the blank first row, the status row with
      the total, or a remark line (empty for padding). */
  datatype RemarkRow = Spacer | Status(status: string, totalHours: string) | Line(text: string)

  /** The remark list of the print view: absent checkbox states read as all
      clear. */
  function PrintRemarks(crewInfo: CrewInfo): seq<string>
  {
    RemarkList(if crewInfo.checkboxStates.Some? then crewInfo.checkboxStates.value else NoChecks,
               crewInfo.customEntries)
  }

  function Lines(texts: seq<string>): (r: seq<RemarkRow>)
    ensures |r| == |texts| && forall i :: 0 <= i < |texts| ==> r[i] == Line(texts[i])
  {
    if |texts| == 0 then [] else [Line(texts[0])] + Lines(texts[1..])
  }

  /** The remarks body `handlePrint` writes: a blank row, the status row,
      the first five remarks and empty rows up to five. */
  function RemarksBody(crewInfo: CrewInfo, totalHoursText: string): seq<RemarkRow>
  {
    var shown := Take(PrintRemarks(crewInfo), 5);
    var hotline := crewInfo.checkboxStates.Some? && crewInfo.checkboxStates.value.hotline;
    [Spacer, Status(StatusLabel(hotline), totalHoursText)] + Lines(shown) + Lines(seq(5 - |shown|, _ => ""))
  }

  /** Two head rows, the first five remarks as lines and empty lines up to
      five make seven rows in that order. */
  lemma PaddedLines(head: seq<RemarkRow>, remarks: seq<string>)
    requires |head| == 2
    ensures var shown := Take(remarks, 5);
            var body := head + Lines(shown) + Lines(seq(5 - |shown|, _ => ""));
            |body| == 7 && body[0] == head[0] && body[1] == head[1] &&
            (forall i :: 2 <= i < 7 && i - 2 < |remarks| ==> body[i] == Line(remarks[i - 2])) &&
            (forall i :: 2 + |remarks| <= i < 7 ==> body[i] == Line(""))
  {
    var shown := Take(remarks, 5);
    var pad := Lines(seq(5 - |shown|, _ => ""));
    var body := head + Lines(shown) + pad;
    forall i | 2 + |shown| <= i < 7
      ensures body[i] == Line("")
    {
      assert body[i] == pad[i - 2 - |shown|];
    }
  }

  /** The body always has seven rows: the blank one, the status row saying
      'HOTLINE' exactly when hotline is set (otherwise 'Travel'), then five
      rows holding the first remarks in order and empty rows after them. */
  lemma RemarksBodyLayout(crewInfo: CrewInfo, totalHoursText: string)
    ensures var body := RemarksBody(crewInfo, totalHoursText);
            var remarks := PrintRemarks(crewInfo);
            var hotline := crewInfo.checkboxStates.Some? && crewInfo.checkboxStates.value.hotline;
            |body| == 7 && body[0] == Spacer &&
            body[1] == Status(if hotline then HotlineText else TravelText, totalHoursText) &&
            (forall i :: 2 <= i < 7 && i - 2 < |remarks| ==> body[i] == Line(remarks[i - 2])) &&
            (forall i :: 2 + |remarks| <= i < 7 ==> body[i] == Line(""))
  {
    var hotline := crewInfo.checkboxStates.Some? && crewInfo.checkboxStates.value.hotline;
    PaddedLines([Spacer, Status(StatusLabel(hotline), totalHoursText)], PrintRemarks(crewInfo));
  }

  /** The 'Travel' remark line appears only when travel and hotline are both
      set. */
  lemma TravelRemarkNeedsHotline(crewInfo: CrewInfo)
    requires crewInfo.customEntries.None? || TravelText !in crewInfo.customEntries.value
    ensures var cs := if crewInfo.checkboxStates.Some? then crewInfo.checkboxStates.value else NoChecks;
            TravelText in PrintRemarks(crewInfo) <==> cs.travel && cs.hotline
  {
    var cs := if crewInfo.checkboxStates.Some? then crewInfo.checkboxStates.value else NoChecks;
    var r := PrintRemarks(crewInfo);
    var c := CheckboxRemarks(cs);
    if crewInfo.customEntries.Some? {
      assert r == c + crewInfo.customEntries.value;
    }
  }
}
