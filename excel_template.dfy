/** The rules of src/utils/fillExcelTemplate.ts: reading "HHMM" military
    times, totalling worked time, shortening a four-digit year, and the cells
    `fillExcelTemplate` writes into the first worksheet of the template.
    Hours are counted in whole minutes here (`h * 60 + m` instead of
    `h + m / 60`). */
module ExcelTemplate {
  import opened Types
  import opened Strings
  import opened Worksheet

  // ---------------------------------------------------------------------
  // Military time

  /** The value of a two-digit decimal string. */
  function TwoDigits(s: string): (v: nat)
    requires |s| == 2 && AllDigits(s)
    ensures v < 100
  {
    DigitValue(s[0]) * 10 + DigitValue(s[1])
  }

  /** `parseMilitaryTime`: a time of day in minutes after midnight, or `None`
      (the source's `null`) unless the string is four digits naming an hour
      up to 23 and a minute up to 59. */
  function ParseMilitaryTime(time: string): (r: Option<nat>)
    ensures r.Some? <==>
              |time| == 4 && AllDigits(time) && TwoDigits(time[..2]) <= 23 && TwoDigits(time[2..]) <= 59
    ensures r.Some? ==> r.value < 1440
  {
    if |time| == 4 && AllDigits(time) then
      var h := TwoDigits(time[..2]);
      var m := TwoDigits(time[2..]);
      if h > 23 || m > 59 then None else Some(h * 60 + m)
    else
      None
  }

  /** The "HHMM" spelling of a time of day, the inverse of parsing. */
  function FormatMilitaryTime(minutes: nat): (s: string)
    requires minutes < 1440
    ensures |s| == 4 && AllDigits(s)
  {
    var h := minutes / 60;
    var m := minutes % 60;
    [DigitChar(h / 10), DigitChar(h % 10), DigitChar(m / 10), DigitChar(m % 10)]
  }

  /** Every time of day prints to a string that parses back to it. */
  lemma ParseFormatted(minutes: nat)
    requires minutes < 1440
    ensures ParseMilitaryTime(FormatMilitaryTime(minutes)) == Some(minutes)
  {
    var s := FormatMilitaryTime(minutes);
    assert s[..2] == [s[0], s[1]];
    assert s[2..] == [s[2], s[3]];
  }

  /** A string that parses is exactly the printed form of its value, so
      parsing is injective on the strings it accepts. */
  lemma FormatParsed(time: string)
    requires ParseMilitaryTime(time).Some?
    ensures FormatMilitaryTime(ParseMilitaryTime(time).value) == time
  {
    var minutes := ParseMilitaryTime(time).value;
    var h := TwoDigits(time[..2]);
    var m := TwoDigits(time[2..]);
    assert minutes / 60 == h && minutes % 60 == m;
    var s := FormatMilitaryTime(minutes);
    assert s[0] == time[0] && s[1] == time[1] && s[2] == time[2] && s[3] == time[3];
  }

  // ---------------------------------------------------------------------
  // Totals

  /** What one day adds to the total: the span from ON to OFF when both
      parse and OFF is not earlier than ON, otherwise nothing. */
  function DayMinutes(day: Day): (r: nat)
    ensures r > 0 ==> ParseMilitaryTime(day.on).Some? && ParseMilitaryTime(day.off).Some? &&
                      r == ParseMilitaryTime(day.off).value - ParseMilitaryTime(day.on).value
    ensures r < 1440
  {
    var on := ParseMilitaryTime(day.on);
    var off := ParseMilitaryTime(day.off);
    if on.Some? && off.Some? && off.value >= on.value then off.value - on.value else 0
  }

  /** An overnight span (OFF before ON) or a blank time adds nothing. */
  lemma OvernightOrBlankAddsNothing(day: Day)
    requires ParseMilitaryTime(day.on).None? || ParseMilitaryTime(day.off).None? ||
             ParseMilitaryTime(day.off).value < ParseMilitaryTime(day.on).value
    ensures DayMinutes(day) == 0
  {
  }

  function DaysMinutes(days: seq<Day>): nat
  {
    if |days| == 0 then 0 else DaysMinutes(days[..|days| - 1]) + DayMinutes(days[|days| - 1])
  }

  /** The number of days of all members together. */
  function DayCount(data: seq<CrewMember>): nat
  {
    if |data| == 0 then 0 else DayCount(data[..|data| - 1]) + |data[|data| - 1].days|
  }

  /** `calculateTotalHours`, in minutes, as a reference definition. */
  function TotalMinutes(data: seq<CrewMember>): nat
  {
    if |data| == 0 then 0 else TotalMinutes(data[..|data| - 1]) + DaysMinutes(data[|data| - 1].days)
  }

  lemma {:induction false} DaysMinutesBound(days: seq<Day>)
    ensures DaysMinutes(days) <= 1439 * |days|
  {
    if |days| > 0 {
      DaysMinutesBound(days[..|days| - 1]);
    }
  }

  /** The total never exceeds a full day per recorded day. */
  lemma {:induction false} TotalMinutesBound(data: seq<CrewMember>)
    ensures TotalMinutes(data) <= 1439 * DayCount(data)
  {
    if |data| > 0 {
      TotalMinutesBound(data[..|data| - 1]);
      DaysMinutesBound(data[|data| - 1].days);
    }
  }

  /** The total of two groups of members is the sum of their totals. */
  lemma {:induction false} TotalMinutesAppend(a: seq<CrewMember>, b: seq<CrewMember>)
    ensures TotalMinutes(a + b) == TotalMinutes(a) + TotalMinutes(b)
  {
    if |b| > 0 {
      assert (a + b)[..|a + b| - 1] == a + b[..|b| - 1];
      TotalMinutesAppend(a, b[..|b| - 1]);
    } else {
      assert a + b == a;
    }
  }

  /** `calculateTotalHours`: the nested loops over members and their days. */
  method CalculateTotalMinutes(data: seq<CrewMember>) returns (total: nat)
    ensures total == TotalMinutes(data)
  {
    total := 0;
    var i := 0;
    while i < |data|
      invariant 0 <= i <= |data|
      invariant total == TotalMinutes(data[..i])
    {
      var days := data[i].days;
      var rowTotal := 0;
      var j := 0;
      while j < |days|
        invariant 0 <= j <= |days|
        invariant rowTotal == DaysMinutes(days[..j])
      {
        var on := ParseMilitaryTime(days[j].on);
        var off := ParseMilitaryTime(days[j].off);
        if on.Some? && off.Some? && off.value >= on.value {
          rowTotal := rowTotal + (off.value - on.value);
        }
        assert days[..j + 1][..j] == days[..j];
        j := j + 1;
      }
      assert days[..j] == days;
      assert data[..i + 1][..i] == data[..i];
      total := total + rowTotal;
      i := i + 1;
    }
    assert data[..i] == data;
  }

  // ---------------------------------------------------------------------
  // Two-digit years

  /** Four decimal digits start at position `j` (`/\d{4}/` matches there). */
  predicate YearAt(s: string, j: nat)
  {
    j + 4 <= |s| && AllDigits(s[j..j + 4])
  }

  /** The position of the leftmost run of four digits at or after `from`. */
  function FirstYear(s: string, from: nat): (r: Option<nat>)
    decreases |s| - from
    ensures r.Some? ==> from <= r.value && YearAt(s, r.value)
    ensures r.Some? ==> forall k: nat :: from <= k < r.value ==> !YearAt(s, k)
    ensures r.None? ==> forall k: nat :: from <= k ==> !YearAt(s, k)
  {
    if from + 4 > |s| then None
    else if YearAt(s, from) then Some(from)
    else FirstYear(s, from + 1)
  }

  /** `formatDateWithTwoDigitYear`: the first four-digit run is the year,
      and the first occurrence of that year's text is replaced by its last
      two digits (`String.replace` with a string pattern). */
  function FormatDateWithTwoDigitYear(dateStr: string): (r: string)
    ensures dateStr == "" ==> r == ""
  {
    if dateStr == "" then ""
    else
      match FirstYear(dateStr, 0)
      case None => dateStr
      case Some(j) =>
        var year := dateStr[j..j + 4];
        match IndexOf(dateStr, year)
        case None => dateStr
        case Some(i) => dateStr[..i] + year[2..] + dateStr[i + 4..]
  }

  /** The replacement hits the matched run itself: no earlier copy of the
      year's text can exist, because it would be an earlier run of four
      digits. */
  lemma YearFoundWhereMatched(s: string, j: nat)
    requires FirstYear(s, 0) == Some(j)
    ensures IndexOf(s, s[j..j + 4]) == Some(j)
  {
    var year := s[j..j + 4];
    assert OccursAt(s, year, j);
    var i := IndexOf(s, year).value;
    if i < j {
      assert s[i..i + 4] == year;
      assert YearAt(s, i);
    }
  }

  /** With a four-digit run, the result drops its first two digits and is
      otherwise the input. */
  lemma ShortensFirstYear(s: string)
    requires FirstYear(s, 0).Some?
    ensures var j := FirstYear(s, 0).value;
            FormatDateWithTwoDigitYear(s) == s[..j] + s[j + 2..j + 4] + s[j + 4..]
    ensures |FormatDateWithTwoDigitYear(s)| == |s| - 2
  {
    var j := FirstYear(s, 0).value;
    YearFoundWhereMatched(s, j);
    assert s[j..j + 4][2..] == s[j + 2..j + 4];
  }

  /** Without a run of four digits the string is returned unchanged. */
  lemma NoYearUnchanged(s: string)
    requires forall k: nat :: !YearAt(s, k)
    ensures FormatDateWithTwoDigitYear(s) == s
  {
  }

  /** An ISO date loses the century of its year. */
  lemma IsoDateShortened()
    ensures FormatDateWithTwoDigitYear("2024-06-01") == "24-06-01"
  {
    var s := "2024-06-01";
    assert YearAt(s, 0) by {
      assert s[0..4] == "2024";
    }
    assert FirstYear(s, 0) == Some(0);
    ShortensFirstYear(s);
    assert s[2..4] + s[4..] == "24-06-01";
  }

  // ---------------------------------------------------------------------
  // Filling the template

  /** `days?.[i] || ''`. */
  function DayText(days: seq<string>, i: nat): string
  {
    if i < |days| then days[i] else ""
  }

  /** The header and date cells. */
  function WithHeader(sheet: Sheet, crewInfo: CrewInfo, days: seq<string>): Sheet
  {
    sheet[CrewNameCell := crewInfo.crewName]
         [CrewNumberCell := crewInfo.crewNumber]
         [FireNameCell := crewInfo.fireName]
         [FireNumberCell := crewInfo.fireNumber]
         [Date1Cell := FormatDateWithTwoDigitYear(DayText(days, 0))]
         [Date2Cell := FormatDateWithTwoDigitYear(DayText(days, 1))]
  }

  /** Members that fit: rows `StartRow` to `StartRow + 19`. */
  const MaxRows: nat := 20

  /** The member rows: member `idx` at row `StartRow + idx`, unless it is
      blank or would fall past the twentieth row. */
  function WithMembers(sheet: Sheet, data: seq<CrewMember>): Sheet
  {
    if |data| == 0 then sheet
    else
      var before := WithMembers(sheet, data[..|data| - 1]);
      var idx := |data| - 1;
      if Blank(data[idx]) || StartRow + idx > StartRow + 19 then before
      else WithMember(before, StartRow + idx, data[idx])
  }

  /** Member `idx` is written to row `StartRow + idx` exactly when it is
      not blank and `idx < 20`; every other cell keeps its value. */
  lemma {:induction false} RowPlacement(sheet: Sheet, data: seq<CrewMember>, cell: Cell)
    ensures var idx := cell.row - StartRow;
            var out := WithMembers(sheet, data);
            if 0 <= idx < |data| && idx < MaxRows && !Blank(data[idx]) && MemberValue(data[idx], cell.col).Some?
            then cell in out && out[cell] == MemberValue(data[idx], cell.col).value
            else (cell in out <==> cell in sheet) && (cell in sheet ==> out[cell] == sheet[cell])
  {
    if |data| > 0 {
      var n := |data| - 1;
      RowPlacement(sheet, data[..n], cell);
      var idx := cell.row - StartRow;
      if 0 <= idx < n {
        assert data[..n][idx] == data[idx];
      }
      if !(Blank(data[n]) || n >= MaxRows) {
        WithMemberCell(WithMembers(sheet, data[..n]), StartRow + n, data[n], cell);
      }
    }
  }

  /** No member cell beyond row `StartRow + 19` (nor above the first row)
      is ever written. */
  lemma NothingPastLastRow(sheet: Sheet, data: seq<CrewMember>, cell: Cell)
    requires cell.row < StartRow || cell.row > StartRow + 19
    ensures cell in WithMembers(sheet, data) <==> cell in sheet
    ensures cell in sheet ==> WithMembers(sheet, data)[cell] == sheet[cell]
  {
    RowPlacement(sheet, data, cell);
  }

  /** `fillExcelTemplate` on the worksheet: the header cells and the member
      rows (`data.forEach`); the total, in minutes, is returned beside it. */
  method FillTemplate(sheet: Sheet, data: seq<CrewMember>, crewInfo: CrewInfo, days: seq<string>)
    returns (out: Sheet, totalMinutes: nat)
    ensures out == WithMembers(WithHeader(sheet, crewInfo, days), data)
    ensures totalMinutes == TotalMinutes(data)
  {
    out := WithHeader(sheet, crewInfo, days);
    ghost var header := out;
    var idx := 0;
    while idx < |data|
      invariant 0 <= idx <= |data|
      invariant out == WithMembers(header, data[..idx])
    {
      assert data[..idx + 1][..idx] == data[..idx];
      var row := data[idx];
      if !Blank(row) {
        var rowNum := StartRow + idx;
        if rowNum <= StartRow + 19 {
          out := out[Cell(NameCol, rowNum) := row.name][Cell(ClassCol, rowNum) := row.classification];
          if |row.days| >= 1 {
            out := out[Cell(On1Col, rowNum) := row.days[0].on][Cell(Off1Col, rowNum) := row.days[0].off];
          }
          if |row.days| >= 2 {
            out := out[Cell(On2Col, rowNum) := row.days[1].on][Cell(Off2Col, rowNum) := row.days[1].off];
          }
        }
      }
      idx := idx + 1;
    }
    assert data[..idx] == data;
    totalMinutes := CalculateTotalMinutes(data);
  }
}
