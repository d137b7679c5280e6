/** src/utils/excelMapping.ts: importing a crew time report from the cells
    of a worksheet (`mapExcelToData`) and exporting one into them
    (`mapDataToExcel`), and the round trip between the two. */
module ExcelMapping {
  import opened Types
  import opened Worksheet

  /** The last row the import reads. */
  const LastRow: int := 25

  // ---------------------------------------------------------------------
  // Import

  /** The crew information read from the header cells; the import carries
      no checkbox states and no custom entries. */
  function HeaderOf(sheet: Sheet): CrewInfo
  {
    CrewInfo(ReadCell(sheet, CrewNameCell), ReadCell(sheet, CrewNumberCell),
             ReadCell(sheet, FireNameCell), ReadCell(sheet, FireNumberCell), None, None)
  }

  /** The member of row `row`, with one day dated `date1` (columns E, F) and
      one dated `date2` (columns G, H). */
  function MemberAt(sheet: Sheet, row: int, date1: string, date2: string): CrewMember
  {
    CrewMember(ReadCell(sheet, Cell(NameCol, row)), ReadCell(sheet, Cell(ClassCol, row)),
               [Day(date1, ReadCell(sheet, Cell(On1Col, row)), ReadCell(sheet, Cell(Off1Col, row))),
                Day(date2, ReadCell(sheet, Cell(On2Col, row)), ReadCell(sheet, Cell(Off2Col, row)))])
  }

  /** The members of rows `row` to `LastRow`, stopping before the first row
      whose name cell is empty. */
  function RowsFrom(sheet: Sheet, row: int, date1: string, date2: string): seq<CrewMember>
    decreases LastRow + 1 - row
  {
    if row > LastRow || ReadCell(sheet, Cell(NameCol, row)) == "" then []
    else [MemberAt(sheet, row, date1, date2)] + RowsFrom(sheet, row + 1, date1, date2)
  }

  /** The members the import reads. */
  function MembersOf(sheet: Sheet): seq<CrewMember>
  {
    RowsFrom(sheet, StartRow, ReadCell(sheet, Date1Cell), ReadCell(sheet, Date2Cell))
  }

  /** What the import promises: at most one member per row from `row` to
      `LastRow`, member `i` read from row `row + i` with a non-empty name and
      exactly two days, and reading stopped at an empty name cell unless the
      last row was reached. */
  lemma {:induction false} RowsFromShape(sheet: Sheet, row: int, date1: string, date2: string)
    requires row <= LastRow + 1
    ensures var r := RowsFrom(sheet, row, date1, date2);
            |r| <= LastRow + 1 - row &&
            (forall i :: 0 <= i < |r| ==> r[i] == MemberAt(sheet, row + i, date1, date2)) &&
            (forall i :: 0 <= i < |r| ==> r[i].name != "" && |r[i].days| == 2 &&
                                          r[i].days[0].date == date1 && r[i].days[1].date == date2) &&
            (row + |r| <= LastRow ==> ReadCell(sheet, Cell(NameCol, row + |r|)) == "")
    decreases LastRow + 1 - row
  {
    if !(row > LastRow || ReadCell(sheet, Cell(NameCol, row)) == "") {
      RowsFromShape(sheet, row + 1, date1, date2);
      var r := RowsFrom(sheet, row, date1, date2);
      var rest := RowsFrom(sheet, row + 1, date1, date2);
      assert r == [MemberAt(sheet, row, date1, date2)] + rest;
      forall i | 0 <= i < |r| ensures r[i] == MemberAt(sheet, row + i, date1, date2) {
        if i > 0 {
          assert r[i] == rest[i - 1];
        }
      }
      assert row + |r| == row + 1 + |rest|;
    }
  }

  /** At most 20 members, all named, in row order, each with two days dated
      by F4 and H4. */
  lemma ImportShape(sheet: Sheet)
    ensures var r := MembersOf(sheet);
            |r| <= 20 &&
            (forall i :: 0 <= i < |r| ==> r[i] == MemberAt(sheet, StartRow + i, ReadCell(sheet, Date1Cell), ReadCell(sheet, Date2Cell))) &&
            (forall i :: 0 <= i < |r| ==> r[i].name != "" && |r[i].days| == 2)
  {
    RowsFromShape(sheet, StartRow, ReadCell(sheet, Date1Cell), ReadCell(sheet, Date2Cell));
  }

  /** `mapExcelToData`: the header cells, then the member rows. */
  method MapExcelToData(sheet: Sheet) returns (crewInfo: CrewInfo, crewMembers: seq<CrewMember>)
    ensures crewInfo == HeaderOf(sheet)
    ensures crewMembers == MembersOf(sheet)
  {
    crewInfo := CrewInfo(ReadCell(sheet, CrewNameCell), ReadCell(sheet, CrewNumberCell),
                         ReadCell(sheet, FireNameCell), ReadCell(sheet, FireNumberCell), None, None);
    var date1 := ReadCell(sheet, Date1Cell);
    var date2 := ReadCell(sheet, Date2Cell);
    crewMembers := ReadRows(sheet, date1, date2);
  }

  /** The `while (row <= 25)` loop: one member per row until a name cell is
      empty. */
  method ReadRows(sheet: Sheet, date1: string, date2: string) returns (crewMembers: seq<CrewMember>)
    ensures crewMembers == RowsFrom(sheet, StartRow, date1, date2)
  {
    crewMembers := [];
    var row := StartRow;
    while row <= LastRow
      invariant StartRow <= row <= LastRow + 1
      invariant crewMembers + RowsFrom(sheet, row, date1, date2) == RowsFrom(sheet, StartRow, date1, date2)
      decreases LastRow + 1 - row
    {
      var nameCellValue := ReadCell(sheet, Cell(NameCol, row));
      if nameCellValue == "" {
        break;
      }
      var crewMember := CrewMember(nameCellValue, ReadCell(sheet, Cell(ClassCol, row)),
        [Day(date1, ReadCell(sheet, Cell(On1Col, row)), ReadCell(sheet, Cell(Off1Col, row))),
         Day(date2, ReadCell(sheet, Cell(On2Col, row)), ReadCell(sheet, Cell(Off2Col, row)))]);
      assert RowsFrom(sheet, row, date1, date2) == [crewMember] + RowsFrom(sheet, row + 1, date1, date2);
      crewMembers := crewMembers + [crewMember];
      row := row + 1;
    }
  }

  // ---------------------------------------------------------------------
  // Export

  /** The header cells, and the date cells when the first member has the
      corresponding day. */
  function WithHeaderOf(sheet: Sheet, crewInfo: CrewInfo, members: seq<CrewMember>): Sheet
  {
    var s := sheet[CrewNameCell := crewInfo.crewName][CrewNumberCell := crewInfo.crewNumber]
                  [FireNameCell := crewInfo.fireName][FireNumberCell := crewInfo.fireNumber];
    var s1 := if |members| > 0 && |members[0].days| >= 1 then s[Date1Cell := members[0].days[0].date] else s;
    if |members| > 0 && |members[0].days| >= 2 then s1[Date2Cell := members[0].days[1].date] else s1
  }

  /** Member `i` at row `StartRow + i`, for every member. */
  function WithRows(sheet: Sheet, members: seq<CrewMember>): Sheet
  {
    if |members| == 0 then sheet
    else WithMember(WithRows(sheet, members[..|members| - 1]), StartRow + |members| - 1, members[|members| - 1])
  }

  function Exported(sheet: Sheet, crewInfo: CrewInfo, members: seq<CrewMember>): Sheet
  {
    WithRows(WithHeaderOf(sheet, crewInfo, members), members)
  }

  /** Every member is written at row `StartRow + i`, with no 20-row cap;
      every other cell keeps its value. */
  lemma {:induction false} RowOfMember(sheet: Sheet, members: seq<CrewMember>, cell: Cell)
    ensures var idx := cell.row - StartRow;
            var out := WithRows(sheet, members);
            if 0 <= idx < |members| && MemberValue(members[idx], cell.col).Some?
            then cell in out && out[cell] == MemberValue(members[idx], cell.col).value
            else (cell in out <==> cell in sheet) && (cell in sheet ==> out[cell] == sheet[cell])
  {
    if |members| > 0 {
      var n := |members| - 1;
      RowOfMember(sheet, members[..n], cell);
      var idx := cell.row - StartRow;
      if 0 <= idx < n {
        assert members[..n][idx] == members[idx];
      }
      WithMemberCell(WithRows(sheet, members[..n]), StartRow + n, members[n], cell);
    }
  }

  /** `mapDataToExcel`: the header and date cells, then `forEach` over the
      members. */
  method MapDataToExcel(sheet: Sheet, crewInfo: CrewInfo, crewMembers: seq<CrewMember>) returns (out: Sheet)
    ensures out == Exported(sheet, crewInfo, crewMembers)
  {
    out := sheet[CrewNameCell := crewInfo.crewName][CrewNumberCell := crewInfo.crewNumber];
    out := out[FireNameCell := crewInfo.fireName][FireNumberCell := crewInfo.fireNumber];
    if |crewMembers| > 0 && |crewMembers[0].days| >= 1 {
      out := out[Date1Cell := crewMembers[0].days[0].date];
    }
    if |crewMembers| > 0 && |crewMembers[0].days| >= 2 {
      out := out[Date2Cell := crewMembers[0].days[1].date];
    }
    ghost var header := out;
    var index := 0;
    while index < |crewMembers|
      invariant 0 <= index <= |crewMembers|
      invariant out == WithRows(header, crewMembers[..index])
    {
      assert crewMembers[..index + 1][..index] == crewMembers[..index];
      var member := crewMembers[index];
      var row := StartRow + index;
      out := out[Cell(NameCol, row) := member.name][Cell(ClassCol, row) := member.classification];
      if |member.days| >= 1 {
        out := out[Cell(On1Col, row) := member.days[0].on][Cell(Off1Col, row) := member.days[0].off];
      }
      if |member.days| >= 2 {
        out := out[Cell(On2Col, row) := member.days[1].on][Cell(Off2Col, row) := member.days[1].off];
      }
      index := index + 1;
    }
    assert crewMembers[..index] == crewMembers;
  }

  // ---------------------------------------------------------------------
  // Round trip

  /** Members the import can give back unchanged: named, at most 20, each
      with exactly two days dated like the first member's. */
  predicate Importable(members: seq<CrewMember>)
  {
    |members| <= 20 &&
    (forall i :: 0 <= i < |members| ==> members[i].name != "" && |members[i].days| == 2) &&
    (forall i :: 0 <= i < |members| ==>
       members[i].days[0].date == members[0].days[0].date &&
       members[i].days[1].date == members[0].days[1].date)
  }

  /** A cell of member `k`'s row reads back the member's value. */
  lemma RowCell(members: seq<CrewMember>, base: Sheet, k: nat, col: char)
    requires k < |members| && MemberValue(members[k], col).Some?
    ensures ReadCell(WithRows(base, members), Cell(col, StartRow + k)) == MemberValue(members[k], col).value
  {
    RowOfMember(base, members, Cell(col, StartRow + k));
  }

  /** Row `StartRow + k` of the export reads back as member `k`. */
  lemma MemberReadBack(members: seq<CrewMember>, base: Sheet, k: nat)
    requires Importable(members) && k < |members|
    ensures MemberAt(WithRows(base, members), StartRow + k, members[0].days[0].date, members[0].days[1].date)
            == members[k]
  {
    var m := members[k];
    assert |m.days| == 2;
    RowCell(members, base, k, NameCol);
    RowCell(members, base, k, ClassCol);
    RowCell(members, base, k, On1Col);
    RowCell(members, base, k, Off1Col);
    RowCell(members, base, k, On2Col);
    RowCell(members, base, k, Off2Col);
    assert m.days == [Day(members[0].days[0].date, m.days[0].on, m.days[0].off),
                      Day(members[0].days[1].date, m.days[1].on, m.days[1].off)];
  }

  /** A sheet whose rows from `StartRow` hold named members, followed by
      an empty name cell unless all 20 rows are used, reads back as those
      members from row `StartRow + k` on. */
  lemma {:induction false} ReadBack(out: Sheet, members: seq<CrewMember>, d1: string, d2: string, k: nat)
    requires k <= |members| <= 20
    requires forall i :: 0 <= i < |members| ==>
               members[i].name != "" && MemberAt(out, StartRow + i, d1, d2) == members[i]
    requires |members| < 20 ==> ReadCell(out, Cell(NameCol, StartRow + |members|)) == ""
    ensures RowsFrom(out, StartRow + k, d1, d2) == members[k..]
    decreases |members| - k
  {
    if k < |members| {
      var m := MemberAt(out, StartRow + k, d1, d2);
      assert m == members[k] && m.name != "";
      ReadBack(out, members, d1, d2, k + 1);
      assert members[k..] == [m] + members[k + 1..];
    }
  }

  /** Cells outside the member rows read the same after the rows are
      written. */
  lemma RowsKeepOtherCells(sheet: Sheet, members: seq<CrewMember>, cell: Cell)
    requires cell.row < StartRow || cell.row >= StartRow + |members|
    ensures ReadCell(WithRows(sheet, members), cell) == ReadCell(sheet, cell)
  {
    RowOfMember(sheet, members, cell);
  }

  /** The header cells read back the four header strings, and the member
      rows are untouched by the header. */
  lemma HeaderCells(sheet: Sheet, crewInfo: CrewInfo, members: seq<CrewMember>, cell: Cell)
    requires cell.row >= StartRow
    ensures var h := WithHeaderOf(sheet, crewInfo, members);
            HeaderOf(h) == crewInfo.(checkboxStates := None, customEntries := None) &&
            ReadCell(h, cell) == ReadCell(sheet, cell)
  {
  }

  /** The export's header cells read back as the four header strings. */
  lemma HeaderRoundTrip(sheet: Sheet, crewInfo: CrewInfo, members: seq<CrewMember>)
    ensures HeaderOf(Exported(sheet, crewInfo, members)) == crewInfo.(checkboxStates := None, customEntries := None)
  {
    var base := WithHeaderOf(sheet, crewInfo, members);
    HeaderCells(sheet, crewInfo, members, Cell(NameCol, StartRow));
    RowsKeepOtherCells(base, members, CrewNameCell);
    RowsKeepOtherCells(base, members, CrewNumberCell);
    RowsKeepOtherCells(base, members, FireNameCell);
    RowsKeepOtherCells(base, members, FireNumberCell);
    assert HeaderOf(Exported(sheet, crewInfo, members)) == HeaderOf(base);
  }

  /** The export's member rows read back as the members. */
  lemma MembersRoundTrip(sheet: Sheet, crewInfo: CrewInfo, members: seq<CrewMember>)
    requires Importable(members)
    requires |members| < 20 ==> ReadCell(sheet, Cell(NameCol, StartRow + |members|)) == ""
    ensures MembersOf(Exported(sheet, crewInfo, members)) == members
  {
    var base := WithHeaderOf(sheet, crewInfo, members);
    var out := Exported(sheet, crewInfo, members);
    var after := Cell(NameCol, StartRow + |members|);
    HeaderCells(sheet, crewInfo, members, after);
    RowsKeepOtherCells(base, members, after);
    if |members| > 0 {
      var d1 := members[0].days[0].date;
      var d2 := members[0].days[1].date;
      RowsKeepOtherCells(base, members, Date1Cell);
      RowsKeepOtherCells(base, members, Date2Cell);
      assert ReadCell(out, Date1Cell) == d1 && ReadCell(out, Date2Cell) == d2;
      forall i | 0 <= i < |members|
        ensures MemberAt(out, StartRow + i, d1, d2) == members[i]
      {
        MemberReadBack(members, base, i);
      }
      ReadBack(out, members, d1, d2, 0);
      assert members[0..] == members;
    }
  }

  /** Exporting and importing gives back the four header strings and every
      member, provided the members are importable and the name cell after
      the last member is empty. */
  lemma RoundTrip(sheet: Sheet, crewInfo: CrewInfo, members: seq<CrewMember>)
    requires Importable(members)
    requires |members| < 20 ==> ReadCell(sheet, Cell(NameCol, StartRow + |members|)) == ""
    ensures var out := Exported(sheet, crewInfo, members);
            HeaderOf(out) == crewInfo.(checkboxStates := None, customEntries := None) &&
            MembersOf(out) == members
  {
    HeaderRoundTrip(sheet, crewInfo, members);
    MembersRoundTrip(sheet, crewInfo, members);
  }
}
