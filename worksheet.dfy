/** The worksheet layout shared by the Excel export and import: the header
    cells and member columns of `CTR_TEMPLATE_MAPPING` in
    src/utils/fillExcelTemplate.ts and of `EXCEL_CELL_MAPPING` in
    src/utils/excelMapping.ts, which name the same cells, and how one member
    row is written. A worksheet is a map from cells to their text; a cell
    missing from the map is empty. */
module Worksheet {
  import opened Types

  const CrewNameCell := Cell('A', 1)
  const CrewNumberCell := Cell('F', 1)
  const FireNameCell := Cell('C', 2)
  const FireNumberCell := Cell('F', 2)
  const Date1Cell := Cell('F', 4)
  const Date2Cell := Cell('H', 4)
  /** The first member row. */
  const StartRow: int := 6
  const NameCol := 'B'
  const ClassCol := 'D'
  const On1Col := 'E'
  const Off1Col := 'F'
  const On2Col := 'G'
  const Off2Col := 'H'

  /** `getMergedCellValue`: the text of a cell, '' when it holds nothing. */
  function ReadCell(sheet: Sheet, cell: Cell): (v: string)
    ensures cell !in sheet ==> v == ""
    ensures cell in sheet ==> v == sheet[cell]
  {
    if cell in sheet then sheet[cell] else ""
  }

  /** The cells of one member, at row `row`: name and classification, then
      the times of each of the first two days the member has. */
  function WithMember(sheet: Sheet, row: int, m: CrewMember): Sheet
  {
    var s1 := sheet[Cell(NameCol, row) := m.name][Cell(ClassCol, row) := m.classification];
    var s2 := if |m.days| >= 1 then s1[Cell(On1Col, row) := m.days[0].on][Cell(Off1Col, row) := m.days[0].off] else s1;
    if |m.days| >= 2 then s2[Cell(On2Col, row) := m.days[1].on][Cell(Off2Col, row) := m.days[1].off] else s2
  }

  /** What member `m` puts in column `col` of its row, if anything. */
  function MemberValue(m: CrewMember, col: char): Option<string>
  {
    if col == NameCol then Some(m.name)
    else if col == ClassCol then Some(m.classification)
    else if col == On1Col && |m.days| >= 1 then Some(m.days[0].on)
    else if col == Off1Col && |m.days| >= 1 then Some(m.days[0].off)
    else if col == On2Col && |m.days| >= 2 then Some(m.days[1].on)
    else if col == Off2Col && |m.days| >= 2 then Some(m.days[1].off)
    else None
  }

  /** The cells one member row writes, and that it writes nothing else. */
  lemma WithMemberCell(sheet: Sheet, row: int, m: CrewMember, cell: Cell)
    ensures var out := WithMember(sheet, row, m);
            if cell.row == row && MemberValue(m, cell.col).Some?
            then cell in out && out[cell] == MemberValue(m, cell.col).value
            else (cell in out <==> cell in sheet) && (cell in sheet ==> out[cell] == sheet[cell])
  {
  }
}
