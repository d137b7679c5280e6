/** Shared record shapes of the crew time report (src/types/CTRTypes.ts) and
    the small wrapper datatypes the other modules use for absent values and
    thrown errors. */
module Types {

  /** A value that may be absent (`undefined` / `null` in the source). */
  datatype Option<T> = None | Some(value: T)

  /** A completed step that may have thrown an `Error` with a message. */
  datatype Outcome = Pass | Fail(error: string)

  /** A returned value or a thrown `Error` with a message. */
  datatype Result<T> = Ok(value: T) | Err(error: string)

  /** One day of one crew member: its date and the clock-on / clock-off
      entries, each a four-digit military time or empty. */
  datatype Day = Day(date: string, on: string, off: string)

  datatype CrewMember = CrewMember(name: string, classification: string, days: seq<Day>)

  /** A member row with neither a name nor a classification, which the
      export paths skip. */
  predicate Blank(m: CrewMember)
  {
    m.name == "" && m.classification == ""
  }

  /** The five remark flags of a report. */
  datatype CheckboxStates = CheckboxStates(
    noMealsLodging: bool,
    noMeals: bool,
    travel: bool,
    noLunch: bool,
    hotline: bool)

  /** The names of the five flags, used where the source indexes the flags
      by a key (`keyof typeof checkboxStates`). */
  datatype CheckboxOption = NoMealsLodging | NoMeals | Travel | NoLunch | Hotline

  /** Reads one flag by its key. */
  function Flag(s: CheckboxStates, o: CheckboxOption): bool
  {
    match o
    case NoMealsLodging => s.noMealsLodging
    case NoMeals => s.noMeals
    case Travel => s.travel
    case NoLunch => s.noLunch
    case Hotline => s.hotline
  }

  /** Writes one flag by its key, as `{ ...s, [o]: b }` does. */
  function SetFlag(s: CheckboxStates, o: CheckboxOption, b: bool): (r: CheckboxStates)
    ensures Flag(r, o) == b
    ensures forall p :: p != o ==> Flag(r, p) == Flag(s, p)
  {
    match o
    case NoMealsLodging => s.(noMealsLodging := b)
    case NoMeals => s.(noMeals := b)
    case Travel => s.(travel := b)
    case NoLunch => s.(noLunch := b)
    case Hotline => s.(hotline := b)
  }

  /** Crew and fire header fields plus the optional remark flags and the
      optional list of free-text remarks. */
  datatype CrewInfo = CrewInfo(
    crewName: string,
    crewNumber: string,
    fireName: string,
    fireNumber: string,
    checkboxStates: Option<CheckboxStates>,
    customEntries: Option<seq<string>>)

  /** A field edit observed at one date: the field name and its value
      before and after. Values are modelled as strings. */
  datatype CellChange = CellChange(field: string, oldValue: string, newValue: string)

  /** A worksheet cell address: a column letter and a row number, as in
      `B6`. */
  datatype Cell = Cell(col: char, row: int)

  /** A worksheet as the text of its non-empty cells. */
  type Sheet = map<Cell, string>
}
