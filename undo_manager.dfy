/** The bounded undo history `UndoManager` of src/utils/undoManager.ts: a
    history of snapshots with a cursor, capped at 50 entries, recording a new
    snapshot only when enough time has passed and something visible
    changed. Snapshots are values, so `cloneState` is the identity here; the
    clock is the input `now`. */
module UndoHistory {
  import opened Types

  datatype Snapshot = Snapshot(
    data: seq<CrewMember>,
    crewInfo: CrewInfo,
    checkboxStates: CheckboxStates,
    customEntries: seq<string>)

  const MaxHistory: nat := 50
  const MinTimeBetweenRecords: int := 500

  predicate DayChanged(a: Day, b: Day)
  {
    a.on != b.on || a.off != b.off || a.date != b.date
  }

  /** `oldMember` against the member at the same index. */
  predicate MemberChanged(a: CrewMember, b: CrewMember)
  {
    a.name != b.name || a.classification != b.classification || |a.days| != |b.days| ||
    exists i | 0 <= i < |a.days| :: DayChanged(a.days[i], b.days[i])
  }

  predicate HeaderChanged(a: CrewInfo, b: CrewInfo)
  {
    a.crewName != b.crewName || a.crewNumber != b.crewNumber ||
    a.fireName != b.fireName || a.fireNumber != b.fireNumber
  }

  predicate CheckboxChanged(a: CheckboxStates, b: CheckboxStates)
  {
    exists o: CheckboxOption :: Flag(a, o) != Flag(b, o)
  }

  /** `hasSignificantChange(oldState, newState)`: the crew list (its length,
      or a member's name, classification, day count or day times), the four
      header fields, a checkbox or the custom entries differ. */
  predicate HasSignificantChange(a: Snapshot, b: Snapshot)
  {
    || |a.data| != |b.data|
    || (exists i | 0 <= i < |a.data| :: MemberChanged(a.data[i], b.data[i]))
    || HeaderChanged(a.crewInfo, b.crewInfo)
    || CheckboxChanged(a.checkboxStates, b.checkboxStates)
    || |a.customEntries| != |b.customEntries|
    || (exists i | 0 <= i < |a.customEntries| :: a.customEntries[i] != b.customEntries[i])
  }

  /** The part of a snapshot the comparison looks at: the crew-info
      checkbox and custom-entry copies are not compared. */
  function Visible(s: Snapshot): (seq<CrewMember>, string, string, string, string, CheckboxStates, seq<string>)
  {
    (s.data, s.crewInfo.crewName, s.crewInfo.crewNumber, s.crewInfo.fireName, s.crewInfo.fireNumber,
     s.checkboxStates, s.customEntries)
  }

  lemma {:induction false} MemberUnchangedMeansEqual(a: CrewMember, b: CrewMember)
    ensures !MemberChanged(a, b) <==> a == b
  {
    if !MemberChanged(a, b) {
      assert a.days == b.days by {
        forall i | 0 <= i < |a.days| ensures a.days[i] == b.days[i] {
          assert !DayChanged(a.days[i], b.days[i]);
        }
      }
    }
  }

  lemma CheckboxUnchangedMeansEqual(a: CheckboxStates, b: CheckboxStates)
    ensures !CheckboxChanged(a, b) <==> a == b
  {
    if !CheckboxChanged(a, b) {
      assert Flag(a, NoMealsLodging) == Flag(b, NoMealsLodging);
      assert Flag(a, NoMeals) == Flag(b, NoMeals);
      assert Flag(a, Travel) == Flag(b, Travel);
      assert Flag(a, NoLunch) == Flag(b, NoLunch);
      assert Flag(a, Hotline) == Flag(b, Hotline);
    }
  }

  /** A change is significant exactly when the visible parts of the two
      snapshots differ. */
  lemma SignificantIffVisibleDiffers(a: Snapshot, b: Snapshot)
    ensures HasSignificantChange(a, b) <==> Visible(a) != Visible(b)
  {
    CheckboxUnchangedMeansEqual(a.checkboxStates, b.checkboxStates);
    if !HasSignificantChange(a, b) {
      assert a.data == b.data by {
        forall i | 0 <= i < |a.data| ensures a.data[i] == b.data[i] {
          MemberUnchangedMeansEqual(a.data[i], b.data[i]);
        }
      }
      assert a.customEntries == b.customEntries;
    } else if |a.data| == |b.data| && exists i | 0 <= i < |a.data| :: MemberChanged(a.data[i], b.data[i]) {
      var i :| 0 <= i < |a.data| && MemberChanged(a.data[i], b.data[i]);
      MemberUnchangedMeansEqual(a.data[i], b.data[i]);
    }
  }

  /** No snapshot is a significant change from itself, and the relation is
      symmetric. */
  lemma NoChangeFromItself(a: Snapshot, b: Snapshot)
    ensures !HasSignificantChange(a, a)
    ensures HasSignificantChange(a, b) == HasSignificantChange(b, a)
  {
    SignificantIffVisibleDiffers(a, a);
    SignificantIffVisibleDiffers(a, b);
    SignificantIffVisibleDiffers(b, a);
  }

  /** `pushState`'s effect on the history: drop the states after the
      cursor, append, then drop the oldest state when over the cap. */
  function Pushed(history: seq<Snapshot>, currentIndex: int, s: Snapshot): (r: seq<Snapshot>)
    requires -1 <= currentIndex < |history| <= MaxHistory
    ensures 1 <= |r| <= MaxHistory && r[|r| - 1] == s
    ensures |r| == (if currentIndex + 2 > MaxHistory then MaxHistory else currentIndex + 2)
    ensures r[..|r| - 1] == history[currentIndex + 2 - |r|..currentIndex + 1]
  {
    var h := history[..currentIndex + 1] + [s];
    assert h[..|h| - 1] == history[..currentIndex + 1];
    if |h| > MaxHistory then h[1..] else h
  }

  /** After a push over a non-empty history the previous current state is
      the one just below the new top, so one undo returns it. */
  lemma PushThenUndo(history: seq<Snapshot>, currentIndex: int, s: Snapshot)
    requires 0 <= currentIndex < |history| <= MaxHistory
    ensures var r := Pushed(history, currentIndex, s); |r| >= 2 && r[|r| - 2] == history[currentIndex]
  {
    var r := Pushed(history, currentIndex, s);
    assert r[|r| - 2] == r[..|r| - 1][|r| - 2];
  }

  class UndoManager {
    var history: seq<Snapshot>
    var currentIndex: int
    var lastRecordTime: int

    ghost predicate Valid()
      reads this
    {
      && -1 <= currentIndex < |history| <= MaxHistory
      && (currentIndex == -1 <==> history == [])
    }

    constructor (initialState: Snapshot, now: int)
      ensures Valid()
      ensures history == [initialState] && currentIndex == 0 && lastRecordTime == now
      ensures !CanUndo() && GetCurrentState() == Some(initialState)
    {
      history := [];
      currentIndex := -1;
      lastRecordTime := 0;
      new;
      PushState(initialState, now);
    }

    method PushState(s: Snapshot, now: int)
      requires Valid()
      modifies this
      ensures Valid()
      ensures history == Pushed(old(history), old(currentIndex), s)
      ensures currentIndex == |history| - 1 && lastRecordTime == now
      ensures GetCurrentState() == Some(s)
    {
      ghost var target := Pushed(history, currentIndex, s);
      var kept := history;
      if currentIndex < |history| - 1 {
        kept := history[..currentIndex + 1];
      }
      assert kept == history[..currentIndex + 1];
      var h := kept + [s];
      var index := currentIndex + 1;
      if |h| > MaxHistory {
        h := h[1..];
        index := index - 1;
      }
      assert h == target;
      history := h;
      currentIndex := index;
      lastRecordTime := now;
    }

    /** Records `newState` when there is no current state, or when at least
        500 ms have passed and the change is significant. */
    method RecordChange(newState: Snapshot, now: int)
      requires Valid()
      modifies this
      ensures Valid()
      ensures var record := old(currentIndex) < 0 ||
                (now - old(lastRecordTime) >= MinTimeBetweenRecords &&
                 HasSignificantChange(old(history)[old(currentIndex)], newState));
        && (record ==> history == Pushed(old(history), old(currentIndex), newState) && lastRecordTime == now)
        && (!record ==> history == old(history) && currentIndex == old(currentIndex) && lastRecordTime == old(lastRecordTime))
    {
      var timeSinceLastRecord := now - lastRecordTime;
      var currentState := if currentIndex >= 0 then Some(history[currentIndex]) else None;
      if currentState.None? ||
         (timeSinceLastRecord >= MinTimeBetweenRecords && HasSignificantChange(currentState.value, newState)) {
        PushState(newState, now);
      }
    }

    function CanUndo(): (r: bool)
      reads this
      ensures r <==> currentIndex > 0
    {
      currentIndex > 0
    }

    /** Steps the cursor back and returns that state; with nothing to undo
        returns null and changes nothing. */
    method Undo() returns (r: Option<Snapshot>)
      requires Valid()
      modifies this
      ensures Valid() && history == old(history) && lastRecordTime == old(lastRecordTime)
      ensures old(currentIndex) <= 0 ==> r.None? && currentIndex == old(currentIndex)
      ensures old(currentIndex) > 0 ==> currentIndex == old(currentIndex) - 1 && r == Some(history[currentIndex])
    {
      if !CanUndo() {
        return None;
      }
      currentIndex := currentIndex - 1;
      return Some(history[currentIndex]);
    }

    method Clear()
      requires Valid()
      modifies this
      ensures Valid() && history == [] && currentIndex == -1 && lastRecordTime == old(lastRecordTime)
      ensures GetCurrentState().None? && !CanUndo()
    {
      history := [];
      currentIndex := -1;
    }

    function GetCurrentState(): (r: Option<Snapshot>)
      requires -1 <= currentIndex < |history|
      reads this
      ensures r.Some? <==> currentIndex >= 0
    {
      if currentIndex >= 0 then Some(history[currentIndex]) else None
    }
  }
}
