/** The editing rules embedded in the crew time table
    (src/components/MainTable.tsx): the military-time check applied while a
    time is typed, the exclusive travel/hotline checkboxes and what is saved
    when one is clicked, copying the FFT member's times down the table,
    copying a time typed on the second row to the named rows below it, and
    the list of custom remark entries. React state updates become returned
    values. */
module MainTableRules {
  import opened Types
  import opened Strings
  import ExcelTemplate

  // ---------------------------------------------------------------------
  // Military-time check while typing

  /** `Number(c)` of a one-character string: its digit, 0 for white space,
      and `None` for NaN. Every comparison with NaN, and with the
      `undefined` of a missing position, is false. */
  function NumberOf(c: char): Option<nat>
  {
    if IsDigit(c) then Some(DigitValue(c)) else if IsSpace(c) then Some(0) else None
  }

  /** `digits[i] > k`, false for a missing position or NaN. */
  predicate DigitAbove(value: string, i: nat, k: nat)
  {
    i < |value| && NumberOf(value[i]).Some? && NumberOf(value[i]).value > k
  }

  /** `validateMilitaryTime`: accepts '' and otherwise rejects a string
      longer than four, a first digit above 2, a '2' followed by a digit
      above 3, and a third digit above 5. */
  function ValidateMilitaryTime(value: string): bool
  {
    if value == "" then true
    else if |value| > 4 then false
    else if DigitAbove(value, 0, 2) then false
    else if FirstIsTwo(value) && DigitAbove(value, 1, 3) then false
    else if DigitAbove(value, 2, 5) then false
    else true
  }

  /** `digits[0] === 2`. */
  predicate FirstIsTwo(value: string) { |value| > 0 && NumberOf(value[0]) == Some(2) }

  /** A time edit is taken only if it is all digits (`/^\d*$/`) and passes
      the check. */
  predicate TimeEditAccepted(value: string)
  {
    AllDigits(value) && ValidateMilitaryTime(value)
  }

  /** On digit strings the check reads as conditions on the first three
      digits; the fourth is never looked at. */
  lemma ValidateOnDigits(value: string)
    requires AllDigits(value)
    ensures ValidateMilitaryTime(value) <==>
              |value| == 0 ||
              (|value| <= 4 && value[0] <= '2' &&
               (value[0] == '2' && |value| >= 2 ==> value[1] <= '3') &&
               (|value| >= 3 ==> value[2] <= '5'))
  {
  }

  /** Accepted digit strings are closed under taking prefixes. */
  lemma ValidatePrefixClosed(value: string, k: nat)
    requires AllDigits(value) && ValidateMilitaryTime(value) && k <= |value|
    ensures ValidateMilitaryTime(value[..k])
  {
    ValidateOnDigits(value);
    assert AllDigits(value[..k]);
    ValidateOnDigits(value[..k]);
  }

  /** On four digits the check accepts exactly the times the Excel export
      can parse. */
  lemma ValidateAgreesWithParse(time: string)
    requires |time| == 4 && AllDigits(time)
    ensures ValidateMilitaryTime(time) <==> ExcelTemplate.ParseMilitaryTime(time).Some?
  {
    ValidateOnDigits(time);
    var h := ExcelTemplate.TwoDigits(time[..2]);
    var m := ExcelTemplate.TwoDigits(time[2..]);
    assert h == DigitValue(time[0]) * 10 + DigitValue(time[1]);
    assert m == DigitValue(time[2]) * 10 + DigitValue(time[3]);
  }

  /** Every prefix of a valid "HHMM" time is accepted while typing, so a
      valid time can always be typed digit by digit. */
  lemma TypingValidTime(time: string, k: nat)
    requires ExcelTemplate.ParseMilitaryTime(time).Some? && k <= |time|
    ensures TimeEditAccepted(time[..k])
  {
    ValidateAgreesWithParse(time);
    ValidatePrefixClosed(time, k);
  }

  // ---------------------------------------------------------------------
  // Checkboxes

  /** Travel and hotline are never both set. */
  predicate Exclusive(cs: CheckboxStates) { !(cs.travel && cs.hotline) }

  /** The `setCheckboxStates` updater of `handleCheckboxChange`: turning on
      travel turns off hotline and the other way round; any other option
      flips only itself. */
  function ToggleCheckbox(prev: CheckboxStates, option: CheckboxOption): (r: CheckboxStates)
    ensures Flag(r, option) == !Flag(prev, option)
    ensures option == Travel && !prev.travel ==> !r.hotline
    ensures option == Hotline && !prev.hotline ==> !r.travel
    ensures forall o :: (o != option && !(option == Travel && o == Hotline && !prev.travel) &&
                         !(option == Hotline && o == Travel && !prev.hotline)) ==> Flag(r, o) == Flag(prev, o)
  {
    match option
    case Travel => prev.(travel := !prev.travel, hotline := if !prev.travel then false else prev.hotline)
    case Hotline => prev.(hotline := !prev.hotline, travel := if !prev.hotline then false else prev.travel)
    case _ => SetFlag(prev, option, !Flag(prev, option))
  }

  /** The updater keeps "not both travel and hotline". */
  lemma ToggleKeepsExclusive(prev: CheckboxStates, option: CheckboxOption)
    ensures Exclusive(prev) ==> Exclusive(ToggleCheckbox(prev, option))
  {
  }

  /** The checkbox states `handleCheckboxChange` sends to the save, as
      written: the clicked option flipped, and hotline cleared when travel
      is being turned on. Turning hotline on leaves travel as it was. */
  function SavedChecksAsWritten(prev: CheckboxStates, option: CheckboxOption): CheckboxStates
  {
    var flipped := SetFlag(prev, option, !Flag(prev, option));
    if option == Travel && !prev.travel then flipped.(hotline := false) else flipped
  }

  /** The saved states differ from the displayed ones exactly when hotline
      is turned on while travel is set; they then record both as set. */
  lemma SavedChecksDivergeAsWritten(prev: CheckboxStates, option: CheckboxOption)
    ensures SavedChecksAsWritten(prev, option) != ToggleCheckbox(prev, option) <==>
              option == Hotline && !prev.hotline && prev.travel
    ensures option == Hotline && !prev.hotline && prev.travel ==> !Exclusive(SavedChecksAsWritten(prev, option))
  {
  }

  /** Travel set, hotline clicked: the display shows hotline alone, the
      save records travel and hotline. */
  lemma HotlineAfterTravelSavedAsBoth()
    ensures var prev := CheckboxStates(false, false, true, false, false);
            ToggleCheckbox(prev, Hotline) == CheckboxStates(false, false, false, false, true) &&
            SavedChecksAsWritten(prev, Hotline) == CheckboxStates(false, false, true, false, true)
  {
  }

  /** The save payload as intended: the crew information with the states
      the updater produces and the current custom entries. */
  function CheckboxSavePayload(crewInfo: CrewInfo, prev: CheckboxStates, option: CheckboxOption,
                               customEntries: seq<string>): (r: CrewInfo)
    ensures r.checkboxStates == Some(ToggleCheckbox(prev, option))
    ensures r.customEntries == Some(customEntries)
    ensures Exclusive(prev) ==> Exclusive(r.checkboxStates.value)
    ensures r.crewName == crewInfo.crewName && r.crewNumber == crewInfo.crewNumber &&
            r.fireName == crewInfo.fireName && r.fireNumber == crewInfo.fireNumber
  {
    ToggleKeepsExclusive(prev, option);
    crewInfo.(checkboxStates := Some(ToggleCheckbox(prev, option)), customEntries := Some(customEntries))
  }

  // ---------------------------------------------------------------------
  // Copying the FFT member's times

  /** A classification naming an FFT1 or FFT2 position, in any letter
      case. */
  predicate IsFFT(m: CrewMember)
  {
    Contains(ToUpper(m.classification), "FFT1") || Contains(ToUpper(m.classification), "FFT2")
  }

  /** `data.findIndex(...)`: the first FFT member. */
  function FindFFT(data: seq<CrewMember>): (r: Option<nat>)
    ensures r.Some? ==> r.value < |data| && IsFFT(data[r.value]) &&
                        forall i :: 0 <= i < r.value ==> !IsFFT(data[i])
    ensures r.None? ==> forall i :: 0 <= i < |data| ==> !IsFFT(data[i])
  {
    if |data| == 0 then None
    else if IsFFT(data[0]) then Some(0)
    else
      var rest := FindFFT(data[1..]);
      assert forall i :: 1 <= i < |data| ==> data[i] == data[1..][i - 1];
      if rest.Some? then Some(rest.value + 1) else None
  }

  /** The first FFT member depends only on the classifications. */
  lemma {:induction false} SameClassificationsSameFFT(a: seq<CrewMember>, b: seq<CrewMember>)
    requires |a| == |b|
    requires forall i :: 0 <= i < |a| ==> a[i].classification == b[i].classification
    ensures FindFFT(a) == FindFFT(b)
  {
    if |a| > 0 && !IsFFT(a[0]) {
      assert !IsFFT(b[0]);
      SameClassificationsSameFFT(a[1..], b[1..]);
    }
  }

  const NoFFTMessage := "Please enter an FFT1 or FFT2 classification first."
  const UnnamedFFTMessage := "Please enter the FFT name first."

  /** `copyFFTTimes`: every member after the first FFT member gets a copy of
      the FFT member's days; the members up to it keep theirs. Without an FFT
      member, or when it has no name, the data is left alone and the user is
      told why. */
  function CopyFFTTimes(data: seq<CrewMember>): (r: Result<seq<CrewMember>>)
    ensures FindFFT(data).None? <==> r == Err(NoFFTMessage)
    ensures r.Ok? ==> FindFFT(data).Some? && data[FindFFT(data).value].name != ""
    ensures FindFFT(data).Some? && data[FindFFT(data).value].name == "" ==> r == Err(UnnamedFFTMessage)
    ensures r.Ok? ==>
              var fft := FindFFT(data).value;
              |r.value| == |data| &&
              (forall i :: 0 <= i <= fft ==> r.value[i] == data[i]) &&
              (forall i :: fft < i < |data| ==>
                 r.value[i].name == data[i].name && r.value[i].classification == data[i].classification &&
                 r.value[i].days == data[fft].days)
  {
    match FindFFT(data)
    case None => Err(NoFFTMessage)
    case Some(fft) =>
      if data[fft].name == "" then Err(UnnamedFFTMessage)
      else Ok(seq(|data|, i requires 0 <= i < |data| =>
                    if i <= fft then data[i] else data[i].(days := data[fft].days)))
  }

  /** Copying again changes nothing: the FFT member is still the first one
      and every later member already has its days. */
  lemma CopyFFTTimesIdempotent(data: seq<CrewMember>)
    requires CopyFFTTimes(data).Ok?
    ensures CopyFFTTimes(CopyFFTTimes(data).value) == CopyFFTTimes(data)
  {
    var r := CopyFFTTimes(data).value;
    var fft := FindFFT(data).value;
    SameClassificationsSameFFT(r, data);
    assert r[fft] == data[fft];
    var r2 := CopyFFTTimes(r).value;
    assert |r2| == |r|;
    assert forall i :: 0 <= i < |r| ==> r2[i] == r[i];
    assert r2 == r;
  }

  // ---------------------------------------------------------------------
  // Time edits and the row-1 copy

  datatype TimeField = OnTime | OffTime

  function TimeOf(d: Day, field: TimeField): string
  {
    match field
    case OnTime => d.on
    case OffTime => d.off
  }

  function SetTime(d: Day, field: TimeField, value: string): Day
  {
    match field
    case OnTime => d.(on := value)
    case OffTime => d.(off := value)
  }

  /** `days[k] || ''`. */
  function DayDate(days: seq<string>, k: nat): string
  {
    if k < |days| then days[k] else ""
  }

  /** Sets one time of day `dayIdx` of a member, first creating that day
      (dated by the table's days, with blank times) if the member lacks it. */
  function WithTime(m: CrewMember, days: seq<string>, dayIdx: nat, field: TimeField, value: string): (r: CrewMember)
    ensures r.name == m.name && r.classification == m.classification
    ensures |r.days| == if dayIdx < |m.days| then |m.days| else dayIdx + 1
    ensures TimeOf(r.days[dayIdx], field) == value
    ensures dayIdx < |m.days| ==> r.days[dayIdx] == SetTime(m.days[dayIdx], field, value)
    ensures forall k :: 0 <= k < |m.days| && k != dayIdx ==> r.days[k] == m.days[k]
  {
    var padded := if dayIdx < |m.days| then m.days
                  else m.days + seq(dayIdx + 1 - |m.days|, k requires 0 <= k => Day(DayDate(days, |m.days| + k), "", ""));
    m.(days := padded[dayIdx := SetTime(padded[dayIdx], field, value)])
  }

  /** The row created when the edited row does not exist yet. */
  function FreshRow(days: seq<string>): CrewMember
  {
    CrewMember("", "", seq(|days|, k requires 0 <= k < |days| => Day(days[k], "", "")))
  }

  /** The data after an accepted time edit: the edited row gets the time,
      and when it is row index 1 so does every named row from index 2 on. */
  function TimeEdited(data: seq<CrewMember>, days: seq<string>, rowIdx: nat, dayIdx: nat,
                      field: TimeField, value: string): (r: seq<CrewMember>)
    requires rowIdx <= |data|
  {
    var base := if rowIdx == |data| then data + [FreshRow(days)] else data;
    seq(|base|, i requires 0 <= i < |base| =>
          if i == rowIdx || (rowIdx == 1 && i >= 2 && base[i].name != "") then WithTime(base[i], days, dayIdx, field, value) else base[i])
  }

  /** The time-entry path of `handleCellEdit`: reject a value that is not
      digits or fails the check, create the row if needed, set the time, and
      for row index 1 copy it into every named row from index 2 on. */
  method HandleTimeEdit(data: seq<CrewMember>, days: seq<string>, rowIdx: nat, dayIdx: nat,
                        field: TimeField, newValue: string) returns (newData: seq<CrewMember>)
    requires rowIdx <= |data|
    ensures newData == if TimeEditAccepted(newValue) then TimeEdited(data, days, rowIdx, dayIdx, field, newValue) else data
  {
    if !AllDigits(newValue) || !ValidateMilitaryTime(newValue) {
      return data;
    }
    newData := data;
    if rowIdx == |newData| {
      newData := newData + [FreshRow(days)];
    }
    ghost var base := newData;
    newData := newData[rowIdx := WithTime(newData[rowIdx], days, dayIdx, field, newValue)];
    if rowIdx != 1 {
      assert newData == TimeEdited(data, days, rowIdx, dayIdx, field, newValue);
    } else {
      var i := 2;
      while i < |newData|
        invariant 2 <= i <= |newData| || |newData| < 2
        invariant |newData| == |base|
        invariant forall j :: 0 <= j < |base| && (j < i || j == rowIdx) ==>
                    newData[j] == if j == rowIdx || (j >= 2 && base[j].name != "") then WithTime(base[j], days, dayIdx, field, newValue) else base[j]
        invariant forall j :: i <= j < |base| && j != rowIdx ==> newData[j] == base[j]
      {
        if newData[i].name != "" {
          newData := newData[i := WithTime(newData[i], days, dayIdx, field, newValue)];
        }
        i := i + 1;
      }
      assert newData == TimeEdited(data, days, rowIdx, dayIdx, field, newValue);
    }
  }

  /** A time typed on row index 1 reaches the same day of every named row
      from index 2 on; row 0 and unnamed rows keep their value, and no row
      is added or lost. */
  lemma RowOneCopies(data: seq<CrewMember>, days: seq<string>, dayIdx: nat, field: TimeField, value: string)
    requires 1 < |data|
    ensures var r := TimeEdited(data, days, 1, dayIdx, field, value);
            |r| == |data| &&
            dayIdx < |r[1].days| && TimeOf(r[1].days[dayIdx], field) == value &&
            r[0] == data[0] &&
            (forall i :: 2 <= i < |data| && data[i].name != "" ==>
               r[i].name == data[i].name && dayIdx < |r[i].days| && TimeOf(r[i].days[dayIdx], field) == value) &&
            (forall i :: 2 <= i < |data| && data[i].name == "" ==> r[i] == data[i])
  {
    var r := TimeEdited(data, days, 1, dayIdx, field, value);
    assert forall i :: 1 <= i < |data| && (i == 1 || data[i].name != "") ==>
             r[i] == WithTime(data[i], days, dayIdx, field, value);
  }

  /** An edit on any row other than index 1 changes that row only, and only
      the edited time of it. */
  lemma OtherRowsKeep(data: seq<CrewMember>, days: seq<string>, rowIdx: nat, dayIdx: nat, field: TimeField, value: string)
    requires rowIdx < |data| && rowIdx != 1 && dayIdx < |data[rowIdx].days|
    ensures var r := TimeEdited(data, days, rowIdx, dayIdx, field, value);
            |r| == |data| &&
            (forall i :: 0 <= i < |data| && i != rowIdx ==> r[i] == data[i]) &&
            r[rowIdx] == data[rowIdx].(days := data[rowIdx].days[dayIdx := SetTime(data[rowIdx].days[dayIdx], field, value)])
  {
    var r := TimeEdited(data, days, rowIdx, dayIdx, field, value);
    var m := data[rowIdx];
    assert r[rowIdx] == WithTime(m, days, dayIdx, field, value);
    assert r[rowIdx].days == m.days[dayIdx := SetTime(m.days[dayIdx], field, value)];
  }

  datatype TextField = NameText | ClassificationText

  /** The name and classification path of `handleCellEdit`: set the field
      (creating the row if needed), and when a non-empty name is typed on a
      row below the first FFT member, give that row a copy of the FFT
      member's days. */
  function NameEdited(data: seq<CrewMember>, days: seq<string>, rowIdx: nat, field: TextField, value: string): (r: seq<CrewMember>)
    requires rowIdx <= |data|
    ensures |r| == if rowIdx == |data| then |data| + 1 else |data|
    ensures forall i :: 0 <= i < |data| && i != rowIdx ==> r[i] == data[i]
    ensures field == NameText ==> r[rowIdx].name == value
    ensures field == ClassificationText ==> r[rowIdx].classification == value
    ensures rowIdx < |data| && field == NameText ==> r[rowIdx].classification == data[rowIdx].classification
    ensures rowIdx < |data| && field == ClassificationText ==> r[rowIdx] == data[rowIdx].(classification := value)
  {
    var base := if rowIdx == |data| then data + [FreshRow(days)] else data;
    var row := match field
               case NameText => base[rowIdx].(name := value)
               case ClassificationText => base[rowIdx].(classification := value);
    var edited := base[rowIdx := row];
    var fft := FindFFT(edited);
    if field == NameText && value != "" && fft.Some? && rowIdx > fft.value
    then edited[rowIdx := row.(days := edited[fft.value].days)]
    else edited
  }

  /** Naming a row copies the FFT member's days into it exactly when the
      row lies below the first FFT member; otherwise its days are kept. */
  lemma NamingBelowFFT(data: seq<CrewMember>, days: seq<string>, rowIdx: nat, value: string)
    requires rowIdx < |data| && value != ""
    ensures var r := NameEdited(data, days, rowIdx, NameText, value);
            var fft := FindFFT(data);
            if fft.Some? && rowIdx > fft.value then r[rowIdx].days == data[fft.value].days
            else r[rowIdx].days == data[rowIdx].days
  {
    var edited := data[rowIdx := data[rowIdx].(name := value)];
    SameClassificationsSameFFT(edited, data);
  }

  // ---------------------------------------------------------------------
  // Custom remark entries

  predicate NoDuplicates(s: seq<string>)
  {
    forall i, j :: 0 <= i < j < |s| ==> s[i] != s[j]
  }

  /** `handleAddEntry`: appends the trimmed entry when it is not blank and
      not in the list yet. */
  function AddEntry(entries: seq<string>, newEntry: string): (r: seq<string>)
    ensures Trim(newEntry) != "" && Trim(newEntry) !in entries ==> r == entries + [Trim(newEntry)]
    ensures Trim(newEntry) == "" || Trim(newEntry) in entries ==> r == entries
  {
    var entry := Trim(newEntry);
    if entry != "" && entry !in entries then entries + [entry] else entries
  }

  /** Adding keeps the list free of duplicates. */
  lemma AddKeepsNoDuplicates(entries: seq<string>, newEntry: string)
    requires NoDuplicates(entries)
    ensures NoDuplicates(AddEntry(entries, newEntry))
  {
  }

  /** `handleRemoveCustomEntry`: `filter(entry => entry !== entryToRemove)`. */
  function RemoveEntry(entries: seq<string>, entryToRemove: string): (r: seq<string>)
    ensures entryToRemove !in r
    ensures forall e :: e != entryToRemove ==> multiset(r)[e] == multiset(entries)[e]
    ensures |r| <= |entries|
  {
    if |entries| == 0 then []
    else
      var before := RemoveEntry(entries[..|entries| - 1], entryToRemove);
      assert entries == entries[..|entries| - 1] + [entries[|entries| - 1]];
      if entries[|entries| - 1] == entryToRemove then before else before + [entries[|entries| - 1]]
  }

  /** `filter` keeps order: removing from a concatenation removes from each part. */
  lemma {:induction false} RemoveAppend(a: seq<string>, b: seq<string>, entryToRemove: string)
    ensures RemoveEntry(a + b, entryToRemove) == RemoveEntry(a, entryToRemove) + RemoveEntry(b, entryToRemove)
  {
    if |b| > 0 {
      var init := b[..|b| - 1];
      assert (a + b)[..|a + b| - 1] == a + init;
      RemoveAppend(a, init, entryToRemove);
    } else {
      assert a + b == a;
    }
  }

  /** The first entry stays ahead of the rest exactly when it differs from the one removed. */
  lemma RemoveCons(e: string, rest: seq<string>, entryToRemove: string)
    ensures RemoveEntry([e] + rest, entryToRemove)
         == (if e == entryToRemove then [] else [e]) + RemoveEntry(rest, entryToRemove)
  {
    RemoveAppend([e], rest, entryToRemove);
    assert [e][..0] == [];
  }

  /** Removing an entry that is not there changes nothing. */
  lemma {:induction false} RemoveAbsent(entries: seq<string>, entryToRemove: string)
    requires entryToRemove !in entries
    ensures RemoveEntry(entries, entryToRemove) == entries
  {
    if |entries| > 0 {
      RemoveAbsent(entries[..|entries| - 1], entryToRemove);
      assert entries == entries[..|entries| - 1] + [entries[|entries| - 1]];
    }
  }

  /** Adding an entry and removing it again gives back the list. */
  lemma AddThenRemove(entries: seq<string>, newEntry: string)
    requires Trim(newEntry) != "" && Trim(newEntry) !in entries
    ensures RemoveEntry(AddEntry(entries, newEntry), Trim(newEntry)) == entries
  {
    var r := AddEntry(entries, newEntry);
    assert r[..|r| - 1] == entries;
    RemoveAbsent(entries, Trim(newEntry));
  }
}
