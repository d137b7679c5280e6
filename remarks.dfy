/** The remark lines shared by the PDF export (src/utils/pdfFieldMapper.ts)
    and the print view (src/components/PrintableTable.tsx): a status label,
    then one fixed line per set checkbox in a fixed order, then the custom
    entries. */
module Remarks {
  import opened Types

  const NoMealsText := "Self Sufficient - No Meals Provided"
  const NoMealsNoLodgingText := "Self Sufficient - No Meals & No Lodging Provided"
  const TravelText := "Travel"
  const NoLunchText := "No Lunch Taken due to Uncontrolled Fire Line"
  const HotlineText := "HOTLINE"

  /** All five flags clear: what `checkboxStates?.x` reads when the states
      are absent. */
  const NoChecks := CheckboxStates(false, false, false, false, false)

  /** The label of the status row: 'HOTLINE' when hotline is set, else
      'Travel'. */
  function StatusLabel(hotline: bool): (r: string)
    ensures r == HotlineText <==> hotline
    ensures r == TravelText <==> !hotline
  {
    if hotline then HotlineText else TravelText
  }

  /** The lines the checkboxes contribute: noMealsLodging, noMeals, Travel
      (only when both travel and hotline are set), then noLunch. Note that
      the noMealsLodging flag prints the "No Meals" text and noMeals the
      "No Meals & No Lodging" text. */
  function CheckboxRemarks(cs: CheckboxStates): (r: seq<string>)
    ensures NoMealsText in r <==> cs.noMealsLodging
    ensures NoMealsNoLodgingText in r <==> cs.noMeals
    ensures TravelText in r <==> cs.travel && cs.hotline
    ensures NoLunchText in r <==> cs.noLunch
    ensures |r| == Count(cs.noMealsLodging) + Count(cs.noMeals) + Count(cs.travel && cs.hotline) + Count(cs.noLunch)
  {
    (if cs.noMealsLodging then [NoMealsText] else []) +
    (if cs.noMeals then [NoMealsNoLodgingText] else []) +
    (if cs.travel && cs.hotline then [TravelText] else []) +
    (if cs.noLunch then [NoLunchText] else [])
  }

  function Count(b: bool): nat { if b then 1 else 0 }

  /** The position each line takes is the number of set flags before it,
      so the lines keep the fixed checkbox order. */
  lemma CheckboxRemarksOrder(cs: CheckboxStates)
    ensures var r := CheckboxRemarks(cs);
            (cs.noMealsLodging ==> r[0] == NoMealsText) &&
            (cs.noMeals ==> r[Count(cs.noMealsLodging)] == NoMealsNoLodgingText) &&
            (cs.travel && cs.hotline ==>
               r[Count(cs.noMealsLodging) + Count(cs.noMeals)] == TravelText) &&
            (cs.noLunch ==>
               r[Count(cs.noMealsLodging) + Count(cs.noMeals) + Count(cs.travel && cs.hotline)] == NoLunchText)
  {
  }

  /** The remark list: the checkbox lines, then the custom entries
      (`remarks.push(...customEntries)`). */
  function RemarkList(cs: CheckboxStates, customEntries: Option<seq<string>>): (r: seq<string>)
    ensures |CheckboxRemarks(cs)| <= |r|
    ensures r[..|CheckboxRemarks(cs)|] == CheckboxRemarks(cs)
    ensures customEntries.Some? ==> r[|CheckboxRemarks(cs)|..] == customEntries.value
    ensures customEntries.None? ==> r == CheckboxRemarks(cs)
  {
    CheckboxRemarks(cs) + (if customEntries.Some? then customEntries.value else [])
  }

  /** At most `n` leading remarks, as `remarks.slice(0, n)`. */
  function Take(remarks: seq<string>, n: nat): (r: seq<string>)
    ensures |r| == if |remarks| < n then |remarks| else n
    ensures r == remarks[..|r|]
  {
    if |remarks| <= n then remarks else remarks[..n]
  }
}
