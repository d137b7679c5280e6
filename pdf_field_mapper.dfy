/** `mapToPDFFields` of src/utils/pdfFieldMapper.ts: the dictionary from
    form-field names of the crew time report PDF to their text. Field names
    are a datatype here, printed by `FieldName`, which is proved injective,
    so a map keyed by the datatype is the source's dictionary keyed by
    strings. The total-hours text comes from a function outside this model
    and is a parameter. */
module PdfFields {
  import opened Types
  import opened Strings
  import opened Remarks

  /** A form field: the header, the remark rows, the two dates and the six
      fields of each numbered member row. */
  datatype PdfField =
    | CrewNameField | CrewNumberField | FireNameField | FireNumberField
    | RemarksRow(n: nat) | DateField | Date2Field
    | EmployeeName(row: nat) | Classification(row: nat)
    | OnRow(row: nat) | OffRow(row: nat) | On2Row(row: nat) | Off2Row(row: nat)

  /** The name of a field in the PDF form, spelled as the form spells it. */
  function FieldName(f: PdfField): string
  {
    match f
    case CrewNameField => "1 CREW NAME"
    case CrewNumberField => "2 CREW NUMER"
    case FireNameField => "4FIRE NAME"
    case FireNumberField => "5 FIRE NUMBER"
    case RemarksRow(n) => "lRfMARKSRow" + NatToString(n)
    case DateField => "DATE"
    case Date2Field => "DATE_2"
    case EmployeeName(r) => "NAME OF EMPLOYEERow" + NatToString(r)
    case Classification(r) => "ClASS IF CATIONRow" + NatToString(r)
    case OnRow(r) => "ONRow" + NatToString(r)
    case OffRow(r) => "OFFRow" + NatToString(r)
    case On2Row(r) => "ONRow" + NatToString(r) + "_2"
    case Off2Row(r) => "OFFRow" + NatToString(r) + "_2"
  }

  lemma SameNumber(p: string, a: nat, b: nat)
    requires p + NatToString(a) == p + NatToString(b)
    ensures a == b
  {
    assert (p + NatToString(a))[|p|..] == NatToString(a);
    assert (p + NatToString(b))[|p|..] == NatToString(b);
    NatToStringInjective(a, b);
  }

  lemma NotSuffixed(p: string, a: nat, b: nat)
    requires |p| > 0 && p[|p| - 1] == 'w'
    ensures p + NatToString(a) != p + NatToString(b) + "_2"
  {
    var x := p + NatToString(a);
    var y := p + NatToString(b) + "_2";
    var s := NatToString(a);
    assert y[|y| - 2] == '_';
    if |s| >= 2 {
      assert x[|x| - 2] == s[|s| - 2];
    } else {
      assert x[|x| - 2] == p[|p| - 1];
    }
  }

  /** The first two characters of each field name. */
  function Head(f: PdfField): string
  {
    match f
    case CrewNameField => "1 "
    case CrewNumberField => "2 "
    case FireNameField => "4F"
    case FireNumberField => "5 "
    case RemarksRow(_) => "lR"
    case DateField => "DA"
    case Date2Field => "DA"
    case EmployeeName(_) => "NA"
    case Classification(_) => "Cl"
    case OnRow(_) => "ON"
    case OffRow(_) => "OF"
    case On2Row(_) => "ON"
    case Off2Row(_) => "OF"
  }

  lemma HeadOf(f: PdfField)
    ensures |FieldName(f)| >= 4 && FieldName(f)[..2] == Head(f)
  {
  }

  /** Distinct fields have distinct names. */
  lemma FieldNameInjective(f: PdfField, g: PdfField)
    requires FieldName(f) == FieldName(g)
    ensures f == g
  {
    var s := FieldName(f);
    HeadOf(f);
    HeadOf(g);
    match f
    case RemarksRow(a) => assert g.RemarksRow?; SameNumber("lRfMARKSRow", a, g.n);
    case EmployeeName(a) => assert g.EmployeeName?; SameNumber("NAME OF EMPLOYEERow", a, g.row);
    case Classification(a) => assert g.Classification?; SameNumber("ClASS IF CATIONRow", a, g.row);
    case OnRow(a) =>
      if g.On2Row? { NotSuffixed("ONRow", a, g.row); }
      assert g.OnRow?; SameNumber("ONRow", a, g.row);
    case OffRow(a) =>
      if g.Off2Row? { NotSuffixed("OFFRow", a, g.row); }
      assert g.OffRow?; SameNumber("OFFRow", a, g.row);
    case On2Row(a) =>
      if g.OnRow? { NotSuffixed("ONRow", g.row, a); }
      assert g.On2Row?;
      assert "ONRow" + NatToString(a) + "_2" == "ONRow" + NatToString(g.row) + "_2";
      assert ("ONRow" + NatToString(a) + "_2")[..|s| - 2] == "ONRow" + NatToString(a);
      SameNumber("ONRow", a, g.row);
    case Off2Row(a) =>
      if g.OffRow? { NotSuffixed("OFFRow", g.row, a); }
      assert g.Off2Row?;
      assert ("OFFRow" + NatToString(a) + "_2")[..|s| - 2] == "OFFRow" + NatToString(a);
      SameNumber("OFFRow", a, g.row);
    case _ =>
  }

  /** The spaces between the status label and the total in remark row 1. */
  const Gap := "                "

  /** The text of remark row 1. */
  function StatusRowText(status: string, totalHoursText: string): (r: string)
    ensures StartsWith(r, status)
  {
    assert (status + (Gap + "Total Hours: " + totalHoursText))[..|status|] == status;
    status + (Gap + "Total Hours: " + totalHoursText)
  }

  /** Remark rows `2` to `|shown| + 1` hold the remarks `shown`, in order. */
  function WithRemarks(fields: map<PdfField, string>, shown: seq<string>): map<PdfField, string>
  {
    if |shown| == 0 then fields
    else WithRemarks(fields, shown[..|shown| - 1])[RemarksRow(|shown| + 1) := shown[|shown| - 1]]
  }

  lemma {:induction false} RemarkRowField(fields: map<PdfField, string>, shown: seq<string>, f: PdfField)
    ensures var out := WithRemarks(fields, shown);
            if f.RemarksRow? && 2 <= f.n < 2 + |shown|
            then f in out && out[f] == shown[f.n - 2]
            else (f in out <==> f in fields) && (f in fields ==> out[f] == fields[f])
  {
    if |shown| > 0 {
      var n := |shown| - 1;
      RemarkRowField(fields, shown[..n], f);
      if f.RemarksRow? && 2 <= f.n < 2 + n {
        assert shown[..n][f.n - 2] == shown[f.n - 2];
      }
    }
  }

  /** The four header fields. */
  function HeaderOnly(ci: CrewInfo): map<PdfField, string>
  {
    map[CrewNameField := ci.crewName, CrewNumberField := ci.crewNumber,
        FireNameField := ci.fireName, FireNumberField := ci.fireNumber]
  }

  /** The status label of remark row 1: 'HOTLINE' without checkbox states. */
  function StatusOf(ci: CrewInfo): string
  {
    if ci.checkboxStates.Some? then StatusLabel(ci.checkboxStates.value.hotline) else HotlineText
  }

  /** The remarks written to rows 2 to 7: none without checkbox states,
      otherwise the first six of the remark list. */
  function ShownRemarks(ci: CrewInfo): (r: seq<string>)
    ensures |r| <= 6
  {
    if ci.checkboxStates.Some? then Take(RemarkList(ci.checkboxStates.value, ci.customEntries), 6) else []
  }

  /** The header and remark fields, present only when crew information is
      given. */
  function HeaderFields(crewInfo: Option<CrewInfo>, totalHoursText: string): map<PdfField, string>
  {
    if crewInfo.None? then map[]
    else
      var ci := crewInfo.value;
      WithRemarks(HeaderOnly(ci)[RemarksRow(1) := StatusRowText(StatusOf(ci), totalHoursText)], ShownRemarks(ci))
  }

  /** `DATE` and `DATE_2` from the first and second day of the first row. */
  function WithDates(fields: map<PdfField, string>, data: seq<CrewMember>): map<PdfField, string>
  {
    var f1 := if |data| > 0 && |data[0].days| >= 1 then fields[DateField := data[0].days[0].date] else fields;
    if |data| > 0 && |data[0].days| >= 2 then f1[Date2Field := data[0].days[1].date] else f1
  }

  /** The member row a field belongs to, if any. */
  function RowOf(f: PdfField): Option<nat>
  {
    match f
    case EmployeeName(r) => Some(r)
    case Classification(r) => Some(r)
    case OnRow(r) => Some(r)
    case OffRow(r) => Some(r)
    case On2Row(r) => Some(r)
    case Off2Row(r) => Some(r)
    case _ => None
  }

  /** What member `m` puts in the field of kind `f` of its row, if anything:
      the ON/OFF fields of a day only when the member has that day. */
  function MemberField(m: CrewMember, f: PdfField): Option<string>
  {
    match f
    case EmployeeName(_) => Some(m.name)
    case Classification(_) => Some(m.classification)
    case OnRow(_) => if |m.days| >= 1 then Some(m.days[0].on) else None
    case OffRow(_) => if |m.days| >= 1 then Some(m.days[0].off) else None
    case On2Row(_) => if |m.days| >= 2 then Some(m.days[1].on) else None
    case Off2Row(_) => if |m.days| >= 2 then Some(m.days[1].off) else None
    case _ => None
  }

  /** The fields of member `m` as row number `rowNum`. */
  function WithRow(fields: map<PdfField, string>, rowNum: nat, m: CrewMember): map<PdfField, string>
  {
    var f1 := fields[EmployeeName(rowNum) := m.name][Classification(rowNum) := m.classification];
    var f2 := if |m.days| >= 1 then f1[OnRow(rowNum) := m.days[0].on][OffRow(rowNum) := m.days[0].off] else f1;
    if |m.days| >= 2 then f2[On2Row(rowNum) := m.days[1].on][Off2Row(rowNum) := m.days[1].off] else f2
  }

  lemma WithRowField(fields: map<PdfField, string>, rowNum: nat, m: CrewMember, f: PdfField)
    ensures var out := WithRow(fields, rowNum, m);
            if RowOf(f) == Some(rowNum) && MemberField(m, f).Some?
            then f in out && out[f] == MemberField(m, f).value
            else (f in out <==> f in fields) && (f in fields ==> out[f] == fields[f])
  {
  }

  /** The member rows: member `idx` as row `idx + 1` unless it is blank. */
  function WithRows(fields: map<PdfField, string>, data: seq<CrewMember>): map<PdfField, string>
  {
    if |data| == 0 then fields
    else
      var before := WithRows(fields, data[..|data| - 1]);
      var idx := |data| - 1;
      if Blank(data[idx]) then before else WithRow(before, idx + 1, data[idx])
  }

  /** The whole dictionary `mapToPDFFields` returns. */
  function PdfFieldsOf(data: seq<CrewMember>, crewInfo: Option<CrewInfo>, totalHoursText: string): map<PdfField, string>
  {
    WithRows(WithDates(HeaderFields(crewInfo, totalHoursText), data), data)
  }

  lemma {:induction false} RowFields(fields: map<PdfField, string>, data: seq<CrewMember>, f: PdfField)
    ensures var out := WithRows(fields, data);
            if RowOf(f).Some? && 1 <= RowOf(f).value <= |data| && !Blank(data[RowOf(f).value - 1]) &&
               MemberField(data[RowOf(f).value - 1], f).Some?
            then f in out && out[f] == MemberField(data[RowOf(f).value - 1], f).value
            else (f in out <==> f in fields) && (f in fields ==> out[f] == fields[f])
  {
    if |data| > 0 {
      var n := |data| - 1;
      RowFields(fields, data[..n], f);
      if RowOf(f).Some? && 1 <= RowOf(f).value <= n {
        assert data[..n][RowOf(f).value - 1] == data[RowOf(f).value - 1];
      }
      if !Blank(data[n]) {
        WithRowField(WithRows(fields, data[..n]), n + 1, data[n], f);
      }
    }
  }

  /** A field of the header block: the header fields, remark row 1 and the
      remark rows, when crew information is given. */
  lemma HeaderField(crewInfo: Option<CrewInfo>, totalHoursText: string, f: PdfField)
    ensures var h := HeaderFields(crewInfo, totalHoursText);
            crewInfo.None? ==> f !in h
    ensures var h := HeaderFields(crewInfo, totalHoursText);
            crewInfo.Some? && !f.RemarksRow? ==>
              (f in h <==> f in HeaderOnly(crewInfo.value)) &&
              (f in h ==> h[f] == HeaderOnly(crewInfo.value)[f])
    ensures var h := HeaderFields(crewInfo, totalHoursText);
            crewInfo.Some? && f.RemarksRow? ==>
              var shown := ShownRemarks(crewInfo.value);
              (f in h <==> 1 <= f.n < 2 + |shown|) &&
              (f.n == 1 ==> h[f] == StatusRowText(StatusOf(crewInfo.value), totalHoursText)) &&
              (2 <= f.n < 2 + |shown| ==> h[f] == shown[f.n - 2])
  {
    if crewInfo.Some? {
      var ci := crewInfo.value;
      RemarkRowField(HeaderOnly(ci)[RemarksRow(1) := StatusRowText(StatusOf(ci), totalHoursText)], ShownRemarks(ci), f);
    }
  }

  /** A field outside the member rows is as the header and dates left it;
      the header block holds no member-row field. */
  lemma NonRowField(data: seq<CrewMember>, crewInfo: Option<CrewInfo>, totalHoursText: string, f: PdfField)
    ensures var out := PdfFieldsOf(data, crewInfo, totalHoursText);
            var base := WithDates(HeaderFields(crewInfo, totalHoursText), data);
            RowOf(f).None? ==> (f in out <==> f in base) && (f in base ==> out[f] == base[f])
    ensures RowOf(f).Some? ==> f !in WithDates(HeaderFields(crewInfo, totalHoursText), data)
  {
    HeaderField(crewInfo, totalHoursText, f);
    RowFields(WithDates(HeaderFields(crewInfo, totalHoursText), data), data, f);
  }

  /** A field of member row `r` is present exactly when member `r - 1`
      exists, is not blank, and has a value for it, and then holds that
      value: rows use `idx + 1` from their place in `data`, blank rows
      produce nothing, and the ON/OFF fields of a day exist only if the day
      does. */
  lemma RowField(data: seq<CrewMember>, crewInfo: Option<CrewInfo>, totalHoursText: string, f: PdfField)
    requires RowOf(f).Some?
    ensures var out := PdfFieldsOf(data, crewInfo, totalHoursText);
            var r := RowOf(f).value;
            (f in out <==> 1 <= r <= |data| && !Blank(data[r - 1]) && MemberField(data[r - 1], f).Some?) &&
            (f in out ==> 1 <= r <= |data| && MemberField(data[r - 1], f) == Some(out[f]))
  {
    NonRowField(data, crewInfo, totalHoursText, f);
    RowFields(WithDates(HeaderFields(crewInfo, totalHoursText), data), data, f);
  }

  /** With crew information the four header fields are set from it;
      without it no header field and no remark row is. */
  lemma HeaderFieldsSet(data: seq<CrewMember>, crewInfo: Option<CrewInfo>, totalHoursText: string, f: PdfField)
    requires !RowOf(f).Some? && f != DateField && f != Date2Field && !f.RemarksRow?
    ensures var out := PdfFieldsOf(data, crewInfo, totalHoursText);
            (crewInfo.Some? ==> f in out && out[f] == HeaderOnly(crewInfo.value)[f]) &&
            (crewInfo.None? ==> f !in out)
  {
    NonRowField(data, crewInfo, totalHoursText, f);
    HeaderField(crewInfo, totalHoursText, f);
  }

  /** A field of the header block reads in the dictionary as in the
      header block. */
  lemma HeaderBlockField(data: seq<CrewMember>, crewInfo: Option<CrewInfo>, totalHoursText: string, f: PdfField)
    requires RowOf(f).None? && f != DateField && f != Date2Field
    ensures var out := PdfFieldsOf(data, crewInfo, totalHoursText);
            var h := HeaderFields(crewInfo, totalHoursText);
            (f in out <==> f in h) && (f in h ==> out[f] == h[f])
  {
    NonRowField(data, crewInfo, totalHoursText, f);
  }

  /** Remark row 1 of the header block opens with the status label. */
  lemma StatusRow(crewInfo: CrewInfo, totalHoursText: string)
    ensures var h := HeaderFields(Some(crewInfo), totalHoursText);
            var hotline := crewInfo.checkboxStates.None? || crewInfo.checkboxStates.value.hotline;
            RemarksRow(1) in h && StartsWith(h[RemarksRow(1)], if hotline then HotlineText else TravelText)
  {
    HeaderField(Some(crewInfo), totalHoursText, RemarksRow(1));
    var hotline := crewInfo.checkboxStates.None? || crewInfo.checkboxStates.value.hotline;
    assert StatusOf(crewInfo) == if hotline then HotlineText else TravelText;
  }

  /** The remark rows, given crew information: row 1 starts with 'HOTLINE'
      when hotline is set or the checkbox states are absent, and with
      'Travel' otherwise; rows 2 to 7 hold the first six remarks in order;
      no other remark row exists. Without crew information there is none. */
  lemma RemarkFields(data: seq<CrewMember>, crewInfo: Option<CrewInfo>, totalHoursText: string, k: nat)
    ensures var out := PdfFieldsOf(data, crewInfo, totalHoursText);
            crewInfo.None? ==> RemarksRow(k) !in out
    ensures var out := PdfFieldsOf(data, crewInfo, totalHoursText);
            crewInfo.Some? ==>
              var ci := crewInfo.value;
              var hotline := ci.checkboxStates.None? || ci.checkboxStates.value.hotline;
              var shown := ShownRemarks(ci);
              (k == 1 ==> RemarksRow(k) in out && StartsWith(out[RemarksRow(k)], if hotline then HotlineText else TravelText)) &&
              (2 <= k < 2 + |shown| ==> RemarksRow(k) in out && out[RemarksRow(k)] == shown[k - 2]) &&
              ((k == 0 || k >= 2 + |shown|) ==> RemarksRow(k) !in out)
  {
    HeaderBlockField(data, crewInfo, totalHoursText, RemarksRow(k));
    HeaderField(crewInfo, totalHoursText, RemarksRow(k));
    if crewInfo.Some? && k == 1 {
      StatusRow(crewInfo.value, totalHoursText);
    }
  }

  /** `DATE` and `DATE_2` come from the first row's first and second day,
      and exist only when that day does. */
  lemma DateFields(data: seq<CrewMember>, crewInfo: Option<CrewInfo>, totalHoursText: string)
    ensures var out := PdfFieldsOf(data, crewInfo, totalHoursText);
            (DateField in out <==> |data| > 0 && |data[0].days| >= 1) &&
            (Date2Field in out <==> |data| > 0 && |data[0].days| >= 2) &&
            (DateField in out ==> out[DateField] == data[0].days[0].date) &&
            (Date2Field in out ==> out[Date2Field] == data[0].days[1].date)
  {
    NonRowField(data, crewInfo, totalHoursText, DateField);
    NonRowField(data, crewInfo, totalHoursText, Date2Field);
    HeaderField(crewInfo, totalHoursText, DateField);
    HeaderField(crewInfo, totalHoursText, Date2Field);
  }

  /** The header block: the four header fields, remark row 1 and the
      remark rows filled by `forEach` over at most six remarks. */
  method HeaderBlock(crewInfo: Option<CrewInfo>, totalHoursText: string) returns (fields: map<PdfField, string>)
    ensures fields == HeaderFields(crewInfo, totalHoursText)
  {
    fields := map[];
    if crewInfo.Some? {
      var ci := crewInfo.value;
      fields := fields[CrewNameField := ci.crewName][CrewNumberField := ci.crewNumber];
      fields := fields[FireNameField := ci.fireName][FireNumberField := ci.fireNumber];
      assert fields == HeaderOnly(ci);
      if ci.checkboxStates.Some? {
        var cs := ci.checkboxStates.value;
        var remarks := RemarkList(cs, ci.customEntries);
        fields := fields[RemarksRow(1) := StatusRowText(StatusLabel(cs.hotline), totalHoursText)];
        var shown := Take(remarks, 6);
        assert fields == HeaderOnly(ci)[RemarksRow(1) := StatusRowText(StatusOf(ci), totalHoursText)];
        assert shown == ShownRemarks(ci);
        fields := AddRemarks(fields, shown);
      } else {
        fields := fields[RemarksRow(1) := StatusRowText(HotlineText, totalHoursText)];
        assert ShownRemarks(ci) == [];
      }
    }
  }

  /** `forEach` over the remarks shown: remark `index` in row `index + 2`. */
  method AddRemarks(start: map<PdfField, string>, shown: seq<string>) returns (fields: map<PdfField, string>)
    ensures fields == WithRemarks(start, shown)
  {
    fields := start;
    var index := 0;
    while index < |shown|
      invariant 0 <= index <= |shown|
      invariant fields == WithRemarks(start, shown[..index])
    {
      assert shown[..index + 1][..index] == shown[..index];
      fields := fields[RemarksRow(index + 2) := shown[index]];
      index := index + 1;
    }
    assert shown[..index] == shown;
  }

  /** `forEach` over the rows: member `idx` as row `idx + 1`, blank rows
      skipped. */
  method AddRows(dated: map<PdfField, string>, data: seq<CrewMember>) returns (fields: map<PdfField, string>)
    ensures fields == WithRows(dated, data)
  {
    fields := dated;
    var idx := 0;
    while idx < |data|
      invariant 0 <= idx <= |data|
      invariant fields == WithRows(dated, data[..idx])
    {
      assert data[..idx + 1][..idx] == data[..idx];
      var row := data[idx];
      if !Blank(row) {
        var rowNum := idx + 1;
        fields := fields[EmployeeName(rowNum) := row.name][Classification(rowNum) := row.classification];
        if |row.days| >= 1 {
          fields := fields[OnRow(rowNum) := row.days[0].on][OffRow(rowNum) := row.days[0].off];
        }
        if |row.days| >= 2 {
          fields := fields[On2Row(rowNum) := row.days[1].on][Off2Row(rowNum) := row.days[1].off];
        }
      }
      idx := idx + 1;
    }
    assert data[..idx] == data;
  }

  /** `mapToPDFFields`: the header block, the dates, then the rows. */
  method MapToPDFFields(data: seq<CrewMember>, crewInfo: Option<CrewInfo>, totalHoursText: string)
    returns (fields: map<PdfField, string>)
    ensures fields == PdfFieldsOf(data, crewInfo, totalHoursText)
  {
    fields := HeaderBlock(crewInfo, totalHoursText);
    if |data| > 0 && |data[0].days| >= 1 {
      fields := fields[DateField := data[0].days[0].date];
    }
    if |data| > 0 && |data[0].days| >= 2 {
      fields := fields[Date2Field := data[0].days[1].date];
    }
    fields := AddRows(fields, data);
  }
}
