/** The text helpers of the pay-stub generator, `app/reports/paystub_pdf.py`:
    the company and employee address lines, the masked SSN, the filing
    status and pay frequency labels, and the earnings, deduction and
    year-to-date rows with the total deduction figure.

    Attributes the source reads with `getattr(obj, name, None)` are
    `Option` values; a string attribute is "truthy" when present and
    non-empty. Amounts are exact `real`s; the drawing commands that place
    the rows on the page and the `$1,234.56` currency formatting are not
    part of this model. */
module Paystub {
  import opened Wrappers
  import Text
  import Sums

  // ---------------------------------------------------------------------
  // Address lines
  // ---------------------------------------------------------------------

  /** Python truthiness of an optional string attribute. */
  predicate Truthy(v: Option<string>) {
    v.Some? && |v.value| > 0
  }

  /** The four address attributes shared by companies and employees. */
  datatype Address = Address(line1: Option<string>, city: Option<string>, state: Option<string>, zipCode: Option<string>)
  {
    /** The attributes in the order the address is written. */
    function Fields(): seq<Option<string>> {
      [line1, city, state, zipCode]
    }
  }

  /** The truthy values among `fields`, in order: `filter(None, fields)`. */
  function Present(fields: seq<Option<string>>): (r: seq<string>)
    ensures |r| <= |fields|
  {
    if |fields| == 0 then []
    else (if Truthy(fields[0]) then [fields[0].value] else []) + Present(fields[1..])
  }

  /** Every kept value is non-empty, none is kept unless some field is
      truthy, and a kept value inherits what holds of every field. */
  lemma PresentValues(fields: seq<Option<string>>, c: char)
    ensures forall i :: 0 <= i < |Present(fields)| ==> |Present(fields)[i]| > 0
    ensures |Present(fields)| == 0 <==> forall j :: 0 <= j < |fields| ==> !Truthy(fields[j])
    ensures (forall j :: 0 <= j < |fields| && fields[j].Some? ==> c !in fields[j].value) ==>
              forall i :: 0 <= i < |Present(fields)| ==> c !in Present(fields)[i]
  {
    PresentNonEmpty(fields);
    PresentNone(fields);
    if forall j :: 0 <= j < |fields| && fields[j].Some? ==> c !in fields[j].value {
      PresentAvoids(fields, c);
    }
  }

  lemma {:induction false} PresentNonEmpty(fields: seq<Option<string>>)
    ensures forall i :: 0 <= i < |Present(fields)| ==> |Present(fields)[i]| > 0
    decreases |fields|
  {
    if |fields| > 0 {
      PresentNonEmpty(fields[1..]);
      var head: seq<string> := if Truthy(fields[0]) then [fields[0].value] else [];
      assert Present(fields) == head + Present(fields[1..]);
    }
  }

  lemma {:induction false} PresentNone(fields: seq<Option<string>>)
    ensures |Present(fields)| == 0 <==> forall j :: 0 <= j < |fields| ==> !Truthy(fields[j])
    decreases |fields|
  {
    if |fields| > 0 {
      PresentNone(fields[1..]);
      assert forall j :: 1 <= j < |fields| ==> fields[j] == fields[1..][j - 1];
    }
  }

  lemma {:induction false} PresentAvoids(fields: seq<Option<string>>, c: char)
    requires forall j :: 0 <= j < |fields| && fields[j].Some? ==> c !in fields[j].value
    ensures forall i :: 0 <= i < |Present(fields)| ==> c !in Present(fields)[i]
    decreases |fields|
  {
    if |fields| > 0 {
      assert forall j :: 0 <= j < |fields[1..]| ==> fields[1..][j] == fields[j + 1];
      PresentAvoids(fields[1..], c);
      var head: seq<string> := if Truthy(fields[0]) then [fields[0].value] else [];
      assert Present(fields) == head + Present(fields[1..]);
    }
  }

  /** `_address_line(company)`: the truthy fields joined with ", ", or `None`
      when every field is empty. */
  function AddressLine(a: Address): (r: Option<string>)
    ensures r.None? <==> !Truthy(a.line1) && !Truthy(a.city) && !Truthy(a.state) && !Truthy(a.zipCode)
    ensures r.Some? ==> |r.value| > 0
  {
    PresentValues(a.Fields(), ',');
    var parts := Present(a.Fields());
    if |parts| == 0 then None
    else
      Text.JoinEnds(parts, ", ");
      Some(Text.Join(parts, ", "))
  }

  /** No address attribute holds a comma. */
  predicate CommaFree(a: Address) {
    forall j :: 0 <= j < |a.Fields()| && a.Fields()[j].Some? ==> ',' !in a.Fields()[j].value
  }

  /** The company address line splits back into exactly its non-empty
      fields, in order, when no field holds a comma. */
  lemma AddressLineSplits(a: Address)
    requires CommaFree(a)
    ensures AddressLine(a).Some? ==> Text.Split(AddressLine(a).value, ", ") == Present(a.Fields())
  {
    PresentValues(a.Fields(), ',');
    if AddressLine(a).Some? {
      Text.SplitJoin(Present(a.Fields()), ", ");
    }
  }

  /** `_employee_address(employee)`: the first address line, then city,
      state and zip joined with ", ", the empty parts dropped. */
  function EmployeeAddress(e: Address): (r: string)
    ensures |r| == 0 <==> !Truthy(e.line1) && !Truthy(e.city) && !Truthy(e.state) && !Truthy(e.zipCode)
  {
    var cityStateZip := Text.Join(Present([e.city, e.state, e.zipCode]), ", ");
    EmployeeAddressIsAddressLine(e);
    Text.Join(Present([e.line1, Some(cityStateZip)]), ", ")
  }

  /** Joining in two stages gives the company's one-stage address line:
      the employee address is the address line, or empty when there is none. */
  lemma EmployeeAddressIsAddressLine(e: Address)
    ensures Text.Join(Present([e.line1, Some(Text.Join(Present([e.city, e.state, e.zipCode]), ", "))]), ", ")
            == AddressLine(e).GetOr("")
  {
    var rest := Present([e.city, e.state, e.zipCode]);
    assert e.Fields()[1..] == [e.city, e.state, e.zipCode];
    assert Present(e.Fields()) == (if Truthy(e.line1) then [e.line1.value] else []) + rest;
    PresentValues([e.city, e.state, e.zipCode], ',');
    TwoStageJoin(e.line1, rest, ", ");
  }

  /** Joining the tail first and then the head with it drops an empty tail
      and otherwise agrees with joining everything at once. */
  lemma TwoStageJoin(head: Option<string>, rest: seq<string>, sep: string)
    requires forall i :: 0 <= i < |rest| ==> |rest[i]| > 0
    ensures Text.Join(Present([head, Some(Text.Join(rest, sep))]), sep)
            == Text.Join((if Truthy(head) then [head.value] else []) + rest, sep)
  {
    var tail := Text.Join(rest, sep);
    if |rest| > 0 {
      Text.JoinEnds(rest, sep);
      assert |tail| > 0;
    }
    assert [head, Some(tail)][1..] == [Some(tail)];
    assert [Some(tail)][1..] == [];
    var last: seq<string> := if |tail| > 0 then [tail] else [];
    assert Present([Some(tail)]) == last + Present([]);
    assert Present([Some(tail)]) == last;
    var outer := Present([head, Some(tail)]);
    assert outer == (if Truthy(head) then [head.value] else []) + last;
    if Truthy(head) && |rest| > 0 {
      assert outer == [head.value] + [tail];
      Text.JoinAppend([head.value], rest, sep);
    } else if Truthy(head) {
      assert outer == [head.value];
      assert [head.value] + rest == [head.value];
    } else if |rest| > 0 {
      assert outer == [tail];
      assert [] + rest == rest;
    } else {
      assert outer == [];
    }
  }

  /** With comma-free fields, the employee address neither starts nor ends
      with a separator and splits back into its non-empty fields, so no
      segment is empty. */
  lemma EmployeeAddressSegments(e: Address)
    requires CommaFree(e)
    ensures var r := EmployeeAddress(e);
      |r| > 0 ==> r[0] != ',' && r[|r| - 1] != ',' && Text.Split(r, ", ") == Present(e.Fields())
    ensures forall i :: 0 <= i < |Present(e.Fields())| ==> |Present(e.Fields())[i]| > 0
  {
    EmployeeAddressIsAddressLine(e);
    AddressLineSplits(e);
    var parts := Present(e.Fields());
    PresentValues(e.Fields(), ',');
    if |parts| > 0 {
      Text.JoinEnds(parts, ", ");
      assert parts[0][0] != ',';
      var last := parts[|parts| - 1];
      assert last[|last| - 1] != ',';
    }
  }

  // ---------------------------------------------------------------------
  // Masked SSN
  // ---------------------------------------------------------------------

  /** Python's `s[-4:]`: the last four characters, or all of a shorter string. */
  function LastFour(s: string): (r: string)
    ensures |r| == if |s| < 4 then |s| else 4
    ensures Text.EndsWith(s, r)
  {
    if |s| <= 4 then s else s[|s| - 4..]
  }

  /** The digits the stub shows: the end of the full SSN when there is one,
      else the stored last four, else nothing. */
  function ShownDigits(ssn: Option<string>, ssnLast4: Option<string>): string {
    if Truthy(ssn) then LastFour(ssn.value)
    else if Truthy(ssnLast4) then ssnLast4.value
    else ""
  }

  const MaskPrefix: string := "***-**-"

  /** `_masked_ssn(employee)`. */
  function MaskedSsn(ssn: Option<string>, ssnLast4: Option<string>): (r: string)
    ensures |r| >= 11 && r[..7] == MaskPrefix
    ensures Truthy(ssn) ==> |r| == 11
  {
    var last4 := ShownDigits(ssn, ssnLast4);
    MaskPrefix + (if |last4| > 0 then Text.ZFill(last4, 4) else "0000")
  }

  /** The mask reveals only the last four characters of a full SSN: two
      SSNs that end alike are masked alike, whatever else they hold and
      whatever last-four value is stored beside them. */
  lemma MaskHidesAllButLastFour(ssn1: string, ssn2: string, last1: Option<string>, last2: Option<string>)
    requires |ssn1| >= 4 && |ssn2| >= 4 && ssn1[|ssn1| - 4..] == ssn2[|ssn2| - 4..]
    ensures MaskedSsn(Some(ssn1), last1) == MaskedSsn(Some(ssn2), last2)
  {
  }

  /** What follows the mask reads back as the number shown: a digit string
      is left-padded with zeros to four places, and nothing at all shows
      as `0000`. */
  lemma MaskedSsnDigits(ssn: Option<string>, ssnLast4: Option<string>)
    requires Text.AllDigits(ShownDigits(ssn, ssnLast4))
    ensures var r := MaskedSsn(ssn, ssnLast4);
      Text.AllDigits(r[7..]) && Text.DigitsValue(r[7..]) == Text.DigitsValue(ShownDigits(ssn, ssnLast4))
    ensures |ShownDigits(ssn, ssnLast4)| <= 4 ==> |MaskedSsn(ssn, ssnLast4)| == 11
  {
    var last4 := ShownDigits(ssn, ssnLast4);
    var r := MaskedSsn(ssn, ssnLast4);
    if |last4| == 0 {
      assert r[7..] == Text.Repeat('0', 4) + last4;
      Text.DigitsValueOfZeros(4, last4);
    } else if |last4| < 4 {
      assert last4[0] !in "+-";
      assert r[7..] == Text.Repeat('0', 4 - |last4|) + last4;
      Text.DigitsValueOfZeros(4 - |last4|, last4);
    } else {
      assert r[7..] == last4;
    }
  }

  /** The stub of the repository's own test employee shows `***-**-3333`. */
  lemma MaskedTestEmployee()
    ensures MaskedSsn(Some("111-22-3333"), None) == "***-**-3333"
  {
    var ssn := "111-22-3333";
    assert ssn[|ssn| - 4..] == "3333";
    assert ShownDigits(Some(ssn), None) == "3333";
    assert Text.ZFill("3333", 4) == "3333";
  }

  /** Without a full SSN the stored last four is padded; without either the
      stub shows `0000`. */
  lemma MaskedFallbacks()
    ensures MaskedSsn(None, Some("42")) == "***-**-0042"
    ensures MaskedSsn(Some(""), None) == "***-**-0000"
  {
    assert Text.Repeat('0', 2) == "00";
  }

  // ---------------------------------------------------------------------
  // Labels
  // ---------------------------------------------------------------------

  const DefaultFilingStatus: string := "Single / Married Filing Separately"

  /** `FILING_STATUS_LABELS.get(status)`. */
  function FilingStatusLabelOf(status: string): Option<string> {
    if status == "single_or_married_filing_separately" then Some(DefaultFilingStatus)
    else if status == "married_filing_jointly" then Some("Married Filing Jointly")
    else if status == "head_of_household" then Some("Head of Household")
    else None
  }

  /** The filing status line: the label of a known status, the single
      label for anything else. */
  function FilingStatusLabel(status: string): (shown: string)
    ensures shown == DefaultFilingStatus || shown == "Married Filing Jointly" || shown == "Head of Household"
  {
    FilingStatusLabelOf(status).GetOr(DefaultFilingStatus)
  }

  /** Only the two other known statuses move the label off the default; in
      particular the employee table's own default `single` is not a key and
      shows the single label. */
  lemma FilingStatusDefault(status: string)
    ensures FilingStatusLabel(status) == DefaultFilingStatus
            <==> status != "married_filing_jointly" && status != "head_of_household"
    ensures FilingStatusLabel("single") == DefaultFilingStatus
  {
  }

  /** `PAY_FREQUENCY_LABELS.get(key)`. */
  function PayFrequencyLabelOf(key: string): Option<string> {
    if key == "daily" then Some("Daily")
    else if key == "weekly" then Some("Weekly")
    else if key == "biweekly" then Some("Biweekly")
    else if key == "semimonthly" then Some("Semimonthly")
    else if key == "monthly" then Some("Monthly")
    else None
  }

  /** The frequency key the stub looks up: the record's frequency, else the
      employee's, else `monthly`, lower-cased. */
  function FrequencyKey(recordFrequency: Option<string>, employeeFrequency: Option<string>): string {
    var raw :=
      if Truthy(recordFrequency) then recordFrequency.value
      else if Truthy(employeeFrequency) then employeeFrequency.value
      else "monthly";
    Text.Lower(raw)
  }

  /** `_pay_frequency(payroll_record, employee)`. */
  function PayFrequency(recordFrequency: Option<string>, employeeFrequency: Option<string>): (shown: string)
    ensures shown in {"Daily", "Weekly", "Biweekly", "Semimonthly", "Monthly"}
  {
    PayFrequencyLabelOf(FrequencyKey(recordFrequency, employeeFrequency)).GetOr("Monthly")
  }

  /** Each label is its key with the first letter raised. */
  lemma LabelsAreCapitalizedKeys(key: string)
    ensures PayFrequencyLabelOf(key).Some? ==> PayFrequencyLabelOf(key).value == Text.Capitalize(key)
  {
    if key == "daily" {
      assert Text.Capitalize(key) == "Daily";
    } else if key == "weekly" {
      assert Text.Capitalize(key) == "Weekly";
    } else if key == "biweekly" {
      assert Text.Capitalize(key) == "Biweekly";
    } else if key == "semimonthly" {
      assert Text.Capitalize(key) == "Semimonthly";
    } else if key == "monthly" {
      assert Text.Capitalize(key) == "Monthly";
    }
  }

  /** The label is the capitalised lower-cased frequency when that is one of
      the five known ones, and `Monthly` otherwise. */
  lemma PayFrequencyIsCapitalizedKey(recordFrequency: Option<string>, employeeFrequency: Option<string>)
    ensures var key := FrequencyKey(recordFrequency, employeeFrequency);
      PayFrequency(recordFrequency, employeeFrequency)
      == (if PayFrequencyLabelOf(key).Some? then Text.Capitalize(key) else "Monthly")
  {
    LabelsAreCapitalizedKeys(FrequencyKey(recordFrequency, employeeFrequency));
  }

  /** Case does not matter, a truthy record frequency wins over the
      employee's, and when neither is set the stub says `Monthly`. */
  lemma PayFrequencyChoice(recordFrequency: Option<string>, employeeFrequency: Option<string>)
    ensures Truthy(recordFrequency) ==>
      PayFrequency(recordFrequency, employeeFrequency) == PayFrequency(Some(Text.Lower(recordFrequency.value)), None)
    ensures !Truthy(recordFrequency) && !Truthy(employeeFrequency) ==>
      PayFrequency(recordFrequency, employeeFrequency) == "Monthly"
  {
    if Truthy(recordFrequency) {
      Text.LowerIdempotent(recordFrequency.value);
      assert FrequencyKey(Some(Text.Lower(recordFrequency.value)), None) == FrequencyKey(recordFrequency, employeeFrequency);
    } else if !Truthy(employeeFrequency) {
      MonthlyIsLower();
    }
  }

  lemma MonthlyIsLower()
    ensures Text.Lower("monthly") == "monthly"
  {
    var m := "monthly";
    assert forall i :: 0 <= i < |m| ==> !('A' <= m[i] <= 'Z');
  }

  // ---------------------------------------------------------------------
  // Amount rows
  // ---------------------------------------------------------------------

  /** `_safe_float(value)`: an absent amount counts as zero. */
  function SafeFloat(v: Option<real>): (x: real)
    ensures v.None? ==> x == 0.0
    ensures v.Some? ==> x == v.value
  {
    v.GetOr(0.0)
  }

  /** The amounts of one payroll record that the stub reads. */
  datatype PayAmounts = PayAmounts(
    federalWithholding: Option<real>,
    socialSecurityEe: Option<real>,
    medicareEe: Option<real>,
    additionalMedicareEe: Option<real>,
    deductions: Option<real>,
    bonus: Option<real>,
    reimbursements: Option<real>)

  /** One labelled amount of a table on the stub. */
  datatype Row = Row(title: string, amount: real)

  function Amount(r: Row): real { r.amount }

  /** The row for `title`, shown only when its amount is positive. */
  function IfPositive(title: string, amount: real): (rows: seq<Row>)
    ensures |rows| <= 1
    ensures Sums.Sum(rows, Amount) == if amount > 0.0 then amount else 0.0
  {
    if amount > 0.0 then [Row(title, amount)] else []
  }

  /** `total_deductions`: the five deductions, absent ones as zero. */
  function TotalDeductions(p: PayAmounts): (t: real)
    ensures (p.federalWithholding.None? && p.socialSecurityEe.None? && p.medicareEe.None?
             && p.additionalMedicareEe.None? && p.deductions.None?) ==> t == 0.0
    ensures (p.federalWithholding.Some? && p.socialSecurityEe.Some? && p.medicareEe.Some?
             && p.additionalMedicareEe.Some? && p.deductions.Some?) ==>
      t == p.federalWithholding.value + p.socialSecurityEe.value + p.medicareEe.value
           + p.additionalMedicareEe.value + p.deductions.value
  {
    SafeFloat(p.federalWithholding) + SafeFloat(p.socialSecurityEe) + SafeFloat(p.medicareEe)
      + SafeFloat(p.additionalMedicareEe) + SafeFloat(p.deductions)
  }

  /** The deduction table: income tax, Social Security and Medicare always,
      then Additional Medicare and other deductions when positive. */
  function DeductionRows(p: PayAmounts): (rows: seq<Row>)
    ensures 3 <= |rows| <= 5
  {
    [ Row("Federal Income Tax (FIT)", SafeFloat(p.federalWithholding)),
      Row("Social Security (Employee) 6.2%", SafeFloat(p.socialSecurityEe)),
      Row("Medicare (Employee) 1.45%", SafeFloat(p.medicareEe)) ]
      + IfPositive("Additional Medicare (Employee)", SafeFloat(p.additionalMedicareEe))
      + IfPositive("Other Deductions", SafeFloat(p.deductions))
  }

  /** The table starts with the three fixed rows; the Additional Medicare
      and Other Deductions rows appear exactly when their amounts are
      positive. */
  lemma DeductionRowsShape(p: PayAmounts)
    ensures var rows := DeductionRows(p);
      rows[0] == Row("Federal Income Tax (FIT)", SafeFloat(p.federalWithholding))
      && rows[1] == Row("Social Security (Employee) 6.2%", SafeFloat(p.socialSecurityEe))
      && rows[2] == Row("Medicare (Employee) 1.45%", SafeFloat(p.medicareEe))
    ensures Row("Additional Medicare (Employee)", SafeFloat(p.additionalMedicareEe)) in DeductionRows(p)
            <==> SafeFloat(p.additionalMedicareEe) > 0.0
    ensures Row("Other Deductions", SafeFloat(p.deductions)) in DeductionRows(p)
            <==> SafeFloat(p.deductions) > 0.0
  {
  }

  /** The rows on the stub add up to the printed total deductions exactly
      when neither optional amount is negative; a negative one is counted
      in the total but has no row. */
  lemma DeductionRowsAddUp(p: PayAmounts)
    ensures Sums.Sum(DeductionRows(p), Amount) == TotalDeductions(p)
            <==> SafeFloat(p.additionalMedicareEe) >= 0.0 && SafeFloat(p.deductions) >= 0.0
  {
    var fixed := [ Row("Federal Income Tax (FIT)", SafeFloat(p.federalWithholding)),
      Row("Social Security (Employee) 6.2%", SafeFloat(p.socialSecurityEe)),
      Row("Medicare (Employee) 1.45%", SafeFloat(p.medicareEe)) ];
    var addl := IfPositive("Additional Medicare (Employee)", SafeFloat(p.additionalMedicareEe));
    var other := IfPositive("Other Deductions", SafeFloat(p.deductions));
    Sums.SumAppend(fixed + addl, other, Amount);
    Sums.SumAppend(fixed, addl, Amount);
    FixedRowsSum(fixed[0], fixed[1], fixed[2]);
  }

  lemma FixedRowsSum(a: Row, b: Row, c: Row)
    ensures Sums.Sum([a, b, c], Amount) == a.amount + b.amount + c.amount
  {
    assert [a, b, c] == [a, b] + [c] && [a, b] == [a] + [b] && [a] == [] + [a];
    Sums.SumSnoc([a, b], c, Amount);
    Sums.SumSnoc([a], b, Amount);
    Sums.SumSnoc([], a, Amount);
  }

  /** The earnings table: regular pay always, then bonus and reimbursements
      when positive. */
  function EarningsRows(monthlySalary: Option<real>, p: PayAmounts): (rows: seq<Row>)
    ensures 1 <= |rows| <= 3
    ensures rows[0] == Row("Regular Pay (Monthly Salary)", SafeFloat(monthlySalary))
  {
    [Row("Regular Pay (Monthly Salary)", SafeFloat(monthlySalary))]
      + IfPositive("Bonus", SafeFloat(p.bonus))
      + IfPositive("Reimbursements", SafeFloat(p.reimbursements))
  }

  /** The earnings shown are the salary plus the positive parts of bonus and
      reimbursements, and the Bonus and Reimbursements rows appear exactly
      when those are positive. */
  lemma EarningsRowsAddUp(monthlySalary: Option<real>, p: PayAmounts)
    ensures Sums.Sum(EarningsRows(monthlySalary, p), Amount)
            == SafeFloat(monthlySalary) + Positive(SafeFloat(p.bonus)) + Positive(SafeFloat(p.reimbursements))
    ensures Row("Bonus", SafeFloat(p.bonus)) in EarningsRows(monthlySalary, p) <==> SafeFloat(p.bonus) > 0.0
    ensures Row("Reimbursements", SafeFloat(p.reimbursements)) in EarningsRows(monthlySalary, p)
            <==> SafeFloat(p.reimbursements) > 0.0
  {
    var first := [Row("Regular Pay (Monthly Salary)", SafeFloat(monthlySalary))];
    var bonus := IfPositive("Bonus", SafeFloat(p.bonus));
    var reimbursements := IfPositive("Reimbursements", SafeFloat(p.reimbursements));
    Sums.SumAppend(first + bonus, reimbursements, Amount);
    Sums.SumAppend(first, bonus, Amount);
    assert first[..0] == [];
  }

  /** `max(x, 0)`. */
  function Positive(x: real): (r: real)
    ensures r >= 0.0 && r >= x
  {
    if x > 0.0 then x else 0.0
  }

  /** The year-to-date box: six fixed lines read from the summary mapping
      (a missing or empty entry shows as zero), and the Additional Medicare
      line only when that amount is positive. */
  function YtdRows(ytd: map<string, Option<real>>): (rows: seq<Row>)
    ensures 6 <= |rows| <= 7
  {
    seq(|YtdKeys|, i requires 0 <= i < |YtdKeys| => Row(YtdKeys[i].0, YtdAmount(ytd, YtdKeys[i].1)))
      + IfPositive("YTD Additional Medicare", YtdAmount(ytd, "ytd_addl_medicare"))
  }

  /** `_safe_float(ytd_summary.get(key))`. */
  function YtdAmount(ytd: map<string, Option<real>>, key: string): real {
    if key in ytd then SafeFloat(ytd[key]) else 0.0
  }

  /** The labels of the fixed year-to-date lines and the summary keys they
      read, in the order they are printed. */
  const YtdKeys: seq<(string, string)> := [
    ("YTD Gross", "ytd_gross"),
    ("YTD Total Deductions", "ytd_total_deductions"),
    ("YTD Net", "ytd_net"),
    ("YTD FIT", "ytd_fit"),
    ("YTD SS", "ytd_ss"),
    ("YTD Medicare", "ytd_medicare")
  ]

  /** Each fixed line shows its own summary entry, zero when the entry is
      missing; the seventh line appears exactly when the year's Additional
      Medicare is positive. */
  lemma YtdRowsShape(ytd: map<string, Option<real>>)
    ensures forall i :: 0 <= i < 6 ==> YtdRows(ytd)[i] == Row(YtdKeys[i].0, YtdAmount(ytd, YtdKeys[i].1))
    ensures forall i :: 0 <= i < 6 && YtdKeys[i].1 !in ytd ==> YtdRows(ytd)[i].amount == 0.0
    ensures |YtdRows(ytd)| == 7 <==> YtdAmount(ytd, "ytd_addl_medicare") > 0.0
    ensures |YtdRows(ytd)| == 7 ==> YtdRows(ytd)[6] == Row("YTD Additional Medicare", YtdAmount(ytd, "ytd_addl_medicare"))
  {
  }

  /** The box reads nothing but its seven summary entries: changing any
      other entry of the mapping leaves every line as it was. */
  lemma YtdRowsIgnoreOtherEntries(ytd: map<string, Option<real>>, key: string, v: Option<real>)
    requires key != "ytd_addl_medicare"
    requires forall i :: 0 <= i < |YtdKeys| ==> YtdKeys[i].1 != key
    ensures YtdRows(ytd[key := v]) == YtdRows(ytd)
  {
    var ytd' := ytd[key := v];
    forall i | 0 <= i < |YtdKeys| ensures YtdAmount(ytd', YtdKeys[i].1) == YtdAmount(ytd, YtdKeys[i].1) {
      assert YtdKeys[i].1 != key;
    }
    assert YtdAmount(ytd', "ytd_addl_medicare") == YtdAmount(ytd, "ytd_addl_medicare");
  }

  /** The stub of the repository's own test record: three earnings rows
      adding up to its gross pay, four deduction rows (no Additional
      Medicare) adding up to the total deductions. */
  lemma TestRecordRows()
    ensures var p := PayAmounts(Some(450.0), Some(316.82), Some(74.10), Some(0.0), Some(50.0), Some(100.0), Some(10.0));
      |EarningsRows(Some(5000.0), p)| == 3
      && Sums.Sum(EarningsRows(Some(5000.0), p), Amount) == 5110.0
      && |DeductionRows(p)| == 4
      && TotalDeductions(p) == 890.92
      && Sums.Sum(DeductionRows(p), Amount) == TotalDeductions(p)
  {
    var p := PayAmounts(Some(450.0), Some(316.82), Some(74.10), Some(0.0), Some(50.0), Some(100.0), Some(10.0));
    EarningsRowsAddUp(Some(5000.0), p);
    DeductionRowsAddUp(p);
  }
}
