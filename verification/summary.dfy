/** The in-memory report summaries of `app/reports/summary.py`: the
    quarter-to-months table, Form 941 lines, the Florida RT-6 per-employee
    wage-base split and Form 940 lines, all over a list of payroll records.

    Sums are exact (`real`); the order in which Python adds floats is not
    modelled. */
module Summary {
  import opened Wrappers
  import Sums

  /** `quarter_months(q)`: the three months of a calendar quarter, or `None`
      where the source's dictionary lookup raises `KeyError`. */
  function QuarterMonths(q: int): (months: Option<seq<int>>)
    ensures months.Some? <==> 1 <= q <= 4
    ensures months.Some? ==> months.value == [3 * q - 2, 3 * q - 1, 3 * q]
  {
    if q == 1 then Some([1, 2, 3])
    else if q == 2 then Some([4, 5, 6])
    else if q == 3 then Some([7, 8, 9])
    else if q == 4 then Some([10, 11, 12])
    else None
  }

  /** The four quarters split the twelve months: each month lies in exactly
      one quarter, and no quarter holds a month outside 1..12. */
  lemma QuartersPartitionYear(m: int)
    ensures 1 <= m <= 12 ==> QuarterMonths((m + 2) / 3).Some? && m in QuarterMonths((m + 2) / 3).value
    ensures forall q :: QuarterMonths(q).Some? && m in QuarterMonths(q).value ==> 1 <= m <= 12 && q == (m + 2) / 3
  {
  }

  /** The attributes of a payroll record the summaries read. */
  datatype Record = Record(
    employeeId: int,
    grossWages: real,
    fitWithholding: real,
    taxableWagesFederal: real,
    socialSecurityEmployee: real,
    socialSecurityEmployer: real,
    medicareEmployee: real,
    medicareEmployer: real,
    additionalMedicareEmployee: real,
    futaEmployer: real)

  function GrossWages(r: Record): real { r.grossWages }
  function FitWithholding(r: Record): real { r.fitWithholding }
  function TaxableWages(r: Record): real { r.taxableWagesFederal }
  function SocialSecurityTax(r: Record): real { r.socialSecurityEmployee + r.socialSecurityEmployer }
  function MedicareTax(r: Record): real { r.medicareEmployee + r.medicareEmployer }
  function AdditionalMedicare(r: Record): real { r.additionalMedicareEmployee }
  function FutaEmployer(r: Record): real { r.futaEmployer }

  /** Every tax a record reports for Form 941: income tax withheld and both
      halves of Social Security and Medicare, plus Additional Medicare. */
  function AllTaxes941(r: Record): real {
    FitWithholding(r) + SocialSecurityTax(r) + MedicareTax(r) + AdditionalMedicare(r)
  }

  // ---------------------------------------------------------------------
  // Form 941
  // ---------------------------------------------------------------------

  datatype Form941 = Form941(
    line2WagesTipsOtherComp: real,
    line3FederalIncomeTaxWithheld: real,
    line5aTaxableSocialSecurityWages: real,
    line5aTaxSocialSecurity: real,
    line5cTaxableMedicareWagesTips: real,
    line5cTaxMedicare: real,
    line5dTaxableWagesAdditionalMedicare: real,
    line5dTaxAdditionalMedicareWithholding: real,
    line5eTotalSocialSecurityMedicareTaxes: real,
    line6TotalTaxesBeforeAdjustments: real)

  /** The Form 941 lines as column totals. */
  function Form941Of(records: seq<Record>): Form941 {
    var ss := Sums.Sum(records, SocialSecurityTax);
    var med := Sums.Sum(records, MedicareTax);
    var addl := Sums.Sum(records, AdditionalMedicare);
    var fit := Sums.Sum(records, FitWithholding);
    var taxable := Sums.Sum(records, TaxableWages);
    Form941(Sums.Sum(records, GrossWages), fit, taxable, ss, taxable, med, taxable, addl,
            ss + med + addl, fit + (ss + med + addl))
  }

  /** `form_941_summary(records)`: the accumulating loop, one record at a
      time, followed by the two derived lines. */
  method Form941Summary(records: seq<Record>) returns (f: Form941)
    ensures f == Form941Of(records)
    ensures f.line5eTotalSocialSecurityMedicareTaxes
         == f.line5aTaxSocialSecurity + f.line5cTaxMedicare + f.line5dTaxAdditionalMedicareWithholding
    ensures f.line6TotalTaxesBeforeAdjustments
         == f.line3FederalIncomeTaxWithheld + f.line5eTotalSocialSecurityMedicareTaxes
    ensures f.line5aTaxableSocialSecurityWages == f.line5cTaxableMedicareWagesTips
         == f.line5dTaxableWagesAdditionalMedicare == Sums.Sum(records, TaxableWages)
  {
    var line2, line3, wages, ss, med, addl := 0.0, 0.0, 0.0, 0.0, 0.0, 0.0;
    var i := 0;
    while i < |records|
      invariant 0 <= i <= |records|
      invariant line2 == Sums.Sum(records[..i], GrossWages)
      invariant line3 == Sums.Sum(records[..i], FitWithholding)
      invariant wages == Sums.Sum(records[..i], TaxableWages)
      invariant ss == Sums.Sum(records[..i], SocialSecurityTax)
      invariant med == Sums.Sum(records[..i], MedicareTax)
      invariant addl == Sums.Sum(records[..i], AdditionalMedicare)
    {
      var r := records[i];
      assert records[..i + 1][..i] == records[..i];
      line2 := line2 + r.grossWages;
      line3 := line3 + r.fitWithholding;
      wages := wages + r.taxableWagesFederal;
      ss := ss + (r.socialSecurityEmployee + r.socialSecurityEmployer);
      med := med + (r.medicareEmployee + r.medicareEmployer);
      addl := addl + r.additionalMedicareEmployee;
      i := i + 1;
    }
    assert records[..i] == records;
    var line5e := ss + med + addl;
    f := Form941(line2, line3, wages, ss, wages, med, wages, addl, line5e, line3 + line5e);
  }

  /** Line 6 is the sum over the records of every tax each one reports. */
  lemma Form941Line6IsAllTaxes(records: seq<Record>)
    ensures Form941Of(records).line6TotalTaxesBeforeAdjustments == Sums.Sum(records, AllTaxes941)
  {
    var ssMed := (r: Record) => SocialSecurityTax(r) + MedicareTax(r);
    var fica := (r: Record) => ssMed(r) + AdditionalMedicare(r);
    Sums.SumAdd(records, SocialSecurityTax, MedicareTax, ssMed);
    Sums.SumAdd(records, ssMed, AdditionalMedicare, fica);
    Sums.SumAdd(records, FitWithholding, fica, AllTaxes941);
  }

  // ---------------------------------------------------------------------
  // Grouping by employee
  // ---------------------------------------------------------------------

  /** The distinct employee ids of the records, in order of first
      appearance, as the keys of the source's `defaultdict` come out. */
  function EmployeeIds(records: seq<Record>): (ids: seq<int>)
    ensures forall i, j :: 0 <= i < j < |ids| ==> ids[i] != ids[j]
  {
    if |records| == 0 then []
    else
      var init := records[..|records| - 1];
      var x := records[|records| - 1];
      var ids := EmployeeIds(init);
      if x.employeeId in ids then ids else ids + [x.employeeId]
  }

  /** Every record's employee is listed. */
  lemma {:induction false} EmployeeIdsComplete(records: seq<Record>)
    ensures forall k :: 0 <= k < |records| ==> records[k].employeeId in EmployeeIds(records)
    decreases |records|
  {
    if |records| > 0 {
      var init := records[..|records| - 1];
      EmployeeIdsComplete(init);
      assert forall k :: 0 <= k < |init| ==> records[k] == init[k];
    }
  }

  /** Every listed id is the id of some record. */
  lemma {:induction false} EmployeeIdsSound(records: seq<Record>, i: nat)
    requires i < |EmployeeIds(records)|
    ensures exists k :: 0 <= k < |records| && records[k].employeeId == EmployeeIds(records)[i]
    decreases |records|
  {
    var init := records[..|records| - 1];
    if i < |EmployeeIds(init)| {
      EmployeeIdsSound(init, i);
      var k :| 0 <= k < |init| && init[k].employeeId == EmployeeIds(init)[i];
      assert records[k] == init[k];
    } else {
      assert records[|records| - 1].employeeId == EmployeeIds(records)[i];
    }
  }

  function OfEmployee(id: int): Record -> bool {
    (r: Record) => r.employeeId == id
  }

  /** One employee's total of a column over the records. */
  function EmployeeTotal(records: seq<Record>, column: Record -> real, id: int): real {
    Sums.Sum(Sums.Filter(records, OfEmployee(id)), column)
  }

  /** The per-employee totals of a column, as a function of the id. */
  function PerEmployee(records: seq<Record>, column: Record -> real): int -> real {
    id => EmployeeTotal(records, column, id)
  }

  function Indicator(k: int, c: real): int -> real {
    id => if id == k then c else 0.0
  }

  /** One more record adds its amount to its own employee's total only. */
  lemma EmployeeTotalSnoc(records: seq<Record>, x: Record, column: Record -> real, id: int)
    ensures EmployeeTotal(records + [x], column, id)
         == EmployeeTotal(records, column, id) + Indicator(x.employeeId, column(x))(id)
  {
    Sums.FilterSnoc(records, x, OfEmployee(id));
    if x.employeeId == id {
      Sums.SumSnoc(Sums.Filter(records, OfEmployee(id)), x, column);
    } else {
      assert Sums.Filter(records + [x], OfEmployee(id)) == Sums.Filter(records, OfEmployee(id));
    }
  }

  /** Over distinct ids, an indicator sums to its value exactly when its
      id occurs. */
  lemma {:induction false} SumIndicator(ids: seq<int>, k: int, c: real)
    requires forall i, j :: 0 <= i < j < |ids| ==> ids[i] != ids[j]
    ensures Sums.Sum(ids, Indicator(k, c)) == if k in ids then c else 0.0
    decreases |ids|
  {
    if |ids| > 0 {
      var init := ids[..|ids| - 1];
      SumIndicator(init, k, c);
      assert k in ids <==> k in init || k == ids[|ids| - 1];
      if k == ids[|ids| - 1] {
        assert k !in init;
      }
    }
  }

  /** An employee with no record has a zero total. */
  lemma AbsentEmployeeTotal(records: seq<Record>, column: Record -> real, id: int)
    requires forall k :: 0 <= k < |records| ==> records[k].employeeId != id
    ensures EmployeeTotal(records, column, id) == 0.0
  {
    Sums.FilterEmpty(records, OfEmployee(id));
  }

  /** Grouping by employee neither loses nor double counts anything: the
      per-employee totals add up to the column total. */
  lemma {:induction false} GroupedTotal(records: seq<Record>, column: Record -> real)
    ensures Sums.Sum(EmployeeIds(records), PerEmployee(records, column)) == Sums.Sum(records, column)
    decreases |records|
  {
    if |records| > 0 {
      var init := records[..|records| - 1];
      var x := records[|records| - 1];
      assert init + [x] == records;
      var ids := EmployeeIds(init);
      var before := PerEmployee(init, column);
      var after := PerEmployee(records, column);
      var bump := Indicator(x.employeeId, column(x));
      forall id | id in ids ensures after(id) == before(id) + bump(id) {
        EmployeeTotalSnoc(init, x, column, id);
      }
      Sums.SumAdd(ids, before, bump, after);
      SumIndicator(ids, x.employeeId, column(x));
      GroupedTotal(init, column);
      if x.employeeId !in ids {
        EmployeeIdsComplete(init);
        EmployeeTotalSnoc(init, x, column, x.employeeId);
        AbsentEmployeeTotal(init, column, x.employeeId);
        Sums.SumSnoc(ids, x.employeeId, after);
      }
    }
  }

  // ---------------------------------------------------------------------
  // RT-6
  // ---------------------------------------------------------------------

  function Min(a: real, b: real): real { if a <= b then a else b }
  function Max(a: real, b: real): real { if a >= b then a else b }

  /** One row of `employee_detail`. */
  datatype Rt6Row = Rt6Row(employeeId: int, gross: real, taxable: real, excess: real)

  /** The wage-base split of one employee's gross wages. */
  function SplitAtWageBase(id: int, gross: real, wageBase: real): (row: Rt6Row)
    ensures row.employeeId == id && row.gross == gross
    ensures row.taxable + row.excess == gross
    ensures row.taxable <= wageBase && row.taxable <= gross && row.excess >= 0.0
    ensures gross <= wageBase ==> row.taxable == gross && row.excess == 0.0
  {
    Rt6Row(id, gross, Min(gross, wageBase), Max(0.0, gross - wageBase))
  }


  datatype Rt6 = Rt6(grossWages: real, excessWages: real, taxableWages: real, taxDue: real,
                     employeeDetail: seq<Rt6Row>)

  /** `employee_detail`: one row per employee, in order of first
      appearance, splitting that employee's summed gross wages. */
  function Rt6Detail(records: seq<Record>, wageBase: real): (detail: seq<Rt6Row>)
    ensures var ids := EmployeeIds(records);
      && |detail| == |ids|
      && forall i :: 0 <= i < |ids| ==>
           detail[i] == SplitAtWageBase(ids[i], EmployeeTotal(records, GrossWages, ids[i]), wageBase)
  {
    var ids := EmployeeIds(records);
    seq(|ids|, i requires 0 <= i < |ids| => SplitAtWageBase(ids[i], EmployeeTotal(records, GrossWages, ids[i]), wageBase))
  }

  /** An amount taxed at a rate. */
  function AtRate(amount: real, rate: real): real { amount * rate }

  function RowGross(row: Rt6Row): real { row.gross }
  function RowTaxable(row: Rt6Row): real { row.taxable }
  function RowExcess(row: Rt6Row): real { row.excess }

  /** The detail rows add up to the per-employee totals, capped and
      uncapped. */
  lemma Rt6DetailTotals(records: seq<Record>, wageBase: real)
    ensures var ids := EmployeeIds(records);
      var gross := PerEmployee(records, GrossWages);
      var detail := Rt6Detail(records, wageBase);
      && Sums.Sum(detail, RowGross) == Sums.Sum(ids, gross)
      && Sums.Sum(detail, RowTaxable) == Sums.Sum(ids, Sums.CappedAt(gross, wageBase))
      && Sums.Sum(detail, RowExcess) == Sums.Sum(ids, Sums.ExcessOver(gross, wageBase))
  {
    var ids := EmployeeIds(records);
    var gross := PerEmployee(records, GrossWages);
    var detail := Rt6Detail(records, wageBase);
    var capped := Sums.CappedAt(gross, wageBase);
    var excess := Sums.ExcessOver(gross, wageBase);
    forall i | 0 <= i < |ids|
      ensures gross(ids[i]) == RowGross(detail[i])
      ensures capped(ids[i]) == RowTaxable(detail[i])
      ensures excess(ids[i]) == RowExcess(detail[i])
    {
      assert gross(ids[i]) == EmployeeTotal(records, GrossWages, ids[i]);
    }
    Sums.SumPointwise(ids, gross, detail, RowGross);
    Sums.SumPointwise(ids, capped, detail, RowTaxable);
    Sums.SumPointwise(ids, excess, detail, RowExcess);
  }

  /** `rt6_summary(records, suta_rate, wage_base)`: the three wage totals
      are the totals of the detail rows, and the tax due is the SUTA rate
      applied to the taxable total. */
  function Rt6Summary(records: seq<Record>, sutaRate: real, wageBase: real): (s: Rt6)
    ensures s.employeeDetail == Rt6Detail(records, wageBase)
    ensures s.grossWages == Sums.Sum(s.employeeDetail, RowGross)
    ensures s.taxableWages == Sums.Sum(s.employeeDetail, RowTaxable)
    ensures s.excessWages == Sums.Sum(s.employeeDetail, RowExcess)
    ensures s.taxDue == AtRate(s.taxableWages, sutaRate)
  {
    var ids := EmployeeIds(records);
    var gross := PerEmployee(records, GrossWages);
    var detail := Rt6Detail(records, wageBase);
    var taxable := Sums.Sum(ids, Sums.CappedAt(gross, wageBase));
    Rt6DetailTotals(records, wageBase);
    Rt6(Sums.Sum(ids, gross), Sums.Sum(ids, Sums.ExcessOver(gross, wageBase)), taxable, AtRate(taxable, sutaRate), detail)
  }

  /** The RT-6 totals balance: gross wages are all the records' gross
      wages, and taxable plus excess wages make up the gross. */
  lemma Rt6TotalsBalance(records: seq<Record>, sutaRate: real, wageBase: real)
    ensures var s := Rt6Summary(records, sutaRate, wageBase);
      && s.grossWages == Sums.Sum(records, GrossWages)
      && s.taxableWages + s.excessWages == s.grossWages
  {
    Sums.CappedPlusExcess(EmployeeIds(records), PerEmployee(records, GrossWages), wageBase);
    GroupedTotal(records, GrossWages);
  }

  /** No more than one wage base per employee is taxable. */
  lemma Rt6TaxableCapped(records: seq<Record>, sutaRate: real, wageBase: real)
    ensures Rt6Summary(records, sutaRate, wageBase).taxableWages <= Sums.Times(wageBase, |EmployeeIds(records)|)
  {
    Sums.CappedSumBounds(EmployeeIds(records), PerEmployee(records, GrossWages), wageBase);
  }

  /** Each detail row belongs to an employee with records, and every
      employee with a record has exactly one row. */
  lemma Rt6OneRowPerEmployee(records: seq<Record>, sutaRate: real, wageBase: real, k: nat)
    requires k < |records|
    ensures var detail := Rt6Summary(records, sutaRate, wageBase).employeeDetail;
      && (exists i :: 0 <= i < |detail| && detail[i].employeeId == records[k].employeeId)
      && forall i, j :: 0 <= i < j < |detail| ==> detail[i].employeeId != detail[j].employeeId
  {
    var ids := EmployeeIds(records);
    var detail := Rt6Summary(records, sutaRate, wageBase).employeeDetail;
    EmployeeIdsComplete(records);
    var i :| 0 <= i < |ids| && ids[i] == records[k].employeeId;
    assert detail[i].employeeId == records[k].employeeId;
  }

  // ---------------------------------------------------------------------
  // Form 940
  // ---------------------------------------------------------------------

  /** The FUTA wage base: only the first $7,000 of an employee's wages in a
      year are taxable. */
  const FutaWageBase: real := 7000.0

  /** One record's taxable wages up to the wage base. */
  function FutaCappedRecord(r: Record): real {
    Min(r.taxableWagesFederal, FutaWageBase)
  }

  datatype Form940 = Form940(line3TotalPayments: real, line7FutaTaxableWages: real,
                             line8FutaTaxBeforeAdjustments: real)

  /** `form_940_summary(records)` as written: line 7 caps each RECORD at the
      wage base. */
  function Form940SummaryAsWritten(records: seq<Record>): (f: Form940)
    ensures f.line3TotalPayments == Sums.Sum(records, GrossWages)
    ensures f.line7FutaTaxableWages == Sums.Sum(records, FutaCappedRecord)
    ensures f.line8FutaTaxBeforeAdjustments == Sums.Sum(records, FutaEmployer)
  {
    Form940(Sums.Sum(records, GrossWages), Sums.Sum(records, FutaCappedRecord), Sums.Sum(records, FutaEmployer))
  }

  /** Line 7 as written never exceeds the records' taxable wages, nor one
      wage base per record. */
  lemma Form940Line7Bounds(records: seq<Record>)
    ensures Form940SummaryAsWritten(records).line7FutaTaxableWages <= Sums.Sum(records, TaxableWages)
    ensures Form940SummaryAsWritten(records).line7FutaTaxableWages <= Sums.Times(FutaWageBase, |records|)
  {
    Sums.SumMonotone(records, FutaCappedRecord, TaxableWages);
    Sums.SumBound(records, FutaCappedRecord, FutaWageBase);
  }

  /** One employee paid $5,000 in each of two months: line 7 as written
      reports $10,000 of FUTA wages although only $7,000 are taxable. */
  lemma Form940PerRecordCapOvercounts()
    ensures var x := Record(1, 5000.0, 0.0, 5000.0, 0.0, 0.0, 0.0, 0.0, 0.0, 0.0);
      && EmployeeIds([x, x]) == [1]
      && Form940SummaryAsWritten([x, x]).line7FutaTaxableWages == 10000.0
      && Form940Summary([x, x]).line7FutaTaxableWages == FutaWageBase
  {
    var x := Record(1, 5000.0, 0.0, 5000.0, 0.0, 0.0, 0.0, 0.0, 0.0, 0.0);
    assert [x, x][..1] == [x];
    assert EmployeeIds([x]) == [1];
    assert Sums.Sum([x], FutaCappedRecord) == 5000.0;
    Sums.SumSnoc([x], x, FutaCappedRecord);
    assert Sums.Filter([x, x], OfEmployee(1)) == [x, x] by {
      assert Sums.Filter([x], OfEmployee(1)) == [x];
    }
    assert EmployeeTotal([x, x], TaxableWages, 1) == 10000.0 by {
      Sums.SumSnoc([x], x, TaxableWages);
    }
  }

  /** Each employee's FUTA-taxable wages: their taxable wages up to the
      wage base. */
  function FutaCappedEmployee(records: seq<Record>): int -> real {
    Sums.CappedAt(PerEmployee(records, TaxableWages), FutaWageBase)
  }

  /** Form 940 with line 7 capped per employee, as the form defines it. */
  function Form940Summary(records: seq<Record>): (f: Form940)
    ensures f.line3TotalPayments == Sums.Sum(records, GrossWages)
    ensures f.line7FutaTaxableWages == Sums.Sum(EmployeeIds(records), FutaCappedEmployee(records))
    ensures f.line8FutaTaxBeforeAdjustments == Sums.Sum(records, FutaEmployer)
  {
    Form940(Sums.Sum(records, GrossWages), Sums.Sum(EmployeeIds(records), FutaCappedEmployee(records)),
            Sums.Sum(records, FutaEmployer))
  }

  /** Line 7 capped per employee never exceeds the taxable wages, nor one
      wage base per employee. */
  lemma Form940PerEmployeeBounds(records: seq<Record>)
    ensures Form940Summary(records).line7FutaTaxableWages <= Sums.Sum(records, TaxableWages)
    ensures Form940Summary(records).line7FutaTaxableWages <= Sums.Times(FutaWageBase, |EmployeeIds(records)|)
  {
    Sums.CappedSumBounds(EmployeeIds(records), PerEmployee(records, TaxableWages), FutaWageBase);
    GroupedTotal(records, TaxableWages);
  }
}
