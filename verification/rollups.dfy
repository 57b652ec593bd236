/** The database-backed report rollups of `app/reports/rollups.py`: RT-6,
    Form 941, Form 940 and W-2 totals over the stored monthly payroll rows.

    The database query becomes a filter over a sequence of rows, and the
    source's `round(x, 2)` is the parameter `round2`. */
module Rollups {
  import opened Wrappers
  import Sums
  import Summary
  import Payroll

  /** `_quarter_months(quarter)`: the first and last month of a quarter.  The
      source does not check its argument. */
  function QuarterBounds(q: int): (bounds: (int, int))
    ensures bounds.1 - bounds.0 == 2
    ensures bounds.0 == 3 * q - 2
  {
    var start := (q - 1) * 3 + 1;
    (start, start + 2)
  }

  /** For the four real quarters the bounds delimit exactly the months that
      the in-memory summary lists for the quarter. */
  lemma QuarterBoundsAgreeWithMonths(q: int, m: int)
    requires 1 <= q <= 4
    ensures QuarterBounds(q).0 <= m <= QuarterBounds(q).1 <==> m in Summary.QuarterMonths(q).value
  {
  }

  /** The `"steps"` part of a stored calculation trace; `None` when the trace
      has no `"steps"` key. */
  datatype TraceDoc = TraceDoc(steps: Option<map<string, real>>)

  /** The columns of a `MonthlyPayroll` row that the rollups read. */
  datatype PayrollRow = PayrollRow(
    companyId: int,
    employeeId: int,
    year: int,
    month: int,
    grossPay: real,
    federalWithholding: real,
    socialSecurityEe: real,
    socialSecurityEr: real,
    medicareEe: real,
    medicareEr: real,
    additionalMedicareEe: real,
    sutaEr: real,
    futaEr: real,
    calculationTrace: Option<TraceDoc>)

  /** `_trace_step(record, key)`: the named step, or 0 when the trace, its
      steps or the key is missing. */
  function TraceStep(trace: Option<TraceDoc>, key: string): (v: real)
    ensures trace.Some? && trace.value.steps.Some? && key in trace.value.steps.value ==>
      v == trace.value.steps.value[key]
    ensures trace.None? || trace.value.steps.None? || key !in trace.value.steps.value ==> v == 0.0
  {
    match trace
    case None => 0.0
    case Some(doc) =>
      match doc.steps
      case None => 0.0
      case Some(steps) => if key in steps then steps[key] else 0.0
  }

  /** A trace as `calculate_monthly_payroll` stores it. */
  function StoredTrace(r: Payroll.PayrollResult): TraceDoc {
    TraceDoc(Some(Payroll.StepEntries(r.calculationTrace.steps)))
  }

  /** Reading back a trace written by `calculate_monthly_payroll` gives its
      results; the wage-base steps the rollups ask for are not among its
      keys, so they read as zero. */
  lemma StoredTraceSteps(e: Payroll.Employee, hoursWorked: Option<real>, round2: real -> real)
    ensures var r := Payroll.CalculateMonthlyPayroll(e, hoursWorked, round2);
      var t := Some(StoredTrace(r));
      && TraceStep(t, "gross_pay") == r.grossPay
      && TraceStep(t, "net_pay") == r.netPay
      && TraceStep(t, "federal_withholding_monthly") == r.federalWithholding
      && TraceStep(t, "taxable_wages") == 0.0
      && TraceStep(t, "ss_taxable_wages") == 0.0
      && TraceStep(t, "medicare_taxable_wages") == 0.0
      && TraceStep(t, "suta_taxable_wages") == 0.0
      && TraceStep(t, "futa_taxable_wages") == 0.0
  {
  }

  // ---------------------------------------------------------------------
  // Selecting rows
  // ---------------------------------------------------------------------

  /** `_base_query(db, company_id, year)`. */
  function InCompanyYear(companyId: int, year: int): PayrollRow -> bool {
    (r: PayrollRow) => r.companyId == companyId && r.year == year
  }

  function InMonths(start: int, end: int): PayrollRow -> bool {
    (r: PayrollRow) => start <= r.month <= end
  }

  function OfEmployeeInYear(companyId: int, employeeId: int, year: int): PayrollRow -> bool {
    (r: PayrollRow) => r.companyId == companyId && r.employeeId == employeeId && r.year == year
  }

  function YearRows(rows: seq<PayrollRow>, companyId: int, year: int): seq<PayrollRow> {
    Sums.Filter(rows, InCompanyYear(companyId, year))
  }

  /** The rows of a quarter: the base query narrowed to the quarter's months. */
  function QuarterRows(rows: seq<PayrollRow>, companyId: int, year: int, q: int): seq<PayrollRow> {
    var (start, end) := QuarterBounds(q);
    Sums.Filter(YearRows(rows, companyId, year), InMonths(start, end))
  }

  /** A quarterly summary reads exactly the company's rows of that year whose
      month lies in the quarter. */
  lemma QuarterRowsExactly(rows: seq<PayrollRow>, companyId: int, year: int, q: int, x: PayrollRow)
    ensures x in QuarterRows(rows, companyId, year, q) <==>
      x in rows && x.companyId == companyId && x.year == year && 3 * q - 2 <= x.month <= 3 * q
  {
    var (start, end) := QuarterBounds(q);
    Sums.FilterMembership(rows, InCompanyYear(companyId, year), x);
    Sums.FilterMembership(YearRows(rows, companyId, year), InMonths(start, end), x);
  }

  /** The annual summary reads exactly the company's rows of that year. */
  lemma YearRowsExactly(rows: seq<PayrollRow>, companyId: int, year: int, x: PayrollRow)
    ensures x in YearRows(rows, companyId, year) <==> x in rows && x.companyId == companyId && x.year == year
  {
    Sums.FilterMembership(rows, InCompanyYear(companyId, year), x);
  }

  // ---------------------------------------------------------------------
  // Columns
  // ---------------------------------------------------------------------

  function StepColumn(key: string): PayrollRow -> real {
    (r: PayrollRow) => TraceStep(r.calculationTrace, key)
  }

  function GrossPay(r: PayrollRow): real { r.grossPay }
  function FederalWithholding(r: PayrollRow): real { r.federalWithholding }
  function SocialSecurityEe(r: PayrollRow): real { r.socialSecurityEe }
  function SocialSecurityBoth(r: PayrollRow): real { r.socialSecurityEe + r.socialSecurityEr }
  function MedicareBoth(r: PayrollRow): real { r.medicareEe + r.medicareEr }
  function MedicareEe(r: PayrollRow): real { r.medicareEe }
  function AdditionalMedicareEe(r: PayrollRow): real { r.additionalMedicareEe }
  function MedicareWithheld(r: PayrollRow): real { r.medicareEe + r.additionalMedicareEe }
  function SutaEr(r: PayrollRow): real { r.sutaEr }
  function FutaEr(r: PayrollRow): real { r.futaEr }

  /** Every tax one row reports for Form 941. */
  function AllTaxes(r: PayrollRow): real {
    r.federalWithholding + (r.socialSecurityEe + r.socialSecurityEr) + (r.medicareEe + r.medicareEr)
    + r.additionalMedicareEe
  }

  function Exact(x: real): real { x }

  // ---------------------------------------------------------------------
  // The four rollups
  // ---------------------------------------------------------------------

  datatype Rt6Rollup = Rt6Rollup(rows: seq<PayrollRow>, wages: real, taxableWages: real, contributionsDue: real)

  /** `rt6_summary(db, company_id, year, quarter, suta_rate_decimal)`. */
  function Rt6Summary(all: seq<PayrollRow>, companyId: int, year: int, q: int, round2: real -> real)
    : (s: Rt6Rollup)
    ensures s.rows == QuarterRows(all, companyId, year, q)
    ensures s.wages == round2(Sums.Sum(s.rows, StepColumn("taxable_wages")))
    ensures s.taxableWages == round2(Sums.Sum(s.rows, StepColumn("suta_taxable_wages")))
    ensures s.contributionsDue == round2(Sums.Sum(s.rows, SutaEr))
  {
    var rows := QuarterRows(all, companyId, year, q);
    Rt6Rollup(rows, round2(Sums.Sum(rows, StepColumn("taxable_wages"))),
              round2(Sums.Sum(rows, StepColumn("suta_taxable_wages"))), round2(Sums.Sum(rows, SutaEr)))
  }

  datatype Form941Rollup = Form941Rollup(
    rows: seq<PayrollRow>,
    wages: real,
    federalWithholding: real,
    socialSecurityWages: real,
    socialSecurityTax: real,
    medicareWages: real,
    medicareTax: real,
    additionalMedicareEe: real,
    totalTax: real)

  /** `form941_summary(db, company_id, year, quarter)`: the total tax is the
      rounded sum of the four rounded tax figures. */
  function Form941Summary(all: seq<PayrollRow>, companyId: int, year: int, q: int, round2: real -> real)
    : (s: Form941Rollup)
    ensures s.rows == QuarterRows(all, companyId, year, q)
    ensures s.wages == round2(Sums.Sum(s.rows, StepColumn("taxable_wages")))
    ensures s.socialSecurityWages == round2(Sums.Sum(s.rows, StepColumn("ss_taxable_wages")))
    ensures s.medicareWages == round2(Sums.Sum(s.rows, StepColumn("medicare_taxable_wages")))
    ensures s.federalWithholding == round2(Sums.Sum(s.rows, FederalWithholding))
    ensures s.socialSecurityTax == round2(Sums.Sum(s.rows, SocialSecurityBoth))
    ensures s.medicareTax == round2(Sums.Sum(s.rows, MedicareBoth))
    ensures s.additionalMedicareEe == round2(Sums.Sum(s.rows, AdditionalMedicareEe))
    ensures s.totalTax == round2(s.federalWithholding + s.socialSecurityTax + s.medicareTax + s.additionalMedicareEe)
  {
    var rows := QuarterRows(all, companyId, year, q);
    var fit := round2(Sums.Sum(rows, FederalWithholding));
    var ss := round2(Sums.Sum(rows, SocialSecurityBoth));
    var med := round2(Sums.Sum(rows, MedicareBoth));
    var addl := round2(Sums.Sum(rows, AdditionalMedicareEe));
    Form941Rollup(rows, round2(Sums.Sum(rows, StepColumn("taxable_wages"))), fit,
                  round2(Sums.Sum(rows, StepColumn("ss_taxable_wages"))), ss,
                  round2(Sums.Sum(rows, StepColumn("medicare_taxable_wages"))), med, addl,
                  round2(fit + ss + med + addl))
  }

  /** Before rounding, the 941 total tax is every tax of every row of the
      quarter: withholding, both halves of Social Security and Medicare, and
      the employee's Additional Medicare. */
  lemma Form941TotalTaxIsAllTaxes(all: seq<PayrollRow>, companyId: int, year: int, q: int)
    ensures Form941Summary(all, companyId, year, q, Exact).totalTax
         == Sums.Sum(QuarterRows(all, companyId, year, q), AllTaxes)
  {
    var rows := QuarterRows(all, companyId, year, q);
    var a := (r: PayrollRow) => FederalWithholding(r) + SocialSecurityBoth(r);
    var b := (r: PayrollRow) => a(r) + MedicareBoth(r);
    Sums.SumAdd(rows, FederalWithholding, SocialSecurityBoth, a);
    Sums.SumAdd(rows, a, MedicareBoth, b);
    Sums.SumAdd(rows, b, AdditionalMedicareEe, AllTaxes);
  }

  datatype Form940Rollup = Form940Rollup(rows: seq<PayrollRow>, wages: real, futaTaxableWages: real, futaTax: real)

  /** `form940_summary(db, company_id, year)`: every row of the year. */
  function Form940Summary(all: seq<PayrollRow>, companyId: int, year: int, round2: real -> real): (s: Form940Rollup)
    ensures s.rows == YearRows(all, companyId, year)
    ensures s.wages == round2(Sums.Sum(s.rows, StepColumn("taxable_wages")))
    ensures s.futaTax == round2(Sums.Sum(s.rows, FutaEr))
    ensures s.futaTaxableWages == round2(Sums.Sum(s.rows, StepColumn("futa_taxable_wages")))
  {
    var rows := YearRows(all, companyId, year);
    Form940Rollup(rows, round2(Sums.Sum(rows, StepColumn("taxable_wages"))),
                  round2(Sums.Sum(rows, StepColumn("futa_taxable_wages"))), round2(Sums.Sum(rows, FutaEr)))
  }

  /** The sum over the rows of a year whose months all lie in 1..12 is the
      sum of the four quarterly sums. */
  lemma YearIsFourQuarters(rows: seq<PayrollRow>, column: PayrollRow -> real)
    requires forall i :: 0 <= i < |rows| ==> 1 <= rows[i].month <= 12
    ensures Sums.Sum(rows, column)
         == Sums.Sum(Sums.Filter(rows, InMonths(1, 3)), column) + Sums.Sum(Sums.Filter(rows, InMonths(4, 6)), column)
          + Sums.Sum(Sums.Filter(rows, InMonths(7, 9)), column) + Sums.Sum(Sums.Filter(rows, InMonths(10, 12)), column)
  {
    forall i | 0 <= i < |rows|
      ensures Sums.Holding(rows[i], InMonths(1, 3), InMonths(4, 6), InMonths(7, 9), InMonths(10, 12)) == 1
    {
    }
    Sums.SumPartition4(rows, InMonths(1, 3), InMonths(4, 6), InMonths(7, 9), InMonths(10, 12), column);
  }

  /** The rows of a year whose months all lie in 1..12 total, in any column,
      the four quarters' rows. */
  lemma YearRowsAreFourQuarters(all: seq<PayrollRow>, companyId: int, year: int, column: PayrollRow -> real)
    requires forall i :: 0 <= i < |all| ==> 1 <= all[i].month <= 12
    ensures Sums.Sum(YearRows(all, companyId, year), column)
         == Sums.Sum(QuarterRows(all, companyId, year, 1), column) + Sums.Sum(QuarterRows(all, companyId, year, 2), column)
          + Sums.Sum(QuarterRows(all, companyId, year, 3), column) + Sums.Sum(QuarterRows(all, companyId, year, 4), column)
  {
    var rows := YearRows(all, companyId, year);
    Sums.FilterSound(all, InCompanyYear(companyId, year));
    forall i | 0 <= i < |rows| ensures 1 <= rows[i].month <= 12 {
      var j :| 0 <= j < |all| && all[j] == rows[i];
    }
    YearIsFourQuarters(rows, column);
  }

  /** With exact rounding, the 940 FUTA tax of a year is the sum of the four
      quarters' FUTA tax columns. */
  lemma Form940IsFourQuarters(all: seq<PayrollRow>, companyId: int, year: int)
    requires forall i :: 0 <= i < |all| ==> 1 <= all[i].month <= 12
    ensures Form940Summary(all, companyId, year, Exact).futaTax
      == Sums.Sum(QuarterRows(all, companyId, year, 1), FutaEr) + Sums.Sum(QuarterRows(all, companyId, year, 2), FutaEr)
       + Sums.Sum(QuarterRows(all, companyId, year, 3), FutaEr) + Sums.Sum(QuarterRows(all, companyId, year, 4), FutaEr)
  {
    YearRowsAreFourQuarters(all, companyId, year, FutaEr);
  }

  /** With exact rounding, the wages of the year's Form 940 are the wages of
      its four RT-6 returns, and also those of its four Forms 941. */
  lemma QuarterlyWagesMakeTheYear(all: seq<PayrollRow>, companyId: int, year: int)
    requires forall i :: 0 <= i < |all| ==> 1 <= all[i].month <= 12
    ensures var w := Form940Summary(all, companyId, year, Exact).wages;
      && w == Rt6Summary(all, companyId, year, 1, Exact).wages + Rt6Summary(all, companyId, year, 2, Exact).wages
            + Rt6Summary(all, companyId, year, 3, Exact).wages + Rt6Summary(all, companyId, year, 4, Exact).wages
      && w == Form941Summary(all, companyId, year, 1, Exact).wages + Form941Summary(all, companyId, year, 2, Exact).wages
            + Form941Summary(all, companyId, year, 3, Exact).wages + Form941Summary(all, companyId, year, 4, Exact).wages
  {
    YearRowsAreFourQuarters(all, companyId, year, StepColumn("taxable_wages"));
  }

  datatype W2Totals = W2Totals(
    rows: seq<PayrollRow>,
    box1Wages: real,
    box2Fit: real,
    box3SsWages: real,
    box4SsTax: real,
    box5MedicareWages: real,
    box6MedicareTax: real)

  /** `employee_w2_totals(db, company_id, employee_id, year)`. */
  function EmployeeW2Totals(all: seq<PayrollRow>, companyId: int, employeeId: int, year: int, round2: real -> real)
    : (w: W2Totals)
    ensures w.rows == Sums.Filter(all, OfEmployeeInYear(companyId, employeeId, year))
    ensures w.box1Wages == round2(Sums.Sum(w.rows, GrossPay))
    ensures w.box2Fit == round2(Sums.Sum(w.rows, FederalWithholding))
    ensures w.box3SsWages == round2(Sums.Sum(w.rows, StepColumn("ss_taxable_wages")))
    ensures w.box4SsTax == round2(Sums.Sum(w.rows, SocialSecurityEe))
    ensures w.box5MedicareWages == round2(Sums.Sum(w.rows, StepColumn("medicare_taxable_wages")))
    ensures w.box6MedicareTax == round2(Sums.Sum(w.rows, MedicareWithheld))
  {
    var rows := Sums.Filter(all, OfEmployeeInYear(companyId, employeeId, year));
    W2Totals(rows, round2(Sums.Sum(rows, GrossPay)), round2(Sums.Sum(rows, FederalWithholding)),
             round2(Sums.Sum(rows, StepColumn("ss_taxable_wages"))), round2(Sums.Sum(rows, SocialSecurityEe)),
             round2(Sums.Sum(rows, StepColumn("medicare_taxable_wages"))), round2(Sums.Sum(rows, MedicareWithheld)))
  }

  /** The W-2 reports the employee's share only: box 4 leaves out the
      employer's Social Security, which is exactly what separates it from the
      941 Social Security column over the same rows, and box 6 is Medicare
      plus Additional Medicare withheld. */
  lemma W2EmployeeShare(all: seq<PayrollRow>, companyId: int, employeeId: int, year: int)
    ensures var w := EmployeeW2Totals(all, companyId, employeeId, year, Exact);
      && w.box4SsTax + Sums.Sum(w.rows, (r: PayrollRow) => r.socialSecurityEr) == Sums.Sum(w.rows, SocialSecurityBoth)
      && w.box6MedicareTax == Sums.Sum(w.rows, MedicareEe) + Sums.Sum(w.rows, AdditionalMedicareEe)
  {
    var rows := Sums.Filter(all, OfEmployeeInYear(companyId, employeeId, year));
    Sums.SumAdd(rows, SocialSecurityEe, (r: PayrollRow) => r.socialSecurityEr, SocialSecurityBoth);
    Sums.SumAdd(rows, MedicareEe, AdditionalMedicareEe, MedicareWithheld);
  }

  /** A W-2 reads exactly that employee's rows of the company and year. */
  lemma W2RowsExactly(all: seq<PayrollRow>, companyId: int, employeeId: int, year: int, x: PayrollRow)
    ensures x in EmployeeW2Totals(all, companyId, employeeId, year, Exact).rows <==>
      x in all && x.companyId == companyId && x.employeeId == employeeId && x.year == year
  {
    Sums.FilterMembership(all, OfEmployeeInYear(companyId, employeeId, year), x);
  }
}
