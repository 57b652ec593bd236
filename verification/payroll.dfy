/** The flat-rate monthly payroll estimate of `calculate_monthly_payroll`:
    gross pay, a 10 % annualised federal estimate adjusted by the W-4
    amounts, Social Security at 6.2 %, Medicare at 1.45 %, net pay, and the
    calculation trace stored beside the result.

    Arithmetic is exact (`real`).  The source's `round2` is a parameter of
    the calculation: every property below holds whatever rounding function
    is supplied, unless a lemma says it fixes rounding to the identity. */
module Payroll {
  import opened Wrappers

  /** The columns of an employee row that the calculation reads. */
  datatype Employee = Employee(
    payType: string,
    baseRate: real,
    defaultHoursPerMonth: real,
    w4DependentsAmount: real,
    w4OtherIncome: real,
    w4Deductions: real,
    w4ExtraWithholding: real)

  const MonthsPerYear: real := 12.0
  const FederalEstimateRate: real := 0.1
  const SocialSecurityRate: real := 0.062
  const MedicareRate: real := 0.0145

  /** The unrounded intermediate values, in the order the source computes them. */
  datatype Figures = Figures(
    hoursUsed: real,
    gross: real,
    annualizedGross: real,
    taxableIncome: real,
    estimatedFederalAnnual: real,
    federal: real,
    socialSecurity: real,
    medicare: real,
    net: real)

  /** The `"inputs"` part of the trace. */
  datatype TraceInputs = TraceInputs(
    payType: string,
    baseRate: real,
    hoursWorked: real,
    w4DependentsAmount: real,
    w4OtherIncome: real,
    w4Deductions: real,
    w4ExtraWithholding: real)

  /** The `"steps"` part of the trace, one field per key. */
  datatype Steps = Steps(
    grossPay: real,
    annualizedGross: real,
    taxableIncome: real,
    estimatedFederalAnnual: real,
    federalWithholdingMonthly: real,
    socialSecurity: real,
    medicare: real,
    netPay: real)

  datatype Trace = Trace(inputs: TraceInputs, steps: Steps)

  /** The dictionary `calculate_monthly_payroll` returns. */
  datatype PayrollResult = PayrollResult(
    hoursWorked: real,
    grossPay: real,
    federalWithholding: real,
    socialSecurity: real,
    medicare: real,
    netPay: real,
    taxableWages: real,
    calculationTrace: Trace)

  function Max(a: real, b: real): real {
    if a >= b then a else b
  }

  /** Hours actually used: the caller's figure, or the employee's default
      monthly hours when the caller passes none. */
  function HoursUsed(e: Employee, hoursWorked: Option<real>): (h: real)
    ensures hoursWorked.Some? ==> h == hoursWorked.value
    ensures hoursWorked.None? ==> h == e.defaultHoursPerMonth
  {
    hoursWorked.GetOr(e.defaultHoursPerMonth)
  }

  /** Gross pay: rate times hours for an hourly employee, the rate itself
      for every other pay type. */
  function GrossPay(e: Employee, hours: real): (g: real)
    ensures e.payType == "hourly" ==> g == e.baseRate * hours
    ensures e.payType != "hourly" ==> g == e.baseRate
  {
    if e.payType == "hourly" then e.baseRate * hours else e.baseRate
  }

  /** Annual income subject to the estimate, floored at zero. */
  function TaxableIncome(e: Employee, gross: real): (t: real)
    ensures t >= 0.0
    ensures t >= gross * MonthsPerYear + e.w4OtherIncome - e.w4Deductions
    ensures t == 0.0 || t == gross * MonthsPerYear + e.w4OtherIncome - e.w4Deductions
  {
    Max(0.0, gross * MonthsPerYear + e.w4OtherIncome - e.w4Deductions)
  }

  /** Annual federal estimate after the dependents credit, floored at zero. */
  function EstimatedFederalAnnual(e: Employee, taxableIncome: real): (f: real)
    ensures f >= 0.0
    ensures f >= taxableIncome * FederalEstimateRate - e.w4DependentsAmount
    ensures f == 0.0 || f == taxableIncome * FederalEstimateRate - e.w4DependentsAmount
  {
    Max(0.0, taxableIncome * FederalEstimateRate - e.w4DependentsAmount)
  }

  /** Monthly federal withholding: the annual estimate spread over twelve
      months plus the extra withholding the employee asked for, which is
      therefore a floor. */
  function FederalMonthly(e: Employee, gross: real): (w: real)
    ensures w >= e.w4ExtraWithholding
  {
    EstimatedFederalAnnual(e, TaxableIncome(e, gross)) / MonthsPerYear + e.w4ExtraWithholding
  }

  /** Every intermediate figure, unrounded. */
  function Compute(e: Employee, hoursWorked: Option<real>): (f: Figures)
    ensures f.hoursUsed == HoursUsed(e, hoursWorked)
    ensures f.gross == GrossPay(e, f.hoursUsed)
    ensures f.annualizedGross == f.gross * MonthsPerYear
    ensures f.taxableIncome >= 0.0 && f.estimatedFederalAnnual >= 0.0
    ensures f.federal >= e.w4ExtraWithholding
    ensures f.socialSecurity == f.gross * SocialSecurityRate
    ensures f.medicare == f.gross * MedicareRate
    // the four deductions and net pay account for the whole gross
    ensures f.net + f.federal + f.socialSecurity + f.medicare == f.gross
  {
    var hours := HoursUsed(e, hoursWorked);
    var gross := GrossPay(e, hours);
    var annualized := gross * MonthsPerYear;
    var taxable := TaxableIncome(e, gross);
    var estimated := EstimatedFederalAnnual(e, taxable);
    var federal := FederalMonthly(e, gross);
    var socialSecurity := gross * SocialSecurityRate;
    var medicare := gross * MedicareRate;
    Figures(hours, gross, annualized, taxable, estimated, federal, socialSecurity, medicare,
            gross - federal - socialSecurity - medicare)
  }

  /** `calculate_monthly_payroll(employee, hours_worked)` with `round2` given. */
  function CalculateMonthlyPayroll(e: Employee, hoursWorked: Option<real>, round2: real -> real): (r: PayrollResult)
    // every money field is the rounded value of the matching exact figure
    ensures var f := Compute(e, hoursWorked);
      && r.hoursWorked == round2(f.hoursUsed)
      && r.grossPay == round2(f.gross)
      && r.federalWithholding == round2(f.federal)
      && r.socialSecurity == round2(f.socialSecurity)
      && r.medicare == round2(f.medicare)
      && r.netPay == round2(f.net)
    // the trace's intermediate steps are the rounded intermediate figures
    ensures var f := Compute(e, hoursWorked);
      && r.calculationTrace.steps.annualizedGross == round2(f.annualizedGross)
      && r.calculationTrace.steps.taxableIncome == round2(f.taxableIncome)
      && r.calculationTrace.steps.estimatedFederalAnnual == round2(f.estimatedFederalAnnual)
    // the wages reported as taxable are the gross pay
    ensures r.taxableWages == r.grossPay
    // the trace agrees with the result it explains
    ensures r.calculationTrace.steps.grossPay == r.grossPay
    ensures r.calculationTrace.steps.federalWithholdingMonthly == r.federalWithholding
    ensures r.calculationTrace.steps.socialSecurity == r.socialSecurity
    ensures r.calculationTrace.steps.medicare == r.medicare
    ensures r.calculationTrace.steps.netPay == r.netPay
    // the trace records the unrounded hours and the employee's W-4 inputs
    ensures r.calculationTrace.inputs
            == TraceInputs(e.payType, e.baseRate, HoursUsed(e, hoursWorked), e.w4DependentsAmount,
                           e.w4OtherIncome, e.w4Deductions, e.w4ExtraWithholding)
  {
    var f := Compute(e, hoursWorked);
    var inputs := TraceInputs(e.payType, e.baseRate, f.hoursUsed, e.w4DependentsAmount,
                              e.w4OtherIncome, e.w4Deductions, e.w4ExtraWithholding);
    var steps := Steps(round2(f.gross), round2(f.annualizedGross), round2(f.taxableIncome),
                       round2(f.estimatedFederalAnnual), round2(f.federal),
                       round2(f.socialSecurity), round2(f.medicare), round2(f.net));
    PayrollResult(round2(f.hoursUsed), round2(f.gross), round2(f.federal), round2(f.socialSecurity),
                  round2(f.medicare), round2(f.net), round2(f.gross), Trace(inputs, steps))
  }

  /** The trace's `"steps"` dictionary as stored in the JSON column. */
  function StepEntries(s: Steps): (m: map<string, real>)
    ensures m.Keys == {"gross_pay", "annualized_gross", "taxable_income", "estimated_federal_annual",
                       "federal_withholding_monthly", "social_security", "medicare", "net_pay"}
    ensures m["gross_pay"] == s.grossPay && m["net_pay"] == s.netPay
    ensures m["federal_withholding_monthly"] == s.federalWithholdingMonthly
    ensures m["social_security"] == s.socialSecurity && m["medicare"] == s.medicare
    ensures m["annualized_gross"] == s.annualizedGross && m["taxable_income"] == s.taxableIncome
    ensures m["estimated_federal_annual"] == s.estimatedFederalAnnual
  {
    map["gross_pay" := s.grossPay,
        "annualized_gross" := s.annualizedGross,
        "taxable_income" := s.taxableIncome,
        "estimated_federal_annual" := s.estimatedFederalAnnual,
        "federal_withholding_monthly" := s.federalWithholdingMonthly,
        "social_security" := s.socialSecurity,
        "medicare" := s.medicare,
        "net_pay" := s.netPay]
  }

  function Exact(x: real): real { x }

  /** With exact rounding the pay stub balances: net pay is gross pay less
      federal withholding, Social Security and Medicare, and the two FICA
      amounts are 7.65 % of gross together. */
  lemma ExactResultBalances(e: Employee, hoursWorked: Option<real>)
    ensures var r := CalculateMonthlyPayroll(e, hoursWorked, Exact);
      && r.netPay == r.grossPay - r.federalWithholding - r.socialSecurity - r.medicare
      && r.socialSecurity + r.medicare == r.grossPay * 0.0765
  {
  }

  /** With the W-4 inputs fixed, a larger gross never lowers the federal
      withholding. */
  lemma FederalMonotoneInGross(e: Employee, g1: real, g2: real)
    requires g1 <= g2
    ensures FederalMonthly(e, g1) <= FederalMonthly(e, g2)
  {
    assert TaxableIncome(e, g1) <= TaxableIncome(e, g2);
    assert EstimatedFederalAnnual(e, TaxableIncome(e, g1)) <= EstimatedFederalAnnual(e, TaxableIncome(e, g2));
  }

  /** For an hourly employee with a non-negative rate, more hours never
      lower the federal withholding. */
  lemma FederalMonotoneInHours(e: Employee, h1: real, h2: real)
    requires e.payType == "hourly" && e.baseRate >= 0.0
    requires h1 <= h2
    ensures FederalMonthly(e, GrossPay(e, h1)) <= FederalMonthly(e, GrossPay(e, h2))
  {
    assert e.baseRate * h1 <= e.baseRate * h2 by {
      assert e.baseRate * (h2 - h1) >= 0.0;
    }
    FederalMonotoneInGross(e, GrossPay(e, h1), GrossPay(e, h2));
  }

  /** Once the W-4 adjustments no longer zero the estimate, each further
      dollar of monthly gross adds exactly 10 cents of withholding. */
  lemma FederalMarginalRate(e: Employee, g1: real, g2: real)
    requires g1 <= g2
    requires g1 * MonthsPerYear + e.w4OtherIncome - e.w4Deductions >= 0.0
    requires (g1 * MonthsPerYear + e.w4OtherIncome - e.w4Deductions) * FederalEstimateRate >= e.w4DependentsAmount
    ensures FederalMonthly(e, g2) - FederalMonthly(e, g1) == (g2 - g1) * FederalEstimateRate
  {
  }
}
