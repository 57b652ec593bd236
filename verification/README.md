# Florida payroll app: verified model of the payroll core

This project is a Dafny model of the computational core of a small Florida
payroll web application. It covers:

- the monthly pay calculation (`calculate_monthly_payroll`);
- the validation of a tax year's data files (`validate_tax_year_data`,
  `validate_fit_tables` and the `ValidationResult` accumulator);
- the in-memory report totals (Form 941, Florida RT-6, Form 940);
- the database rollups (RT-6, Form 941, Form 940, W-2), with records as a
  sequence of rows;
- the user-entered rate parser (`parse_rate_to_decimal`);
- the dependency-free pay-stub PDF writer (`_escape`,
  `create_pay_stub_pdf_bytes`);
- the pay-stub helpers that decide what the stub shows: address lines, the
  masked SSN, filing status and pay frequency labels, and the earnings,
  deduction and year-to-date rows.

Modules follow the source files:

| module | file | source |
|---|---|---|
| `Wrappers` | `wrappers.dfy` | `Option` and `Result` |
| `Text` | `text.dfy` | digits, decimal rendering, `strip`, `lower`, `join`, `split`, `zfill`, `capitalize` |
| `Sums` | `sums.dfy` | sums over a sequence of records, filtering, capping |
| `Payroll` | `payroll.dfy` | `app/services/payroll.py` |
| `TaxValidation` | `tax_validation.dfy` | `app/services/tax_validation.py` |
| `Summary` | `summary.dfy` | `app/reports/summary.py` |
| `Rollups` | `rollups.dfy` | `app/reports/rollups.py` |
| `Rates` | `rates.dfy` | `app/utils/rates.py` |
| `PdfWriter` | `pdf.dfy` | `app/services/pdf.py` |
| `Paystub` | `paystub.dfy` | `app/reports/paystub_pdf.py` |

Modelling choices:

- Money is a mathematical `real`. `round2` and `round(x, 2)` are a
  `real -> real` parameter. The balance lemmas instantiate that parameter
  with the identity.
- The data directory is a map from paths to file contents. A path that is
  absent is a missing file. An entry is either a decoded JSON document of
  any shape or a decoding failure with the decoder's message. Paths are
  built exactly as the source builds them. A document that decodes to
  `null` reads as `None` without an error, so the checks that follow skip
  it, as the source's `is not None` tests do.
- Validation messages are structured `Issue` values that carry the values
  the message mentions. `Message` renders the fixed text of each template.
- PDF bytes are the Latin-1 codes of the text. Offsets are byte counts.

## Model

| member | source | states |
|---|---|---|
| Payroll.HoursUsed | app/services/payroll.py:11 | the hours passed in win; without them the employee's default monthly hours are used |
| Payroll.GrossPay | app/services/payroll.py:12-15 | hourly employees earn rate times hours; every other pay type earns the base rate as a flat monthly amount |
| Payroll.TaxableIncome | app/services/payroll.py:17-18 | annualised taxable income is never negative, and is either 0 or twelve months of gross plus other income less deductions |
| Payroll.EstimatedFederalAnnual | app/services/payroll.py:19 | the annual federal estimate is never negative, and is either 0 or 10 % of taxable income less the dependents amount |
| Payroll.FederalMonthly | app/services/payroll.py:17-20 | monthly federal withholding is never below the W-4 extra withholding |
| Payroll.Compute | app/services/payroll.py:10-24 | the unrounded figures: Social Security is 6.2 % and Medicare 1.45 % of gross, and net pay plus the three deductions is exactly gross |
| Payroll.CalculateMonthlyPayroll | app/services/payroll.py:10-57 | every returned amount is the rounded exact figure; taxable wages equal gross pay; every trace step is the rounded figure of that step, so the returned amounts repeat in the trace; the trace inputs are the pay type, the base rate, the hours used and the four W-4 figures |
| Payroll.StepEntries | app/services/payroll.py:36-45 | the trace's steps dictionary has exactly the eight keys of the source, each mapped to its own step figure |
| Payroll.ExactResultBalances | app/services/payroll.py:22-24 | without rounding, net pay is gross less federal, Social Security and Medicare, and the two FICA amounts are 7.65 % of gross |
| Payroll.FederalMonotoneInGross | app/services/payroll.py:17-20 | more gross pay never lowers federal withholding |
| Payroll.FederalMonotoneInHours | app/services/payroll.py:12-20 | for an hourly employee with a non-negative rate, more hours never lower federal withholding |
| Payroll.FederalMarginalRate | app/services/payroll.py:17-20 | once both floors are passed, each extra dollar of monthly gross adds exactly 10 cents of withholding |
| TaxValidation.AddError | app/services/tax_validation.py:18-20 | recording an error fails the result, appends that one error and keeps the warnings |
| TaxValidation.AddWarning | app/services/tax_validation.py:22-23 | a warning is appended and leaves the verdict as it was |
| TaxValidation.Merge | app/services/tax_validation.py:25-31 | the merged verdict is the conjunction; errors and warnings are concatenated in order; a consistent result stays consistent |
| TaxValidation.FailureIsSticky | app/services/tax_validation.py:18-31 | no operation of the accumulator drops a finding or turns a failure back into success |
| TaxValidation.ReadJson | app/services/tax_validation.py:37-45 | a file yields a value exactly when it decodes to something other than null; a null document yields none and records nothing; a missing file records the missing-file error and a malformed one the invalid-JSON error, and nothing else changes |
| TaxValidation.MissingFields | app/services/tax_validation.py:61 | the listed fields are exactly the required fields absent from the metadata; none are listed exactly when all are present |
| TaxValidation.CheckRequiredFields | app/services/tax_validation.py:59-63 | the check passes exactly when all four required metadata fields are present |
| TaxValidation.CheckMetadataYear | app/services/tax_validation.py:65-69 | a missing tax_year adds a warning and fails without an error; a different year adds the mismatch error |
| TaxValidation.CheckMethod | app/services/tax_validation.py:71-76 | an unknown method adds the method error; a known method other than percentage, with notes that mention percentage, adds the other error |
| TaxValidation.CheckMetadata | app/services/tax_validation.py:59-76 | the metadata checks pass exactly for sound metadata, and report a missing or mismatched tax year |
| TaxValidation.CheckValidationYear | app/services/tax_validation.py:78-80 | validation.json passes exactly when its tax_year is the year checked |
| TaxValidation.CheckFitFiles | app/services/tax_validation.py:82-87 | exactly one missing-FIT error per supported frequency whose file is absent, in frequency order, and no other change |
| TaxValidation.CheckFitFilesExtends | app/services/tax_validation.py:82-87 | the FIT-file loop keeps earlier findings and adds only year-level issues |
| TaxValidation.MissingFitFound | app/services/tax_validation.py:82-87 | every frequency whose FIT file is absent has its error |
| TaxValidation.ReadYearFiles | app/services/tax_validation.py:55-57 | reading the three year files succeeds exactly when all three exist and decode |
| TaxValidation.MissingMetadataFirst | app/services/tax_validation.py:55 | a missing metadata.json is the first error reported |
| TaxValidation.CheckYearRecords | app/services/tax_validation.py:55-80 | the record checks keep the read errors and report a missing or mismatched metadata year |
| TaxValidation.CheckYearRecordsOk | app/services/tax_validation.py:55-80 | the record checks pass exactly when the three files decode, the metadata is sound unless it is null, and validation.json names the year unless it is null |
| TaxValidation.ValidateTaxYearData | app/services/tax_validation.py:48-95 | the result is consistent, holds only year-level issues, and reports every missing FIT file |
| TaxValidation.ValidateTaxYearDataOkIffSound | app/services/tax_validation.py:48-95 | validation succeeds exactly for sound year data, a null metadata.json or validation.json counting as sound, and then records no error |
| TaxValidation.UpperBounds | app/services/tax_validation.py:134 | there are never more thresholds than brackets, and no threshold is None |
| TaxValidation.UpperBoundsOfBoundedRows | app/services/tax_validation.py:134 | when every bracket has an upper bound, the thresholds are those bounds in order |
| TaxValidation.UpperBoundsDropsUnbounded | app/services/tax_validation.py:134 | a final open-ended bracket adds no threshold |
| TaxValidation.Min3 | app/services/tax_validation.py:135 | the number of checks is the least of 3 and the two list lengths |
| TaxValidation.Comparisons | app/services/tax_validation.py:136-138 | the compared entries pair the expected and actual thresholds index by index |
| TaxValidation.CompareEach | app/services/tax_validation.py:137-142 | one bracket error per differing pair, in index order, with a 1-based bracket number; the check passes exactly when none differ |
| TaxValidation.NoMismatchIffAgree | app/services/tax_validation.py:135-142 | no pair differs exactly when the first thresholds agree as far as both lists and the limit of three reach |
| TaxValidation.CheckStatusTable | app/services/tax_validation.py:117-142 | a status passes exactly when its table exists, its standard deduction is as expected (when one is expected) and its thresholds agree |
| TaxValidation.CheckStatusTableReports | app/services/tax_validation.py:117-142 | a missing table adds exactly its error; a differing deduction and every differing threshold among the first three are reported |
| TaxValidation.MismatchFound | app/services/tax_validation.py:137-142 | every compared threshold that differs has its error |
| TaxValidation.CheckStatuses | app/services/tax_validation.py:117-144 | the loop over filing statuses passes exactly when every status passes, keeping earlier findings |
| TaxValidation.CheckStatusesReports | app/services/tax_validation.py:124-130 | a differing standard deduction of any status is reported, whatever comes after it |
| TaxValidation.ValidateFitTables | app/services/tax_validation.py:98-111 | the year's findings are kept; an unsupported frequency adds exactly that error; when the FIT file or validation.json is missing, malformed or null, only the read errors are added and no table is compared |
| TaxValidation.ValidateFitTablesOkIffSound | app/services/tax_validation.py:98-147 | FIT validation succeeds exactly for a sound year whose FIT file decodes and, unless it or validation.json is null, whose every status table agrees; it then records no error |
| TaxValidation.HourlyFrequencyUnsupported | app/services/tax_validation.py:104-106 | with the five supported pay frequencies, "hourly" FIT validation fails with exactly the unsupported-frequency error added to the year's findings |
| TaxValidation.NullFitTablesPass | app/services/tax_validation.py:108-111 | a FIT file holding null passes validation of a sound year with no table compared |
| TaxValidation.ValidateFitTablesChecked | app/services/tax_validation.py:108-111 | with a null FIT or validation document reported as an error, success means every status table agrees; on two readable documents it is the original |
| TaxValidation.StandardDeductionMismatchReported | app/services/tax_validation.py:124-130 | a table whose standard deduction differs from the expected one fails validation, with the deduction error by name |
| Summary.QuarterMonths | app/reports/summary.py:4-5 | quarters 1 to 4 map to their three consecutive months; any other quarter has none |
| Summary.QuartersPartitionYear | app/reports/summary.py:4-5 | every month 1 to 12 lies in exactly one quarter |
| Summary.Form941Summary | app/reports/summary.py:8-23 | line 5e is the sum of the three tax lines, line 6 is line 3 plus line 5e, and the three taxable-wage lines agree |
| Summary.Form941Line6IsAllTaxes | app/reports/summary.py:19-22 | line 6 is every tax of every record: withholding, both halves of Social Security and Medicare, and Additional Medicare |
| Summary.EmployeeIds | app/reports/summary.py:27-30 | the grouping keys are distinct |
| Summary.EmployeeIdsComplete | app/reports/summary.py:28-30 | every record's employee has a group |
| Summary.EmployeeIdsSound | app/reports/summary.py:28-30 | every group comes from some record |
| Summary.GroupedTotal | app/reports/summary.py:27-38 | regrouping by employee preserves the total of any column |
| Summary.SplitAtWageBase | app/reports/summary.py:35-37 | taxable plus excess is gross; taxable never exceeds the wage base or the gross; excess is never negative |
| Summary.Rt6Detail | app/reports/summary.py:34-41 | one detail row per employee in order of first appearance, splitting that employee's summed gross |
| Summary.Rt6DetailTotals | app/reports/summary.py:32-41 | the detail rows add up to the per-employee gross, capped and excess totals |
| Summary.Rt6Summary | app/reports/summary.py:26-49 | gross, taxable and excess wages are the totals of the detail rows, and the tax due is the SUTA rate applied to the taxable total |
| Summary.Rt6TotalsBalance | app/reports/summary.py:33-40 | total gross is the gross of all records, and taxable plus excess is total gross |
| Summary.Rt6TaxableCapped | app/reports/summary.py:36-39 | total taxable wages are at most the wage base per employee |
| Summary.Rt6OneRowPerEmployee | app/reports/summary.py:27-41 | every record's employee has exactly one detail row |
| Summary.Form940SummaryAsWritten | app/reports/summary.py:52-57 | line 3 is all gross wages, line 8 all employer FUTA, and line 7 caps each record's taxable wages at 7000 |
| Summary.Form940Line7Bounds | app/reports/summary.py:55 | line 7 as written is at most the taxable wages and at most 7000 per record |
| Summary.Form940PerRecordCapOvercounts | app/reports/summary.py:55 | two 5000 records of one employee give 10000 on line 7, where the per-employee cap gives 7000 |
| Summary.Form940Summary | app/reports/summary.py:52-57 | lines 3 and 8 as written; line 7 caps each employee's summed taxable wages at 7000 |
| Summary.Form940PerEmployeeBounds | app/reports/summary.py:55 | line 7 with the per-employee cap is at most the taxable wages and at most 7000 per employee |
| Rollups.QuarterBounds | app/reports/rollups.py:8-10 | a quarter spans three months starting at 3q - 2 |
| Rollups.QuarterBoundsAgreeWithMonths | app/reports/rollups.py:8-10 | the month range the rollups filter on is the month list the in-memory summary uses |
| Rollups.TraceStep | app/reports/rollups.py:17-18 | the named step when the trace, its steps and the key are present, and 0 otherwise |
| Rollups.StoredTraceSteps | app/reports/rollups.py:17-18 | a trace stored from the pay calculation yields its gross, net and federal steps, and 0 for every wage key the rollups read |
| Rollups.QuarterRowsExactly | app/reports/rollups.py:13-23 | a quarter's rows are exactly the company's rows of that year whose month lies in the quarter |
| Rollups.YearRowsExactly | app/reports/rollups.py:13-14 | a year's rows are exactly the company's rows of that year |
| Rollups.Rt6Summary | app/reports/rollups.py:21-37 | the quarter's rows, and the rounded totals of their taxable wages, SUTA-taxable wages and SUTA contributions |
| Rollups.Form941Summary | app/reports/rollups.py:40-68 | the quarter's rows; each wage and tax figure is the rounded total of its column, Social Security and Medicare tax both halves, and the total tax the rounded sum of the four rounded taxes |
| Rollups.Form941TotalTaxIsAllTaxes | app/reports/rollups.py:60 | without rounding, the 941 total tax is every tax of every row of the quarter |
| Rollups.Form940Summary | app/reports/rollups.py:71-86 | the year's rows, and the rounded totals of their taxable wages, FUTA-taxable wages and FUTA tax |
| Rollups.YearIsFourQuarters | app/reports/rollups.py:71-75 | a year whose months lie in 1 to 12 totals, in any column, its four quarters |
| Rollups.YearRowsAreFourQuarters | app/reports/rollups.py:71-75 | the year's rows total, in any column, the rows of its four quarters |
| Rollups.Form940IsFourQuarters | app/reports/rollups.py:71-75 | without rounding, the year's FUTA tax is the sum of the four quarters' FUTA columns |
| Rollups.QuarterlyWagesMakeTheYear | app/reports/rollups.py:71-75 | without rounding, the 940 wages are the wages of the four RT-6 returns and of the four Forms 941 |
| Rollups.EmployeeW2Totals | app/reports/rollups.py:89-109 | the employee's rows of the year; boxes 1 to 6 are the rounded totals of gross pay, withholding, Social Security wages, employee Social Security, Medicare wages, and employee plus Additional Medicare |
| Rollups.W2EmployeeShare | app/reports/rollups.py:98-100 | box 4 is the employee half of Social Security; box 6 is employee Medicare plus Additional Medicare |
| Rollups.W2RowsExactly | app/reports/rollups.py:90-94 | the W-2 rows are exactly the employee's rows of that company and year |
| Rates.ParseDecimal | app/utils/rates.py:26-28 | a literal is accepted exactly when, after an optional sign, it is an unsigned decimal; it is never empty, and its value is negative only after a minus sign |
| Rates.LiteralRoundTrip | app/utils/rates.py:26 | a digits.digits literal reads as its value, and its negation as the negated value |
| Rates.ParseDecimalOfInt | app/utils/rates.py:26 | every integer's decimal text reads back as that integer |
| Rates.Normalize | app/utils/rates.py:32-37 | negatives are rejected; values in [0, 1] are kept; larger values are divided by 100; the result lies in [0, 1] exactly when the raw value is at most 100 |
| Rates.ParseRate | app/utils/rates.py:6-37 | numbers go straight to the sign and range rule; "Rate is required" exactly when the stripped text is empty |
| Rates.ParseStripped | app/utils/rates.py:21-37 | on stripped text, the required error occurs exactly for the empty text |
| Rates.InvalidIffNotALiteral | app/utils/rates.py:25-28 | "must be a valid number" exactly when the stripped text is non-empty and, without its % suffix, not a decimal literal |
| Rates.PercentAlwaysDivides | app/utils/rates.py:29-30 | text ending in % is divided by 100, with no sign or range check |
| Rates.PercentOf | app/utils/rates.py:23-30 | an unpadded literal followed by % parses to its value over 100 |
| Rates.PlainTextIsNumber | app/utils/rates.py:32-37 | text without % behaves exactly like the number it spells |
| Rates.PlainOf | app/utils/rates.py:32-37 | an unpadded literal without % gets the sign and range rule |
| Rates.FractionIsFixedPoint | app/utils/rates.py:35-36 | a number in [0, 1] is returned unchanged |
| Rates.ReparseIsStable | app/utils/rates.py:32-37 | a parsed rate in [0, 1] parses to itself again; a number up to 100 always lands in [0, 1] |
| Rates.ExampleTwoPointSeven | tests/test_rates.py:7 | "2.7" gives 0.027 |
| Rates.ExampleTwoPointSevenPercent | tests/test_rates.py:8 | "2.7%" gives 0.027 |
| Rates.ExampleFraction | tests/test_rates.py:9-10 | 0.027 and "0.027" give 0.027 |
| Rates.ExampleThree | tests/test_rates.py:11 | "3" gives 0.03 |
| Rates.NegativePercentAccepted | app/utils/rates.py:29-33 | "-5%" is accepted as -0.05 while "-5" and -5 are rejected as negative |
| Rates.ParseRateChecked | app/utils/rates.py:29-33 | the corrected parser never returns a negative rate, and reports "required" exactly for blank text |
| Rates.CheckedAgreesOnNonNegative | app/utils/rates.py:29-33 | the corrected parser agrees with the original on every failure and every non-negative success, and rejects "-5%" |
| PdfWriter.Latin1 | app/services/pdf.py:17 | a character below 256 encodes to its own code, and any other character to ? |
| PdfWriter.Encode | app/services/pdf.py:17 | one byte per character, each the character's Latin-1 code |
| PdfWriter.DecodeEncode | app/services/pdf.py:17 | Latin-1 text reads back exactly from its bytes |
| PdfWriter.EncodeAppend | app/services/pdf.py:17 | encoding distributes over concatenation, so byte offsets are sums of encoded lengths |
| PdfWriter.EscapeIsPerCharacter | app/services/pdf.py:4-5 | the three chained replacements escape each character on its own, because backslashes are doubled first |
| PdfWriter.Escape | app/services/pdf.py:4-5 | each backslash and parenthesis gets one backslash before it, and removing each escaping backslash restores the line |
| PdfWriter.EscapeInjective | app/services/pdf.py:4-5 | distinct lines give distinct escaped text |
| PdfWriter.EscapeLength | app/services/pdf.py:4-5 | escaping adds exactly one character per backslash or parenthesis |
| PdfWriter.EscapeKeepsPlainText | app/services/pdf.py:4-5 | text without backslashes or parentheses is unchanged |
| PdfWriter.PlacedOnPage | app/services/pdf.py:10-15 | line k is drawn exactly when it exists and its baseline 760 - 18k is not below 40, and it is drawn at that baseline |
| PdfWriter.LayOutLines | app/services/pdf.py:9-16 | the loop emits the text prologue, one positioned command per line that fits on the page, and ET |
| PdfWriter.ContentTextShape | app/services/pdf.py:17 | the content stream is BT, the font, the placed lines and ET, separated by newlines |
| PdfWriter.DeclaredLength | app/services/pdf.py:26 | the /Length of object 5 reads back as the stream's byte count, and the stream sits right after that header |
| PdfWriter.Objects | app/services/pdf.py:19-26 | the document has exactly five objects |
| PdfWriter.WriteObjects | app/services/pdf.py:28-32 | the output is the header followed by the objects; offset k is the number of bytes written before object k |
| PdfWriter.ObjectAtItsOffset | app/services/pdf.py:28-32 | the bytes at each recorded offset are exactly that object, and consecutive offsets differ by its length |
| PdfWriter.FirstObjectAfterHeader | app/services/pdf.py:28-31 | the first object starts at byte 9, right after the header |
| PdfWriter.XrefEntryShape | app/services/pdf.py:35-37 | each cross-reference entry is 20 bytes, and its first ten digits read back as the offset |
| PdfWriter.XrefEntriesLength | app/services/pdf.py:36-37 | the in-use entries take 20 bytes each |
| PdfWriter.CreatePayStubPdfBytes | app/services/pdf.py:8-41 | the file is the body, a six-entry cross-reference table and the trailer that points back at the table |
| PdfWriter.StartXrefPointsAtTable | app/services/pdf.py:33-40 | the startxref value is the offset where the xref keyword begins |
| Paystub.PresentValues | app/reports/paystub_pdf.py:31-35 | only non-empty values are kept; none are kept exactly when every value is falsy; a character absent from every value is absent from the kept ones |
| Paystub.AddressLine | app/reports/paystub_pdf.py:30-38 | no line exactly when all four fields are falsy, otherwise a non-empty line |
| Paystub.AddressLineSplits | app/reports/paystub_pdf.py:30-38 | with comma-free fields, splitting the line at ", " gives back the present fields in order |
| Paystub.EmployeeAddress | app/reports/paystub_pdf.py:41-46 | the employee address is empty exactly when no field is truthy |
| Paystub.EmployeeAddressIsAddressLine | app/reports/paystub_pdf.py:41-46 | the two-stage employee join equals the one-stage company address line, or "" when there is none |
| Paystub.EmployeeAddressSegments | app/reports/paystub_pdf.py:41-46 | with comma-free fields, the address neither starts nor ends with a comma and splits back into its non-empty fields |
| Paystub.LastFour | app/reports/paystub_pdf.py:52 | the last four characters, or all of a shorter string, as a suffix of the input |
| Paystub.MaskedSsn | app/reports/paystub_pdf.py:49-55 | the mask starts with ***-**-, shows at least four characters, and exactly four when the SSN is present |
| Paystub.MaskHidesAllButLastFour | app/reports/paystub_pdf.py:49-55 | two SSNs that agree in their last four characters are masked identically |
| Paystub.MaskedSsnDigits | app/reports/paystub_pdf.py:49-55 | the shown digits read back as the value of the source digits, since zero padding only adds leading zeros |
| Paystub.MaskedTestEmployee | tests/test_paystub_pdf_generator.py:64 | 111-22-3333 is shown as ***-**-3333 |
| Paystub.MaskedFallbacks | app/reports/paystub_pdf.py:53-55 | a stored last-four of "42" is shown as 0042, and an empty SSN as 0000 |
| Paystub.FilingStatusLabel | app/reports/paystub_pdf.py:66 | the label is always one of the three filing-status labels |
| Paystub.FilingStatusDefault | app/reports/paystub_pdf.py:66 | the default label appears exactly for statuses other than the two married-jointly and head-of-household keys |
| Paystub.PayFrequency | app/reports/paystub_pdf.py:58-60 | the period shown is always one of the five frequency labels |
| Paystub.LabelsAreCapitalizedKeys | app/reports/paystub_pdf.py:13-19 | each frequency label is its key with the first letter capitalised |
| Paystub.PayFrequencyIsCapitalizedKey | app/reports/paystub_pdf.py:58-60 | the period shown is the capitalised key when the key is known, and Monthly otherwise |
| Paystub.PayFrequencyChoice | app/reports/paystub_pdf.py:58-60 | a present record frequency wins, case-insensitively; with neither frequency the stub says Monthly |
| Paystub.SafeFloat | app/reports/paystub_pdf.py:26-27 | an absent amount reads as 0 and a present one as itself |
| Paystub.TotalDeductions | app/reports/paystub_pdf.py:69-74 | with all five deductions present the total is their sum, and with none present it is 0 |
| Paystub.IfPositive | app/reports/paystub_pdf.py:89-92 | an optional row appears only for a positive amount, and then contributes it |
| Paystub.DeductionRows | app/reports/paystub_pdf.py:84-92 | the deduction table has between three and five rows |
| Paystub.DeductionRowsShape | app/reports/paystub_pdf.py:84-92 | the three fixed rows come first; the Additional Medicare and Other rows appear exactly when positive |
| Paystub.DeductionRowsAddUp | app/reports/paystub_pdf.py:69-92 | the deduction rows add up to the total exactly when neither optional amount is negative |
| Paystub.EarningsRows | app/reports/paystub_pdf.py:76-82 | the salary row comes first, followed by at most two more |
| Paystub.EarningsRowsAddUp | app/reports/paystub_pdf.py:76-82 | earnings add up to salary plus the positive parts of bonus and reimbursements; each optional row appears exactly when positive |
| Paystub.YtdRows | app/reports/paystub_pdf.py:217-228 | the year-to-date box has six or seven lines |
| Paystub.YtdRowsShape | app/reports/paystub_pdf.py:218-228 | six fixed rows in order, missing keys read as 0; the Additional Medicare row appears exactly when positive |
| Paystub.YtdRowsIgnoreOtherEntries | app/reports/paystub_pdf.py:217-228 | the box reads only its seven summary entries: changing any other entry changes no line |
| Paystub.TestRecordRows | tests/test_paystub_pdf_generator.py:31-44 | the test record shows three earnings totalling 5110, four deduction rows, and total deductions of 890.92 |

## Left out

- TaxValidation.ReadJson: a document that is a list, string, number or
  boolean is read as an object with no fields. Python raises on it at the
  first `.get`, key lookup or `in` on a number. The one shape both agree on
  is a FIT list or string with no filing-status key as an element or
  substring: every table is reported missing.
- CheckStatusTable: nested values of the wrong JSON shape read as absent,
  whereas Python raises. A status table that is not an object reads as having
  no deduction and no brackets (Python: AttributeError at `.get`). A
  `brackets` value that is not a list reads as no brackets. Python iterates
  a non-empty object or string and raises AttributeError at `item.get`, and
  raises TypeError on `null`, a number or a boolean. A bracket item that is
  not an object reads as one without `up_to` (Python: AttributeError at
  `item.get`). An expected thresholds value that is `null`, a number or a
  boolean reads as empty, whereas Python raises TypeError at `len`. One that
  is an object also reads as empty. Once both lists are non-empty, Python
  raises KeyError at `expected_thresholds[idx]`, since JSON object keys are
  strings; an empty object agrees in both.
- TaxValidation.ValidateFitTables: a validation.json `standard_deduction` or
  `bracket_thresholds` that is not an object reads as empty, where Python
  raises AttributeError at `.get`. With the shapes listed under
  CheckStatusTable, the result is a validation outcome where the program
  ends with an exception.
- ValidateFitTablesOkIffSound: the shapes listed under CheckStatusTable,
  TaxValidation.ValidateFitTables and TaxValidation.ExpectedThresholds,
  including object-valued expected thresholds, count as sound or failing by
  their reading here. The iff therefore also covers documents on which the
  program raises or compares characters.
- TaxValidation.CheckMethod: a metadata `method` that is a list or an object
  yields the bad-method error, whereas Python raises TypeError, since the
  value is unhashable in the set test.
- TaxValidation.ExpectedThresholds: expected thresholds stored as a JSON
  string read as no thresholds. Python would compare the string's
  characters with the actual thresholds and report each as a mismatch.
- JSON booleans and numbers are distinct values, whereas Python treats
  `True == 1`.
- The `details` dictionary of `ValidationResult` and `to_dict`: they are
  free-form diagnostics that no decision reads.
- Floating point: amounts are exact reals; `round2` is a parameter; the
  order of float summation is not modelled.
- `format_rate_percent`: it needs float formatting, which has no Dafny model here.
- Rates.ParseDecimal: it reads only `[sign] digits [. digits]` with ASCII
  digits. Exponents, `NaN`, `Infinity`, digit underscores and non-ASCII
  decimal digits, all of which Python's `Decimal` accepts, are left out.
- Text.Lower: lower-casing is ASCII-only.
- PdfWriter.DecodeEncode: the round trip is stated for Latin-1 text only,
  since every other character becomes `?`.
- The drawing commands, logo and layout of `generate_paystub_pdf`,
  `_currency`, `_load_image` and `_build_pdf`. They position text and
  images; the model keeps the values the stub shows. `_build_pdf` and
  `_load_image` are not part of this model.
- The database, web routes and loaders (`main.py`, `models.py`,
  `tax_loader.py`, `database.py`). The rollups take the table as a
  sequence of rows.
- Summary.Form941Summary: with no records, Python's dictionary has no
  `line_2_wages_tips_other_comp` key and none of the three taxable-wage keys,
  because only the reads of lines 19-22 create keys. The model reports each
  of them as 0.0, so key presence is not modelled.
- Rollups.QuarterlyWagesMakeTheYear: the rounding function is a parameter,
  so this and the other cross-report lemmas hold only without rounding.

## Findings

| source | as written | input that shows it | evidently intended | confidence | as-written member | corrected member |
|---|---|---|---|---|---|---|
| app/reports/summary.py:55 | Form 940 line 7 caps each record at the 7000 FUTA wage base | two records of one employee with 5000 taxable wages each give 10000 | the cap applies per employee per year, as line 7 of Form 940 says | medium, not executed | Summary.Form940PerRecordCapOvercounts | Summary.Form940PerEmployeeBounds |
| app/services/tax_validation.py:108-111 | a FIT file or validation.json holding null ends the check with no error | a sound year whose monthly FIT file holds null passes FIT validation with no table compared | a document that is not a JSON object is reported as an error | low, not executed | TaxValidation.NullFitTablesPass | TaxValidation.ValidateFitTablesChecked |
| app/utils/rates.py:29-30 | a rate ending in % returns before the negativity check | "-5%" parses to -0.05, while "-5" is rejected | every input form rejects negative rates | medium, not executed | Rates.NegativePercentAccepted | Rates.ParseRateChecked |
