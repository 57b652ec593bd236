/** The tax-table validator of `app/services/tax_validation.py`: the
    `ValidationResult` accumulator, `validate_tax_year_data` (metadata,
    validation record and per-frequency FIT files of one tax year) and
    `validate_fit_tables` (one pay frequency's FIT tables against the
    independently authored expected values).

    The file system is a value: a map from path to what reading that path
    yields.  A path that is not a key does not exist. */
module TaxValidation {
  import opened Wrappers
  import Text
  import Sums

  // ---------------------------------------------------------------------
  // JSON documents and the file system
  // ---------------------------------------------------------------------

  /** A decoded JSON value.  Integers and floats share one exact number
      type, as Python's `==` treats `2025` and `2025.0` alike. */
  datatype Json =
    | JNull
    | JBool(b: bool)
    | JNum(n: real)
    | JStr(s: string)
    | JArr(items: seq<Json>)
    | JObj(fields: map<string, Json>)

  type JsonObject = map<string, Json>

  /** What reading an existing file yields: a decoded JSON document of any
      shape (`null` included), or a decoding failure with the decoder's
      explanation. */
  datatype FileContent = Malformed(reason: string) | Parsed(doc: Json)

  type FileSystem = map<string, FileContent>

  /** `d.get(key)`: the stored value, or `None` (here `JNull`). */
  function Get(o: JsonObject, key: string): (v: Json)
    ensures key in o ==> v == o[key]
    ensures key !in o ==> v == JNull
  {
    if key in o then o[key] else JNull
  }

  /** `d.get(key, default)`. */
  function GetOr(o: JsonObject, key: string, default: Json): (v: Json)
    ensures key in o ==> v == o[key]
    ensures key !in o ==> v == default
  {
    if key in o then o[key] else default
  }

  /** The fields of a value used as a dictionary (none unless it is one). */
  function AsObject(j: Json): JsonObject {
    if j.JObj? then j.fields else map[]
  }

  /** The items of a value used as a list (none unless it is one). */
  function AsList(j: Json): seq<Json> {
    if j.JArr? then j.items else []
  }

  /** Whether `"percentage" in str(j).lower()` holds.  The text Python
      renders for a list or dictionary quotes every string in it and puts
      punctuation between them, so the word occurs in that text exactly
      when it occurs in one of the strings (keys included); numbers,
      booleans and `None` never render to it. */
  predicate MentionsPercentage(j: Json)
    decreases j
  {
    match j
    case JStr(s) => Text.Contains(Text.Lower(s), "percentage")
    case JArr(items) => exists i :: 0 <= i < |items| && MentionsPercentage(items[i])
    case JObj(fields) =>
      exists k :: k in fields && (Text.Contains(Text.Lower(k), "percentage") || MentionsPercentage(fields[k]))
    case _ => false
  }

  // ---------------------------------------------------------------------
  // Findings and the accumulator
  // ---------------------------------------------------------------------

  /** One error or warning, with the values its message mentions. */
  datatype Issue =
    | MissingFile(path: string)
    | InvalidJson(fileLabel: string, reason: string)
    | MetadataMissingFields(fields: seq<string>)
    | MetadataMissingTaxYear
    | MetadataTaxYearMismatch(expectedYear: int, foundYear: Json)
    | MetadataBadMethod
    | MetadataMethodNotPercentage
    | ValidationTaxYearMismatch(expectedYear: int, foundYear: Json)
    | MissingFitTables(year: int, frequency: string)
    | UnsupportedFrequency(frequency: string)
    | MissingStatusTable(status: string, year: int, frequency: string)
    | StandardDeductionMismatch(expected: Json, actual: Json, status: string)
    | BracketThresholdMismatch(expected: Json, actual: Json, status: string, bracket: nat)
    | NullDocument(fileLabel: string)

  /** The message text up to the first JSON value it interpolates. */
  function Message(i: Issue): string {
    match i
    case MissingFile(path) => "Missing required file for tax year validation: " + path
    case InvalidJson(fileLabel, reason) => "Invalid JSON in " + fileLabel + ": " + reason
    case MetadataMissingFields(fields) =>
      "metadata.json is missing required fields: " + Text.Join(fields, ", ")
    case MetadataMissingTaxYear => "metadata.json is missing required field 'tax_year'."
    case MetadataTaxYearMismatch(expected, _) =>
      "metadata.json tax_year mismatch: expected " + Text.IntToString(expected) + ", found "
    case MetadataBadMethod => "metadata.json method must be one of: percentage, wage_bracket"
    case MetadataMethodNotPercentage =>
      "metadata.json method must be 'percentage' when notes indicate percentage tables"
    case ValidationTaxYearMismatch(expected, _) =>
      "validation.json tax_year mismatch: expected " + Text.IntToString(expected) + ", found "
    case MissingFitTables(year, frequency) =>
      "Missing FIT percentage tables for " + Text.IntToString(year) + " at fit/" + frequency
      + "/percentage_method.json"
    case UnsupportedFrequency(frequency) =>
      "Unsupported pay frequency '" + frequency + "' for FIT validation"
    case MissingStatusTable(status, year, frequency) =>
      "Missing FIT table for filing status '" + status + "' (" + Text.IntToString(year) + ", "
      + frequency + ")"
    case StandardDeductionMismatch(_, _, _) =>
      "Tax tables appear to be for a different year (expected standard deduction "
    case BracketThresholdMismatch(_, _, _, _) =>
      "Tax tables appear to be for a different year (expected bracket threshold "
    case NullDocument(fileLabel) => fileLabel + " holds null instead of a JSON object"
  }

  /** The findings `validate_tax_year_data` can record; the other kinds
      belong to `validate_fit_tables`. */
  predicate IsYearIssue(e: Issue) {
    !e.UnsupportedFrequency? && !e.MissingStatusTable? && !e.StandardDeductionMismatch?
    && !e.BracketThresholdMismatch? && !e.NullDocument?
  }

  /** `ValidationResult` without its free-form `details` dictionary. */
  datatype ValidationResult = ValidationResult(ok: bool, errors: seq<Issue>, warnings: seq<Issue>)

  /** A fresh `ValidationResult()`. */
  const Fresh := ValidationResult(true, [], [])

  /** The accumulator never reports success while holding an error. */
  predicate Consistent(r: ValidationResult) {
    |r.errors| > 0 ==> !r.ok
  }

  /** `r'` keeps every finding of `r` in place, and a failed `r` stays failed. */
  predicate Extends(r: ValidationResult, r': ValidationResult) {
    r.errors <= r'.errors && r.warnings <= r'.warnings && (!r.ok ==> !r'.ok)
  }

  /** The errors `r'` recorded after those of `r`. */
  function Added(r: ValidationResult, r': ValidationResult): seq<Issue>
    requires r.errors <= r'.errors
  {
    r'.errors[|r.errors|..]
  }

  lemma ExtendsTransitive(a: ValidationResult, b: ValidationResult, c: ValidationResult)
    requires Extends(a, b) && Extends(b, c)
    ensures Extends(a, c)
  {
    assert c.errors[..|a.errors|] == b.errors[..|a.errors|];
    assert c.warnings[..|a.warnings|] == b.warnings[..|a.warnings|];
  }

  lemma ExtendsKeeps(r: ValidationResult, r': ValidationResult, e: Issue)
    requires Extends(r, r') && e in r.errors
    ensures e in r'.errors
  {
    var i :| 0 <= i < |r.errors| && r.errors[i] == e;
    assert r'.errors[i] == e;
  }

  /** `result.add_error(message)`. */
  function AddError(r: ValidationResult, i: Issue): (r': ValidationResult)
    ensures !r'.ok
    ensures r'.errors == r.errors + [i] && r'.warnings == r.warnings
    ensures Extends(r, r') && Consistent(r')
  {
    r.(ok := false, errors := r.errors + [i])
  }

  /** `result.add_warning(message)`: a warning alone never fails the result. */
  function AddWarning(r: ValidationResult, i: Issue): (r': ValidationResult)
    ensures r'.ok == r.ok
    ensures r'.warnings == r.warnings + [i] && r'.errors == r.errors
    ensures Consistent(r) ==> Consistent(r')
  {
    r.(warnings := r.warnings + [i])
  }

  /** `result.ok = False`, written directly by the metadata check. */
  function MarkFailed(r: ValidationResult): (r': ValidationResult)
    ensures !r'.ok && r'.errors == r.errors && r'.warnings == r.warnings
  {
    r.(ok := false)
  }

  /** `result.merge(other)`. */
  function Merge(r: ValidationResult, other: ValidationResult): (r': ValidationResult)
    ensures r'.ok == (r.ok && other.ok)
    ensures r'.errors == r.errors + other.errors
    ensures r'.warnings == r.warnings + other.warnings
    ensures Consistent(r) && Consistent(other) ==> Consistent(r')
  {
    var failed := if !other.ok then MarkFailed(r) else r;
    failed.(errors := failed.errors + other.errors, warnings := failed.warnings + other.warnings)
  }

  /** No operation of the accumulator sets `ok` back to true, and each keeps
      every error and warning already recorded, in place. */
  lemma FailureIsSticky(r: ValidationResult, other: ValidationResult, i: Issue)
    ensures Extends(r, AddError(r, i)) && Extends(r, AddWarning(r, i)) && Extends(r, MarkFailed(r))
    ensures Extends(r, Merge(r, other))
    ensures !r.ok ==> !Merge(other, r).ok
  {
  }

  // ---------------------------------------------------------------------
  // Where the files live
  // ---------------------------------------------------------------------

  /** `payroll.DATA_DIR` and the keys of `PERIODS_PER_YEAR` and
      `FILING_STATUS_KEYS`, which the validator reads from the payroll
      module. */
  datatype Settings = Settings(dataDir: string, frequencies: seq<string>, filingStatuses: seq<string>)

  /** The five pay frequencies the application supports, in its order. */
  const PayFrequencies: seq<string> := ["daily", "weekly", "biweekly", "semimonthly", "monthly"]

  /** The three filing statuses the application supports. */
  const FilingStatusKeys: seq<string> :=
    ["single_or_married_filing_separately", "married_filing_jointly", "head_of_household"]

  function YearDir(s: Settings, year: int): string {
    s.dataDir + "/" + Text.IntToString(year)
  }

  function MetadataPath(s: Settings, year: int): string {
    YearDir(s, year) + "/metadata.json"
  }

  function RatesPath(s: Settings, year: int): string {
    YearDir(s, year) + "/rates.json"
  }

  function ValidationPath(s: Settings, year: int): string {
    YearDir(s, year) + "/validation.json"
  }

  function FitPath(s: Settings, year: int, frequency: string): string {
    YearDir(s, year) + "/fit/" + frequency + "/percentage_method.json"
  }

  /** The file exists and holds valid JSON: reading it records nothing. */
  predicate Decodes(fs: FileSystem, path: string) {
    path in fs && fs[path].Parsed?
  }

  /** The file decodes to something other than `null`, so the caller gets
      a value back and goes on to check it. */
  predicate Readable(fs: FileSystem, path: string) {
    Decodes(fs, path) && fs[path].doc != JNull
  }

  /** The decoded document of a file, used as a dictionary. */
  function Contents(fs: FileSystem, path: string): JsonObject
    requires Decodes(fs, path)
  {
    AsObject(fs[path].doc)
  }

  /** The error reading a file records: none when it decodes. */
  function ReadIssues(fs: FileSystem, path: string, fileLabel: string): seq<Issue> {
    if path !in fs then [MissingFile(path)]
    else if fs[path].Malformed? then [InvalidJson(fileLabel, fs[path].reason)]
    else []
  }

  datatype ReadOutcome = ReadOutcome(content: Option<JsonObject>, result: ValidationResult)

  /** `_read_json(path, result, label=...)`: the decoded document, or an
      error naming the missing path or the decoding failure.  A document
      that decodes to `null` comes back as `None` with nothing recorded,
      exactly like a failed read but without the error. */
  function ReadJson(fs: FileSystem, path: string, fileLabel: string, r: ValidationResult): (o: ReadOutcome)
    ensures o.content.Some? <==> Readable(fs, path)
    ensures o.content.Some? ==> o.content.value == Contents(fs, path)
    ensures Decodes(fs, path) ==> o.result == r
    ensures path !in fs ==> o.result == AddError(r, MissingFile(path))
    ensures path in fs && fs[path].Malformed? ==> o.result == AddError(r, InvalidJson(fileLabel, fs[path].reason))
    ensures o.result.errors == r.errors + ReadIssues(fs, path, fileLabel)
    ensures Extends(r, o.result) && (Consistent(r) ==> Consistent(o.result))
    ensures YearIssuesOnly(r) ==> YearIssuesOnly(o.result)
    ensures o.result.warnings == r.warnings
    ensures o.result.ok <==> r.ok && Decodes(fs, path)
  {
    if path !in fs then ReadOutcome(None, AddError(r, MissingFile(path)))
    else match fs[path]
      case Malformed(reason) => ReadOutcome(None, AddError(r, InvalidJson(fileLabel, reason)))
      case Parsed(doc) => if doc == JNull then ReadOutcome(None, r) else ReadOutcome(Some(AsObject(doc)), r)
  }

  // ---------------------------------------------------------------------
  // validate_tax_year_data
  // ---------------------------------------------------------------------

  const RequiredMetaFields: seq<string> := ["source", "version", "last_updated", "notes"]

  /** The required metadata fields absent from `m`, in the required order. */
  function MissingFields(required: seq<string>, m: JsonObject): (missing: seq<string>)
    ensures forall i :: 0 <= i < |missing| ==> missing[i] in required && missing[i] !in m
    ensures forall i :: 0 <= i < |required| && required[i] !in m ==> required[i] in missing
    ensures |missing| == 0 <==> forall i :: 0 <= i < |required| ==> required[i] in m
  {
    if |required| == 0 then []
    else MissingFields(required[..|required| - 1], m)
         + (if required[|required| - 1] !in m then [required[|required| - 1]] else [])
  }

  predicate HasRequiredFields(m: JsonObject) {
    forall i :: 0 <= i < |RequiredMetaFields| ==> RequiredMetaFields[i] in m
  }

  /** The accepted values of `method`. */
  predicate IsKnownMethod(m: Json) {
    m == JStr("percentage") || m == JStr("wage_bracket")
  }

  /** The method/notes rule: notes that speak of percentage tables force the
      percentage method. */
  predicate MethodAgreesWithNotes(m: JsonObject) {
    MentionsPercentage(GetOr(m, "notes", JStr(""))) ==> Get(m, "method") == JStr("percentage")
  }

  /** A `metadata.json` that passes every metadata rule for `year`. */
  predicate SoundMetadata(m: JsonObject, year: int) {
    && HasRequiredFields(m)
    && "tax_year" in m && m["tax_year"] == JNum(year as real)
    && IsKnownMethod(Get(m, "method"))
    && MethodAgreesWithNotes(m)
  }

  /** Every error recorded so far is one `validate_tax_year_data` can record. */
  predicate YearIssuesOnly(r: ValidationResult) {
    forall e :: e in r.errors ==> IsYearIssue(e)
  }

  /** The required-fields rule of the metadata check. */
  function CheckRequiredFields(m: JsonObject, r: ValidationResult): (r': ValidationResult)
    ensures Extends(r, r') && (Consistent(r) ==> Consistent(r')) && r'.warnings == r.warnings
    ensures YearIssuesOnly(r) ==> YearIssuesOnly(r')
    ensures r'.ok <==> r.ok && HasRequiredFields(m)
  {
    var missing := MissingFields(RequiredMetaFields, m);
    if |missing| > 0 then AddError(r, MetadataMissingFields(missing)) else r
  }

  /** The tax-year rule of the metadata check: a missing year is only a
      warning, yet it still fails the result; a different year is an error. */
  function CheckMetadataYear(m: JsonObject, year: int, r: ValidationResult): (r': ValidationResult)
    ensures Extends(r, r') && (Consistent(r) ==> Consistent(r'))
    ensures YearIssuesOnly(r) ==> YearIssuesOnly(r')
    ensures r'.ok <==> r.ok && "tax_year" in m && m["tax_year"] == JNum(year as real)
    ensures "tax_year" !in m ==> r'.errors == r.errors && MetadataMissingTaxYear in r'.warnings
    ensures "tax_year" in m && m["tax_year"] != JNum(year as real)
            ==> MetadataTaxYearMismatch(year, m["tax_year"]) in r'.errors
  {
    if "tax_year" !in m then MarkFailed(AddWarning(r, MetadataMissingTaxYear))
    else if m["tax_year"] != JNum(year as real) then AddError(r, MetadataTaxYearMismatch(year, m["tax_year"]))
    else r
  }

  /** The method rule of the metadata check. */
  function CheckMethod(m: JsonObject, r: ValidationResult): (r': ValidationResult)
    ensures Extends(r, r') && (Consistent(r) ==> Consistent(r')) && r'.warnings == r.warnings
    ensures YearIssuesOnly(r) ==> YearIssuesOnly(r')
    ensures r'.ok <==> r.ok && IsKnownMethod(Get(m, "method")) && MethodAgreesWithNotes(m)
    ensures !IsKnownMethod(Get(m, "method")) ==> r'.errors == r.errors + [MetadataBadMethod]
    ensures IsKnownMethod(Get(m, "method")) && !MethodAgreesWithNotes(m)
            ==> r'.errors == r.errors + [MetadataMethodNotPercentage]
  {
    var declared := Get(m, "method");
    var notes := GetOr(m, "notes", JStr(""));
    if !IsKnownMethod(declared) then AddError(r, MetadataBadMethod)
    else if MentionsPercentage(notes) && declared != JStr("percentage") then AddError(r, MetadataMethodNotPercentage)
    else r
  }

  /** The checks run on a decoded `metadata.json`, in the source's order. */
  function CheckMetadata(m: JsonObject, year: int, r: ValidationResult): (r': ValidationResult)
    ensures Extends(r, r') && (Consistent(r) ==> Consistent(r'))
    ensures YearIssuesOnly(r) ==> YearIssuesOnly(r')
    ensures r'.ok <==> r.ok && SoundMetadata(m, year)
    ensures "tax_year" !in m ==> !r'.ok && MetadataMissingTaxYear in r'.warnings
    ensures "tax_year" in m && m["tax_year"] != JNum(year as real)
            ==> MetadataTaxYearMismatch(year, m["tax_year"]) in r'.errors
  {
    var r1 := CheckRequiredFields(m, r);
    var r2 := CheckMetadataYear(m, year, r1);
    var r3 := CheckMethod(m, r2);
    ExtendsTransitive(r, r1, r2);
    ExtendsTransitive(r, r2, r3);
    YearChecksKeepFindings(r1, r2, r3);
    r3
  }

  /** The check run on a decoded `validation.json`. */
  function CheckValidationYear(v: JsonObject, year: int, r: ValidationResult): (r': ValidationResult)
    ensures Extends(r, r') && (Consistent(r) ==> Consistent(r'))
    ensures r'.ok <==> r.ok && Get(v, "tax_year") == JNum(year as real)
    ensures YearIssuesOnly(r) ==> YearIssuesOnly(r')
  {
    if Get(v, "tax_year") != JNum(year as real) then AddError(r, ValidationTaxYearMismatch(year, Get(v, "tax_year")))
    else r
  }

  /** The test "the FIT file of this frequency is absent". */
  function FitAbsent(s: Settings, fs: FileSystem, year: int): string -> bool {
    f => FitPath(s, year, f) !in fs
  }

  /** One "Missing FIT percentage tables" error per frequency, in order. */
  function MissingFitIssues(year: int, frequencies: seq<string>): (issues: seq<Issue>)
    ensures |issues| == |frequencies|
    ensures forall k :: 0 <= k < |issues| ==> issues[k] == MissingFitTables(year, frequencies[k])
  {
    seq(|frequencies|, k requires 0 <= k < |frequencies| => MissingFitTables(year, frequencies[k]))
  }

  lemma MissingFitIssuesSnoc(year: int, frequencies: seq<string>, f: string)
    ensures MissingFitIssues(year, frequencies + [f]) == MissingFitIssues(year, frequencies) + [MissingFitTables(year, f)]
  {
  }

  /** The loop over `PERIODS_PER_YEAR`: exactly one error per supported
      frequency whose FIT file is absent, in frequency order. */
  function CheckFitFiles(s: Settings, fs: FileSystem, year: int, frequencies: seq<string>, r: ValidationResult)
    : (r': ValidationResult)
    ensures r'.errors == r.errors + MissingFitIssues(year, Sums.Filter(frequencies, FitAbsent(s, fs, year)))
    ensures r'.ok == (r.ok && |Sums.Filter(frequencies, FitAbsent(s, fs, year))| == 0)
    ensures r'.warnings == r.warnings
  {
    ReportAbsent(year, frequencies, FitAbsent(s, fs, year), r)
  }

  /** The same loop for any test of absence. */
  function ReportAbsent(year: int, frequencies: seq<string>, absent: string -> bool, r: ValidationResult)
    : (r': ValidationResult)
    ensures r'.errors == r.errors + MissingFitIssues(year, Sums.Filter(frequencies, absent))
    ensures r'.ok == (r.ok && |Sums.Filter(frequencies, absent)| == 0)
    ensures r'.warnings == r.warnings
  {
    if |frequencies| == 0 then r
    else
      var init := frequencies[..|frequencies| - 1];
      var f := frequencies[|frequencies| - 1];
      var rest := ReportAbsent(year, init, absent, r);
      Sums.FilterSnoc(init, f, absent);
      assert init + [f] == frequencies;
      if absent(f) then
        MissingFitIssuesSnoc(year, Sums.Filter(init, absent), f);
        AddError(rest, MissingFitTables(year, f))
      else rest
  }

  /** The FIT-file loop keeps earlier findings and adds only year issues. */
  lemma CheckFitFilesExtends(s: Settings, fs: FileSystem, year: int, frequencies: seq<string>, r: ValidationResult)
    ensures var r' := CheckFitFiles(s, fs, year, frequencies, r);
      Extends(r, r') && (Consistent(r) ==> Consistent(r')) && (YearIssuesOnly(r) ==> YearIssuesOnly(r'))
  {
    var added := MissingFitIssues(year, Sums.Filter(frequencies, FitAbsent(s, fs, year)));
    var r' := CheckFitFiles(s, fs, year, frequencies, r);
    assert r'.errors == r.errors + added;
    if YearIssuesOnly(r) {
      AppendMissingFit(r.errors, added);
    }
  }

  /** Appending missing-FIT errors to year issues leaves only year issues. */
  lemma AppendMissingFit(a: seq<Issue>, b: seq<Issue>)
    requires forall e :: e in a ==> IsYearIssue(e)
    requires forall k :: 0 <= k < |b| ==> b[k].MissingFitTables?
    ensures forall e :: e in a + b ==> IsYearIssue(e)
  {
    forall e | e in a + b ensures IsYearIssue(e) {
      if e !in a {
        assert e in b;
        var k :| 0 <= k < |b| && b[k] == e;
      }
    }
  }

  /** Every supported frequency whose FIT file is absent gets its error. */
  lemma MissingFitFound(s: Settings, fs: FileSystem, year: int, frequencies: seq<string>)
    ensures forall f :: f in frequencies && FitPath(s, year, f) !in fs ==>
      MissingFitTables(year, f) in MissingFitIssues(year, Sums.Filter(frequencies, FitAbsent(s, fs, year)))
  {
    var absent := Sums.Filter(frequencies, FitAbsent(s, fs, year));
    forall f | f in frequencies && FitPath(s, year, f) !in fs
      ensures MissingFitTables(year, f) in MissingFitIssues(year, absent)
    {
      var i :| 0 <= i < |frequencies| && frequencies[i] == f;
      assert FitAbsent(s, fs, year)(frequencies[i]);
      Sums.FilterComplete(frequencies, FitAbsent(s, fs, year), i);
      var k :| 0 <= k < |absent| && absent[k] == f;
      assert MissingFitIssues(year, absent)[k] == MissingFitTables(year, f);
    }
  }

  /** The three reads `validate_tax_year_data` starts with, in order. */
  function ReadYearFiles(s: Settings, fs: FileSystem, year: int): (r: ValidationResult)
    ensures Consistent(r) && YearIssuesOnly(r) && r.warnings == []
    ensures r.ok <==> Decodes(fs, MetadataPath(s, year)) && Decodes(fs, RatesPath(s, year))
                      && Decodes(fs, ValidationPath(s, year))
  {
    var meta := ReadJson(fs, MetadataPath(s, year), "metadata.json", Fresh);
    var rates := ReadJson(fs, RatesPath(s, year), "rates.json", meta.result);
    ReadJson(fs, ValidationPath(s, year), "validation.json", rates.result).result
  }

  /** An absent `metadata.json` is the first error reported. */
  lemma MissingMetadataFirst(s: Settings, fs: FileSystem, year: int)
    requires MetadataPath(s, year) !in fs
    ensures |ReadYearFiles(s, fs, year).errors| > 0
    ensures ReadYearFiles(s, fs, year).errors[0] == MissingFile(MetadataPath(s, year))
  {
    var meta := ReadJson(fs, MetadataPath(s, year), "metadata.json", Fresh);
    var rates := ReadJson(fs, RatesPath(s, year), "rates.json", meta.result);
    var validation := ReadJson(fs, ValidationPath(s, year), "validation.json", rates.result);
    ExtendsTransitive(meta.result, rates.result, validation.result);
    PrefixKeepsFirst(meta.result.errors, validation.result.errors);
  }

  lemma PrefixKeepsFirst(a: seq<Issue>, b: seq<Issue>)
    requires a <= b
    ensures |a| > 0 ==> |b| > 0 && b[0] == a[0]
  {
    if |a| > 0 {
      assert b[0] == a[0];
    }
  }

  /** The reads followed by the metadata and validation-record checks. */
  function CheckYearRecords(s: Settings, fs: FileSystem, year: int): (r: ValidationResult)
    ensures Extends(ReadYearFiles(s, fs, year), r)
    ensures Consistent(r) && YearIssuesOnly(r)
    ensures Readable(fs, MetadataPath(s, year)) ==>
      var m := Contents(fs, MetadataPath(s, year));
      && ("tax_year" !in m ==> !r.ok && MetadataMissingTaxYear in r.warnings)
      && ("tax_year" in m && m["tax_year"] != JNum(year as real) ==> MetadataTaxYearMismatch(year, m["tax_year"]) in r.errors)
  {
    var r0 := ReadYearFiles(s, fs, year);
    var meta := MetadataPath(s, year);
    var validation := ValidationPath(s, year);
    var r1 := if Readable(fs, meta) then CheckMetadata(Contents(fs, meta), year, r0) else r0;
    var r2 := if Readable(fs, validation) then CheckValidationYear(Contents(fs, validation), year, r1) else r1;
    YearChecksKeepFindings(r0, r1, r2);
    r2
  }

  /** The reads followed by the metadata and validation-record checks pass
      exactly when the three files decode and both records are right; a
      record that decodes to `null` is not checked at all. */
  lemma CheckYearRecordsOk(s: Settings, fs: FileSystem, year: int)
    ensures CheckYearRecords(s, fs, year).ok <==>
      && Decodes(fs, MetadataPath(s, year)) && Decodes(fs, RatesPath(s, year))
      && Decodes(fs, ValidationPath(s, year))
      && (Readable(fs, MetadataPath(s, year)) ==> SoundMetadata(Contents(fs, MetadataPath(s, year)), year))
      && (Readable(fs, ValidationPath(s, year)) ==>
            Get(Contents(fs, ValidationPath(s, year)), "tax_year") == JNum(year as real))
  {
  }

  /** `validate_tax_year_data(year)` (without the `details` dictionary). */
  function ValidateTaxYearData(s: Settings, fs: FileSystem, year: int): (r: ValidationResult)
    ensures Extends(CheckYearRecords(s, fs, year), r)
    ensures Consistent(r) && YearIssuesOnly(r)
    ensures forall f :: f in s.frequencies && FitPath(s, year, f) !in fs ==> MissingFitTables(year, f) in r.errors
  {
    var r := CheckFitFiles(s, fs, year, s.frequencies, CheckYearRecords(s, fs, year));
    CheckFitFilesExtends(s, fs, year, s.frequencies, CheckYearRecords(s, fs, year));
    MissingFitFound(s, fs, year, s.frequencies);
    ContainsTail(CheckYearRecords(s, fs, year).errors, MissingFitIssues(year, Sums.Filter(s.frequencies, FitAbsent(s, fs, year))));
    r
  }

  /** A tax year whose data passes validation: the three files decode, the
      metadata and the validation record pass their rules unless they
      decode to `null`, and every supported frequency has a FIT file. */
  predicate SoundTaxYear(s: Settings, fs: FileSystem, year: int) {
    && Decodes(fs, MetadataPath(s, year)) && Decodes(fs, RatesPath(s, year))
    && Decodes(fs, ValidationPath(s, year))
    && (Readable(fs, MetadataPath(s, year)) ==> SoundMetadata(Contents(fs, MetadataPath(s, year)), year))
    && (Readable(fs, ValidationPath(s, year)) ==>
          Get(Contents(fs, ValidationPath(s, year)), "tax_year") == JNum(year as real))
    && forall i :: 0 <= i < |s.frequencies| ==> FitPath(s, year, s.frequencies[i]) in fs
  }

  /** `validate_tax_year_data` reports success exactly for a sound year, and
      then records no error at all. */
  lemma ValidateTaxYearDataOkIffSound(s: Settings, fs: FileSystem, year: int)
    ensures ValidateTaxYearData(s, fs, year).ok <==> SoundTaxYear(s, fs, year)
    ensures ValidateTaxYearData(s, fs, year).ok ==> ValidateTaxYearData(s, fs, year).errors == []
  {
    var absent := FitAbsent(s, fs, year);
    CheckYearRecordsOk(s, fs, year);
    Sums.FilterEmpty(s.frequencies, absent);
    assert (forall i :: 0 <= i < |s.frequencies| ==> !absent(s.frequencies[i]))
       <==> (forall i :: 0 <= i < |s.frequencies| ==> FitPath(s, year, s.frequencies[i]) in fs);
  }

  lemma ContainsTail(a: seq<Issue>, b: seq<Issue>)
    ensures forall e :: e in b ==> e in a + b
  {
    forall e | e in b ensures e in a + b {
      var i :| 0 <= i < |b| && b[i] == e;
      assert (a + b)[|a| + i] == e;
    }
  }

  lemma YearChecksKeepFindings(a: ValidationResult, b: ValidationResult, c: ValidationResult)
    requires Extends(a, b) && Extends(b, c)
    ensures Extends(a, c)
    ensures forall e :: e in a.errors ==> e in c.errors
    ensures forall e :: e in b.errors ==> e in c.errors
    ensures forall w :: w in a.warnings ==> w in c.warnings
  {
    forall e | e in a.errors ensures e in c.errors {
      var i :| 0 <= i < |a.errors| && a.errors[i] == e;
      assert c.errors[i] == e;
    }
    forall e | e in b.errors ensures e in c.errors {
      ExtendsKeeps(b, c, e);
    }
    forall w | w in a.warnings ensures w in c.warnings {
      var i :| 0 <= i < |a.warnings| && a.warnings[i] == w;
      assert c.warnings[i] == w;
    }
  }

  // ---------------------------------------------------------------------
  // validate_fit_tables
  // ---------------------------------------------------------------------

  /** `item.get("up_to")` for one bracket row. */
  function UpTo(item: Json): Json {
    Get(AsObject(item), "up_to")
  }

  function HasUpTo(item: Json): bool {
    UpTo(item) != JNull
  }

  /** `[item.get("up_to") for item in brackets if item.get("up_to") is not None]`. */
  function UpperBounds(brackets: seq<Json>): (t: seq<Json>)
    ensures |t| <= |brackets|
    ensures forall i :: 0 <= i < |t| ==> t[i] != JNull
  {
    if |brackets| == 0 then []
    else
      var last := brackets[|brackets| - 1];
      UpperBounds(brackets[..|brackets| - 1]) + (if HasUpTo(last) then [UpTo(last)] else [])
  }

  /** When every bracket row has an upper bound, the thresholds are those
      bounds, row for row; the top row of a real table (no bound) only
      shortens the list. */
  lemma {:induction false} UpperBoundsOfBoundedRows(brackets: seq<Json>)
    requires forall i :: 0 <= i < |brackets| ==> HasUpTo(brackets[i])
    ensures UpperBounds(brackets) == seq(|brackets|, i requires 0 <= i < |brackets| => UpTo(brackets[i]))
    decreases |brackets|
  {
    if |brackets| > 0 {
      UpperBoundsOfBoundedRows(brackets[..|brackets| - 1]);
    }
  }

  lemma UpperBoundsDropsUnbounded(brackets: seq<Json>, top: Json)
    requires !HasUpTo(top)
    ensures UpperBounds(brackets + [top]) == UpperBounds(brackets)
  {
    assert (brackets + [top])[..|brackets|] == brackets;
  }

  /** `min(3, a, b)`. */
  function Min3(a: nat, b: nat): (m: nat)
    ensures m <= 3 && m <= a && m <= b
    ensures m == 3 || m == a || m == b
  {
    if a <= b && a <= 3 then a else if b <= 3 then b else 3
  }

  /** One entry of the `compared` list of a filing status. */
  datatype Compared = Compared(index: nat, expected: Json, actual: Json)

  /** The first `n` thresholds side by side. */
  function Comparisons(expected: seq<Json>, actual: seq<Json>, n: nat): (cs: seq<Compared>)
    requires n <= |expected| && n <= |actual|
    ensures |cs| == n
    ensures forall i :: 0 <= i < n ==> cs[i] == Compared(i, expected[i], actual[i])
  {
    seq(n, i requires 0 <= i < n => Compared(i, expected[i], actual[i]))
  }

  function Differs(c: Compared): bool {
    c.expected != c.actual
  }

  function MismatchIssues(status: string, cs: seq<Compared>): (issues: seq<Issue>)
    ensures |issues| == |cs|
    ensures forall k :: 0 <= k < |cs| ==>
      issues[k] == BracketThresholdMismatch(cs[k].expected, cs[k].actual, status, cs[k].index + 1)
  {
    seq(|cs|, k requires 0 <= k < |cs| => BracketThresholdMismatch(cs[k].expected, cs[k].actual, status, cs[k].index + 1))
  }

  lemma MismatchIssuesSnoc(status: string, cs: seq<Compared>, c: Compared)
    ensures MismatchIssues(status, cs + [c])
         == MismatchIssues(status, cs) + [BracketThresholdMismatch(c.expected, c.actual, status, c.index + 1)]
  {
  }

  /** The loop `for idx in range(checks)`: one error per compared pair that
      differs, in index order. */
  function CompareEach(status: string, cs: seq<Compared>, r: ValidationResult): (r': ValidationResult)
    ensures r'.errors == r.errors + MismatchIssues(status, Sums.Filter(cs, Differs))
    ensures r'.ok == (r.ok && |Sums.Filter(cs, Differs)| == 0)
    ensures r'.warnings == r.warnings
    ensures Extends(r, r') && (Consistent(r) ==> Consistent(r'))
  {
    if |cs| == 0 then r
    else
      var init := cs[..|cs| - 1];
      var c := cs[|cs| - 1];
      var rest := CompareEach(status, init, r);
      Sums.FilterSnoc(init, c, Differs);
      assert init + [c] == cs;
      if c.expected != c.actual then
        MismatchIssuesSnoc(status, Sums.Filter(init, Differs), c);
        AddError(rest, BracketThresholdMismatch(c.expected, c.actual, status, c.index + 1))
      else rest
  }

  /** The thresholds `validation.json` expects for a status. */
  function ExpectedThresholds(v: JsonObject, status: string): seq<Json> {
    AsList(GetOr(AsObject(GetOr(v, "bracket_thresholds", JObj(map[]))), status, JArr([])))
  }

  /** The thresholds a FIT status table holds. */
  function ActualThresholds(table: Json): seq<Json> {
    UpperBounds(AsList(GetOr(AsObject(table), "brackets", JArr([]))))
  }

  /** The standard deduction `validation.json` expects for a status (`None`
      when it names none). */
  function ExpectedDeduction(v: JsonObject, status: string): Json {
    Get(AsObject(GetOr(v, "standard_deduction", JObj(map[]))), status)
  }

  function ActualDeduction(table: Json): Json {
    Get(AsObject(table), "standard_deduction")
  }

  /** The deduction rule: a deduction is checked only when one is expected. */
  predicate DeductionDiffers(v: JsonObject, table: Json, status: string) {
    ExpectedDeduction(v, status) != JNull && ActualDeduction(table) != ExpectedDeduction(v, status)
  }

  /** The number of thresholds compared: at most the first three. */
  function Checks(v: JsonObject, table: Json, status: string): nat {
    Min3(|ExpectedThresholds(v, status)|, |ActualThresholds(table)|)
  }

  /** The first thresholds agree, as far as both lists and the limit of
      three reach. */
  predicate ThresholdsAgree(v: JsonObject, table: Json, status: string) {
    var e := ExpectedThresholds(v, status);
    var a := ActualThresholds(table);
    forall i :: 0 <= i < Checks(v, table, status) ==> e[i] == a[i]
  }

  /** The comparisons of one status table, in the source's order. */
  function StatusComparisons(v: JsonObject, table: Json, status: string): seq<Compared> {
    Comparisons(ExpectedThresholds(v, status), ActualThresholds(table), Checks(v, table, status))
  }

  lemma NoMismatchIffAgree(v: JsonObject, table: Json, status: string)
    ensures |Sums.Filter(StatusComparisons(v, table, status), Differs)| == 0 <==> ThresholdsAgree(v, table, status)
  {
    var cs := StatusComparisons(v, table, status);
    Sums.FilterEmpty(cs, Differs);
    assert (forall i :: 0 <= i < |cs| ==> !Differs(cs[i])) <==> ThresholdsAgree(v, table, status);
  }

  /** A status table of the FIT file that passes both rules. */
  predicate StatusSound(fit: JsonObject, v: JsonObject, status: string) {
    status in fit && !DeductionDiffers(v, fit[status], status) && ThresholdsAgree(v, fit[status], status)
  }

  /** The body of the loop over `FILING_STATUS_KEYS` for one status. */
  function CheckStatusTable(fit: JsonObject, v: JsonObject, status: string, year: int, frequency: string,
                            r: ValidationResult): (r': ValidationResult)
    ensures Extends(r, r') && (Consistent(r) ==> Consistent(r')) && r'.warnings == r.warnings
    ensures r'.ok <==> r.ok && StatusSound(fit, v, status)
  {
    if status !in fit then AddError(r, MissingStatusTable(status, year, frequency))
    else
      var table := fit[status];
      var expected := ExpectedDeduction(v, status);
      var r1 := if DeductionDiffers(v, table, status)
                then AddError(r, StandardDeductionMismatch(expected, ActualDeduction(table), status))
                else r;
      var r2 := CompareEach(status, StatusComparisons(v, table, status), r1);
      NoMismatchIffAgree(v, table, status);
      ExtendsTransitive(r, r1, r2);
      r2
  }

  /** What one status table reports: a missing table, a differing standard
      deduction, and every differing threshold among the first three. */
  lemma CheckStatusTableReports(fit: JsonObject, v: JsonObject, status: string, year: int, frequency: string,
                                r: ValidationResult)
    ensures var r' := CheckStatusTable(fit, v, status, year, frequency, r);
      && (status !in fit ==> r'.errors == r.errors + [MissingStatusTable(status, year, frequency)])
      && (status in fit && DeductionDiffers(v, fit[status], status) ==>
            StandardDeductionMismatch(ExpectedDeduction(v, status), ActualDeduction(fit[status]), status) in r'.errors)
      && (status in fit ==> forall i ::
            (0 <= i < Checks(v, fit[status], status) && ExpectedThresholds(v, status)[i] != ActualThresholds(fit[status])[i])
            ==> BracketThresholdMismatch(ExpectedThresholds(v, status)[i], ActualThresholds(fit[status])[i], status, i + 1)
                in r'.errors)
  {
    if status in fit {
      var table := fit[status];
      var expected := ExpectedDeduction(v, status);
      var r1 := if DeductionDiffers(v, table, status)
                then AddError(r, StandardDeductionMismatch(expected, ActualDeduction(table), status))
                else r;
      var r2 := CompareEach(status, StatusComparisons(v, table, status), r1);
      assert r2 == CheckStatusTable(fit, v, status, year, frequency, r);
      YearChecksKeepFindings(r, r1, r2);
      MismatchFound(v, table, status, r1.errors);
    }
  }

  /** Every compared pair that differs gets its error. */
  lemma MismatchFound(v: JsonObject, table: Json, status: string, prior: seq<Issue>)
    ensures var cs := StatusComparisons(v, table, status);
      forall i ::
        (0 <= i < Checks(v, table, status) && ExpectedThresholds(v, status)[i] != ActualThresholds(table)[i])
        ==> (BracketThresholdMismatch(ExpectedThresholds(v, status)[i], ActualThresholds(table)[i], status, i + 1)
             in prior + MismatchIssues(status, Sums.Filter(cs, Differs)))
  {
    var cs := StatusComparisons(v, table, status);
    var differing := Sums.Filter(cs, Differs);
    var e := ExpectedThresholds(v, status);
    var a := ActualThresholds(table);
    forall i | 0 <= i < Checks(v, table, status) && e[i] != a[i]
      ensures BracketThresholdMismatch(e[i], a[i], status, i + 1) in prior + MismatchIssues(status, differing)
    {
      assert Differs(cs[i]);
      Sums.FilterComplete(cs, Differs, i);
      var k :| 0 <= k < |differing| && differing[k] == cs[i];
      assert MismatchIssues(status, differing)[k] == BracketThresholdMismatch(e[i], a[i], status, i + 1);
      assert (prior + MismatchIssues(status, differing))[|prior| + k] == BracketThresholdMismatch(e[i], a[i], status, i + 1);
    }
  }

  /** The loop over `FILING_STATUS_KEYS`. */
  function CheckStatuses(fit: JsonObject, v: JsonObject, statuses: seq<string>, year: int, frequency: string,
                         r: ValidationResult): (r': ValidationResult)
    ensures Extends(r, r') && (Consistent(r) ==> Consistent(r')) && r'.warnings == r.warnings
    ensures r'.ok <==> r.ok && AllSound(fit, v, statuses)
  {
    if |statuses| == 0 then r
    else
      var init := statuses[..|statuses| - 1];
      var status := statuses[|statuses| - 1];
      var rest := CheckStatuses(fit, v, init, year, frequency, r);
      var r' := CheckStatusTable(fit, v, status, year, frequency, rest);
      ExtendsTransitive(r, rest, r');
      r'
  }

  /** Every status of the list has a sound table, checked from the end as
      the loop runs. */
  predicate AllSound(fit: JsonObject, v: JsonObject, statuses: seq<string>)
    decreases |statuses|
  {
    |statuses| == 0
    || (AllSound(fit, v, statuses[..|statuses| - 1]) && StatusSound(fit, v, statuses[|statuses| - 1]))
  }

  lemma {:induction false} AllSoundEach(fit: JsonObject, v: JsonObject, statuses: seq<string>)
    ensures AllSound(fit, v, statuses) <==> forall i :: 0 <= i < |statuses| ==> StatusSound(fit, v, statuses[i])
    decreases |statuses|
  {
    if |statuses| > 0 {
      var init := statuses[..|statuses| - 1];
      AllSoundEach(fit, v, init);
      assert forall i :: 0 <= i < |init| ==> init[i] == statuses[i];
    }
  }

  /** A differing standard deduction of any status in the loop is reported. */
  lemma {:induction false} CheckStatusesReports(fit: JsonObject, v: JsonObject, statuses: seq<string>, year: int,
                                                frequency: string, r: ValidationResult, i: nat)
    requires i < |statuses| && statuses[i] in fit && DeductionDiffers(v, fit[statuses[i]], statuses[i])
    ensures StandardDeductionMismatch(ExpectedDeduction(v, statuses[i]), ActualDeduction(fit[statuses[i]]), statuses[i])
            in CheckStatuses(fit, v, statuses, year, frequency, r).errors
    decreases |statuses|
  {
    var init := statuses[..|statuses| - 1];
    var rest := CheckStatuses(fit, v, init, year, frequency, r);
    if i < |statuses| - 1 {
      assert statuses[i] == init[i];
      CheckStatusesReports(fit, v, init, year, frequency, r, i);
      ExtendsKeeps(rest, CheckStatusTable(fit, v, statuses[|statuses| - 1], year, frequency, rest),
                   StandardDeductionMismatch(ExpectedDeduction(v, statuses[i]), ActualDeduction(fit[statuses[i]]), statuses[i]));
    } else {
      CheckStatusTableReports(fit, v, statuses[i], year, frequency, rest);
    }
  }

  /** `validate_fit_tables(year, pay_frequency)` (without the `details`
      dictionary). */
  function ValidateFitTables(s: Settings, fs: FileSystem, year: int, frequency: string): (r: ValidationResult)
    ensures Extends(ValidateTaxYearData(s, fs, year), r) && Consistent(r)
    ensures frequency !in s.frequencies ==> r == AddError(ValidateTaxYearData(s, fs, year), UnsupportedFrequency(frequency))
    ensures frequency in s.frequencies && !Decodes(fs, FitPath(s, year, frequency)) ==> !r.ok
    ensures frequency in s.frequencies
            && !(Readable(fs, FitPath(s, year, frequency)) && Readable(fs, ValidationPath(s, year))) ==>
      var base := ValidateTaxYearData(s, fs, year);
      r == ValidationResult(base.ok && Decodes(fs, FitPath(s, year, frequency)) && Decodes(fs, ValidationPath(s, year)),
                            base.errors + ReadIssues(fs, FitPath(s, year, frequency), "percentage_method.json")
                                        + ReadIssues(fs, ValidationPath(s, year), "validation.json"),
                            base.warnings)
    ensures r.warnings == ValidateTaxYearData(s, fs, year).warnings
  {
    var base := ValidateTaxYearData(s, fs, year);
    if frequency !in s.frequencies then AddError(base, UnsupportedFrequency(frequency))
    else
      var fit := ReadJson(fs, FitPath(s, year, frequency), "percentage_method.json", base);
      var validation := ReadJson(fs, ValidationPath(s, year), "validation.json", fit.result);
      ExtendsTransitive(base, fit.result, validation.result);
      if fit.content.None? || validation.content.None? then validation.result
      else
        var r := CheckStatuses(fit.content.value, validation.content.value, s.filingStatuses, year, frequency,
                               validation.result);
        ExtendsTransitive(base, validation.result, r);
        r
  }

  /** FIT tables that pass validation: the year's data is sound, the
      frequency is supported, its FIT file decodes, and, unless it or the
      validation record decodes to `null`, every filing status has a table
      that agrees with the expected values. */
  predicate SoundFitTables(s: Settings, fs: FileSystem, year: int, frequency: string) {
    && SoundTaxYear(s, fs, year)
    && frequency in s.frequencies
    && Decodes(fs, FitPath(s, year, frequency))
    && (Readable(fs, FitPath(s, year, frequency)) && Readable(fs, ValidationPath(s, year)) ==>
          forall i :: 0 <= i < |s.filingStatuses| ==>
            StatusSound(Contents(fs, FitPath(s, year, frequency)), Contents(fs, ValidationPath(s, year)),
                        s.filingStatuses[i]))
  }

  /** `validate_fit_tables` reports success exactly for sound tables, and then
      records no error; a table from another year fails it. */
  lemma ValidateFitTablesOkIffSound(s: Settings, fs: FileSystem, year: int, frequency: string)
    ensures ValidateFitTables(s, fs, year, frequency).ok <==> SoundFitTables(s, fs, year, frequency)
    ensures ValidateFitTables(s, fs, year, frequency).ok ==> ValidateFitTables(s, fs, year, frequency).errors == []
  {
    ValidateTaxYearDataOkIffSound(s, fs, year);
    if frequency in s.frequencies && Readable(fs, FitPath(s, year, frequency)) && Readable(fs, ValidationPath(s, year)) {
      AllSoundEach(Contents(fs, FitPath(s, year, frequency)), Contents(fs, ValidationPath(s, year)), s.filingStatuses);
    }
  }

  /** With the application's own frequencies and filing statuses, FIT
      validation for a frequency it does not pay on, such as "hourly",
      stops at the unsupported-frequency error after the year's findings. */
  lemma HourlyFrequencyUnsupported(dataDir: string, fs: FileSystem, year: int)
    ensures var s := Settings(dataDir, PayFrequencies, FilingStatusKeys);
            var r := ValidateFitTables(s, fs, year, "hourly");
            !r.ok && r.errors == ValidateTaxYearData(s, fs, year).errors + [UnsupportedFrequency("hourly")]
  {
    var s := Settings(dataDir, PayFrequencies, FilingStatusKeys);
    assert "hourly" !in s.frequencies;
  }

  /** A FIT file that decodes to `null` passes the validation of any
      supported frequency of a sound year, although no table is compared. */
  lemma NullFitTablesPass(s: Settings, fs: FileSystem, year: int, frequency: string)
    requires SoundTaxYear(s, fs, year) && frequency in s.frequencies
    requires FitPath(s, year, frequency) in fs && fs[FitPath(s, year, frequency)] == Parsed(JNull)
    ensures ValidateFitTables(s, fs, year, frequency).ok
    ensures ValidateFitTables(s, fs, year, frequency).errors == []
  {
    ValidateFitTablesOkIffSound(s, fs, year, frequency);
  }

  /** `validate_fit_tables` with a FIT or validation document that decodes
      to `null` reported as an error instead of ending the check quietly. */
  function ValidateFitTablesChecked(s: Settings, fs: FileSystem, year: int, frequency: string): (r: ValidationResult)
    ensures Extends(ValidateFitTables(s, fs, year, frequency), r) && Consistent(r)
    ensures r.ok ==> frequency in s.frequencies && SoundTaxYear(s, fs, year)
                     && Readable(fs, FitPath(s, year, frequency)) && Readable(fs, ValidationPath(s, year))
                     && forall i :: 0 <= i < |s.filingStatuses| ==>
                          StatusSound(Contents(fs, FitPath(s, year, frequency)), Contents(fs, ValidationPath(s, year)),
                                      s.filingStatuses[i])
    ensures (frequency in s.frequencies && SoundTaxYear(s, fs, year)
             && Readable(fs, FitPath(s, year, frequency)) && Readable(fs, ValidationPath(s, year))) ==>
              r == ValidateFitTables(s, fs, year, frequency)
  {
    var r := ValidateFitTables(s, fs, year, frequency);
    ValidateFitTablesOkIffSound(s, fs, year, frequency);
    if frequency !in s.frequencies then r
    else if Decodes(fs, FitPath(s, year, frequency)) && !Readable(fs, FitPath(s, year, frequency)) then
      AddError(r, NullDocument("percentage_method.json"))
    else if Decodes(fs, ValidationPath(s, year)) && !Readable(fs, ValidationPath(s, year)) then
      AddError(r, NullDocument("validation.json"))
    else r
  }

  /** A standard deduction that differs from the expected one is reported by
      name, whatever else is wrong with the year. */
  lemma StandardDeductionMismatchReported(s: Settings, fs: FileSystem, year: int, frequency: string, i: nat)
    requires frequency in s.frequencies
    requires Readable(fs, FitPath(s, year, frequency)) && Readable(fs, ValidationPath(s, year))
    requires i < |s.filingStatuses|
    requires var fit := Contents(fs, FitPath(s, year, frequency));
      s.filingStatuses[i] in fit
      && DeductionDiffers(Contents(fs, ValidationPath(s, year)), fit[s.filingStatuses[i]], s.filingStatuses[i])
    ensures var fit := Contents(fs, FitPath(s, year, frequency));
      var v := Contents(fs, ValidationPath(s, year));
      var status := s.filingStatuses[i];
      var r := ValidateFitTables(s, fs, year, frequency);
      !r.ok && StandardDeductionMismatch(ExpectedDeduction(v, status), ActualDeduction(fit[status]), status) in r.errors
  {
    var base := ValidateTaxYearData(s, fs, year);
    var fit := ReadJson(fs, FitPath(s, year, frequency), "percentage_method.json", base);
    var validation := ReadJson(fs, ValidationPath(s, year), "validation.json", fit.result);
    CheckStatusesReports(fit.content.value, validation.content.value, s.filingStatuses, year, frequency,
                         validation.result, i);
  }
}
