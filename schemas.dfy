/**
 * Sheet schemas and the validation result the data checks accumulate into:
 * errors make a result invalid, warnings do not. A data frame is a map from
 * column name to the column's cells.
 */
module Schemas {

  import opened Wrappers
  import opened Reals
  import OrderedMaps

  datatype ColumnType = StrColumn | IntColumn | FloatColumn

  /** Required columns, the declared type of each column, and the inclusive ranges of some numeric ones. */
  datatype Schema = Schema(
    requiredColumns: seq<string>,
    dataTypes: OrderedMaps.Dict<string, ColumnType>,
    constraints: map<string, (real, real)>)

  const TransitionPotentialsSchema := Schema(
    ["TechID", "ProcessType", "FromBand", "ToBand", "TransitionID",
     "MaxApplicability", "TechnicalReadiness", "CommercialYear"],
    [("TechID", StrColumn), ("ProcessType", StrColumn), ("FromBand", StrColumn), ("ToBand", StrColumn),
     ("TransitionID", StrColumn), ("MaxApplicability", FloatColumn), ("TechnicalReadiness", IntColumn),
     ("CommercialYear", IntColumn)],
    map["MaxApplicability" := (0.0, 1.0), "TechnicalReadiness" := (1.0, 9.0),
        "CommercialYear" := (2020.0, 2060.0)])

  const AbatementPotentialsSchema := Schema(
    ["TransitionID", "EmissionReduction_tCO2_per_t", "EnergyReduction_GJ_per_t",
     "PrimaryFuelShift", "SecondaryBenefit", "Lifetime_years", "RampRate_per_year"],
    [("TransitionID", StrColumn), ("EmissionReduction_tCO2_per_t", FloatColumn),
     ("EnergyReduction_GJ_per_t", FloatColumn), ("PrimaryFuelShift", StrColumn),
     ("SecondaryBenefit", StrColumn), ("Lifetime_years", IntColumn), ("RampRate_per_year", FloatColumn)],
    map["EmissionReduction_tCO2_per_t" := (0.0, 10.0), "EnergyReduction_GJ_per_t" := (0.0, 100.0),
        "Lifetime_years" := (5.0, 50.0), "RampRate_per_year" := (0.01, 1.0)])

  const AlternativeTechnologiesSchema := Schema(
    ["TechID", "ProcessType", "TechName", "TechType", "BaselineDisplacement",
     "MaxPenetration", "TRL", "CommercialYear", "Lifetime_years", "RampRate_per_year"],
    [("TechID", StrColumn), ("ProcessType", StrColumn), ("TechName", StrColumn), ("TechType", StrColumn),
     ("BaselineDisplacement", StrColumn), ("MaxPenetration", FloatColumn), ("TRL", IntColumn),
     ("CommercialYear", IntColumn), ("Lifetime_years", IntColumn), ("RampRate_per_year", FloatColumn)],
    map["MaxPenetration" := (0.0, 1.0), "TRL" := (1.0, 9.0), "CommercialYear" := (2020.0, 2060.0),
        "Lifetime_years" := (5.0, 50.0), "RampRate_per_year" := (0.001, 0.5)])

  /** The declared ranges of the applicability, readiness and ramp columns. */
  lemma {:induction false} DeclaredRanges()
    ensures TransitionPotentialsSchema.constraints["MaxApplicability"] == (0.0, 1.0)
    ensures TransitionPotentialsSchema.constraints["TechnicalReadiness"] == (1.0, 9.0)
    ensures AlternativeTechnologiesSchema.constraints["MaxPenetration"] == (0.0, 1.0)
    ensures AlternativeTechnologiesSchema.constraints["TRL"] == (1.0, 9.0)
    ensures AbatementPotentialsSchema.constraints["RampRate_per_year"] == (0.01, 1.0)
    ensures AlternativeTechnologiesSchema.constraints["RampRate_per_year"] == (0.001, 0.5)
  {
  }

  /** A cell of a sheet: empty, a number, or text. */
  datatype Value = Null | Num(x: real) | Text(s: string)

  /** A sheet: each column's cells, by column name. */
  type Frame = map<string, seq<Value>>

  /**
   * The messages the data checks emit: one constructor per message
   * template, carrying the values the template interpolates.
   */
  datatype Message =
    | MissingColumns(sheet: string, columns: set<string>)
    | NullValues(sheet: string, column: string)
    | OutOfRange(sheet: string, column: string, lo: real, hi: real)
    | SheetNotFound(sheet: string)
    | TransitionsMissingAbatement(ids: set<Value>)
    | AbatementWithoutTransitions(ids: set<Value>)
    | AlternativesMissingCosts(ids: set<Value>)
    | CostsWithoutTechnologies(ids: set<Value>)
    | BaselineYearNotInTimeline(year: int)
    | SignificantIncrease(fromYear: int, toYear: int)
    | ProcessSumMismatch(processSumMt: real, totalMt: real, differenceMt: real)
    | NegativeIntensity(process: string)
    | HighIntensity(process: string, intensity: real)
    | DuplicateIds(duplicates: set<string>)
    | ApplicabilityAbove100(techId: string)
    | HighRampRate(techId: string, rate: real)
    | NegativeLcoa(techIds: seq<string>)
    | NegativeAbatement(techIds: seq<string>)
    | VeryHighCosts(costs: seq<(string, ExtReal)>)
    | SameBandTransitions(techIds: seq<string>)
    | Infeasible(maxRequiredMt: real, potentialMt: real)
    | Challenging(percentOfPotential: real)
    | UncoveredProcesses(processes: set<string>)

  /** The three fields of a validation result, as a value. */
  datatype Report = Report(valid: bool, errors: seq<Message>, warnings: seq<Message>)
  {
    function WithError(m: Message): Report { Report(false, errors + [m], warnings) }

    function WithWarning(m: Message): Report { Report(valid, errors, warnings + [m]) }

    /** Extending this result's lists by another's, and invalidating it when the other is invalid. */
    function Absorb(other: Report): Report
    {
      Report(valid && other.valid, errors + other.errors, warnings + other.warnings)
    }
  }

  /** `DataValidationResult(valid=True, errors=[], warnings=[])`. */
  const Fresh := Report(true, [], [])

  /** A result is invalid exactly when it holds an error, as long as only the two adders touched it. */
  predicate Consistent(r: Report)
  {
    r.valid <==> |r.errors| == 0
  }

  /** Adding an error or a warning, or absorbing a consistent result, keeps a result consistent. */
  lemma {:induction false} AddersKeepConsistent(r: Report, other: Report, m: Message)
    requires Consistent(r) && Consistent(other)
    ensures Consistent(r.WithError(m)) && Consistent(r.WithWarning(m)) && Consistent(r.Absorb(other))
  {
  }

  class DataValidationResult {
    var valid: bool
    var errors: seq<Message>
    var warnings: seq<Message>

    constructor (valid: bool, errors: seq<Message>, warnings: seq<Message>)
      ensures this.valid == valid && this.errors == errors && this.warnings == warnings
    {
      this.valid := valid;
      this.errors := errors;
      this.warnings := warnings;
    }

    function Snapshot(): Report
      reads this
    {
      Report(valid, errors, warnings)
    }

    /** `add_error`: the message is appended and the result becomes invalid. */
    method AddError(m: Message)
      modifies this
      ensures errors == old(errors) + [m] && !valid && warnings == old(warnings)
      ensures Snapshot() == old(Snapshot()).WithError(m)
    {
      errors := errors + [m];
      valid := false;
    }

    /** `add_warning`: the message is appended and validity is left as it was. */
    method AddWarning(m: Message)
      modifies this
      ensures warnings == old(warnings) + [m] && valid == old(valid) && errors == old(errors)
      ensures Snapshot() == old(Snapshot()).WithWarning(m)
    {
      warnings := warnings + [m];
    }

    /** `errors.extend(...)`, `warnings.extend(...)` and `if not other.valid: valid = False`. */
    method Absorb(other: Report)
      modifies this
      ensures Snapshot() == old(Snapshot()).Absorb(other)
    {
      errors := errors + other.errors;
      warnings := warnings + other.warnings;
      if !other.valid {
        valid := false;
      }
    }
  }

  // ------------------------------------------------------ validate_dataframe

  /** The required columns the frame lacks. */
  function MissingColumnsOf(df: Frame, schema: Schema): (missing: set<string>)
    ensures forall c :: c in missing <==> c in schema.requiredColumns && c !in df
  {
    set c | c in schema.requiredColumns && c !in df
  }

  predicate HasText(vs: seq<Value>)
  {
    exists v :: v in vs && v.Text?
  }

  /** Some number lies outside the inclusive range [lo, hi]; empty cells compare false, as NaN does. */
  predicate OutsideRange(vs: seq<Value>, lo: real, hi: real)
  {
    exists v :: v in vs && v.Num? && (v.x < lo || v.x > hi)
  }

  /** A numeric column with a declared range that the frame holds. */
  predicate RangeChecked(df: Frame, schema: Schema, col: string, ty: ColumnType)
  {
    col in df && col in schema.constraints && ty != StrColumn
  }

  /** A range-checked column with a number out of range. */
  predicate RangeViolation(df: Frame, schema: Schema, col: string, ty: ColumnType)
  {
    RangeChecked(df, schema, col, ty) &&
    OutsideRange(df[col], schema.constraints[col].0, schema.constraints[col].1)
  }

  /** The message of a column that fails its range. */
  function RangeMessage(schema: Schema, sheet: string, col: string): Message
    requires col in schema.constraints
  {
    OutOfRange(sheet, col, schema.constraints[col].0, schema.constraints[col].1)
  }

  /**
   * The checks of one typed column: a warning for an empty cell, then, for
   * a numeric column with a range, an error for a number out of range; a
   * text cell in such a column cannot be compared with the bounds.
   */
  function CheckColumn(r: Report, df: Frame, schema: Schema, sheet: string, col: string, ty: ColumnType): Result<Report>
  {
    if col !in df then Ok(r)
    else
      var r1 := if Null in df[col] then r.WithWarning(NullValues(sheet, col)) else r;
      if RangeChecked(df, schema, col, ty) then
        if HasText(df[col]) then Err(TypeError)
        else if RangeViolation(df, schema, col, ty) then Ok(r1.WithError(RangeMessage(schema, sheet, col)))
        else Ok(r1)
      else Ok(r1)
  }

  /** The column loop over `data_types` in its order; a failing comparison ends it. */
  function CheckColumns(r: Report, df: Frame, schema: Schema, sheet: string,
                        cols: OrderedMaps.Dict<string, ColumnType>): (res: Result<Report>)
    ensures res.Err? <==> exists p :: p in cols && RangeChecked(df, schema, p.0, p.1) && HasText(df[p.0])
    ensures res.Err? ==> res.error == TypeError
    ensures res.Ok? && Consistent(r) ==> Consistent(res.value)
    ensures res.Ok? ==> res.value.valid == (r.valid && forall p :: p in cols ==> !RangeViolation(df, schema, p.0, p.1))
    ensures res.Ok? ==> forall m :: m in res.value.warnings <==>
                          m in r.warnings || exists p :: p in cols && p.0 in df && Null in df[p.0] && m == NullValues(sheet, p.0)
    ensures res.Ok? ==> forall m :: m in res.value.errors <==>
                          m in r.errors ||
                          exists p :: p in cols && RangeViolation(df, schema, p.0, p.1) && m == RangeMessage(schema, sheet, p.0)
  {
    if |cols| == 0 then Ok(r)
    else
      var init := cols[..|cols| - 1];
      var last := cols[|cols| - 1];
      assert forall p :: p in cols <==> p in init || p == last;
      match CheckColumns(r, df, schema, sheet, init)
      case Err(e) => Err(e)
      case Ok(r0) => CheckColumn(r0, df, schema, sheet, last.0, last.1)
  }

  /** `validate_dataframe`: missing required columns give one error and nothing else is checked. */
  function DataframeReport(df: Frame, schema: Schema, sheet: string): (res: Result<Report>)
    ensures MissingColumnsOf(df, schema) != {} ==>
              res == Ok(Report(false, [MissingColumns(sheet, MissingColumnsOf(df, schema))], []))
    ensures res.Ok? ==> Consistent(res.value)
    ensures res.Err? ==> res.error == TypeError
  {
    var missing := MissingColumnsOf(df, schema);
    if missing != {} then Ok(Report(false, [MissingColumns(sheet, missing)], []))
    else CheckColumns(Fresh, df, schema, sheet, schema.dataTypes)
  }

  /**
   * With every required column present: a null warning for each typed
   * column with an empty cell, a range error for each ranged numeric
   * column with a number outside its inclusive range, and nothing else; the
   * result is valid exactly when there is no range error.
   */
  lemma {:induction false} DataframeChecks(df: Frame, schema: Schema, sheet: string)
    requires MissingColumnsOf(df, schema) == {}
    requires DataframeReport(df, schema, sheet).Ok?
    ensures var r := DataframeReport(df, schema, sheet).value;
            (forall m :: m in r.warnings <==>
               exists p :: p in schema.dataTypes && p.0 in df && Null in df[p.0] && m == NullValues(sheet, p.0)) &&
            (forall m :: m in r.errors <==>
               exists p :: p in schema.dataTypes && RangeViolation(df, schema, p.0, p.1) &&
                           m == RangeMessage(schema, sheet, p.0)) &&
            (r.valid <==> forall p :: p in schema.dataTypes ==> !RangeViolation(df, schema, p.0, p.1))
  {
  }

  /** Once the column loop has failed on a prefix, it fails on the whole list. */
  lemma {:induction false} CheckColumnsErrSticky(r: Report, df: Frame, schema: Schema, sheet: string,
                                                 cols: OrderedMaps.Dict<string, ColumnType>, j: nat)
    requires j <= |cols| && CheckColumns(r, df, schema, sheet, cols[..j]).Err?
    ensures CheckColumns(r, df, schema, sheet, cols).Err?
  {
    if j < |cols| {
      CheckColumnsErrSticky(r, df, schema, sheet, cols[..|cols| - 1], j);
      assert cols[..|cols| - 1][..j] == cols[..j];
    } else {
      assert cols[..j] == cols;
    }
  }

  /** The column loop after one more column. */
  lemma {:induction false} ColumnsStep(r: Report, df: Frame, schema: Schema, sheet: string,
                                       cols: OrderedMaps.Dict<string, ColumnType>, j: nat)
    requires j < |cols| && CheckColumns(r, df, schema, sheet, cols[..j]).Ok?
    ensures CheckColumns(r, df, schema, sheet, cols[..j + 1]) ==
            CheckColumn(CheckColumns(r, df, schema, sheet, cols[..j]).value, df, schema, sheet, cols[j].0, cols[j].1)
  {
    assert cols[..j + 1][..j] == cols[..j];
  }

  /** One pass of the column loop on the result object; `false` when a comparison with text fails. */
  method CheckColumnInto(result: DataValidationResult, df: Frame, schema: Schema, sheet: string,
                         col: string, ty: ColumnType) returns (ok: bool)
    modifies result
    ensures ok <==> CheckColumn(old(result.Snapshot()), df, schema, sheet, col, ty).Ok?
    ensures ok ==> CheckColumn(old(result.Snapshot()), df, schema, sheet, col, ty) == Ok(result.Snapshot())
  {
    ok := true;
    if col in df {
      if Null in df[col] {
        result.AddWarning(NullValues(sheet, col));
      }
      if col in schema.constraints && ty != StrColumn {
        if exists v :: v in df[col] && v.Text? {
          return false;
        }
        var (lo, hi) := schema.constraints[col];
        if exists v :: v in df[col] && v.Num? && (v.x < lo || v.x > hi) {
          result.AddError(OutOfRange(sheet, col, lo, hi));
        }
      }
    }
  }

  /** `validate_dataframe` as the source runs it: a fresh result filled column by column. */
  method ValidateDataframe(df: Frame, schema: Schema, sheet: string) returns (r: Result<DataValidationResult>)
    ensures r.Ok? <==> DataframeReport(df, schema, sheet).Ok?
    ensures r.Err? ==> r.error == TypeError
    ensures r.Ok? ==> fresh(r.value) && r.value.Snapshot() == DataframeReport(df, schema, sheet).value
  {
    var result := new DataValidationResult(true, [], []);
    var missing := MissingColumnsOf(df, schema);
    if missing != {} {
      result.AddError(MissingColumns(sheet, missing));
      return Ok(result);
    }
    var ok := CheckAllColumns(result, df, schema, sheet);
    if !ok {
      return Err(TypeError);
    }
    r := Ok(result);
  }

  /** The loop over `data_types`, filling a fresh result; `false` when a comparison with text fails. */
  method CheckAllColumns(result: DataValidationResult, df: Frame, schema: Schema, sheet: string) returns (ok: bool)
    requires result.Snapshot() == Fresh
    modifies result
    ensures ok <==> CheckColumns(Fresh, df, schema, sheet, schema.dataTypes).Ok?
    ensures ok ==> CheckColumns(Fresh, df, schema, sheet, schema.dataTypes) == Ok(result.Snapshot())
  {
    var cols := schema.dataTypes;
    var j := 0;
    while j < |cols|
      invariant 0 <= j <= |cols|
      invariant CheckColumns(Fresh, df, schema, sheet, cols[..j]) == Ok(result.Snapshot())
    {
      ColumnsStep(Fresh, df, schema, sheet, cols, j);
      ok := CheckColumnInto(result, df, schema, sheet, cols[j].0, cols[j].1);
      if !ok {
        CheckColumnsErrSticky(Fresh, df, schema, sheet, cols, j + 1);
        return;
      }
      j := j + 1;
    }
    assert cols[..j] == cols;
    ok := true;
  }
}
