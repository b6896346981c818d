/**
 * `create_realistic_plants`: every facility-process row of the baseline
 * consumption is split into plants of a realistic size for its process
 * (NCC 300 kt, BTX 250 kt, C4 150 kt a year). Each plant gets an equal part
 * of the row's activity, a fresh `P%03d` id from one running counter, and a
 * copy of the row's fuel and feedstock intensities.
 */
module PlantSizes {

  import opened Wrappers
  import opened Reals

  // ------------------------------------------------------------ records

  /** A `RegionalFacilities` row, as far as the split reads it. */
  datatype Facility = Facility(facilityId: string, region: string, company: string)

  /**
   * A `FacilityBaselineConsumption_202` row. The feedstock columns are read
   * with `.get(column, 0)`: `None` stands for a column the sheet lacks.
   */
  datatype ProcessRow = ProcessRow(
    facilityId: string,
    processType: string,
    activityKt: real,
    naturalGasGjPerT: real,
    fuelOilGjPerT: real,
    electricityGjPerT: real,
    naphthaTPerT: Option<real>,
    lpgTPerT: Option<real>,
    reformateTPerT: Option<real>)

  /** A new `RegionalFacilities` record: one plant. */
  datatype Plant = Plant(
    facilityId: string,
    originalFacilityId: string,
    facilityName: string,
    company: string,
    region: string,
    processType: string,
    plantNumber: int)

  /** A new consumption record: the plant's share of the row's activity and the row's intensities. */
  datatype PlantConsumption = PlantConsumption(
    facilityId: string,
    processType: string,
    activityKt: real,
    naturalGasGjPerT: real,
    fuelOilGjPerT: real,
    electricityGjPerT: real,
    naphthaTPerT: real,
    lpgTPerT: real,
    reformateTPerT: real)

  /** The two output tables, row for row. */
  datatype Split = Split(plants: seq<Plant>, consumption: seq<PlantConsumption>)

  // ------------------------------------------------------- plant sizing

  /** `realistic_sizes[process_type]` in kt a year; `None` is the KeyError of an unknown process. */
  function PlantSize(processType: string): (size: Option<int>)
    ensures size.Some? <==> processType == "NCC" || processType == "BTX" || processType == "C4"
    ensures size.Some? ==> size.value > 0
  {
    if processType == "NCC" then Some(300)
    else if processType == "BTX" then Some(250)
    else if processType == "C4" then Some(150)
    else None
  }

  /**
   * `max(1, round(total_capacity / plant_size))`: at least one plant, and
   * when more than one, the count is the nearest to total/size (ties to
   * even), so each plant is within half a plant of the realistic size.
   */
  function PlantCount(totalKt: real, size: int): (n: int)
    requires size > 0
    ensures n >= 1
    ensures n > 1 ==> totalKt / size as real - 0.5 <= n as real <= totalKt / size as real + 0.5
    ensures n == 1 ==> totalKt / size as real <= 1.5
  {
    var rounded := RoundHalfEven(totalKt / size as real);
    if rounded >= 1 then rounded else 1
  }

  // ---------------------------------------------------- id formatting

  function DigitChar(d: int): char
    requires 0 <= d < 10
  {
    "0123456789"[d]
  }

  function DigitValue(c: char): int
  {
    if '0' <= c <= '9' then (c as int) - ('0' as int) else 0
  }

  /** Python's decimal `str(n)` of a natural number. */
  function Digits(n: nat): (s: string)
    ensures |s| >= 1
    ensures forall k :: 0 <= k < |s| ==> '0' <= s[k] <= '9'
    decreases n
  {
    if n < 10 then [DigitChar(n)] else Digits(n / 10) + [DigitChar(n % 10)]
  }

  /** `s` padded on the left with zeros to at least `width` characters. */
  function ZeroPad(s: string, width: nat): (r: string)
    ensures |r| == if |s| >= width then |s| else width
    decreases width - |s|
  {
    if |s| >= width then s else ZeroPad("0" + s, width)
  }

  /** `f"P{n:03d}"`. */
  function PlantId(n: nat): (id: string)
    ensures |id| >= 4 && id[0] == 'P'
    ensures n < 1000 ==> |id| == 4
  {
    DigitsBelow(n);
    "P" + ZeroPad(Digits(n), 3)
  }

  /** The value of a string of decimal digits; leading zeros count for nothing. */
  function ParseDigits(s: string): nat
  {
    if |s| == 0 then 0
    else
      var d := DigitValue(s[|s| - 1]);
      ParseDigits(s[..|s| - 1]) * 10 + (if d >= 0 then d else 0)
  }

  lemma {:induction false} DigitsBelow(n: nat)
    ensures n < 1000 ==> |Digits(n)| <= 3
  {
    if n >= 10 {
      DigitsBelow(n / 10);
    }
  }

  lemma {:induction false} DigitRoundTrip(d: int)
    requires 0 <= d < 10
    ensures DigitValue(DigitChar(d)) == d
  {
  }

  /** Reading back `str(n)` gives `n`. */
  lemma {:induction false} DigitsRoundTrip(n: nat)
    ensures ParseDigits(Digits(n)) == n
    decreases n
  {
    var s := Digits(n);
    if n < 10 {
      DigitRoundTrip(n);
      assert s[..0] == [];
    } else {
      DigitsRoundTrip(n / 10);
      DigitRoundTrip(n % 10);
      assert s[..|s| - 1] == Digits(n / 10);
    }
  }

  /** A leading zero does not change the value. */
  lemma {:induction false} LeadingZero(s: string)
    ensures ParseDigits("0" + s) == ParseDigits(s)
  {
    if |s| == 0 {
      assert ("0" + s)[..0] == [];
    } else {
      assert ("0" + s)[..|"0" + s| - 1] == "0" + s[..|s| - 1];
      LeadingZero(s[..|s| - 1]);
    }
  }

  lemma {:induction false} ZeroPadValue(s: string, width: nat)
    ensures ParseDigits(ZeroPad(s, width)) == ParseDigits(s)
    decreases width - |s|
  {
    if |s| < width {
      ZeroPadValue("0" + s, width);
      LeadingZero(s);
    }
  }

  /** The number behind a plant id can be read back from it. */
  lemma {:induction false} PlantIdRoundTrip(n: nat)
    ensures ParseDigits(PlantId(n)[1..]) == n
  {
    assert PlantId(n)[1..] == ZeroPad(Digits(n), 3);
    ZeroPadValue(Digits(n), 3);
    DigitsRoundTrip(n);
  }

  /** Distinct counter values give distinct plant ids. */
  lemma {:induction false} PlantIdInjective(a: nat, b: nat)
    requires a != b
    ensures PlantId(a) != PlantId(b)
  {
    PlantIdRoundTrip(a);
    PlantIdRoundTrip(b);
  }

  // ------------------------------------------------ the records of a row

  /** The plant records of one row: `n` plants numbered 1..n, with ids from `first` on. */
  function PlantsOf(f: Facility, row: ProcessRow, n: nat, first: nat): (ps: seq<Plant>)
    ensures |ps| == n
    ensures forall i :: 0 <= i < n ==>
              ps[i].facilityId == PlantId(first + i) && ps[i].plantNumber == i + 1 &&
              ps[i].originalFacilityId == f.facilityId && ps[i].processType == row.processType &&
              ps[i].company == f.company && ps[i].region == f.region
  {
    seq(n, i requires 0 <= i < n =>
      Plant(PlantId(first + i), f.facilityId, f.company + " " + row.processType + " Plant " + Digits(i + 1),
            f.company, f.region, row.processType, i + 1))
  }

  /** The consumption records of one row: `total / n` each, with the row's intensities (missing feedstock 0). */
  function ConsumptionOf(row: ProcessRow, n: nat, first: nat): (cs: seq<PlantConsumption>)
    requires n >= 1
    ensures |cs| == n
    ensures forall i :: 0 <= i < n ==>
              cs[i].facilityId == PlantId(first + i) && cs[i].processType == row.processType &&
              cs[i].activityKt == row.activityKt / n as real &&
              cs[i].naturalGasGjPerT == row.naturalGasGjPerT && cs[i].fuelOilGjPerT == row.fuelOilGjPerT &&
              cs[i].electricityGjPerT == row.electricityGjPerT &&
              cs[i].naphthaTPerT == row.naphthaTPerT.GetOr(0.0) && cs[i].lpgTPerT == row.lpgTPerT.GetOr(0.0) &&
              cs[i].reformateTPerT == row.reformateTPerT.GetOr(0.0)
  {
    seq(n, i requires 0 <= i < n =>
      PlantConsumption(PlantId(first + i), row.processType, row.activityKt / n as real,
                       row.naturalGasGjPerT, row.fuelOilGjPerT, row.electricityGjPerT,
                       row.naphthaTPerT.GetOr(0.0), row.lpgTPerT.GetOr(0.0), row.reformateTPerT.GetOr(0.0)))
  }

  function Activities(cs: seq<PlantConsumption>): (a: seq<real>)
    ensures |a| == |cs|
    ensures forall i :: 0 <= i < |cs| ==> a[i] == cs[i].activityKt
  {
    seq(|cs|, i requires 0 <= i < |cs| => cs[i].activityKt)
  }

  /** The plants of a row carry the row's whole activity between them. */
  lemma {:induction false} RowCapacityKept(row: ProcessRow, n: nat, first: nat)
    requires n >= 1
    ensures Sum(Activities(ConsumptionOf(row, n, first))) == row.activityKt
  {
    var a := Activities(ConsumptionOf(row, n, first));
    SumConstant(a, row.activityKt / n as real);
    PartsMakeWhole(row.activityKt, n as real);
  }

  lemma PartsMakeWhole(total: real, n: real)
    requires n > 0.0
    ensures total / n * n == total
  {
  }

  // ------------------------------------------------------- the split

  /** One consumption row of facility `f` (rows of other facilities are not its rows). */
  function RowStep(acc: Split, f: Facility, row: ProcessRow): Result<Split>
  {
    if row.facilityId != f.facilityId then Ok(acc)
    else
      match PlantSize(row.processType)
      case None => Err(KeyError)
      case Some(size) =>
        var n := PlantCount(row.activityKt, size);
        var first := |acc.plants| + 1;
        Ok(Split(acc.plants + PlantsOf(f, row, n, first), acc.consumption + ConsumptionOf(row, n, first)))
  }

  /** The consumption rows of facility `f`, in sheet order. */
  function FacilityRows(acc: Split, f: Facility, rows: seq<ProcessRow>): Result<Split>
  {
    if |rows| == 0 then Ok(acc)
    else
      match FacilityRows(acc, f, rows[..|rows| - 1])
      case Err(e) => Err(e)
      case Ok(a) => RowStep(a, f, rows[|rows| - 1])
  }

  /** Every facility in sheet order, each over its consumption rows. */
  function SplitFacilities(facilities: seq<Facility>, rows: seq<ProcessRow>): Result<Split>
  {
    if |facilities| == 0 then Ok(Split([], []))
    else
      match SplitFacilities(facilities[..|facilities| - 1], rows)
      case Err(e) => Err(e)
      case Ok(a) => FacilityRows(a, facilities[|facilities| - 1], rows)
  }

  // ---------------------------------------------------- the properties

  /** The shape every accumulated split keeps: table rows pair up and ids run P001, P002, ... */
  predicate Numbered(s: Split)
  {
    |s.plants| == |s.consumption| &&
    forall k :: 0 <= k < |s.plants| ==>
      s.plants[k].facilityId == PlantId(k + 1) && s.consumption[k].facilityId == PlantId(k + 1) &&
      s.plants[k].processType == s.consumption[k].processType
  }

  lemma {:induction false} RowStepNumbered(acc: Split, f: Facility, row: ProcessRow)
    requires Numbered(acc) && RowStep(acc, f, row).Ok?
    ensures Numbered(RowStep(acc, f, row).value)
  {
    if row.facilityId == f.facilityId {
      var size := PlantSize(row.processType).value;
      var n := PlantCount(row.activityKt, size);
      var first := |acc.plants| + 1;
      var ps, cs := PlantsOf(f, row, n, first), ConsumptionOf(row, n, first);
      var r := RowStep(acc, f, row).value;
      assert r.plants == acc.plants + ps && r.consumption == acc.consumption + cs;
      forall k | 0 <= k < |r.plants|
        ensures r.plants[k].facilityId == PlantId(k + 1) && r.consumption[k].facilityId == PlantId(k + 1) &&
                r.plants[k].processType == r.consumption[k].processType
      {
        if k >= |acc.plants| {
          assert r.plants[k] == ps[k - |acc.plants|] && r.consumption[k] == cs[k - |acc.plants|];
        }
      }
    }
  }

  lemma {:induction false} FacilityRowsNumbered(acc: Split, f: Facility, rows: seq<ProcessRow>)
    requires Numbered(acc) && FacilityRows(acc, f, rows).Ok?
    ensures Numbered(FacilityRows(acc, f, rows).value)
  {
    if |rows| > 0 {
      FacilityRowsNumbered(acc, f, rows[..|rows| - 1]);
      RowStepNumbered(FacilityRows(acc, f, rows[..|rows| - 1]).value, f, rows[|rows| - 1]);
    }
  }

  /**
   * The two tables have one row per plant, in the same order; plant k (from
   * 0) is `P{k+1:03d}` in both, so the ids are sequential and, by
   * PlantIdInjective, all distinct.
   */
  lemma {:induction false} SplitNumbered(facilities: seq<Facility>, rows: seq<ProcessRow>)
    requires SplitFacilities(facilities, rows).Ok?
    ensures Numbered(SplitFacilities(facilities, rows).value)
    ensures var ps := SplitFacilities(facilities, rows).value.plants;
            forall j, k :: 0 <= j < k < |ps| ==> ps[j].facilityId != ps[k].facilityId
  {
    if |facilities| > 0 {
      SplitNumbered(facilities[..|facilities| - 1], rows);
      FacilityRowsNumbered(SplitFacilities(facilities[..|facilities| - 1], rows).value,
                           facilities[|facilities| - 1], rows);
    }
    var ps := SplitFacilities(facilities, rows).value.plants;
    forall j, k | 0 <= j < k < |ps|
      ensures ps[j].facilityId != ps[k].facilityId
    {
      PlantIdInjective(j + 1, k + 1);
    }
  }

  /** The rows of facility `f`, in sheet order. */
  function RowsOf(f: Facility, rows: seq<ProcessRow>): (r: seq<ProcessRow>)
    ensures forall x :: x in r <==> x in rows && x.facilityId == f.facilityId
  {
    if |rows| == 0 then []
    else
      var init := RowsOf(f, rows[..|rows| - 1]);
      assert forall x :: x in rows <==> x in rows[..|rows| - 1] || x == rows[|rows| - 1];
      if rows[|rows| - 1].facilityId == f.facilityId then init + [rows[|rows| - 1]] else init
  }

  /** The rows the split reads: each facility's rows, facility after facility. */
  function MatchedRows(facilities: seq<Facility>, rows: seq<ProcessRow>): seq<ProcessRow>
  {
    if |facilities| == 0 then []
    else MatchedRows(facilities[..|facilities| - 1], rows) + RowsOf(facilities[|facilities| - 1], rows)
  }

  function RowActivities(rows: seq<ProcessRow>): (a: seq<real>)
    ensures |a| == |rows|
    ensures forall i :: 0 <= i < |rows| ==> a[i] == rows[i].activityKt
  {
    seq(|rows|, i requires 0 <= i < |rows| => rows[i].activityKt)
  }

  lemma {:induction false} ActivitiesAppend(a: seq<PlantConsumption>, b: seq<PlantConsumption>)
    ensures Activities(a + b) == Activities(a) + Activities(b)
  {
  }

  lemma {:induction false} RowActivitiesAppend(a: seq<ProcessRow>, b: seq<ProcessRow>)
    ensures RowActivities(a + b) == RowActivities(a) + RowActivities(b)
  {
  }

  /** One row adds its activity to the plant table's total when it belongs to `f`. */
  lemma {:induction false} RowStepCapacity(a: Split, f: Facility, row: ProcessRow)
    requires RowStep(a, f, row).Ok?
    ensures Sum(Activities(RowStep(a, f, row).value.consumption)) ==
            Sum(Activities(a.consumption)) + (if row.facilityId == f.facilityId then row.activityKt else 0.0)
  {
    if row.facilityId == f.facilityId {
      var n := PlantCount(row.activityKt, PlantSize(row.processType).value);
      var cs := ConsumptionOf(row, n, |a.plants| + 1);
      ActivitiesAppend(a.consumption, cs);
      SumAppend(Activities(a.consumption), Activities(cs));
      RowCapacityKept(row, n, |a.plants| + 1);
    }
  }

  lemma {:induction false} RowsOfStep(f: Facility, rows: seq<ProcessRow>)
    requires |rows| > 0
    ensures var row := rows[|rows| - 1];
            Sum(RowActivities(RowsOf(f, rows))) ==
            Sum(RowActivities(RowsOf(f, rows[..|rows| - 1]))) + (if row.facilityId == f.facilityId then row.activityKt else 0.0)
  {
    var init, row := rows[..|rows| - 1], rows[|rows| - 1];
    if row.facilityId == f.facilityId {
      RowActivitiesAppend(RowsOf(f, init), [row]);
      SumAppend(RowActivities(RowsOf(f, init)), RowActivities([row]));
      assert RowActivities([row]) == [row.activityKt];
      SumSingle(row.activityKt);
    }
  }

  /** One facility's rows add their activity to the plant table's total. */
  lemma {:induction false} FacilityRowsCapacity(acc: Split, f: Facility, rows: seq<ProcessRow>)
    requires FacilityRows(acc, f, rows).Ok?
    ensures Sum(Activities(FacilityRows(acc, f, rows).value.consumption)) ==
            Sum(Activities(acc.consumption)) + Sum(RowActivities(RowsOf(f, rows)))
  {
    if |rows| == 0 {
      assert RowActivities([]) == [];
    } else {
      var init := rows[..|rows| - 1];
      FacilityRowsCapacity(acc, f, init);
      RowStepCapacity(FacilityRows(acc, f, init).value, f, rows[|rows| - 1]);
      RowsOfStep(f, rows);
    }
  }

  /** The plants carry exactly the activity of the rows they were split from. */
  lemma {:induction false} CapacityPreserved(facilities: seq<Facility>, rows: seq<ProcessRow>)
    requires SplitFacilities(facilities, rows).Ok?
    ensures Sum(Activities(SplitFacilities(facilities, rows).value.consumption)) ==
            Sum(RowActivities(MatchedRows(facilities, rows)))
  {
    if |facilities| == 0 {
      assert Activities([]) == [] && RowActivities([]) == [];
    } else {
      var init, f := facilities[..|facilities| - 1], facilities[|facilities| - 1];
      CapacityPreserved(init, rows);
      FacilityRowsCapacity(SplitFacilities(init, rows).value, f, rows);
      RowActivitiesAppend(MatchedRows(init, rows), RowsOf(f, rows));
      SumAppend(RowActivities(MatchedRows(init, rows)), RowActivities(RowsOf(f, rows)));
    }
  }

  /** A row of `f` with an unknown process type. */
  predicate UnknownProcess(f: Facility, rows: seq<ProcessRow>)
  {
    exists row :: row in rows && row.facilityId == f.facilityId && PlantSize(row.processType).None?
  }

  lemma {:induction false} FacilityRowsFails(acc: Split, f: Facility, rows: seq<ProcessRow>)
    ensures FacilityRows(acc, f, rows).Err? <==> UnknownProcess(f, rows)
    ensures FacilityRows(acc, f, rows).Err? ==> FacilityRows(acc, f, rows).error == KeyError
  {
    if |rows| > 0 {
      var init, row := rows[..|rows| - 1], rows[|rows| - 1];
      FacilityRowsFails(acc, f, init);
      assert forall x :: x in rows <==> x in init || x == row;
      if UnknownProcess(f, init) {
        var w :| w in init && w.facilityId == f.facilityId && PlantSize(w.processType).None?;
        assert w in rows;
      }
    }
  }

  /**
   * The split raises KeyError exactly when some facility has a row whose
   * process is not NCC, BTX or C4, and raises nothing else.
   */
  lemma {:induction false} SplitFails(facilities: seq<Facility>, rows: seq<ProcessRow>)
    ensures SplitFacilities(facilities, rows).Err? <==> exists f :: f in facilities && UnknownProcess(f, rows)
    ensures SplitFacilities(facilities, rows).Err? ==> SplitFacilities(facilities, rows).error == KeyError
  {
    if |facilities| > 0 {
      var init, f := facilities[..|facilities| - 1], facilities[|facilities| - 1];
      SplitFails(init, rows);
      assert forall x :: x in facilities <==> x in init || x == f;
      if SplitFacilities(init, rows).Ok? {
        FacilityRowsFails(SplitFacilities(init, rows).value, f, rows);
      } else {
        var w :| w in init && UnknownProcess(w, rows);
        assert w in facilities;
      }
    }
  }

  /** A row adds plants exactly when it belongs to the facility. */
  lemma {:induction false} RowStepGrows(acc: Split, f: Facility, row: ProcessRow)
    requires RowStep(acc, f, row).Ok?
    ensures |RowStep(acc, f, row).value.consumption| >= |acc.consumption|
    ensures |RowStep(acc, f, row).value.consumption| == |acc.consumption| <==> row.facilityId != f.facilityId
  {
  }

  /** A facility's rows add plants exactly when it has a row. */
  lemma {:induction false} FacilityRowsGrows(acc: Split, f: Facility, rows: seq<ProcessRow>)
    requires FacilityRows(acc, f, rows).Ok?
    ensures |FacilityRows(acc, f, rows).value.consumption| >= |acc.consumption|
    ensures |FacilityRows(acc, f, rows).value.consumption| == |acc.consumption| <==> |RowsOf(f, rows)| == 0
  {
    if |rows| > 0 {
      var init := rows[..|rows| - 1];
      FacilityRowsGrows(acc, f, init);
      RowStepGrows(FacilityRows(acc, f, init).value, f, rows[|rows| - 1]);
    }
  }

  /** The split makes no plant exactly when no consumption row belongs to a listed facility. */
  lemma {:induction false} SplitEmptyIffNoMatches(facilities: seq<Facility>, rows: seq<ProcessRow>)
    requires SplitFacilities(facilities, rows).Ok?
    ensures |SplitFacilities(facilities, rows).value.consumption| == 0 <==> |MatchedRows(facilities, rows)| == 0
  {
    if |facilities| > 0 {
      var init := facilities[..|facilities| - 1];
      SplitEmptyIffNoMatches(init, rows);
      FacilityRowsGrows(SplitFacilities(init, rows).value, facilities[|facilities| - 1], rows);
    }
  }

  /**
   * The script's outcome: the split, then the capacity check of the result
   * reads `Activity_kt_product` of the new consumption table, which a table
   * built from no records lacks (KeyError).
   */
  function CreatedPlants(facilities: seq<Facility>, rows: seq<ProcessRow>): (r: Result<Split>)
    ensures r.Err? <==> (exists f :: f in facilities && UnknownProcess(f, rows)) || |MatchedRows(facilities, rows)| == 0
    ensures r.Err? ==> r.error == KeyError
    ensures r.Ok? ==> Ok(r.value) == SplitFacilities(facilities, rows) && |r.value.plants| > 0
  {
    SplitFails(facilities, rows);
    match SplitFacilities(facilities, rows)
    case Err(e) => Err(e)
    case Ok(split) =>
      SplitEmptyIffNoMatches(facilities, rows);
      SplitNumbered(facilities, rows);
      if |split.consumption| == 0 then Err(KeyError) else Ok(split)
  }

  // ------------------------------------------------------ the script

  /**
   * The nested loops of `create_realistic_plants`: facilities in order,
   * each facility's consumption rows in order, one record pair per plant,
   * with `facility_counter` counting from 1; then the KeyError of an empty
   * result.
   */
  method CreateRealisticPlants(facilities: seq<Facility>, consumption: seq<ProcessRow>) returns (r: Result<Split>)
    ensures r == CreatedPlants(facilities, consumption)
  {
    var newFacilities: seq<Plant> := [];
    var newConsumption: seq<PlantConsumption> := [];
    var counter := 1;
    for a := 0 to |facilities|
      invariant SplitFacilities(facilities[..a], consumption) == Ok(Split(newFacilities, newConsumption))
      invariant counter == |newFacilities| + 1
    {
      var facility := facilities[a];
      assert facilities[..a + 1][..a] == facilities[..a];
      ghost var before := Split(newFacilities, newConsumption);
      for b := 0 to |consumption|
        invariant FacilityRows(before, facility, consumption[..b]) == Ok(Split(newFacilities, newConsumption))
        invariant counter == |newFacilities| + 1
      {
        var process := consumption[b];
        assert consumption[..b + 1][..b] == consumption[..b];
        if process.facilityId == facility.facilityId {
          var size := PlantSize(process.processType);
          if size.None? {
            FacilitiesErrSticky(facilities, consumption, a, before, b);
            return Err(KeyError);
          }
          var numPlants := PlantCount(process.activityKt, size.value);
          newFacilities, newConsumption, counter :=
            AddPlants(newFacilities, newConsumption, counter, facility, process, numPlants);
        }
      }
      assert consumption[..|consumption|] == consumption;
    }
    assert facilities[..|facilities|] == facilities;
    if |newConsumption| == 0 {
      return Err(KeyError);
    }
    r := Ok(Split(newFacilities, newConsumption));
  }

  /** The innermost loop: `num_plants` record pairs, the counter advancing once per plant. */
  method AddPlants(plants0: seq<Plant>, consumption0: seq<PlantConsumption>, counter0: int,
                   facility: Facility, process: ProcessRow, numPlants: nat)
    returns (plants: seq<Plant>, consumption: seq<PlantConsumption>, counter: int)
    requires numPlants >= 1 && counter0 == |plants0| + 1
    ensures plants == plants0 + PlantsOf(facility, process, numPlants, counter0)
    ensures consumption == consumption0 + ConsumptionOf(process, numPlants, counter0)
    ensures counter == counter0 + numPlants
  {
    plants, consumption, counter := plants0, consumption0, counter0;
    ghost var ps := PlantsOf(facility, process, numPlants, counter0);
    ghost var cs := ConsumptionOf(process, numPlants, counter0);
    var capacityPerPlant := process.activityKt / numPlants as real;
    for i := 0 to numPlants
      invariant plants == plants0 + ps[..i] && consumption == consumption0 + cs[..i]
      invariant counter == counter0 + i
    {
      var plantId := PlantId(counter);
      var plantName := facility.company + " " + process.processType + " Plant " + Digits(i + 1);
      plants := plants + [Plant(plantId, facility.facilityId, plantName, facility.company, facility.region,
                                process.processType, i + 1)];
      consumption := consumption + [PlantConsumption(plantId, process.processType, capacityPerPlant,
                                                     process.naturalGasGjPerT, process.fuelOilGjPerT,
                                                     process.electricityGjPerT, process.naphthaTPerT.GetOr(0.0),
                                                     process.lpgTPerT.GetOr(0.0), process.reformateTPerT.GetOr(0.0))];
      assert ps[..i + 1] == ps[..i] + [ps[i]] && cs[..i + 1] == cs[..i] + [cs[i]];
      counter := counter + 1;
    }
    assert ps[..numPlants] == ps && cs[..numPlants] == cs;
  }

  /** A KeyError met in facility `a`'s rows ends the whole split with that error. */
  lemma {:induction false} FacilitiesErrSticky(facilities: seq<Facility>, rows: seq<ProcessRow>, a: nat,
                                               before: Split, b: nat)
    requires a < |facilities| && b < |rows|
    requires SplitFacilities(facilities[..a], rows) == Ok(before)
    requires FacilityRows(before, facilities[a], rows[..b]).Ok?
    requires rows[b].facilityId == facilities[a].facilityId && PlantSize(rows[b].processType).None?
    ensures SplitFacilities(facilities, rows) == Err(KeyError)
  {
    assert rows[..b + 1][..b] == rows[..b];
    assert FacilityRows(before, facilities[a], rows[..b + 1]) == Err(KeyError);
    FacilityRowsErrSticky(before, facilities[a], rows, b + 1);
    assert facilities[..a + 1][..a] == facilities[..a];
    SplitErrSticky(facilities, rows, a + 1);
  }

  lemma {:induction false} FacilityRowsErrSticky(acc: Split, f: Facility, rows: seq<ProcessRow>, n: nat)
    requires n <= |rows| && FacilityRows(acc, f, rows[..n]) == Err(KeyError)
    ensures FacilityRows(acc, f, rows) == Err(KeyError)
    decreases |rows| - n
  {
    if n == |rows| {
      assert rows[..n] == rows;
    } else {
      assert rows[..n + 1][..n] == rows[..n];
      FacilityRowsErrSticky(acc, f, rows, n + 1);
    }
  }

  lemma {:induction false} SplitErrSticky(facilities: seq<Facility>, rows: seq<ProcessRow>, n: nat)
    requires n <= |facilities| && SplitFacilities(facilities[..n], rows) == Err(KeyError)
    ensures SplitFacilities(facilities, rows) == Err(KeyError)
    decreases |facilities| - n
  {
    if n == |facilities| {
      assert facilities[..n] == facilities;
    } else {
      assert facilities[..n + 1][..n] == facilities[..n];
      SplitErrSticky(facilities, rows, n + 1);
    }
  }
}
