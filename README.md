# Petrochemical MACC and deployment models in Dafny

This project models the computational core of a set of Python scripts and a
small library. Together they build marginal abatement cost curves (MACC) for
the Korean petrochemical industry and plan how low-carbon technologies are
deployed from 2023 to 2050. Each core source file becomes one Dafny module:

- **Band model** (`corrected_band_model.py`, module `BandModel`): emission bands per technology group, alternative technologies, capacity rules, investment phases, lifecycle NPV.
- **BAU / net-zero LP** (`macc_optimization_model_bau_netzero.py`, `BauNetZero`) and **target-sheet LP** (`macc_optimization_target_sheet.py`, `TargetSheet`): the linear programmes, written as predicates over decision tables. Their shared pieces live in `DeploymentLp`, and the greedy transition fill they both use lives in `TransitionFill`.
- **Facility-based optimisation v3** (`FacilityV3`) and **MACC optimisation v2** (`OptimizationV2`): year lookups, interpolation, facility baselines, deployment options, pathway and share extraction. The yearly MACC tables the v2 LP reads are built in `MaccDataV2`.
- **Simulation** (`run_simulation_model.py`, `SimulationModel`): the facility-technology matrix, the MACC, the 2023 baseline, the heuristic deployment pathway and the technology shares.
- **Emission pathway analysis** (`EmissionPathway`), **model builders** (`ModelBuilder`, `ModelBuilderCorrected`, sharing `TechTables`), **Pyomo model** (`ModelPyomo`), **validators** (`Validators`), **schemas** (`Schemas`), **portfolio** (`Portfolio`), **technology** (`Technology`, `LegacyTechnology`), **scenario** (`Scenario`), **data I/O** (`DataIo`), **plant sizes** (`PlantSizes`) and **technology links** (`TechLinks`).

Helper modules hold what several files share:

- `Wrappers`: Option, Result and the Python exceptions the core raises.
- `Reals`: sums, powers, an extended real for `inf`, min and max.
- `Ints`, `Strings`, `Sorting` and `OrderedMaps`: Python dicts with insertion order.
- `Finance`: capital recovery factor and discounting.
- `Vintage`: the rolling-window capacity sum.

How the Python maps to Dafny:

- Pure code becomes functions with contracts.
- Loops become methods with invariants, each proved equal to a specification function.
- Objects whose fields change become classes.
- Python exceptions become `Err` results.
- Linear programmes are not solved. Their constraints and objectives are predicates and functions over a candidate solution, and the lemmas state what any feasible solution satisfies.

## Model

| member | source | states |
|---|---|---|
| SimulationModel.NearestIndex | run_simulation_model.py:199-202 | the chosen row has the smallest distance to the requested year, and no earlier row is as near (the first of the closest years) |
| SimulationModel.YearRow | run_simulation_model.py:198-204 | no row only for an empty table; otherwise the first row of the nearest year |
| SimulationModel.YearRowExact | run_simulation_model.py:198-199 | when some row has exactly the requested year, the row used has that year and is the first such row |
| SimulationModel.EmissionFactorsFor | run_simulation_model.py:196-213 | IndexError exactly when the time series is empty; otherwise a row of the series whose year is nearest, and the exact year whenever it is present |
| SimulationModel.FuelPricesFor | run_simulation_model.py:215-232 | the same lookup on the fuel-price series: IndexError iff empty, nearest row, exact year when present |
| SimulationModel.BandRow | run_simulation_model.py:60-64 | no row iff no baseline band matches the technology group and band; otherwise the first matching row |
| SimulationModel.OptionLcoa | run_simulation_model.py:117-127 | `inf` exactly when the reduction per tonne is not positive; a finite LCOA times the reduction equals annualised capex per tonne plus the opex delta; an error only when the reduction is positive |
| SimulationModel.CrfFailsAtZeroLifetime | run_simulation_model.py:121-123 | the capital recovery factor at 5 % divides by zero exactly at a zero lifetime |
| SimulationModel.OptionLcoaFails | run_simulation_model.py:118-127 | with a positive reduction the LCOA fails exactly for a zero lifetime or a zero capacity |
| SimulationModel.OptionFor | run_simulation_model.py:43-147 | no option exactly when the facility lacks the group's capacity column or the band has no baseline row; an option carries the ids, the category, the commercial year and the full capacity as maximum deployment, with total abatement = capacity × reduction |
| SimulationModel.FacilityOptions | run_simulation_model.py:46-147 | the facility's options are all well formed and belong to the facility; the loop completes exactly when every technology's option can be built |
| SimulationModel.FacilityOptionsCover | run_simulation_model.py:46-147 | every option a technology yields is in the facility's list, and every listed option comes from one of the technologies |
| SimulationModel.FacilityOptionsFailed | run_simulation_model.py:43-147 | the first failing technology ends the facility's loop with its error |
| SimulationModel.CollectFacilityOptions | run_simulation_model.py:46-147 | the inner loop over technologies computes `FacilityOptions` |
| SimulationModel.MatrixOver | run_simulation_model.py:43-149 | the matrix is built exactly when every facility-technology pair can be built, and every option in it is well formed |
| SimulationModel.MatrixOverFailed | run_simulation_model.py:43-149 | the first failing facility ends the outer loop with its error |
| SimulationModel.Matrix | run_simulation_model.py:25-149 | an empty emission-factor or fuel-price series raises IndexError; every option of the matrix is well formed |
| SimulationModel.CreateFacilityTechnologyMatrix | run_simulation_model.py:25-149 | the loop over facilities computes `Matrix` |
| SimulationModel.Available | run_simulation_model.py:155 | exactly the options whose commercial year is at most the year |
| SimulationModel.LcoaLeTotalPreorder | run_simulation_model.py:158 | ordering by LCOA with `inf` last is a total preorder, so the sort is well defined |
| SimulationModel.MaccCurve | run_simulation_model.py:151-165 | KeyError exactly for an empty matrix (no columns) |
| SimulationModel.MaccCurveShape | run_simulation_model.py:151-165 | the curve is a permutation of the available options, sorted by LCOA with the infinite ones last, and each cumulative value is the running sum of total abatement over 1000 |
| SimulationModel.MaccRisesWhileFinite | run_simulation_model.py:158-163 | with positive capacities, the cumulative abatement rises strictly up to every finite-LCOA step |
| SimulationModel.CurveRises | run_simulation_model.py:158-163 | the same strict rise on the sorted curve of any option list |
| SimulationModel.PositiveAbatement | run_simulation_model.py:118-140 | an option with a finite LCOA and a positive capacity abates a positive amount |
| SimulationModel.RunningTotalRises | run_simulation_model.py:161-163 | running sums of positive abatements rise strictly |
| SimulationModel.BaselineEmissions | run_simulation_model.py:234-266 | IndexError exactly when the emission-factor series is empty; otherwise the total emissions in Mt |
| SimulationModel.CalculateBaselineEmissions | run_simulation_model.py:234-266 | the loop over bands computes `BaselineEmissions` and fills the per-band emissions column |
| SimulationModel.BandEmissionsAreActivityTimesIntensity | run_simulation_model.py:250-262 | a band's emissions are its activity times the baseline intensity used by the matrix |
| SimulationModel.DeploymentRamp | run_simulation_model.py:297-298 | the fraction rises with the year, is at most 0.8, is 0 in 2023, 0.7 in 2030, and 0.8 from 2031 on |
| SimulationModel.CostEffective | run_simulation_model.py:301-302 | exactly the available options with LCOA at most 100, as a permutation of the filtered list, sorted by LCOA |
| SimulationModel.Accumulated | run_simulation_model.py:305-318 | the deployment loop raises ZeroDivisionError exactly when some cost-effective option has zero maximum deployment |
| SimulationModel.AccumulatedFailed | run_simulation_model.py:310-314 | the first zero-capacity option ends the loop with its error |
| SimulationModel.Accumulate | run_simulation_model.py:305-318 | the four running totals of the loop compute `Accumulated` |
| SimulationModel.AccumulatedIsFraction | run_simulation_model.py:310-314 | deployment, abatement and investment are the year's fraction of total capacity, total abatement potential and total capex |
| SimulationModel.AccumulatedPrefix | run_simulation_model.py:310-318 | a completed loop completed its prefix and the last step divided by a non-zero capacity |
| SimulationModel.DeployedIsFraction | run_simulation_model.py:311-312 | deployed capacity is the fraction of total capacity |
| SimulationModel.AbatedIsFraction | run_simulation_model.py:311-313 | abatement is the fraction of the total abatement potential |
| SimulationModel.InvestedIsFraction | run_simulation_model.py:311-314 | investment is the fraction of total capex |
| SimulationModel.FractionOfProduct | run_simulation_model.py:311-313 | deployed capacity times the reduction equals the fraction times the option's total abatement |
| SimulationModel.FractionOfCapex | run_simulation_model.py:311-314 | deployed capacity times capex over capacity equals the fraction times capex |
| SimulationModel.PotentialNonNegative | run_simulation_model.py:301-302 | cost-effective well-formed options with non-negative capacity have a non-negative total potential |
| SimulationModel.YearOutcome | run_simulation_model.py:282-333 | KeyError exactly for an empty matrix, ZeroDivisionError otherwise; no deployment fraction exactly when no technology is available, and then the baseline is reported unchanged |
| SimulationModel.DeployedAbatementNonNegative | run_simulation_model.py:310-313 | a non-negative fraction abates a non-negative amount |
| SimulationModel.CostEffectiveKeeps | run_simulation_model.py:301-302 | cost-effective options are finite and keep the properties of the matrix |
| SimulationModel.DeployedYearWithinBaseline | run_simulation_model.py:320-333 | the reduction is non-negative and the remaining emissions are the baseline minus the reduction, clipped at 0 |
| SimulationModel.EmissionsWithinBaseline | run_simulation_model.py:282-333 | from 2023 on, with a non-negative baseline, the remaining emissions lie between 0 and the baseline and equal baseline minus reduction unless that is negative |
| SimulationModel.YearIsFractionOfCostEffective | run_simulation_model.py:297-330 | a deployed year's investment and reduction are its fraction of the capex and of the abatement potential of the cost-effective options |
| SimulationModel.SimulateYear | run_simulation_model.py:282-333 | one iteration of the year loop computes `YearOutcome` |
| SimulationModel.PathwayYear | run_simulation_model.py:279-333 | a year's row carries that year and the baseline |
| SimulationModel.PathwayOver | run_simulation_model.py:277-337 | one row per requested year, in order |
| SimulationModel.FollowsYearsAppend | run_simulation_model.py:335 | appending the next year's row keeps the rows in step with the years |
| SimulationModel.PathwayOverFailed | run_simulation_model.py:277-337 | the first failing year ends the loop with its error |
| SimulationModel.Simulation | run_simulation_model.py:268-337 | an empty emission-factor series raises IndexError; otherwise one row per year, in order |
| SimulationModel.SimulateTechnologyDeployment | run_simulation_model.py:268-337 | the loop over the years computes `Simulation` |
| SimulationModel.Technologies | run_simulation_model.py:355 | the technology column of the options, in order |
| SimulationModel.ShareRowsFor | run_simulation_model.py:362-371 | one row per listed technology, in order, all of the year |
| SimulationModel.ShareRowsForAt | run_simulation_model.py:362-371 | the row at position i is the i-th technology's capacity and share |
| SimulationModel.YearShares | run_simulation_model.py:352-371 | every row of a year carries that year |
| SimulationModel.GroupsAreTheTechnologies | run_simulation_model.py:355-358 | the groups are the technologies of the available options, each exactly once, in ascending name order |
| SimulationModel.SharesAddUp | run_simulation_model.py:360-364 | the shares of the listed technologies add up to their deployed capacity over the year's total |
| SimulationModel.YearSharesSumToOne | run_simulation_model.py:360-364 | whenever the year's total deployment is positive, its shares add up to 1 |
| SimulationModel.YearSharesZero | run_simulation_model.py:360-364 | without a deployment fraction (NaN), or with a non-positive total, every share is 0 |
| SimulationModel.ListedMaxIsCapacity | run_simulation_model.py:355-360 | summing the groups of distinct technologies that cover every option counts each option's capacity once |
| SimulationModel.DeployedTotalIsCapacity | run_simulation_model.py:360 | the year's total is the fraction of the whole capacity of the available options |
| SimulationModel.ShareIsGroupFraction | run_simulation_model.py:360-364 | with a positive fraction, a technology's share is its group's capacity over the available capacity, independent of the fraction |
| SimulationModel.FractionFor | run_simulation_model.py:352 | KeyError exactly when no pathway row has a deployment fraction (the column is absent); IndexError exactly when no row has the year; otherwise the first row's fraction for the year |
| SimulationModel.PathwayYears | run_simulation_model.py:342 | the pathway's year column, in order |
| SimulationModel.SharesOver | run_simulation_model.py:345-371 | only KeyError or IndexError; every row belongs to a listed year that has an available option |
| SimulationModel.TechnologyShares | run_simulation_model.py:339-373 | an empty pathway or matrix raises KeyError; every row's year is a pathway year in which some option is commercially available |
| SimulationModel.SharesOverFindsEveryYear | run_simulation_model.py:342-352 | looking up a year taken from the pathway never fails for want of a row |
| SimulationModel.TechnologySharesFindEveryYear | run_simulation_model.py:339-352 | the shares never fail with IndexError |
| SimulationModel.SharesOverFailed | run_simulation_model.py:345-371 | the first failing year ends the loop with its error |
| SimulationModel.CalculateTechnologyShares | run_simulation_model.py:339-373 | the nested loops over years and technologies compute `TechnologyShares` |
| BandModel.BandKey | corrected_band_model.py:45 | the key is the tech group, an underscore and the band, so its parts can be read back from it |
| BandModel.BandKeyInjective | corrected_band_model.py:45 | two bands of one group share a key only when they are the same band |
| BandModel.LoadedBandsGet | corrected_band_model.py:44-54 | after loading, a key is present exactly when some sheet row has it, it holds the last such row, and no key appears twice |
| BandModel.LastRowForExists | corrected_band_model.py:44-54 | a key has a stored row exactly when some row of the sheet carries that key, and the stored row is one of the sheet's rows |
| BandModel.BandBasedMaccModel.constructor | corrected_band_model.py:31-54 | the loaded band dictionary is the one `LoadedBands` describes for the sheet's rows |
| BandModel.GroupBands | corrected_band_model.py:73 | a group's bands are exactly the dictionary's entries of that tech group, in dictionary order |
| BandModel.Distribution | corrected_band_model.py:80-82 | the band distribution has the group's band keys, in order |
| BandModel.DistributionIsScaled | corrected_band_model.py:80-82 | each band's share is its activity divided by the group's total production |
| BandModel.DistributionSumsToOne | corrected_band_model.py:75-82 | the shares of a group's band distribution add up to one |
| BandModel.GroupBaseline | corrected_band_model.py:72-89 | ZeroDivisionError exactly when the group's total activity is zero; otherwise the process baseline is named after the group, its production is the total activity and its distribution has the group's band keys |
| BandModel.WeightedIntensityKeepsEmissions | corrected_band_model.py:75-77 | production times the weighted intensity gives back the sum of the bands' emissions, so the aggregated baseline keeps the group's emissions |
| BandModel.WeightedIntensityWithin | corrected_band_model.py:75-77 | with non-negative activities and every band's intensity in [lo, hi], the group's weighted intensity lies in [lo, hi] |
| BandModel.GroupBaselines | corrected_band_model.py:72-89 | on success one baseline per group, in order, each the group's `GroupBaseline`; any failure is ZeroDivisionError |
| BandModel.GroupBaselinesFail | corrected_band_model.py:72-89 | the loop over groups fails exactly when some group has no production |
| BandModel.CreateScenario | corrected_band_model.py:65-115 | fails exactly when NCC, BTX or C4 has no production; otherwise the baseline year is 2023, the timeline is 2023 to 2050 and the targets are those of the baseline total |
| BandModel.ScenarioTotal | corrected_band_model.py:76-95 | the scenario's baseline total is the three groups' band emissions, in Mt |
| BandModel.ScenarioProcesses | corrected_band_model.py:84-97 | each of NCC, BTX and C4 is found in the baseline under its own name with its own aggregated baseline |
| BandModel.ScenarioYears | corrected_band_model.py:108 | the timeline lists 28 years, exactly 2023 to 2050 |
| BandModel.BuildScenario | corrected_band_model.py:65-115 | ZeroDivisionError exactly when a group has no production; otherwise a fresh `EmissionsScenario` over `CreateScenario`'s baseline and timeline whose targets are interpolated |
| BandModel.BandTargetMap | corrected_band_model.py:100-104 | the explicit targets map 2030, 2040 and 2050 to 85%, 50% and 20% of the baseline total |
| BandModel.BandScenarioYears | corrected_band_model.py:100-110 | once interpolated, every year 2023-2050, and no other, has a target |
| BandModel.BandScenarioBefore2030 | corrected_band_model.py:100-110 | the years 2023-2029 keep the baseline total as their target |
| BandModel.BandScenario2035 | corrected_band_model.py:100-110 | the 2035 target is 67.5% of the baseline total, halfway between the 2030 and 2040 targets |
| BandModel.TargetsDecrease | corrected_band_model.py:100-104 | for a non-negative baseline the 2030, 2040 and 2050 targets come in year order, fall over time and never exceed the baseline |
| BandModel.BandBasedMaccModel.CreateAlternativePortfolio | corrected_band_model.py:117-166 | the loop over the merged rows yields exactly `Alternatives` of the loaded bands and the rows |
| BandModel.AlternativeOf | corrected_band_model.py:137-164 | the alternative targets the row's band key, keeps the row's id and tech group, and is an alternative technology |
| BandModel.AlternativeAgainstBand | corrected_band_model.py:138-164 | the emission factor is the band's intensity less the row's reduction, capex is million USD times 1e6, the applicability is the row's and the stored band activity is the band's |
| BandModel.Alternatives | corrected_band_model.py:129-166 | at most one technology per row, each targeting a band present in the baseline |
| BandModel.KnownRowKept | corrected_band_model.py:133-166 | every row whose band is known yields its alternative |
| BandModel.AlternativeFromRow | corrected_band_model.py:129-166 | every alternative comes from a row whose band is known and is built against that band |
| BandModel.MaxCapacity | corrected_band_model.py:198-209 | zero without a target band or for a band missing from the baseline |
| BandModel.MaxCapacityWithinBand | corrected_band_model.py:205-207 | with an applicability in [0, 1] the cap lies between zero and the targeted band's activity |
| BandModel.AlternativeCapacity | corrected_band_model.py:163-164 | an alternative built from a known band is capped at its stored band activity times its applicability (see also lines 205-207) |
| BandModel.BandTotalAtMost | corrected_band_model.py:225-230 | production capped per technology sums, over a band, to at most the band's activity times the band's total applicability |
| BandModel.BandRuleFromCaps | corrected_band_model.py:220-234 | the per-technology caps imply the fixed-band rule (band production at most the band's capacity) when the band's applicabilities add up to at most one |
| BandModel.RemainingBaseline | corrected_band_model.py:371 | the remaining baseline is non-negative, at least baseline less alternative, and equal to one of the two |
| BandModel.BandSummaryOf | corrected_band_model.py:357-386 | ZeroDivisionError exactly for a producing band with zero emission intensity; otherwise the alternative production and abatement are the band's totals, the remaining baseline is clamped at zero, a band with no activity has share and reduction 0, and a producing band's reduction is its abatement as a percentage of its baseline emissions |
| BandModel.ZeroEmissionsIffZeroIntensity | corrected_band_model.py:384 | a producing band has zero baseline emissions exactly when its intensity is 0 |
| BandModel.SummaryUnderBandRule | corrected_band_model.py:369-385 | under the band rule the remaining and alternative production make up the baseline and the alternative share is a percentage whose complement is the remaining share |
| BandModel.InvestmentPhaseOf | corrected_band_model.py:892-903 | investing exactly when something is installed; not active exactly when nothing is installed or available; high above 100 kt and moderate above 10 kt |
| BandModel.InvestmentPhaseMonotone | corrected_band_model.py:892-903 | more installation and more capacity never move a technology to a lower phase |
| BandModel.Ratio | corrected_band_model.py:573-574 | the guarded ratio times a positive base gives back the numerator, and is zero for a base that is not positive |
| BandModel.RatioThresholds | corrected_band_model.py:907-916 | for a positive base the 90 %, 50 %, 10 % and positive thresholds on the ratio are the same thresholds on the numerator |
| BandModel.RatioMonotone | corrected_band_model.py:907 | for a positive base the ratio grows with the numerator |
| BandModel.DeploymentStatusOf | corrected_band_model.py:905-918 | pre-commercial for a non-positive applicability; otherwise saturated, scaling, early deployment and demonstration exactly at 90 %, 50 %, 10 % and above 0 % of the applicability |
| BandModel.DeploymentStatusMonotone | corrected_band_model.py:905-918 | a deeper penetration never lowers the status |
| BandModel.YearsSinceCommercial | corrected_band_model.py:583 | the years since commercial start, clamped at zero |
| BandModel.IsMature | corrected_band_model.py:583-584 | mature exactly from five years after the commercial start |
| BandModel.CumulativeInstallMonotone | corrected_band_model.py:577-580 | with non-negative installations the cumulative installation grows with the year |
| BandModel.TechChangeOf | corrected_band_model.py:560-607 | a row exactly for a technology with a target band and something installed, available or produced; its maturity, phase and status are those of the year's figures |
| BandModel.SaturatedNearCap | corrected_band_model.py:574 | a technology producing within its cap has a penetration at most its applicability, and is saturated exactly when it produces at least 90 % of the cap (see also lines 905-910) |
| BandModel.DiscountFactorAt | corrected_band_model.py:668 | the discount factor at 5 % lies in (0, 1] |
| BandModel.NpvOf | corrected_band_model.py:666-669 | the discounting loop computes `LifecycleNpv` |
| BandModel.DiscountedOpexIsAnnuity | corrected_band_model.py:667-669 | the discounted opex over the lifetime is the opex times the annuity factor at 5 % |
| BandModel.LifecycleNpvBounds | corrected_band_model.py:666-669 | with non-negative opex the NPV lies between the capex and the capex plus the undiscounted opex |
| BandModel.LifecycleNpvBelowPerpetuity | corrected_band_model.py:666-669 | whatever the lifetime, the NPV of a non-negative opex stays below capex plus 20 years of opex |
| BandModel.AnnuityAtMostPerpetuity | corrected_band_model.py:667-669 | the annuity factor at 5 % lies between zero and both the number of years and 20 |
| BandModel.LifecycleNpvMonotone | corrected_band_model.py:666-669 | a longer lifetime never lowers the NPV of a non-negative opex |
| BandModel.ZeroOpexNpv | corrected_band_model.py:671-678 | the baseline, with no capex and no opex, has NPV zero whatever its lifetime |
| BandModel.PerTonne | corrected_band_model.py:689-691 | zero when nothing is abated; otherwise ZeroDivisionError exactly for a zero denominator, and the quotient times the denominator gives back the numerator |
| BandModel.ZeroProductIffZeroLifetime | corrected_band_model.py:689 | a positive abatement times the lifetime is 0 exactly for a lifetime of 0 |
| BandModel.CostComparisonOf | corrected_band_model.py:641-691 | ZeroDivisionError exactly when something is abated and the lifetime is 0; otherwise the baseline NPV is zero so the differential is the alternative's NPV, which is `LifecycleNpv` of its capex and annual opex, the abatement is 850 t times the magnitude of the intensity gap, and each per-tonne cost times its abated tonnes gives back its cost |
| BandModel.AlternativeAbatement | corrected_band_model.py:141 | for an alternative built against its band the abatement is 850 t times the row's reduction, it is zero exactly when the row reduces nothing, and then the comparison succeeds with every per-tonne cost zero (see also lines 686-691) |
| BauNetZero.LinearTargetPath | macc_optimization_model_bau_netzero.py:59-63 | the linear target equals the 2025 BAU emissions in 2025 and zero in 2050, falls by one twenty-fifth of the 2025 emissions each year, and stays within [0, BAU 2025] in between |
| BauNetZero.TargetMap | macc_optimization_model_bau_netzero.py:56-63 | the target map has exactly the years 2025 to 2050 |
| BauNetZero.NetZeroTargets | macc_optimization_model_bau_netzero.py:49-71 | IndexError exactly when there is no 2025 BAU row; otherwise the linear targets from that row |
| BauNetZero.YearsTo | macc_optimization_model_bau_netzero.py:82 | the planning years are 2025 to the horizon, in order and without repeats |
| BauNetZero.RequirementsSpec | macc_optimization_model_bau_netzero.py:125-129 | the requirement loop succeeds exactly when every planning year has a BAU row and a target, fails with IndexError or KeyError otherwise, and maps each planning year to BAU minus target |
| BauNetZero.SetupProblemOk | macc_optimization_model_bau_netzero.py:73-170 | the problem can be built exactly when there is a BAU row for 2025 and for every planning year, and the horizon does not pass 2050 |
| BauNetZero.SetupProblemRequired | macc_optimization_model_bau_netzero.py:125-139 | a built problem requires BAU minus the linear target in every planning year: nothing in 2025 and the whole BAU emission in 2050 |
| BauNetZero.RampBound | macc_optimization_model_bau_netzero.py:93-105 | in a decision within its bounds that keeps the ramp rule, deployment in a year is at most one ramp share per year above deployment in any earlier year at or after the start (see also lines 142-150) |
| BauNetZero.GapMeaning | macc_optimization_model_bau_netzero.py:243-263 | optimised emissions plus abatement give BAU; the gap is non-negative, zero exactly when the optimised emissions meet the target, and otherwise their excess over it |
| BauNetZero.PathwayRowsSpec | macc_optimization_model_bau_netzero.py:243-263 | one pathway row per planning year, built from that year's BAU, target and recorded abatement |
| BauNetZero.FeasibleClosesGap | macc_optimization_model_bau_netzero.py:125-139 | a feasible decision with no negligible level closes every year's gap (see also lines 198-206, 243-263) |
| BauNetZero.TransitionBlockOrder | macc_optimization_model_bau_netzero.py:305-309 | within one technology the transitions run in descending emission intensity, and among equal intensities in descending age in 2025 |
| BauNetZero.MaccBauNetZero.constructor | macc_optimization_model_bau_netzero.py:19-47 | the inputs are stored and no targets, problem, results, pathway or transitions exist yet |
| BauNetZero.MaccBauNetZero.CalculateLinearNetZeroTargets | macc_optimization_model_bau_netzero.py:49-71 | the loop fills `NetZeroTargets` and stores it; nothing else changes |
| BauNetZero.MaccBauNetZero.RequirementLoop | macc_optimization_model_bau_netzero.py:125-129 | the loop computes `Requirements` |
| BauNetZero.MaccBauNetZero.SetupOptimizationProblem | macc_optimization_model_bau_netzero.py:73-170 | the result is `SetupProblem`; the targets and the problem are stored when built, and the results, pathway and transitions are kept |
| BauNetZero.MaccBauNetZero.SolveOptimization | macc_optimization_model_bau_netzero.py:172-233 | AttributeError before setup; no rows when the status is not optimal; otherwise the recorded rows and their total discounted cost are stored, and an empty table fails on its missing column |
| BauNetZero.MaccBauNetZero.PathwayLoop | macc_optimization_model_bau_netzero.py:243-263 | the loop computes `PathwayRows` |
| BauNetZero.MaccBauNetZero.CreateEmissionPathwayAnalysis | macc_optimization_model_bau_netzero.py:235-270 | AttributeError before setup; otherwise `PathwayRows` over the planning years, stored when it succeeds |
| BauNetZero.MaccBauNetZero.AnalyzeFacilityTransitions | macc_optimization_model_bau_netzero.py:272-366 | AttributeError without results; an error exactly for an empty results table; otherwise the greedy fill of every technology's eligible facilities in descending intensity and age, at its first recorded abatement over 52 Mt |
| TargetSheet.YearsOf | macc_optimization_target_sheet.py:61 | the target years are the sheet's `Year` column, in sheet order |
| TargetSheet.TargetAt | macc_optimization_target_sheet.py:67 | a year's target is that of its first row in the sheet |
| TargetSheet.ReductionPercent | macc_optimization_target_sheet.py:66-76 | BAU less the requirement is the target; the reduction is the requirement as a percentage of a positive BAU, 0 otherwise, and within [0, 100] when the target lies between 0 and BAU |
| TargetSheet.ComparisonsRows | macc_optimization_target_sheet.py:64-79 | every comparison row belongs to a listed target year that has a BAU row, built from the first BAU row and the first target row of that year |
| TargetSheet.ComparisonsCover | macc_optimization_target_sheet.py:64-79 | every listed target year with a BAU row has a comparison row |
| TargetSheet.FindComparison | macc_optimization_target_sheet.py:141 | a year is found exactly when some comparison row has it, and the row found has that year; otherwise IndexError (see also line 259) |
| TargetSheet.RequirementsSpec | macc_optimization_target_sheet.py:139-152 | the requirement loop succeeds exactly when every target year has a comparison row, and maps each target year to that row's requirement; an empty table gives KeyError, a missing year IndexError |
| TargetSheet.SetupProblemOk | macc_optimization_target_sheet.py:87-190 | the problem can be built exactly when every target year has a BAU row; otherwise KeyError when none has one and IndexError when only some have |
| TargetSheet.SetupProblemRequired | macc_optimization_target_sheet.py:139-152 | only target years have a requirement, and each requires BAU minus its sheet target |
| TargetSheet.RampChain | macc_optimization_target_sheet.py:155-170 | over the sorted target years, a deployment rises from one year at or after the start to any later one by at most its ramp share times the years between them |
| TargetSheet.SortedYears | macc_optimization_target_sheet.py:156 | the sorted target years are sorted and are target years |
| TargetSheet.FeasibleRamp | macc_optimization_target_sheet.py:155-170 | in a feasible decision, deployment in a later target year is at most deployment in an earlier one at or after the start plus the ramp share times the years between them |
| TargetSheet.AchievementMeaning | macc_optimization_target_sheet.py:264-283 | a year complies exactly when the achieved abatement reaches the requirement, exactly when the gap is not positive; with a positive requirement that means an achievement of at least 100 %, and otherwise the achievement is 100 % |
| TargetSheet.AchievementsSpec | macc_optimization_target_sheet.py:257-284 | the analysis succeeds exactly when every target year has a comparison row and, for any target year, there are recorded rows; the j-th row is the achievement of the j-th target year |
| TargetSheet.FeasibleMeetsTargets | macc_optimization_target_sheet.py:139-152 | a decision satisfying a problem built from distinct target years, with no negligible level, complies with every target (see also lines 257-284) |
| TargetSheet.TargetsMetCompliant | macc_optimization_target_sheet.py:139-152 | any decision meeting the target constraints complies with every target in the achievement analysis (see also lines 257-284) |
| TargetSheet.AchievementsComply | macc_optimization_target_sheet.py:257-284 | when the requirements read from the comparison rows are met, every achievement row of the recorded results complies |
| TargetSheet.TransitionBlockOrder | macc_optimization_target_sheet.py:328-331 | within one technology the transitions run in descending emission intensity |
| TargetSheet.MaccTargetSheet.constructor | macc_optimization_target_sheet.py:19-48 | the inputs are stored and no comparison, problem, results, achievements or transitions exist yet |
| TargetSheet.RequirementLoop | macc_optimization_target_sheet.py:139-152 | the loop computes `Requirements` |
| TargetSheet.AchievementLoop | macc_optimization_target_sheet.py:257-284 | the loop computes `Achievements` |
| TargetSheet.MaccTargetSheet.PrepareTargetsAndBau | macc_optimization_target_sheet.py:50-85 | the comparison loop yields `Comparisons` over the whole sheet and stores it; nothing else changes |
| TargetSheet.MaccTargetSheet.SetupOptimizationProblem | macc_optimization_target_sheet.py:87-190 | the result is `SetupProblem`; the comparison is stored, and the problem when built |
| TargetSheet.MaccTargetSheet.SolveOptimization | macc_optimization_target_sheet.py:192-247 | AttributeError before setup; no rows when the status is not optimal; otherwise the recorded rows and their total discounted cost are stored, and an empty table fails on its missing column |
| TargetSheet.MaccTargetSheet.CreateResultsAnalysis | macc_optimization_target_sheet.py:249-291 | AttributeError before setup; otherwise `Achievements` over the target years, stored when it succeeds |
| TargetSheet.MaccTargetSheet.AnalyzeFacilityTransitions | macc_optimization_target_sheet.py:293-388 | AttributeError without results; an error exactly for an empty results table; otherwise the greedy fill in descending intensity at each technology's mean recorded abatement over 52 Mt |
| DeploymentLp.BauAt | macc_optimization_model_bau_netzero.py:127 | IndexError exactly when no BAU row has the year; otherwise the emissions of the first row of that year |
| DeploymentLp.DiscountFactor | macc_optimization_model_bau_netzero.py:117 | the 3 % discount factor is positive and exactly 1 in 2025 |
| DeploymentLp.DiscountFactorDecreasing | macc_optimization_model_bau_netzero.py:117 | a later year is discounted strictly more |
| DeploymentLp.RowBounds | macc_optimization_model_bau_netzero.py:95-105 | one row creates a variable exactly for each listed year at or after its start, bounded by its maximum penetration |
| DeploymentLp.BoundsDomain | macc_optimization_model_bau_netzero.py:94-105 | a variable exists exactly for the keys some technology row creates |
| DeploymentLp.BoundsLast | macc_optimization_model_bau_netzero.py:94-105 | a variable created by several rows keeps the bound of the last of them |
| DeploymentLp.AddRowVariables | macc_optimization_model_bau_netzero.py:97-105 | the inner loop adds exactly the row's variables to the map |
| DeploymentLp.CreateVariables | macc_optimization_model_bau_netzero.py:94-105 | the two loops create exactly `Bounds` |
| DeploymentLp.MaxIncreaseAdditive | macc_optimization_target_sheet.py:160-165 | the ramp allowances of consecutive gaps add up to that of the whole gap, and a one-year gap allows one share |
| DeploymentLp.ObjectiveNonNegative | macc_optimization_model_bau_netzero.py:107-122 | with non-negative costs and abatements every decision within its bounds costs at least 0 |
| DeploymentLp.PenetrationAtLeastMember | macc_optimization_model_bau_netzero.py:157-161 | with non-negative levels a product's penetration is at least each of its technologies' deployments |
| DeploymentLp.CompetitorAtMostOne | macc_optimization_model_bau_netzero.py:152-163 | in a decision that respects the competition cap, a technology of a competing product is deployed at most fully, whatever its own bound |
| DeploymentLp.RecordCosts | macc_optimization_model_bau_netzero.py:203-219 | a record's abatement is level times potential, its undiscounted cost the abatement priced per tonne, and its discounted cost that times the year's factor |
| DeploymentLp.ResultsSpec | macc_optimization_model_bau_netzero.py:192-225 | a row is recorded exactly when some technology and listed year have a variable whose level exceeds 0.001, and it is that variable's record |
| DeploymentLp.ExtractRow | macc_optimization_model_bau_netzero.py:198-225 | the loop over one technology's years records its rows and their discounted cost |
| DeploymentLp.ExtractResults | macc_optimization_model_bau_netzero.py:189-228 | the extraction loops yield `Results`, and the total cost is the sum of the recorded discounted costs |
| DeploymentLp.RecordedAbatementIsYearAbatement | macc_optimization_model_bau_netzero.py:132-139 | with no negligible level, the abatement the recorded rows show for a year is the abatement the decision gives that year (see also line 248) |
| DeploymentLp.SolvedValues | macc_optimization_model_bau_netzero.py:200 | each variable reads its solved value, or 0 when it has none |
| TransitionFill.FillShape | macc_optimization_model_bau_netzero.py:315-360 | the fill takes a prefix of the priority order, each facility by a part of its capacity, and only the last step may be partial |
| TransitionFill.FillTotal | macc_optimization_model_bau_netzero.py:315-360 | the fill transitions the target capacity or the total capacity, whichever is smaller |
| TransitionFill.GreedyFill | macc_optimization_model_bau_netzero.py:315-360 | the loop with its early exit computes `Fill` |
| TransitionFill.RowsOf | macc_optimization_model_bau_netzero.py:280 | a technology's rows are exactly the results rows with its id |
| TransitionFill.MinYear | macc_optimization_model_bau_netzero.py:281 | the start year is the smallest year of the technology's rows |
| TransitionFill.DeploymentOf | macc_optimization_model_bau_netzero.py:280-286 | the aggregate carries the technology's id |
| TransitionFill.TechDeployments | macc_optimization_model_bau_netzero.py:280-286 | KeyError exactly for an empty results table; otherwise one aggregate per distinct technology id, in ascending id order |
| TransitionFill.TechDeploymentsOrdered | macc_optimization_model_bau_netzero.py:280-288 | each technology appears once, in ascending id order, and every results row's technology appears |
| TransitionFill.Eligible | macc_optimization_model_bau_netzero.py:293-300 | a cross-cutting technology may transition every facility, any other exactly the facilities of its product |
| TransitionFill.TransitionAbatement | macc_optimization_model_bau_netzero.py:333-336 | a transition abates the rate times the transitioned emissions, in Mt, which is the drop in its emissions |
| TransitionFill.StepsFor | macc_optimization_model_bau_netzero.py:311-360 | at most one step per eligible facility, the k-th on the k-th facility by a fraction in (0, 1] |
| TransitionFill.TransitionsFor | macc_optimization_model_bau_netzero.py:317-357 | the k-th transition is that of the k-th facility of the order with the k-th fill step |
| TransitionFill.TransitionsCoverShare | macc_optimization_model_bau_netzero.py:311-360 | with non-negative capacities and a share in [0, 1], a technology transitions exactly that share of its eligible capacity, over a prefix of the order |
| TransitionFill.TransitionsEligible | macc_optimization_model_bau_netzero.py:288-360 | every transition is of a facility eligible for its technology |
| TransitionFill.TransitionTechnology | macc_optimization_model_bau_netzero.py:288-360 | a technology without eligible facilities has no transitions; otherwise its fill over the eligible facilities in priority order |
| TransitionFill.AnalyzeTransitions | macc_optimization_model_bau_netzero.py:272-366 | KeyError exactly for an empty results table; otherwise the transitions of every aggregated technology, in order |
| FacilityV3.FirstIndexOfYear | archive/development_scripts/run_optimization_model_v3_facility_based.py:60 | the index found is the first row, from the given position on, whose year is the requested one; none exactly when no such row exists |
| FacilityV3.FactorsFor | archive/development_scripts/run_optimization_model_v3_facility_based.py:60 | IndexError exactly when no emission-factor row has the year; otherwise a row of that year (see also line 102) |
| FacilityV3.FuelCostsFor | archive/development_scripts/run_optimization_model_v3_facility_based.py:103 | IndexError exactly when no fuel-cost row has the year; otherwise a row of that year |
| FacilityV3.SortedTargets | archive/development_scripts/run_optimization_model_v3_facility_based.py:379 | the sorted targets are a permutation of the targets, in ascending year order |
| FacilityV3.Segment | archive/development_scripts/run_optimization_model_v3_facility_based.py:387 | an interior year falls in the segment between the last knot at or before it and the next knot |
| FacilityV3.InteriorBetween | archive/development_scripts/run_optimization_model_v3_facility_based.py:387 | a segment's interpolated value lies between its two knot values, and is the left one at the left knot |
| FacilityV3.InterpolateTarget | archive/development_scripts/run_optimization_model_v3_facility_based.py:377-387 | ValueError exactly for an empty target table |
| FacilityV3.InterpolateTargetEarly | archive/development_scripts/run_optimization_model_v3_facility_based.py:381-382 | up to the earliest target year the result is the target of a row with the least year |
| FacilityV3.InterpolateTargetLate | archive/development_scripts/run_optimization_model_v3_facility_based.py:383-384 | from the latest target year on the result is the target of a row with the greatest year |
| FacilityV3.InterpolateTargetWithin | archive/development_scripts/run_optimization_model_v3_facility_based.py:377-387 | the interpolated target never leaves the range of the given targets |
| FacilityV3.ExactYearInterpolates | archive/development_scripts/run_optimization_model_v3_facility_based.py:377-387 | a year with exactly one target value is interpolated to that value |
| FacilityV3.ReductionPct | archive/development_scripts/run_optimization_model_v3_facility_based.py:291-297 | the year's percentage is ValueError exactly for an empty target table |
| FacilityV3.ReductionPctInterpolates | archive/development_scripts/run_optimization_model_v3_facility_based.py:291-297 | when no year has two different targets, the exact-row shortcut agrees with interpolation |
| FacilityV3.ReductionPctWithin | archive/development_scripts/run_optimization_model_v3_facility_based.py:291-297 | the percentage used lies within the range of the given percentages |
| FacilityV3.BaselineIsActivityTimesIntensity | archive/development_scripts/run_optimization_model_v3_facility_based.py:187-213 | a process's baseline emissions are its activity times a per-kt intensity that does not depend on the activity |
| FacilityV3.BaselineRowOf | archive/development_scripts/run_optimization_model_v3_facility_based.py:64-91 | a baseline row fails with KeyError exactly when a feedstock column is missing |
| FacilityV3.BaselineRowAgrees | archive/development_scripts/run_optimization_model_v3_facility_based.py:64-91 | the facility baseline equals the per-process baseline the options use, and its reported intensity is 1000 times the per-kt intensity (see also lines 187-213) |
| FacilityV3.BaselineRows | archive/development_scripts/run_optimization_model_v3_facility_based.py:64-91 | one baseline row per consumption row, in order, exactly when every row can be built; otherwise KeyError |
| FacilityV3.FacilityBaselines | archive/development_scripts/run_optimization_model_v3_facility_based.py:56-93 | the only errors are a missing year (IndexError) and a missing column (KeyError) |
| FacilityV3.FacilityBaselineEmissions | archive/development_scripts/run_optimization_model_v3_facility_based.py:56-93 | the loop computes `FacilityBaselines` |
| FacilityV3.RequiredReduction | archive/development_scripts/run_optimization_model_v3_facility_based.py:291-301 | fails exactly for an empty target table (ValueError, checked first) or no baseline rows (KeyError on the column-less frame, see line 93) |
| FacilityV3.RequiredWithinBaseline | archive/development_scripts/run_optimization_model_v3_facility_based.py:299-301 | with non-negative emissions and a percentage between 0 and 100 the requirement lies between 0 and the total baseline |
| FacilityV3.AlternativeIsCapacityTimesIntensity | archive/development_scripts/run_optimization_model_v3_facility_based.py:215-236 | an alternative's emissions are the capacity times a per-kt intensity that does not depend on the capacity |
| FacilityV3.FuelCostDelta | archive/development_scripts/run_optimization_model_v3_facility_based.py:258-269 | KeyError exactly when an electric technology lacks its electricity column, or a hydrogen one its hydrogen column; no fuel-cost change for any other technology |
| FacilityV3.TechnologyCosts | archive/development_scripts/run_optimization_model_v3_facility_based.py:238-284 | the only errors are ZeroDivisionError and KeyError, and a zero lifetime always divides by zero |
| FacilityV3.CrfZeroLife | archive/development_scripts/run_optimization_model_v3_facility_based.py:252 | the annuity factor divides by zero at a zero lifetime |
| FacilityV3.AnnualCapexRepays | archive/development_scripts/run_optimization_model_v3_facility_based.py:241-253 | with a lifetime of at least one year the costs fail only for a missing energy column, and the annual capex discounted at 8 % over the lifetime repays exactly the adjusted capex |
| FacilityV3.CapexFollowsLaborIndex | archive/development_scripts/run_optimization_model_v3_facility_based.py:242-247 | the capex is the unadjusted capex times the labour index over 100 |
| FacilityV3.Lcoa | archive/development_scripts/run_optimization_model_v3_facility_based.py:147-151 | infinite exactly when nothing is abated; otherwise the annual cost per unit abated |
| FacilityV3.OptionOf | archive/development_scripts/run_optimization_model_v3_facility_based.py:132-171 | an option fails exactly when its costs fail |
| FacilityV3.AbatementRateIsIntensityGap | archive/development_scripts/run_optimization_model_v3_facility_based.py:143-145 | the abatement is the activity times the gap between the two intensities, and the rate is that gap |
| FacilityV3.ViableMeaning | archive/development_scripts/run_optimization_model_v3_facility_based.py:175-180 | an option is viable exactly when it abates something and costs between 0 and 25000 USD per t abated |
| FacilityV3.Collect | archive/development_scripts/run_optimization_model_v3_facility_based.py:110-171 | the nested loops succeed exactly when every piece does, and then collect exactly the pieces' options |
| FacilityV3.ViableOnly | archive/development_scripts/run_optimization_model_v3_facility_based.py:176-180 | exactly the viable options, in order |
| FacilityV3.CreateOptions | archive/development_scripts/run_optimization_model_v3_facility_based.py:95-185 | every option returned is viable |
| FacilityV3.OptionsSound | archive/development_scripts/run_optimization_model_v3_facility_based.py:110-180 | every option comes from an applicable technology for a process row of one of the facilities, and is viable |
| FacilityV3.OptionsComplete | archive/development_scripts/run_optimization_model_v3_facility_based.py:110-180 | every viable option of an applicable technology for a facility's process row is offered |
| FacilityV3.TechOptionsLoop | archive/development_scripts/run_optimization_model_v3_facility_based.py:132-171 | the technology loop computes its `Collect` |
| FacilityV3.RowOptionsLoop | archive/development_scripts/run_optimization_model_v3_facility_based.py:116-171 | the process-row loop computes the facility's options |
| FacilityV3.CreateFacilityTechnologyOptions | archive/development_scripts/run_optimization_model_v3_facility_based.py:95-185 | the loops compute `CreateOptions` |
| FacilityV3.TrlPreferenceDeploysMost | archive/development_scripts/run_optimization_model_v3_facility_based.py:361-371 | the readiness rule as written forces at least 70 % of the mature options to be deployed |
| FacilityV3.TrlPreferenceInfeasible | archive/development_scripts/run_optimization_model_v3_facility_based.py:341-371 | with two mature technologies for one facility process in 2030, no levels satisfy both the one-technology rule and the readiness rule as written |
| FacilityV3.MatureOnlyMeetsShare | archive/development_scripts/run_optimization_model_v3_facility_based.py:361-371 | levels that deploy only mature options meet the readiness rule as meant |
| FacilityV3.HighTrlShareMeaning | archive/development_scripts/run_optimization_model_v3_facility_based.py:361-371 | under the rule as meant, the mature options' share of a positive total deployment is at least 70 % |
| FacilityV3.HighTrlShareSampleFeasible | archive/development_scripts/run_optimization_model_v3_facility_based.py:341-371 | the same two options are feasible under the rule as meant, with one technology at full level |
| FacilityV3.SolveOptimization | archive/development_scripts/run_optimization_model_v3_facility_based.py:389-438 | a status other than optimal reports nothing; otherwise the extracted rows |
| FacilityV3.ExtractedRows | archive/development_scripts/run_optimization_model_v3_facility_based.py:407-425 | a row is reported exactly for an option whose variable has a value above 1 %, scaled by that value |
| FacilityV3.DeploymentWithinOption | archive/development_scripts/run_optimization_model_v3_facility_based.py:420-424 | within [0, 1] a reported row's capacity and abatement are at most the option's, and its LCOA is still the cost per t abated |
| FacilityV3.ReportedAbatementOfRows | archive/development_scripts/run_optimization_model_v3_facility_based.py:407-425 | the reported rows' abatement sums to the sum over the options of their significant abatement |
| FacilityV3.ReportedAbatementNearSolution | archive/development_scripts/run_optimization_model_v3_facility_based.py:407-425 | dropping levels at or below 1 % loses at most 1 % of the total potential abatement |
| FacilityV3.FeasibleReportsTarget | archive/development_scripts/run_optimization_model_v3_facility_based.py:331-339 | levels feasible for the LP report at least the requirement less 1 % of the total potential (see also lines 407-425) |
| MaccDataV2.ViableOptions | archive/development_scripts/run_optimization_model_v2.py:46-53 | the kept options are exactly the matrix options with positive abatement per t and a finite LCOA below 10000, the same multiset as the filter, sorted by ascending LCOA |
| MaccDataV2.YearTable | archive/development_scripts/run_optimization_model_v2.py:46-55 | one row per kept option, in the sorted order; rows ascend in LCOA and each abates something below 10000 USD per t |
| MaccDataV2.YearTableRows | archive/development_scripts/run_optimization_model_v2.py:46-55 | every viable matrix option has a row in the table, and every row comes from a viable matrix option |
| MaccDataV2.CollectFails | archive/development_scripts/run_optimization_model_v2.py:37-55 | the per-year loop fails exactly when some year fails |
| MaccDataV2.CollectEntries | archive/development_scripts/run_optimization_model_v2.py:37-55 | a finished loop has an entry for exactly the listed years, each that year's value |
| MaccDataV2.CollectFailed | archive/development_scripts/run_optimization_model_v2.py:37-55 | a failing year ends the loop with its error |
| MaccDataV2.MaccDataFails | archive/development_scripts/run_optimization_model_v2.py:27-59 | the MACC data fails exactly when some target year's facility-technology matrix fails or is empty; the first empty matrix, with every earlier year tabulated, gives KeyError (the column-less frame at line 48) |
| MaccDataV2.MaccDataTables | archive/development_scripts/run_optimization_model_v2.py:27-59 | on success there is a table for exactly the target years, each from that year's non-empty matrix, filtered and sorted |
| MaccDataV2.CreateMaccDataForOptimization | archive/development_scripts/run_optimization_model_v2.py:27-59 | the loop over the target years computes `MaccData`, stopping with KeyError at a year whose matrix is empty |
| OptimizationV2.ReductionTargets | archive/development_scripts/run_optimization_model_v2.py:68-72 | the required reductions exist for exactly 2030, 2040 and 2050 |
| OptimizationV2.TargetsTighten | archive/development_scripts/run_optimization_model_v2.py:68-72 | for a positive baseline the requirement grows from 2030 to 2050, stays below the baseline, and is 15 %, 50 % and 80 % of it |
| OptimizationV2.CostTermIsPricedAbatement | archive/development_scripts/run_optimization_model_v2.py:96-101 | an option's cost term is its LCOA times the Mt it abates at that fraction (see also lines 106-110) |
| OptimizationV2.ObjectiveIsPricedAbatement | archive/development_scripts/run_optimization_model_v2.py:94-103 | with each option's total abatement equal to capacity times abatement per t, the objective prices every Mt abated at its LCOA |
| OptimizationV2.InvestmentIsCapexShare | archive/development_scripts/run_optimization_model_v2.py:132-134 | with a positive capacity the investment is the deployed fraction of the CAPEX |
| OptimizationV2.ExtractYearResult | archive/development_scripts/run_optimization_model_v2.py:118-174 | the read-back loop computes `YearResultOf` |
| OptimizationV2.DeploymentsReported | archive/development_scripts/run_optimization_model_v2.py:128-150 | a deployment is reported exactly for an option whose value is above 1 %, scaled by that value |
| OptimizationV2.DroppedAtMostOnePercent | archive/development_scripts/run_optimization_model_v2.py:129 | leaving out a fraction at or below 1 % loses at most 1 % of that option's potential |
| OptimizationV2.AchievedNearSolution | archive/development_scripts/run_optimization_model_v2.py:128-137 | reporting only fractions above 1 % loses at most 1 % of the total potential |
| OptimizationV2.OptimalMeetsTarget | archive/development_scripts/run_optimization_model_v2.py:105-137 | an optimal solve of a feasible LP reports at least the target less 1 % of the total potential |
| OptimizationV2.AlphaWithin | archive/development_scripts/run_optimization_model_v2.py:213 | the interpolation weight of a year strictly between two optimised years lies strictly between 0 and 1 |
| OptimizationV2.BlendBetween | archive/development_scripts/run_optimization_model_v2.py:219-220 | a blend of two values with a weight in [0, 1] lies between them |
| OptimizationV2.PathwayRowWith | archive/development_scripts/run_optimization_model_v2.py:187-230 | errors are ValueError; a row carries its year and the baseline, and its emissions and reduction add up to the baseline |
| OptimizationV2.FirstYearDroppedAsWritten | archive/development_scripts/run_optimization_model_v2.py:189-198 | with optimised years 2030 and 2040, the rule as written reports the baseline in 2030 although 2030 achieved 1 Mt, while the corrected rule reports 9 Mt emitted |
| OptimizationV2.AsWrittenDiffersOnlyAtFirst | archive/development_scripts/run_optimization_model_v2.py:189-198 | the rule as written and the corrected rule agree on every year except the first optimised one |
| OptimizationV2.PathwayBeforeFirst | archive/development_scripts/run_optimization_model_v2.py:189-193 | before the first optimised year the pathway is the baseline with nothing abated or invested |
| OptimizationV2.PathwayAtOptimisedYear | archive/development_scripts/run_optimization_model_v2.py:194-199 | an optimised year reports exactly what its optimisation achieved, and its investment in billions |
| OptimizationV2.PathwayBetween | archive/development_scripts/run_optimization_model_v2.py:200-222 | a year between two optimised years abates between what its two neighbours achieved |
| OptimizationV2.PathwayDefinedUpToLast | archive/development_scripts/run_optimization_model_v2.py:203-204 | every year up to the last optimised year has a row; a later year raises ValueError |
| OptimizationV2.Pathway | archive/development_scripts/run_optimization_model_v2.py:187-230 | corrected rule (see ## Findings): on success one row per requested year |
| OptimizationV2.PathwayAsWritten | archive/development_scripts/run_optimization_model_v2.py:187-230 | the rule as written: on success one row per requested year |
| OptimizationV2.PathwayAsWrittenAgrees | archive/development_scripts/run_optimization_model_v2.py:189-198 | over years that leave out the first optimised year, the pathway as written equals the corrected one |
| OptimizationV2.PathwayAsWrittenDropsFirst | archive/development_scripts/run_optimization_model_v2.py:189-193 | with optimised years 2030 and 2040, the pathway as written reports no reduction in 2030, the corrected one the 1 Mt achieved |
| OptimizationV2.PathwayRows | archive/development_scripts/run_optimization_model_v2.py:187-230 | every row of the pathway is the row of its own year |
| OptimizationV2.PathwayRowFromListing | archive/development_scripts/run_optimization_model_v2.py:185-222 | reading the row off the sorted optimised years gives the row `PathwayRowAt` defines |
| OptimizationV2.CreateOptimizationPathway | archive/development_scripts/run_optimization_model_v2.py:179-232 | corrected rule (see ## Findings): the loop over the years computes `Pathway`; `PathwayAsWritten` is the loop as written |
| OptimizationV2.ShareRowsOver | archive/development_scripts/run_optimization_model_v2.py:269-278 | one share row per listed technology |
| OptimizationV2.ShareRowsOverAt | archive/development_scripts/run_optimization_model_v2.py:269-278 | the i-th row is the i-th technology's summed capacity and its share of the total |
| OptimizationV2.ListedCapacityIsTotal | archive/development_scripts/run_optimization_model_v2.py:265-269 | listing every technology once accounts for the whole deployed capacity |
| OptimizationV2.SharesAddUp | archive/development_scripts/run_optimization_model_v2.py:269-278 | the shares of the listed technologies add up to their capacity over the total |
| OptimizationV2.SharesSumToOne | archive/development_scripts/run_optimization_model_v2.py:263-278 | a year's shares add up to 1 whenever anything is deployed |
| OptimizationV2.Scaled | archive/development_scripts/run_optimization_model_v2.py:260-261 | every deployment's capacity is multiplied by the factor, nothing else changes |
| OptimizationV2.ScaledCapacity | archive/development_scripts/run_optimization_model_v2.py:261 | scaling the deployments scales each technology's summed capacity (see also line 269) |
| OptimizationV2.ScaledTotal | archive/development_scripts/run_optimization_model_v2.py:261 | scaling the deployments scales the total (see also line 265) |
| OptimizationV2.ScalingKeepsShares | archive/development_scripts/run_optimization_model_v2.py:255-278 | scaling every deployment by a positive factor scales each technology's capacity and leaves every share as it was |
| OptimizationV2.ScaledShare | archive/development_scripts/run_optimization_model_v2.py:261 | one technology's share is unchanged by scaling every deployment (see also line 272) |
| OptimizationV2.SharesForYearWith | archive/development_scripts/run_optimization_model_v2.py:240-278 | the only errors are ValueError and KeyError |
| OptimizationV2.FirstYearSharesDroppedAsWritten | archive/development_scripts/run_optimization_model_v2.py:242-244 | with 2030 the only optimised year, the rule as written reports no shares for 2030 although a technology was deployed, while the corrected rule reports it with share 1 |
| OptimizationV2.YearSharesSumToOne | archive/development_scripts/run_optimization_model_v2.py:263-278 | every year that has rows splits its capacity completely: the shares add up to 1 |
| OptimizationV2.InterpolatedYearKeepsMix | archive/development_scripts/run_optimization_model_v2.py:249-261 | a year between optimised years keeps the lower neighbour's technologies and shares |
| OptimizationV2.SharesFromListing | archive/development_scripts/run_optimization_model_v2.py:238-261 | reading the rows off the sorted optimised years gives the rows `SharesForYear` defines |
| OptimizationV2.CreateTechnologyShares | archive/development_scripts/run_optimization_model_v2.py:234-280 | corrected rule (see ## Findings): the loop over the years computes `Shares`; `SharesAsWritten` is the loop as written |
| OptimizationV2.SharesAsWritten | archive/development_scripts/run_optimization_model_v2.py:234-280 | the rule as written: the only errors are IndexError, ValueError and KeyError |
| OptimizationV2.SharesAsWrittenAgrees | archive/development_scripts/run_optimization_model_v2.py:240-248 | over years that leave out the first optimised year, the shares as written equal the corrected ones |
| OptimizationV2.SharesAsWrittenDropsFirst | archive/development_scripts/run_optimization_model_v2.py:242-244 | with 2030 the only optimised year, the shares as written over 2030 are empty, the corrected ones list the deployed technology with share 1 |
| EmissionPathway.Coerce | emission_pathway_analysis.py:32-34 | a numeric cell keeps its value and any other cell becomes 0 |
| EmissionPathway.Loaded | emission_pathway_analysis.py:31-34 | a loaded facility keeps its fields and has its capacity coerced |
| EmissionPathway.FactorsOf | emission_pathway_analysis.py:58-65 | IndexError exactly for an empty CI2 sheet; otherwise each factor is the first row's value, or its default 0.056, 0.0045, 0.056 or 0.077 when missing |
| EmissionPathway.BuildCiMap | emission_pathway_analysis.py:48-56 | the map holds, for every (product, process) key, the last CI row with that key |
| EmissionPathway.FirstProductKey | emission_pathway_analysis.py:82-84 | the position found is the first key, in insertion order, with the product; none exactly when no key has it |
| EmissionPathway.LookupCiCases | emission_pathway_analysis.py:79-94 | an exact key gives its entry; otherwise the first entry of the same product; otherwise the default intensities |
| EmissionPathway.EmissionRowScales | emission_pathway_analysis.py:96-123 | emissions are capacity times the per-tonne intensity, and the reported intensity is that per-tonne value for a positive capacity and 0 otherwise |
| EmissionPathway.CurrentEmissionsRows | emission_pathway_analysis.py:70-124 | one row per facility of non-zero capacity, in order, and nothing else |
| EmissionPathway.AsWrittenAgreesWithoutFallback | emission_pathway_analysis.py:79-94 | when no facility needs the product-only fallback, the code as written computes the corrected table |
| EmissionPathway.StaleCiCounterexample | emission_pathway_analysis.py:79-94 | a polypropylene facility whose process is unlisted, after a polyethylene one with an exact entry, is computed with the polyethylene intensities by the code as written, and with the polypropylene entry by the corrected lookup |
| EmissionPathway.UnboundCiCounterexample | emission_pathway_analysis.py:79-94 | a first facility that needs the product-only fallback reads an unbound `ci_data` in the code as written, while the corrected lookup gives it a row |
| EmissionPathway.ActiveIff | emission_pathway_analysis.py:144-151 | a facility operates in a year exactly when it has started and the year is within its lifetime or before 2029 |
| EmissionPathway.ActiveCount | emission_pathway_analysis.py:160-161 | the number of operating facilities is at most the number of facilities |
| EmissionPathway.BauPathway | emission_pathway_analysis.py:138-162 | one row per year from 2023 to the end year, in order |
| EmissionPathway.SamePathwayBefore2029 | emission_pathway_analysis.py:146-151 | before 2029 every lifetime gives the same emissions and the same count |
| EmissionPathway.LongerLifetimeNoLower | emission_pathway_analysis.py:146-151 | a longer lifetime never lowers a year's emissions or count |
| EmissionPathway.AnnualKtBounds | emission_pathway_analysis.py:140-152 | with non-negative rows a year's emissions lie between 0 and the sum of all facilities' emissions |
| EmissionPathway.BuildPathway | emission_pathway_analysis.py:138-162 | the nested loops compute `BauPathway` |
| EmissionPathway.RetirementSchedule | emission_pathway_analysis.py:193-205 | one row per facility, in order, retiring 25 years after its start with its capacity and emissions |
| EmissionPathway.RetirementMatchesPathway | emission_pathway_analysis.py:146-151 | under the 25-year pathway a facility retiring in 2029 or later operates exactly from its start to its retirement year, and one due earlier operates until 2029 (see also lines 194-195) |
| EmissionPathway.RetiringIn | emission_pathway_analysis.py:210-214 | a year's group counts at most all facilities |
| EmissionPathway.RetiringInCount | emission_pathway_analysis.py:210-214 | a year has a group row exactly when some facility retires in it |
| EmissionPathway.NaturalReductionRange | emission_pathway_analysis.py:247 | the natural reduction is 0 for non-positive current emissions, a percentage when 2050 emits between nothing and today, 0 when nothing changes and 100 when 2050 emits nothing (see also line 253) |
| EmissionPathway.NaturalReductionAntitone | emission_pathway_analysis.py:247 | more emissions in 2050 never mean a larger natural reduction (see also line 253) |
| EmissionPathway.FindYear | emission_pathway_analysis.py:224 | the row found is the first row of the year; none exactly when no row has it (see also line 230) |
| EmissionPathway.PeakIndex | emission_pathway_analysis.py:228 | the peak is the first row of maximum emissions |
| EmissionPathway.ScenarioStatsOf | emission_pathway_analysis.py:228-230 | KeyError for an empty pathway, whose frame has no columns, IndexError without a 2050 row; otherwise the peak is the first row of maximum emissions (`idxmax`), the 2050 figure is the first 2050 row's emissions, and the natural reduction compares it with today (see also line 247) |
| EmissionPathway.SummaryOf | emission_pathway_analysis.py:223-235 | KeyError for an empty 25-year pathway, IndexError without a 2023 row; otherwise the current figures are the 2023 row of the 25-year pathway and each scenario's statistics are its own |
| EmissionPathway.SummaryStatistics | emission_pathway_analysis.py:223-256 | fails exactly when the pathway figures fail or the emissions table is empty, the latter with KeyError from the product breakdown; otherwise the pathway figures |
| EmissionPathway.FreshSummaryStatistics | emission_pathway_analysis.py:218-256 | for fresh pathways to 2050 the summary fails exactly for an empty emissions table, and then with KeyError |
| EmissionPathway.FreshSummary | emission_pathway_analysis.py:218-256 | for pathways to 2050 the summary exists, its current figures are those of 2023, and the 30-year scenario emits at least as much in 2050 as the 25-year one, so its natural reduction is never larger |
| EmissionPathway.EmissionPathwayAnalyzer.constructor | emission_pathway_analysis.py:15-41 | the sheets are stored as read, capacities coerced, and nothing is computed yet |
| EmissionPathway.EmissionPathwayAnalyzer.CalculateCurrentEmissions | emission_pathway_analysis.py:43-129 | IndexError exactly for an empty CI2 sheet; otherwise the corrected emissions table, which is stored |
| EmissionPathway.EmissionPathwayAnalyzer.CreateBauPathway | emission_pathway_analysis.py:131-172 | AttributeError exactly when no emissions table exists; otherwise `BauPathway`, cached only for lifetimes 25 and 30 |
| EmissionPathway.EmissionPathwayAnalyzer.CreateBothPathways | emission_pathway_analysis.py:174-184 | the 25- and 30-year pathways, both cached; AttributeError without an emissions table |
| EmissionPathway.EmissionPathwayAnalyzer.AnalyzeFacilityRetirement | emission_pathway_analysis.py:186-216 | AttributeError without an emissions table, KeyError for an empty one, otherwise `RetirementSchedule` |
| EmissionPathway.EmissionPathwayAnalyzer.GenerateSummaryStatistics | emission_pathway_analysis.py:218-258 | with both pathways cached, their `SummaryStatistics` with the emissions table; otherwise that of fresh pathways to 2050, or AttributeError without an emissions table |
| TechTables.MaxCapacity | petrochem/lib/optimization/model_builder_corrected.py:93-110 | 0 for a process missing from the baseline; otherwise the source band's capacity (transitions) or the process production (alternatives) times the maximum applicability; a transition without a source band fails with AttributeError, and only then |
| TechTables.TechnologyRow | petrochem/lib/optimization/model_builder.py:61-87 | the inner year loop fills a cell for every timeline year of one technology, each equal to the cell function's value, or returns the failure of a year that fails |
| TechTables.TechnologyParameters | petrochem/lib/optimization/model_builder.py:58-87 | the outer loop succeeds exactly when every technology's cells are defined, returns the cell table then, and otherwise the failure of some technology and year |
| TechTables.CellTableAt | petrochem/lib/optimization/model_builder.py:89-92 | every (technology, year) pair of the timeline has a cell in the table, equal to that technology's cell for that year |
| ModelBuilder.CellOf | petrochem/lib/optimization/model_builder.py:61-87 | before the start year all parameters are zero; from it on the cell exists exactly when the capacity does, and capex is the capex per kt over 1000 and activity the applicable capacity times the maximum applicability |
| ModelBuilder.Members | petrochem/lib/optimization/model_builder.py:169-175 | the members of a key are exactly the ids of the transitions with that (process, source band) key |
| ModelBuilder.GroupsOf | petrochem/lib/optimization/model_builder.py:167-175 | the grouping dict has distinct keys |
| ModelBuilder.GroupsAreMembers | petrochem/lib/optimization/model_builder.py:167-175 | the list stored under a key is exactly its members, and a key is stored if and only if it has a member |
| ModelBuilder.ExclusivityGroups | petrochem/lib/optimization/model_builder.py:167-175 | the grouping loop produces the grouping dict |
| ModelBuilder.ExclusivityCaps | petrochem/lib/optimization/model_builder.py:177-192 | fails with AttributeError exactly when a group of two or more transitions of a baseline process has no band; otherwise there is one cap per such group, at that band's capacity, and no other caps |
| ModelBuilder.Build | petrochem/lib/optimization/model_builder.py:17-46 | build_model fails with AttributeError (a cell), ValueError (empty timeline), ZeroDivisionError (a discount factor), KeyError (a ramp rule reaching a year outside the timeline) or AttributeError (a group without a band), in that order, and succeeds exactly when none applies |
| ModelBuilder.AssembledWellFormed | petrochem/lib/optimization/model_builder.py:163-192 | every exclusivity cap lists only registered technologies, so a built model is well formed |
| ModelBuilder.BuildCells | petrochem/lib/optimization/model_builder.py:61-87 | each cell of a built model is zero before the technology's start, and from then on holds capex in USD per t, the opex delta, the abatement and the capped activity |
| ModelBuilder.BuildCellIsCellOf | petrochem/lib/optimization/model_builder.py:89-92 | a built model's cell is the cell computed for that technology and year |
| ModelBuilder.BuildScalars | petrochem/lib/optimization/model_builder.py:93-106 | lifetimes and ramp rates are the technologies' own, and each requirement is the scenario's required abatement times 1e6, never negative |
| ModelBuilder.DiscountFromFirstYear | petrochem/lib/optimization/model_builder.py:108-112 | the discount factor is 1 in the earliest timeline year and, for a positive rate, strictly falls with the year |
| ModelBuilder.GapInTimelineRaisesKeyError | petrochem/lib/optimization/model_builder.py:143-148 | for a non-empty portfolio and a timeline with a gap, build_model fails with KeyError, because the ramp rule indexes the year before the gap |
| ModelBuilder.ConsecutiveTimelineRamps | petrochem/lib/optimization/model_builder.py:143-148 | on a timeline of consecutive years the ramp rule never indexes a year outside it |
| ModelBuilder.NothingWithoutActivity | petrochem/lib/optimization/model_builder.py:131-140 | where the activity is zero, a feasible decision deploys and abates nothing |
| ModelBuilder.AbatementWithinActivity | petrochem/lib/optimization/model_builder.py:131-140 | feasible abatement never exceeds full activity times the abatement per t times 1000 |
| ModelBuilder.RampChain | petrochem/lib/optimization/model_builder.py:143-148 | over n consecutive timeline years, deployment grows by at most the summed ramp allowance |
| ModelBuilder.ExclusiveMemberWithinBand | petrochem/lib/optimization/model_builder.py:181-188 | a feasible decision never deploys a capped group's member beyond the band capacity |
| ModelBuilder.BuildExclusivity | petrochem/lib/optimization/model_builder.py:169-192 | two transitions of a baseline process leaving the same band share a cap equal to that band's capacity in the built model |
| ModelBuilder.SharedGroup | petrochem/lib/optimization/model_builder.py:169-175 | two transitions with the same key both appear in the group stored under that key, and the group has more than one member |
| ModelBuilder.BuildCaps | petrochem/lib/optimization/model_builder.py:177-192 | a built model carries exactly the caps of the capped groups |
| ModelBuilder.ShortfallInMt | petrochem/lib/optimization/model_builder.py:152-157 | with slack, feasible abatement in Mt plus the shortfall covers the required abatement |
| ModelBuilder.CostTermUnits | petrochem/lib/optimization/model_builder.py:197-204 | the cost term in USD is the discount factor times (capex per kt times deployment in kt plus opex per t times deployment in t) |
| ModelBuilder.ObjectiveNonNegative | petrochem/lib/optimization/model_builder.py:197-214 | for non-negative costs and factors, every feasible decision costs at least 0 |
| ModelBuilder.IdleDecisionPaysOnlyPenalty | petrochem/lib/optimization/model_builder.py:197-214 | a decision that deploys nothing costs only the slack penalty stream, or 0 without slack |
| ModelBuilder.RampYears | petrochem/lib/optimization/model_builder.py:143-145 | the years that carry a ramp constraint are the timeline years other than the first |
| ModelBuilder.RampYearsCount | petrochem/lib/optimization/model_builder.py:143-145 | on a timeline without repeats, exactly one year has no ramp constraint |
| ModelBuilder.Summarize | petrochem/lib/optimization/model_builder.py:223-246 | the summary counts technologies times years for each indexed variable and constraint, technologies times (years - 1) ramp constraints, one target per year, shortfalls only with slack, and no more populated parameters than cells |
| ModelBuilder.RampConstraintCount | petrochem/lib/optimization/model_builder.py:239 | the reported ramp count equals one constraint per technology and non-first year |
| ModelBuilder.MaccModelBuilder.constructor | petrochem/lib/optimization/model_builder.py:12-15 | stores the scenario and the portfolio with no model built |
| ModelBuilder.MaccModelBuilder.BuildModel | petrochem/lib/optimization/model_builder.py:17-46 | returns the build result, and stores the model only when building succeeds |
| ModelBuilder.MaccModelBuilder.GetModelSummary | petrochem/lib/optimization/model_builder.py:218-246 | no summary (the "Model not built yet" entry) exactly when no model is stored, otherwise the stored model's summary |
| ModelBuilderCorrected.CellOf | petrochem/lib/optimization/model_builder_corrected.py:61-80 | before the start year the cell is all zero; from then on its maximum capacity is the applicable capacity times the maximum applicability, and the only failure is AttributeError |
| ModelBuilderCorrected.CapitalRecovery | petrochem/lib/optimization/model_builder_corrected.py:128-134 | the capital recovery factor fails with ZeroDivisionError exactly when the lifetime is 0 |
| ModelBuilderCorrected.CrfDefinedAwayFromZero | petrochem/lib/optimization/model_builder_corrected.py:130-131 | for a positive rate and a non-zero lifetime, the annuity denominator is never zero |
| ModelBuilderCorrected.CapitalRecoveryRepays | petrochem/lib/optimization/model_builder_corrected.py:126-134 | for a positive rate, CRF times the annuity factor is 1 and CRF is at least 1/L; for a zero or negative rate, CRF times L is 1 |
| ModelBuilderCorrected.CrfTable | petrochem/lib/optimization/model_builder_corrected.py:127-135 | the CRF dict has exactly the portfolio's ids, each with its technology's capital recovery factor |
| ModelBuilderCorrected.Build | petrochem/lib/optimization/model_builder_corrected.py:17-46 | build_model fails with AttributeError (a cell), ValueError (empty timeline) or ZeroDivisionError (a discount factor or a zero lifetime), and succeeds exactly when none applies; a built model is well formed, keeps the slack flag and the timeline, and has exactly the portfolio's technologies |
| ModelBuilderCorrected.TechsOf | petrochem/lib/optimization/model_builder_corrected.py:221-225 | the technologies counted in a process balance are exactly those of that process |
| ModelBuilderCorrected.BuildCells | petrochem/lib/optimization/model_builder_corrected.py:61-86 | each cell of a built model is zero before the technology's start, and from then on holds capex in million USD per kt, the opex delta, the abatement and the capped capacity |
| ModelBuilderCorrected.BuildCellIsCellOf | petrochem/lib/optimization/model_builder_corrected.py:82-86 | a built model's cell is the cell computed for that technology and year |
| ModelBuilderCorrected.BuildScalars | petrochem/lib/optimization/model_builder_corrected.py:85-118 | lifetimes and ramp rates are the technologies' own, and each requirement is the required abatement times 1e6, never negative |
| ModelBuilderCorrected.DiscountFromFirstYear | petrochem/lib/optimization/model_builder_corrected.py:120-124 | the discount factor is 1 in the earliest timeline year and, for a positive rate, strictly falls with the year |
| ModelBuilderCorrected.NothingWhileUnavailable | petrochem/lib/optimization/model_builder_corrected.py:179-198 | in a year whose cell is all zero, a feasible decision installs and abates nothing |
| ModelBuilderCorrected.TotalCapacityBounded | petrochem/lib/optimization/model_builder_corrected.py:160-182 | with installations bounded by b, total capacity is at most b per alive vintage and at most b times the lifetime |
| ModelBuilderCorrected.AbatementWithinCapacity | petrochem/lib/optimization/model_builder_corrected.py:175-198 | abatement never exceeds available capacity times the abatement per t times 1000 |
| ModelBuilderCorrected.ProductionWithinProcess | petrochem/lib/optimization/model_builder_corrected.py:212-231 | no technology produces more than its process's baseline production |
| ModelBuilderCorrected.TargetMetWithoutSlack | petrochem/lib/optimization/model_builder_corrected.py:201-206 | without slack, each year's abatement reaches the required abatement in tonnes, that is baseline minus target emissions times 1e6 |
| ModelBuilderCorrected.ObjectiveNonNegative | petrochem/lib/optimization/model_builder_corrected.py:236-262 | for non-negative costs and factors, every feasible decision costs at least 0 |
| ModelBuilderCorrected.IdleDecisionPaysOnlyPenalty | petrochem/lib/optimization/model_builder_corrected.py:236-262 | a decision that installs and produces nothing pays only the shortfall penalty, or 0 without slack |
| ModelBuilderCorrected.Summarize | petrochem/lib/optimization/model_builder_corrected.py:271-294 | each per-(technology, year) variable family has technologies times years members; there is one shortfall per year with slack and none without |
| ModelBuilderCorrected.CorrectedMaccModelBuilder.constructor | petrochem/lib/optimization/model_builder_corrected.py:12-15 | stores the scenario and the portfolio with no model built |
| ModelBuilderCorrected.CorrectedMaccModelBuilder.BuildModel | petrochem/lib/optimization/model_builder_corrected.py:17-46 | returns the build result and stores the model only when building succeeds |
| ModelBuilderCorrected.CorrectedMaccModelBuilder.GetModelSummary | petrochem/lib/optimization/model_builder_corrected.py:266-294 | no summary exactly when no model is stored, otherwise the stored model's summary |
| ModelPyomo.ParamTable | archive/non_essential_data/petrochem/model_pyomo.py:12-27 | the parameter table covers every (technology, year) pair, with the series value there and 0 for a None entry |
| ModelPyomo.Requirement | archive/non_essential_data/petrochem/model_pyomo.py:36 | the requirement is never negative and is 0 for a year without a target; it is positive exactly when the target is below the baseline, and then equals the gap times 1e6 |
| ModelPyomo.KnownMembers | archive/non_essential_data/petrochem/model_pyomo.py:86 | a group keeps exactly its members that are known technologies |
| ModelPyomo.KeptGroupsSpec | archive/non_essential_data/petrochem/model_pyomo.py:84-93 | a group is registered under its index exactly when it has a known member, and then with exactly its known members |
| ModelPyomo.KeptCouplingsSpec | archive/non_essential_data/petrochem/model_pyomo.py:96-104 | a coupling is registered under its index exactly when both of its technologies are known |
| ModelPyomo.RegisterGroups | archive/non_essential_data/petrochem/model_pyomo.py:84-93 | the group-registration loop registers exactly the kept groups |
| ModelPyomo.RegisterCouplings | archive/non_essential_data/petrochem/model_pyomo.py:96-104 | the coupling-registration loop registers exactly the kept couplings |
| ModelPyomo.Scalars | archive/non_essential_data/petrochem/model_pyomo.py:29-34 | the per-technology scalar maps hold each technology's own value |
| ModelPyomo.BuildModel | archive/non_essential_data/petrochem/model_pyomo.py:5-113 | build_model fails with KeyError for missing parameters, ValueError for no base year and no years, or ZeroDivisionError for a discount factor, and succeeds exactly when none applies; a built model is well formed, with the given years, slack flag and technologies, the requirements above and the discount factors from the base year |
| ModelPyomo.DiscountIsOneAtBase | archive/non_essential_data/petrochem/model_pyomo.py:39-43 | the discount factor is exactly 1 in the base year |
| ModelPyomo.NoShareBeforeStart | archive/non_essential_data/petrochem/model_pyomo.py:53-62 | no technology holds a share before its start year |
| ModelPyomo.ShareBoundedByRamp | archive/non_essential_data/petrochem/model_pyomo.py:53-66 | a share is at most the ramp per alive vintage, and at most ramp times life |
| ModelPyomo.TargetMetWithoutSlack | archive/non_essential_data/petrochem/model_pyomo.py:76-81 | without slack, each year's abatement reaches max(0, baseline - target) times 1e6 |
| ModelPyomo.GroupMemberShareAtMostOne | archive/non_essential_data/petrochem/model_pyomo.py:89-90 | every member of a registered group holds a share of at most 1 |
| ModelPyomo.CouplingChain | archive/non_essential_data/petrochem/model_pyomo.py:100-101 | a primary with a positive share forces a positive share on its secondary, and couplings chain transitively |
| ModelPyomo.Objective | archive/non_essential_data/petrochem/model_pyomo.py:107-111 | the NPV objective is undefined (ZeroDivisionError) exactly when some technology has a zero lifetime and there are years |
| ModelPyomo.ObjectiveNonNegative | archive/non_essential_data/petrochem/model_pyomo.py:107-111 | for non-negative costs, every feasible decision has a defined cost of at least 0 |
| ModelPyomo.Candidates | archive/non_essential_data/petrochem/model_pyomo.py:116 | "auto" tries highs, glpk and cbc in that order; any other name is tried alone |
| ModelPyomo.SolveModel | archive/non_essential_data/petrochem/model_pyomo.py:115-128 | solve_model succeeds exactly when some candidate solves, returns the first candidate that does, and otherwise raises RuntimeError |
| ModelPyomo.CandidatesDistinct | archive/non_essential_data/petrochem/model_pyomo.py:116 | no solver is tried twice |
| Validators.SheetsReport | archive/non_essential_data/petrochem/lib/data/validators.py:26-34 | the sheet loop fails with TypeError exactly when some present sheet's frame validation fails |
| Validators.SheetsReportMeaning | archive/non_essential_data/petrochem/lib/data/validators.py:26-34 | the sheet loop keeps a result consistent and valid exactly when every present sheet is valid; it warns about every absent sheet and keeps every error of every present sheet |
| Validators.ColumnValues | archive/non_essential_data/petrochem/lib/data/validators.py:52-53 | the id set of a column is exactly its values, and KeyError exactly when the column is missing |
| Validators.CheckIdPair | archive/non_essential_data/petrochem/lib/data/validators.py:51-61 | one cross check fails with KeyError exactly when both sheets are present and an id column is missing; otherwise left ids missing on the right add one error and invalidate the result, and right ids missing on the left add one warning |
| Validators.CrossReferences | archive/non_essential_data/petrochem/lib/data/validators.py:46-76 | _validate_cross_references fails exactly when a present sheet pair lacks its id column, and otherwise gives a consistent result: an error for each id set not covered, a warning for each superfluous one |
| Validators.ExcelReportMeaning | archive/non_essential_data/petrochem/lib/data/validators.py:14-43 | validate_excel_data's result is consistent and valid exactly when every present schema sheet and the cross checks are valid; it warns about every absent sheet and keeps every sheet and cross-check error |
| Validators.ExcelReportFailures | archive/non_essential_data/petrochem/lib/data/validators.py:14-43 | validate_excel_data fails exactly when a present sheet's validation or the cross check fails, and then with TypeError or KeyError |
| Validators.ValidateExcelData | archive/non_essential_data/petrochem/lib/data/validators.py:14-43 | the imperative run on one result object ends in the state given by the workbook report, or in its failure |
| Validators.IncreaseWarningsMembers | archive/non_essential_data/petrochem/lib/data/validators.py:88-94 | the increase warnings name exactly the neighbouring target years whose target rises by more than 10% |
| Validators.NeighboursAreConsecutive | archive/non_essential_data/petrochem/lib/data/validators.py:88 | in the sorted list of target years, neighbours are exactly consecutive target years |
| Validators.IntensityChecksMeaning | archive/non_essential_data/petrochem/lib/data/validators.py:108-112 | the intensity loop keeps a result consistent and invalidates it exactly when some intensity is negative; it adds exactly one error per negative intensity and one warning per intensity above 5 |
| Validators.ScenarioReportMeaning | archive/non_essential_data/petrochem/lib/data/validators.py:79-114 | validate_scenario's result is consistent and invalid exactly when the process emissions miss the total by more than 0.1 Mt or an intensity is negative; it warns about the baseline year exactly when the timeline lacks it, and about a pair of consecutive target years exactly when the later target is more than 10% higher |
| Validators.ValidateScenario | archive/non_essential_data/petrochem/lib/data/validators.py:79-114 | the imperative run returns a fresh result whose state is the scenario report |
| Validators.WarnIncreases | archive/non_essential_data/petrochem/lib/data/validators.py:92-94 | the loop appends exactly the increase warnings and changes nothing else |
| Validators.CheckIntensities | archive/non_essential_data/petrochem/lib/data/validators.py:108-112 | the loop leaves the result in the state the intensity checks give |
| Validators.TechIds | archive/non_essential_data/petrochem/lib/data/validators.py:122 | the id list has one id per technology, in order |
| Validators.RepeatsIffDuplicates | archive/non_essential_data/petrochem/lib/data/validators.py:123-124 | the length test finds a repeat exactly when some id is listed twice |
| Validators.ScanTechnologiesFails | archive/non_essential_data/petrochem/lib/data/validators.py:132-149 | the per-technology loop fails exactly when some technology's LCOA fails, and with that failure |
| Validators.ScanTechnologiesEmptyLists | archive/non_essential_data/petrochem/lib/data/validators.py:141-146 | the loop's error list is empty exactly when no applicability exceeds 1; the negative-abatement list is empty exactly when no abatement is negative |
| Validators.ScanTechnologiesMeaning | archive/non_essential_data/petrochem/lib/data/validators.py:132-149 | on success each list holds exactly the technologies its test picks: applicability above 1, ramp above 1, negative LCOA, negative abatement, LCOA above 50000 |
| Validators.SameBandEmpty | archive/non_essential_data/petrochem/lib/data/validators.py:162-168 | no transition is listed exactly when every transition changes band |
| Validators.SameBand | archive/non_essential_data/petrochem/lib/data/validators.py:162-165 | the listed ids are exactly those of the transitions whose source and target band coincide |
| Validators.PortfolioReportMeaning | archive/non_essential_data/petrochem/lib/data/validators.py:117-170 | validate_portfolio fails exactly when some LCOA fails; otherwise its result is consistent and invalid exactly when an id repeats, an applicability exceeds 1, an abatement is negative or a transition keeps its band |
| Validators.KeyedPortfolioHasNoDuplicates | archive/non_essential_data/petrochem/lib/data/validators.py:121-125 | a portfolio keyed by id never reports duplicate ids |
| Validators.CollectSameBand | archive/non_essential_data/petrochem/lib/data/validators.py:162-165 | the transition loop collects exactly the same-band transitions |
| Validators.ValidatePortfolio | archive/non_essential_data/petrochem/lib/data/validators.py:117-170 | the imperative run returns a fresh result in the portfolio report's state, or the report's failure |
| Validators.CheckTechnologies | archive/non_essential_data/petrochem/lib/data/validators.py:128-149 | the per-technology loop writes the constraint messages into the result and returns the three lists of the scan, or fails as the scan does |
| Validators.CheckTechnology | archive/non_essential_data/petrochem/lib/data/validators.py:133-149 | one pass of the loop leaves the result and the lists as one scan step gives them |
| Validators.CheckConstraints | archive/non_essential_data/petrochem/lib/data/validators.py:144-149 | an error for applicability above 1 and a warning for a ramp rate above 1, and nothing else |
| Validators.RequiredAbatements | archive/non_essential_data/petrochem/lib/data/validators.py:189 | one required abatement per listed year, each that year's and never negative |
| Validators.PortfolioProcesses | archive/non_essential_data/petrochem/lib/data/validators.py:204-205 | the covered processes are exactly those some technology addresses, without "All" |
| Validators.Uncovered | archive/non_essential_data/petrochem/lib/data/validators.py:203-207 | the uncovered processes are exactly the baseline processes that no technology addresses, "All" included |
| Validators.FeasibilityCheck | archive/non_essential_data/petrochem/lib/data/validators.py:191-200 | one error when the largest requirement exceeds the potential, otherwise one warning when it exceeds 80% of it, with a share in (80, 100] of a positive potential; otherwise the result is unchanged |
| Validators.ShareBounds | archive/non_essential_data/petrochem/lib/data/validators.py:196-198 | a requirement above 80% of a potential it does not exceed is a share in (80, 100] of a positive potential |
| Validators.MaxRequired | archive/non_essential_data/petrochem/lib/data/validators.py:189 | the largest required abatement is one of the timeline's, at least every other, and never negative |
| Validators.ModelInputsMeaning | archive/non_essential_data/petrochem/lib/data/validators.py:173-211 | validate_model_inputs fails when the portfolio's costs fail, and otherwise with ValueError exactly when the timeline is empty; the result is invalid exactly when the scenario or the portfolio is invalid or the requirement exceeds the potential; it keeps every message of both and ends with the coverage warning exactly when a process is uncovered |
| Validators.ValidateModelInputs | archive/non_essential_data/petrochem/lib/data/validators.py:173-211 | the imperative run returns a fresh result in the model-inputs report's state, or its failure |
| Validators.CheckFeasibilityAndCoverage | archive/non_essential_data/petrochem/lib/data/validators.py:187-209 | the last two checks leave the result in the state the feasibility and coverage functions give |
| Validators.CheckFeasibility | archive/non_essential_data/petrochem/lib/data/validators.py:191-200 | the feasibility branch leaves the result in the state the feasibility check gives |
| Schemas.DeclaredRanges | petrochem/lib/data/schemas.py:47-98 | the declared inclusive ranges of the applicability, readiness, penetration, TRL and ramp-rate columns |
| Schemas.AddersKeepConsistent | petrochem/lib/data/schemas.py:22-27 | adding an error or a warning, or absorbing a consistent result, keeps a result consistent: invalid exactly when it holds an error |
| Schemas.DataValidationResult.constructor | petrochem/lib/data/schemas.py:15-20 | the result holds the given validity, errors and warnings |
| Schemas.DataValidationResult.AddError | petrochem/lib/data/schemas.py:22-24 | add_error appends the message, makes the result invalid and leaves the warnings alone |
| Schemas.DataValidationResult.AddWarning | petrochem/lib/data/schemas.py:26-27 | add_warning appends the message and leaves the validity and the errors alone |
| Schemas.DataValidationResult.Absorb | archive/non_essential_data/petrochem/lib/data/validators.py:29-32 | extending by another result appends its errors and warnings and keeps validity only when the other result is valid |
| Schemas.MissingColumnsOf | petrochem/lib/data/schemas.py:107 | the missing columns are exactly the required columns the frame lacks |
| Schemas.CheckColumns | petrochem/lib/data/schemas.py:113-125 | the column loop fails with TypeError exactly when a ranged numeric column holds text; otherwise it keeps consistency, is valid exactly when no range is violated, warns exactly about typed columns with nulls and reports exactly the violated ranges |
| Schemas.DataframeReport | petrochem/lib/data/schemas.py:102-127 | missing required columns give exactly one error and nothing else; the result is always consistent, and the only failure is TypeError |
| Schemas.DataframeChecks | petrochem/lib/data/schemas.py:112-127 | with all required columns present: a null warning per typed column with an empty cell, a range error per ranged numeric column with a value outside its inclusive range, nothing else; valid exactly when there is no range error |
| Schemas.CheckColumnsErrSticky | petrochem/lib/data/schemas.py:113-125 | once the column loop fails on a prefix, it fails on the whole list |
| Schemas.CheckColumnInto | petrochem/lib/data/schemas.py:114-125 | one pass of the loop on the result object succeeds exactly when the functional step does, and leaves the object in its state |
| Schemas.ValidateDataframe | petrochem/lib/data/schemas.py:102-127 | the imperative run returns a fresh result in the frame report's state, or TypeError exactly when the report fails |
| Schemas.CheckAllColumns | petrochem/lib/data/schemas.py:113-125 | the loop over data_types fills the result as the column function does, and reports whether it succeeded |
| Portfolio.ForProcess | petrochem/lib/core/portfolio.py:23-26 | the technologies of a process are exactly those of that process or of "All", in order |
| Portfolio.FromBand | petrochem/lib/core/portfolio.py:28-31 | the transitions from a band are exactly those of the process whose source band is that band |
| Portfolio.BestIndex | petrochem/lib/core/portfolio.py:56 | max by abatement picks a largest abatement, the first of equals |
| Portfolio.LastSegment | petrochem/lib/core/portfolio.py:51 | the part after the last underscore is a suffix of the key without underscores |
| Portfolio.BandKeySuffix | petrochem/lib/core/portfolio.py:51 | a band key "<process>_<band>" parses back to its band |
| Portfolio.TotalPotentialNonNegative | petrochem/lib/core/portfolio.py:38-74 | with non-negative data, the total abatement potential is non-negative |
| Portfolio.BandPotentialOfBandKey | petrochem/lib/core/portfolio.py:46-63 | a band listed as "<process>_<band>" is credited with its capacity times the best transition's abatement and applicability over 1000, or 0 when no transition starts there |
| Portfolio.MaccRowsSpec | petrochem/lib/core/portfolio.py:80-107 | the MACC rows are exactly those of the started technologies with positive abatement in the year; the curve fails exactly when one of them has no LCOA |
| Portfolio.LcoaLeTotalPreorder | petrochem/lib/core/portfolio.py:111 | the LCOA order used by the sort is a total preorder |
| Portfolio.SortedCurve | petrochem/lib/core/portfolio.py:109-112 | the sorted curve has one point per row |
| Portfolio.MaccCurveShape | petrochem/lib/core/portfolio.py:76-114 | the curve is a permutation of the kept rows in ascending LCOA; each cumulative value is the running sum of abatements, so the column rises strictly |
| Portfolio.SortedCurveShape | petrochem/lib/core/portfolio.py:109-112 | sorting keeps the rows as a multiset and orders them by LCOA; the cumulative column is the running total and rises strictly |
| Portfolio.CostEffective | petrochem/lib/core/portfolio.py:116-119 | exactly the technologies whose LCOA is at most the threshold (inf never is), failing exactly when some LCOA fails |
| Portfolio.CostEffectiveAppend | petrochem/lib/core/portfolio.py:116-119 | the list keeps the portfolio's order: for two portfolios one after the other it is the first's list followed by the second's |
| Portfolio.CostEffectiveHaveAbatement | petrochem/lib/core/portfolio.py:116-119 | a technology without positive abatement is never cost-effective |
| Portfolio.FiniteLcoas | petrochem/lib/core/portfolio.py:129-130 | the finite LCOAs are exactly those of the technologies whose LCOA is finite |
| Portfolio.ProcessTypes | petrochem/lib/core/portfolio.py:127 | the covered processes are exactly the technologies' process types |
| Portfolio.SummaryStatistics | petrochem/lib/core/portfolio.py:121-141 | the summary counts the technologies and processes; min <= average <= max over finite LCOAs, all 0 when there are none, and min and max are LCOAs of the portfolio |
| Portfolio.PutKeyedById | petrochem/lib/core/portfolio.py:16 | storing a technology under its id keeps the dict keyed by id and adds exactly that entry |
| Portfolio.TechPortfolio.constructor | petrochem/lib/core/portfolio.py:9-12 | the three dicts start empty and the portfolio is keyed by id |
| Portfolio.TechPortfolio.AddTechnology | petrochem/lib/core/portfolio.py:14-21 | the technology is stored under its id, and also among the transitions or the alternatives by its class; the dicts stay keyed by id |
| Portfolio.TechPortfolio.TechnologiesForProcess | petrochem/lib/core/portfolio.py:23-26 | get_technologies_for_process returns exactly the stored technologies of the process or of "All" |
| Portfolio.TechPortfolio.TransitionsFromBand | petrochem/lib/core/portfolio.py:28-31 | get_transitions_from_band returns exactly the stored transitions of the process from that band |
| Portfolio.TechPortfolio.AlternativesForProcess | petrochem/lib/core/portfolio.py:33-36 | get_alternatives_for_process returns exactly the stored alternatives of the process or of "All" |
| Portfolio.TechPortfolio.CalculateTotalAbatementPotential | petrochem/lib/core/portfolio.py:38-74 | the nested loops compute the total potential: each band's best transition plus each alternative's applicable share, over every process |
| Portfolio.TechPortfolio.GenerateMaccCurve | petrochem/lib/core/portfolio.py:76-114 | the row loop, the LCOA sort and the cumulative column give the MACC curve |
| Portfolio.TechPortfolio.GetCostEffectiveTechnologies | petrochem/lib/core/portfolio.py:116-119 | exactly the stored technologies with LCOA at most the threshold, failing exactly when some LCOA fails |
| Portfolio.TechPortfolio.GetPortfolioSummary | petrochem/lib/core/portfolio.py:121-141 | the summary counts the stored technologies, transitions and alternatives |
| Portfolio.TechPortfolio.Len | petrochem/lib/core/portfolio.py:143-144 | len is the number of registered ids |
| Portfolio.SumBandPotentials | petrochem/lib/core/portfolio.py:46-63 | the band loop sums the band contributions of one process |
| Portfolio.BandContribution | petrochem/lib/core/portfolio.py:47-63 | one band's contribution is the band potential, 0 when the key does not parse |
| Portfolio.SumAlternativePotentials | petrochem/lib/core/portfolio.py:66-70 | the alternatives loop sums each alternative's applicable production times its abatement over 1000 |
| Technology.BandValue | petrochem/lib/core/technology.py:6-9 | each band's value string has two characters |
| Technology.ParseBandRoundTrip | petrochem/lib/core/technology.py:6-9 | parsing inverts the value string, and only the three value strings parse |
| Technology.Technology.Lcoa | petrochem/lib/core/technology.py:55-68 | the LCOA is inf exactly when the abatement is not positive; otherwise LCOA times abatement is capex times CRF over 1000 plus the opex delta, failing exactly when the CRF does |
| Technology.Technology.MaxDeployment | petrochem/lib/core/technology.py:70-79 | no deployment before the start year; from then on the smaller of the applicability share and the ramp share times the years available: at most each, and equal to one of them |
| Technology.ApplicabilityByType | petrochem/lib/core/technology.py:81-86 | an alternative applies to every band; a transition applies exactly to its source band |
| Technology.MaxDeploymentBounded | petrochem/lib/core/technology.py:70-79 | the deployment cap is non-negative, grows with the year and never exceeds the applicability share |
| Technology.TransitionName | petrochem/lib/core/technology.py:98 | the generated name has the process name's length plus 9 characters |
| Technology.TransitionNameInjective | petrochem/lib/core/technology.py:98 | two transitions of one process share a name only if they share both bands |
| Technology.NewTransition | petrochem/lib/core/technology.py:95-110 | a transition is of transition type and class, named from its bands, with the given abatement, emission factor 0, and applicable exactly to its source band |
| Technology.NewAlternative | petrochem/lib/core/technology.py:115-134 | an alternative's abatement is max(0, 1 - emission factor); it has no bands, applies to every band, and a missing displacement list becomes empty |
| Technology.AlternativeLcoaFinite | petrochem/lib/core/technology.py:119-121 | an alternative has a finite LCOA exactly when its emission factor is below the 1.0 baseline |
| LegacyTechnology.Technology.Lcoa | archive/non_essential_data/petrochem/lib/core/technology.py:41-54 | the LCOA is inf exactly when the abatement is not positive; otherwise LCOA times abatement is capex times CRF over 1000 plus the opex delta, failing exactly when the CRF does |
| LegacyTechnology.Technology.MaxDeployment | archive/non_essential_data/petrochem/lib/core/technology.py:56-65 | no deployment before the start year; from then on the smaller of the applicability share and the ramp share times the years available |
| LegacyTechnology.NewTechnology | archive/non_essential_data/petrochem/lib/core/technology.py:21-39 | omitted keyword arguments take their defaults: abatement 0.0 and an empty displacement list |
| LegacyTechnology.DefaultAbatementGivesInfiniteLcoa | archive/non_essential_data/petrochem/lib/core/technology.py:21-44 | a technology built without an abatement potential has an infinite LCOA at every rate |
| LegacyTechnology.SameLcoaAsCurrent | archive/non_essential_data/petrochem/lib/core/technology.py:41-65 | with the same costs, constraints and abatement, the legacy and current records give the same LCOA and deployment caps |
| Scenario.EmissionsBaseline.GetProcessEmissions | petrochem/lib/core/scenario.py:27-31 | 0 for an unknown process |
| Scenario.EmissionsBaseline.GetProcessProduction | petrochem/lib/core/scenario.py:33-37 | 0 for an unknown process |
| Scenario.EmissionsBaseline.GetBandCapacity | petrochem/lib/core/scenario.py:39-46 | 0 for an unknown process or an unknown band |
| Scenario.NewEmissionsBaseline | petrochem/lib/core/scenario.py:22-25 | the baseline keeps its year and total; its process dict has distinct keys, and a process maps to its last listing |
| Scenario.BuiltBaselineLookups | petrochem/lib/core/scenario.py:18-46 | a listed process answers with its last listing's production, emissions (production times intensity over 1000) and band capacity; an unlisted process answers 0 |
| Scenario.BandCapacities | petrochem/lib/core/scenario.py:39-46 | one capacity per listed band, each the band capacity lookup |
| Scenario.BandCapacityOfListedBand | petrochem/lib/core/scenario.py:39-46 | a listed band's capacity is production times its share |
| Scenario.BandCapacitiesAreScaledShares | petrochem/lib/core/scenario.py:39-46 | the capacities of a process's listed bands are its production times each share |
| Scenario.BandCapacitiesPartitionProduction | petrochem/lib/core/scenario.py:39-46 | when a process's band shares sum to 1, its band capacities add up to its production |
| Scenario.TargetMap | petrochem/lib/core/scenario.py:55 | the target dict has exactly the years of the listed targets |
| Scenario.TargetMapLastWins | petrochem/lib/core/scenario.py:55 | the last target listed for a year is the one kept |
| Scenario.InterpolationKeepsExplicitTargets | petrochem/lib/core/scenario.py:65-67 | interpolation keeps every explicit target |
| Scenario.InterpolationCoversTimeline | petrochem/lib/core/scenario.py:61-87 | after interpolation the targets cover exactly the explicit years and the timeline |
| Scenario.InterpolationBeforeFirstTarget | petrochem/lib/core/scenario.py:70-71 | a year before the first target gets the baseline total |
| Scenario.InterpolationAfterLastTarget | petrochem/lib/core/scenario.py:72-73 | a year after the last target gets the last target |
| Scenario.InterpolationBetweenTargets | petrochem/lib/core/scenario.py:74-87 | between two consecutive target years, the interpolated target lies between their targets |
| Scenario.SameMembersSameInterpolation | petrochem/lib/core/scenario.py:56-59 | sorting the timeline does not change the interpolated targets |
| Scenario.InterpolationInside | petrochem/lib/core/scenario.py:74-87 | a year strictly between two consecutive target years gets their linear blend |
| Scenario.InterpolatedExample | petrochem/lib/core/scenario.py:49-87 | targets of 100 Mt in 2025 and 0 in 2050 over the timeline 2025-2050 with a 120 Mt baseline yield a target of 80 Mt for 2030, and none for a year outside the timeline |
| Scenario.EmissionsScenario.constructor | petrochem/lib/core/scenario.py:49-59 | stores the baseline and a sorted permutation of the timeline, and the targets are the explicit ones interpolated over the timeline; callable when there is a target or the timeline is empty, the other case being `Create`'s IndexError |
| Scenario.EmissionsScenario.Create | petrochem/lib/core/scenario.py:49-87 | IndexError exactly when there are no targets and the timeline is not empty; otherwise a fresh scenario holding the baseline, the sorted timeline and the interpolated targets |
| Scenario.EmissionsScenario.InterpolateTargets | petrochem/lib/core/scenario.py:61-87 | succeeds exactly when there is an explicit target or the timeline is empty, where the source raises IndexError; on success the targets become the interpolated map, otherwise nothing changes |
| Scenario.EmissionsScenario.GetTargetEmissions | petrochem/lib/core/scenario.py:89-91 | the stored target for a year that has one, the baseline total for any other year |
| Scenario.EmissionsScenario.GetRequiredAbatement | petrochem/lib/core/scenario.py:93-96 | the required abatement is never negative and at least baseline minus target; it is 0 exactly when the target reaches the baseline |
| Scenario.EmissionsScenario.GetAbatementTrajectory | petrochem/lib/core/scenario.py:98-100 | the trajectory has exactly the timeline years, each with its required abatement |
| Scenario.EmissionsScenario.InfeasibleYears | petrochem/lib/core/scenario.py:111-117 | the infeasible years are exactly the listed years whose requirement exceeds the potential |
| Scenario.EmissionsScenario.InfeasibleYearsSorted | petrochem/lib/core/scenario.py:111-117 | the infeasible years of the sorted timeline are in ascending order |
| Scenario.EmissionsScenario.ValidateFeasibility | petrochem/lib/core/scenario.py:102-119 | feasible exactly when no timeline requirement exceeds the potential; the infeasible years are listed in order; max_required is the largest requirement, or 0; max_available is the potential |
| DataIo.FirstParam | archive/legacy_model/data_io.py:12-14 | the value of the first row whose parameter matches, and none exactly when no row matches |
| DataIo.SumPresent | archive/legacy_model/data_io.py:17 | a sum that skips NaN is 0 when every value is NaN, and non-negative when every present value is |
| DataIo.SumPresentAppend | archive/legacy_model/data_io.py:17 | the NaN-skipping sum of two columns one after the other is the sum of their sums |
| DataIo.SumPresentSingle | archive/legacy_model/data_io.py:17 | a present value counts as itself, a NaN as nothing |
| DataIo.BaselineTotalMt | archive/legacy_model/data_io.py:9-18 | the assumption parameter when present; otherwise scope 1 plus scope 2 over 1e6 when the 2023 sheet exists; ValueError exactly when neither applies |
| DataIo.KeptTargets | archive/legacy_model/data_io.py:21-24 | the kept targets are exactly the rows with a year, truncated to int, and, when years are given, within them |
| DataIo.KeptTargetsAppend | archive/legacy_model/data_io.py:21-24 | the filter keeps row order: the kept rows of two sheets one after the other are the kept rows of the first followed by those of the second |
| DataIo.TargetsMap | archive/legacy_model/data_io.py:20-27 | years_all lists the kept years in row order; the map has distinct keys and the last row of a year wins |
| DataIo.TargetsMapKeys | archive/legacy_model/data_io.py:25-26 | the target map has an entry exactly for the years listed in years_all |
| DataIo.RawKnots | archive/legacy_model/data_io.py:35 | a knot is exactly the truncated reference year and column value of a row with a reference year, at most one per row, and at least one when some row has one |
| DataIo.RawKnotsAppend | archive/legacy_model/data_io.py:35 | the knots keep row order: those of two sheets one after the other are the first's followed by the second's |
| DataIo.ByYearTotal | archive/legacy_model/data_io.py:37 | ordering by reference year is a total preorder |
| DataIo.Knots | archive/legacy_model/data_io.py:35-37 | the knots, sorted, are a permutation of the raw knots |
| DataIo.KnotsSorted | archive/legacy_model/data_io.py:36-38 | the knot years are in ascending order |
| DataIo.FirstSegment | archive/legacy_model/data_io.py:44-46 | the loop stops at the first segment holding an interior year, whose left end is below the year |
| DataIo.SegmentValue | archive/legacy_model/data_io.py:47-53 | two NaN ends give NaN and one NaN end gives the other; two known ends give a value between them, and the right end's value at the right end |
| DataIo.InterpAt | archive/legacy_model/data_io.py:41-53 | flat before the first knot and after the last |
| DataIo.InterpValue | archive/legacy_model/data_io.py:29-54 | NaN for no rows, and the first row's value when no row has a reference year |
| DataIo.Series | archive/legacy_model/data_io.py:29-54 | the series has every model year, each with its interpolated value |
| DataIo.Interp | archive/legacy_model/data_io.py:29-54 | _interp gives the series |
| DataIo.InterpYear | archive/legacy_model/data_io.py:41-53 | the loop for one year gives the interpolated value |
| DataIo.InterpAtKnot | archive/legacy_model/data_io.py:41-53 | with distinct reference years, a knot's own year returns the knot's value |
| DataIo.InterpBetweenKnots | archive/legacy_model/data_io.py:44-53 | an interior year lies in a segment with a left end below it and, with both ends known, gets a value between them |
| DataIo.FirstPresent | archive/legacy_model/data_io.py:79-80 | the first non-NaN value, and none exactly when every value is NaN |
| DataIo.RowsOf | archive/legacy_model/data_io.py:62 | the rows of a technology are exactly those with its id |
| DataIo.FirstMatchRamp | archive/legacy_model/data_io.py:73-77 | the ramp of the first TechOptions row of the technology, none when there is none |
| DataIo.LifeScalar | archive/legacy_model/data_io.py:79 | 20 when every lifetime is NaN |
| DataIo.StartScalar | archive/legacy_model/data_io.py:80 | ValueError exactly when there are no model years; the first model year when every start is NaN |
| DataIo.TechParamsOf | archive/legacy_model/data_io.py:62-85 | one technology's parameters: ramp from TechOptions or the default, life and start from the first known values, and ValueError exactly when there are no model years |
| DataIo.TechIds | archive/legacy_model/data_io.py:59 | one id per row, in order |
| DataIo.TechParamsFor | archive/legacy_model/data_io.py:62-85 | the loop body computes the technology's parameters, with ValueError exactly when there are no model years |
| DataIo.BuildParams | archive/legacy_model/data_io.py:61-85 | the loop fills parameters for exactly the listed ids, each that technology's |
| DataIo.BuildTimeseries | archive/legacy_model/data_io.py:56-86 | build_timeseries fails with ValueError exactly when there are technologies but no model years; otherwise it returns the sorted distinct ids and exactly their parameters |
| TechLinks.PairsWhere | archive/legacy_model/data_io.py:101-106 | the pairs of the selected rows, in row order, and only those |
| TechLinks.CompBasics | archive/legacy_model/data_io.py:94-100 | an id is in its own group, groups hold only ids of the pairs, and an id in no pair is alone |
| TechLinks.CompShared | archive/legacy_model/data_io.py:98-100 | ids of one group share that group: merging is an equivalence |
| TechLinks.PairMerged | archive/legacy_model/data_io.py:105 | the two ids of a mutually-exclusive pair end up in one group |
| TechLinks.MergedStaysMerged | archive/legacy_model/data_io.py:101-105 | later pairs never split a group |
| TechLinks.AddSingleton | archive/legacy_model/data_io.py:95 | setdefault of a new id adds a singleton tree and keeps the forest well formed |
| TechLinks.Compress | archive/legacy_model/data_io.py:96 | path compression keeps every tree |
| TechLinks.Link | archive/legacy_model/data_io.py:100 | linking one root below another keeps the forest well formed |
| TechLinks.TracksLink | archive/legacy_model/data_io.py:98-100 | after linking the roots of a new pair, the trees are the groups of the extended pair list |
| TechLinks.TracksSameRoot | archive/legacy_model/data_io.py:99-100 | a pair whose ids already share a root changes no group |
| TechLinks.LinkStep | archive/legacy_model/data_io.py:98-100 | union of two distinct roots keeps the forest, its key list and the agreement with the pairs |
| TechLinks.UnionFind.constructor | archive/legacy_model/data_io.py:93 | the parent dict starts empty |
| TechLinks.UnionFind.Find | archive/legacy_model/data_io.py:94-97 | find adds x as its own parent if new, keeps the groups, and returns x's root |
| TechLinks.UnionFind.Union | archive/legacy_model/data_io.py:98-100 | union records the pair, adds both ids, and keeps the trees equal to the groups of the recorded pairs |
| TechLinks.UnionFind.LinkRoots | archive/legacy_model/data_io.py:100 | parent[rb] = ra for distinct roots, recording the pair |
| TechLinks.BigGroups | archive/legacy_model/data_io.py:110 | the kept groups are exactly the root sets with more than one id |
| TechLinks.BigGroupsDistinct | archive/legacy_model/data_io.py:107-110 | no group is listed twice |
| TechLinks.ApplyRows | archive/legacy_model/data_io.py:101-106 | the row loop merges exactly the mutually-exclusive pairs, over exactly their ids, and collects the coupling pairs in row order |
| TechLinks.GroupByRoot | archive/legacy_model/data_io.py:107-109 | the ids are grouped by root, each root once, leaving the union-find's groups unchanged |
| TechLinks.GroupedAll | archive/legacy_model/data_io.py:107-109 | once every id is grouped, each root's set is its whole tree |
| TechLinks.ParseLinks | archive/legacy_model/data_io.py:88-111 | no sheet or no RuleType column gives two empty lists; otherwise groups lists each merged block of at least two ids exactly once, and depends lists the couplings in row order |
| TechLinks.Groups | archive/legacy_model/data_io.py:107-110 | the groups are exactly the merged blocks of at least two ids, each once |
| TechLinks.GroupsAreComps | archive/legacy_model/data_io.py:107-110 | the root sets are disjoint, and the kept ones are exactly the merged blocks of at least two ids |
| PlantSizes.PlantSize | create_realistic_plant_sizes.py:34-38 | a size is known exactly for NCC, BTX and C4, and is positive; any other process is the KeyError |
| PlantSizes.PlantCount | create_realistic_plant_sizes.py:64 | at least one plant; with more than one, the count is within half a plant of total over size; a single plant means total over size is at most 1.5 |
| PlantSizes.Digits | create_realistic_plant_sizes.py:71 | the decimal form has at least one character, all digits |
| PlantSizes.ZeroPad | create_realistic_plant_sizes.py:71 | zero padding reaches the width and never shortens |
| PlantSizes.PlantId | create_realistic_plant_sizes.py:71 | a plant id is "P" followed by at least three characters, exactly three below 1000 |
| PlantSizes.DigitsRoundTrip | create_realistic_plant_sizes.py:71 | reading back the decimal form of n gives n |
| PlantSizes.ZeroPadValue | create_realistic_plant_sizes.py:71 | padding with zeros does not change the value |
| PlantSizes.PlantIdRoundTrip | create_realistic_plant_sizes.py:71 | the counter value can be read back from its plant id |
| PlantSizes.PlantIdInjective | create_realistic_plant_sizes.py:71 | distinct counter values give distinct plant ids |
| PlantSizes.PlantsOf | create_realistic_plant_sizes.py:70-98 | one facility record per plant, numbered 1..n, with consecutive ids and the facility's company, region and original id |
| PlantSizes.ConsumptionOf | create_realistic_plant_sizes.py:86-96 | one consumption record per plant, each carrying total/n and the row's intensities, with a missing feedstock read as 0 |
| PlantSizes.RowCapacityKept | create_realistic_plant_sizes.py:64-65 | the plants of a row carry the row's whole activity between them |
| PlantSizes.SplitNumbered | create_realistic_plant_sizes.py:48-98 | both tables have one row per plant in the same order; plant k is numbered k+1 in both, so all plant ids are distinct |
| PlantSizes.RowsOf | create_realistic_plant_sizes.py:56 | the rows of a facility are exactly those carrying its id |
| PlantSizes.FacilityRowsCapacity | create_realistic_plant_sizes.py:58-98 | one facility's rows add their activity to the plant table's total |
| PlantSizes.CapacityPreserved | create_realistic_plant_sizes.py:50-98 | the plants carry exactly the activity of the rows they were split from |
| PlantSizes.FacilityRowsFails | create_realistic_plant_sizes.py:58-63 | one facility's rows fail with KeyError exactly when one has an unknown process |
| PlantSizes.SplitFails | create_realistic_plant_sizes.py:50-63 | the split raises KeyError exactly when some facility has a row whose process is not NCC, BTX or C4, and raises nothing else |
| PlantSizes.FacilityRowsGrows | create_realistic_plant_sizes.py:56-98 | a facility's rows never remove records, and add some exactly when the facility has a consumption row |
| PlantSizes.SplitEmptyIffNoMatches | create_realistic_plant_sizes.py:50-98 | the split makes no plant exactly when no consumption row belongs to a listed facility |
| PlantSizes.CreatedPlants | create_realistic_plant_sizes.py:44-106 | KeyError exactly when some facility has a row of unknown process or no consumption row belongs to a listed facility, the latter from reading a column of the empty result; otherwise the split, with at least one plant |
| PlantSizes.CreateRealisticPlants | create_realistic_plant_sizes.py:44-106 | the nested loops and the final check compute `CreatedPlants` |
| PlantSizes.AddPlants | create_realistic_plant_sizes.py:70-98 | the innermost loop appends the row's plant and consumption records and advances the counter by the number of plants |
| PlantSizes.FacilitiesErrSticky | create_realistic_plant_sizes.py:50-63 | a KeyError in one facility's rows ends the whole split with that error |
| Vintage.Grid | archive/non_essential_data/petrochem/model_pyomo.py:12-13 | the index set of a table is exactly the pairs of a listed technology and a listed year |
| Vintage.Alive | archive/non_essential_data/petrochem/model_pyomo.py:54 | the alive vintages are exactly the listed years at or before t and less than life before it, in order and without repeats when the years have none |
| Vintage.StockOfIdleWindow | archive/non_essential_data/petrochem/model_pyomo.py:53-55 | a stock whose alive vintages built nothing is 0 |
| Vintage.StockAtMostRate | archive/non_essential_data/petrochem/model_pyomo.py:53-66 | builds of at most the rate give a stock of at most the rate per alive vintage |
| Vintage.StockBoundedByRate | archive/non_essential_data/petrochem/model_pyomo.py:53-66 | with every build within [0, rate], the stock is at most the rate per alive vintage and, with distinct years, at most rate times life |
| Vintage.AliveAtMostLife | archive/non_essential_data/petrochem/model_pyomo.py:54 | with distinct years, at most life vintages are alive in any year |
| Finance.Crf | petrochem/lib/core/technology.py:61 | the annuity formula's division by zero is ZeroDivisionError |
| Finance.CrfZeroRate | petrochem/lib/core/technology.py:61 | at a zero rate the annuity formula divides by zero, whatever the lifetime |
| Finance.AnnuityClosedForm | petrochem/lib/core/technology.py:61 | the rate times the annuity factor is 1 - (1+r)^-n |
| Finance.AnnuityFactorAtMost | petrochem/lib/core/technology.py:61 | the annuity factor lies between 0 and n |
| Finance.CrfAnnuity | petrochem/lib/core/technology.py:61-62 | for a positive rate and a lifetime of at least a year, the CRF exists, repays one unit over the lifetime, exceeds the rate and is at least 1/life |
| Finance.CrfPositiveRate | petrochem/lib/core/technology.py:61 | for a positive rate and a lifetime of at least a year, the denominator lies strictly between 0 and 1 |
| Finance.DiscountFactor | petrochem/lib/optimization/model_builder.py:110 | the discount factor fails with ZeroDivisionError exactly when 1 + r is 0 and the year is not the base year |
| Finance.DiscountFactors | petrochem/lib/optimization/model_builder.py:109-112 | the factors of every year, or ZeroDivisionError exactly when some year's factor fails |
| Finance.DiscountAtBase | petrochem/lib/optimization/model_builder.py:110 | the factor is exactly 1 in the base year |
| Finance.DiscountDecreasing | petrochem/lib/optimization/model_builder.py:110 | with a positive rate, factors fall strictly from 1 as the year moves past the base |
| Finance.LevelizedCost | petrochem/lib/core/technology.py:55-68 | inf without positive abatement; otherwise ZeroDivisionError when the CRF fails, else a cost whose product with the abatement is annualised capex per t plus the opex delta |
| Finance.LevelizedCostWithin | petrochem/lib/core/portfolio.py:116-119 | with positive abatement, the cost is within a threshold exactly when the annual cost per t is within threshold times the abatement |
| Finance.DeploymentCap | petrochem/lib/core/technology.py:70-79 | nothing before the start year, then the smaller of the ramp-limited and the applicability-limited capacity |
| Finance.DeploymentCapMonotone | petrochem/lib/core/technology.py:70-79 | with non-negative data, the cap is non-negative and never shrinks as years pass |

## Left out

- Reading and writing files: Excel workbooks, CSV files, `ExcelWriter`, plots, diagrams and printed or logged output. Tables that the source reads from a workbook are parameters here (sequences or maps of records). The technology and cost sheets are taken as already merged.
- Solving the linear programmes: PuLP's CBC call and Pyomo's `SolverFactory`. The solver's values and its termination status are parameters. `ModelPyomo.SolveModel` covers only the order in which solvers are tried, against an abstract backend.
- Floating point: every quantity is a Dafny `real`, with no rounding. A numpy division by zero (`inf` or `nan`) becomes `None`, or the `Err(ZeroDivisionError)` Python itself would raise. IEEE comparisons with NaN are not reproduced.
- MaccDataV2.YearTable: keeps only the columns of a matrix row that the v2 LP reads; the script's table keeps every column of the matrix.
- Sorting ties: pandas `sort_values` and numpy `argsort` use an unstable quicksort. The model sorts stably with insertion sort, so rows with equal keys keep their input order, which the source does not promise.
- ModelPyomo: Pyomo sets such as `m.TECHS` are sorted in the source; the model keeps only their membership. Parameter defaults and mutability flags are not modelled.
- Pandas plumbing: `merge`, `groupby`, `fillna` and frame copies are replaced by explicit lookups over records. Column renaming and formatting of output tables are not modelled.
- Reporting that only formats numbers: `create_summary_analysis`, `generate_cost_summary_tables` and the deployment table of `generate_fixed_band_outputs` in `corrected_band_model.py`.
- EmissionPathway.EmissionPathwayAnalyzer.GenerateSummaryStatistics: the values of the per-product breakdown are not modelled; only its KeyError on an empty emissions table, the totals and the percentages are.
- PlantSizes: the printed listing of mega-facilities at lines 27-31 of `create_realistic_plant_sizes.py` is not modelled. Its `.iloc[0]` raises IndexError for a consumption facility missing from the facility sheet. The backup and save at lines 116-138 are not modelled either.
- DeploymentLp.Bounds: a second technology row with the same TechID creates its variables again, and the model keeps the later bound (`BoundsLast`). PuLP's own rejection of a repeated constraint name is not modelled; the next two lines give the cases.
- BauNetZero.SetupProblem: two rows with the same TechID both add `RampUp_{tech}_{year}` (`macc_optimization_model_bau_netzero.py:150`), and PuLP raises PulpError for the repeated name. The model sets the problem up without that error.
- TargetSheet.SetupProblem: two rows with the same TechID both add `RampUp_{tech}_{prev}_{curr}` (`macc_optimization_target_sheet.py:170`), and a year listed twice in the target sheet adds `EmissionTarget_{year}` twice (line 152). PuLP raises PulpError for either repeated name. The model sets the problem up without that error.
- ModelBuilderCorrected.Build: a constraint rule whose sum has no terms returns a plain bool, and Pyomo raises ValueError for it. That happens in the target rule with no technologies and no shortfall (`petrochem/lib/optimization/model_builder_corrected.py:201-206`), and in the process balance of a process no technology serves (lines 219-228). The model builds the constraint as a trivially true or false predicate instead.
- ModelBuilder.Build: the same Pyomo ValueError for the target rule with no technologies and no shortfall (`petrochem/lib/optimization/model_builder.py:152-157`) is not modelled.
- BandModel.BandCapacityRule: for a band no technology targets, the rule returns the plain bool `0 <= capacity` (`corrected_band_model.py:223-234`), and Pyomo raises ValueError. The model treats it as a predicate that holds for a non-negative capacity.
- `__repr__` and `__str__` methods, command-line entry points and `if __name__ == "__main__"` blocks.
- Scenario.EmissionsBaseline.GetProcessEmissions: its own contract states only the unknown-process case (0). The values for a listed process are stated by Scenario.BuiltBaselineLookups.
- Scenario.EmissionsBaseline.GetProcessProduction: its own contract states only the unknown-process case. The values for a listed process are stated by Scenario.BuiltBaselineLookups.
- Scenario.EmissionsBaseline.GetBandCapacity: its own contract states only the unknown-process and unknown-band cases. The values for a listed process are stated by Scenario.BuiltBaselineLookups.

## Findings

| source | as written | input that shows it | evidently intended | confidence | as-written member | corrected member |
|---|---|---|---|---|---|---|
| emission_pathway_analysis.py:79-94 | the product-only fallback replaces only `ci_key` and never reloads `ci_data`, so the row reuses the previous facility's intensities; on the first facility `ci_data` is unbound (NameError) | a PE/LDPE facility with its own entry, then a PP facility whose process is unlisted while PP/Bulk is listed: the second row uses the PE intensities | load `ci_data` from the matched product entry | not executed | EmissionPathway.StaleCiCounterexample | EmissionPathway.CurrentEmissionsRows |
| archive/development_scripts/run_optimization_model_v3_facility_based.py:361-371 | for target years up to 2030 the sum of the mature options' levels must be at least 0.7 times their number | two mature technologies for one facility process in 2030: the rule asks for a sum of 1.4 while one technology per site caps it at 1, so the problem is infeasible | mature options carry at least 70 % of the deployed level | not executed | FacilityV3.TrlPreferenceInfeasible | FacilityV3.HighTrlShareSampleFeasible |
| archive/development_scripts/run_optimization_model_v2.py:189-193 | `year <= opt_years[0]` reports the first optimised year as the baseline; lines 242-244 drop that year's technology shares in the same way | results for 2030 and 2040: the 2030 pathway row shows no reduction although 2030 achieved 1 Mt | only years before the first optimised year use the baseline | not executed | OptimizationV2.PathwayAsWrittenDropsFirst | OptimizationV2.PathwayAtOptimisedYear |
