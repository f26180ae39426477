# Project timeline planner — a Dafny model

This project models the computation behind the project-timeline web page of
`app.py`. A user picks a project type and a start and end date, then types a
duration range `"<min>-<max>"` (in weeks) for each stage. The page then:

* rejects the request unless the start date is before the end date;
* picks the stage catalog: selector `"1"` gives the 11 minor-change stages,
  any other value gives the 7 adapt-project stages;
* reads each stage's field. The field name is the stage name in lower case
  with spaces turned into `_`. The page splits the text on `-` into two
  integers;
* lays the stages end to end from the start date. Each stage lasts its
  maximum number of weeks, and the minimum appears only in the label;
* maps each stage to the month numbers from its start month to its end month
  for the calendar chart.

Modules, one file each:

* `results.dfy` (`Results`): `Option` and `Result`.
* `calendar.dfy` (`Calendar`): the proleptic Gregorian calendar.
  * Dates are day ordinals as `date.toordinal` counts them, with 0001-01-01 as
    day 1.
  * The type `Date` covers 0001-01-01 to 9999-12-31.
  * It includes a days-to-civil conversion with round-trip proofs, which
    defines the month of a date.
* `durations.dfy` (`Durations`):
  * `str.split`, modelled generically with its inverse `join`;
  * `int` over decimal digits, and `str` of a natural number;
  * the duration parse and the label.
* `stages.dfy` (`Stages`): the two stage catalogs and the field name of a
  stage.
* `timeline.dfy` (`Timeline`): the timeline loop.
  * It is defined as a fold: a recursive function over the stages.
  * A reference definition gives the timeline in closed form: stage `i`
    starts after the prefix sum of the maximum weeks.
  * `CreateProjectTimeline` is the loop itself.
* `coverage.dfy` (`Coverage`): the stage-to-months mapping of the chart.
* `planner.dfy` (`Planner`): the POST branch of the request handler.
* `scenarios.dfy` (`Scenarios`): a worked adapt-project example starting on
  2024-01-01, and requests that are turned away.

Errors that Python raises become values:

* A start date that is not before the end date gives
  `InvalidDateRange("End date should be after start date.")`.
* A missing field (Flask's `KeyError`) gives `MissingDuration(stage)`.
* A field that `int`/unpacking rejects (`ValueError`) gives
  `MalformedDuration(stage)`.
* A stage that would end after 9999-12-31 (`OverflowError` from `datetime`
  arithmetic) gives `DateOverflow(stage)`.

The build stops at the first failing stage, in catalog order. For each stage
it checks the field first, then the parse, then the overflow, which is the
order in which the loop body runs.

Notes on the code:

* **Worked example.** Starting on 2024-01-01 with the example's durations
  (1-1, 2-3, 4-6, 2-2, 1-2, 3-4 and 1-1 weeks), the stages are laid end to
  end on their maximum weeks, 19 in all, so the last stage ends on
  2024-05-13: `Scenarios.AdaptProjectExample` and `Scenarios.ExampleCalendar`.
* **Where the date-order check runs.** It runs in the request handler,
  before any stage's field is read, not in the timeline builder:
  `Planner.MakePlan`.
* **Overflow.** A stage that would end after 9999-12-31 makes the build fail
  with `DateOverflow`, the model's form of the `OverflowError` that `datetime`
  arithmetic raises.

## Model

| member | source | states |
|---|---|---|
| Stages.GetStages | app.py:36-59 | selector `"1"`, and only it, gives the 11-stage minor-change catalog; every other selector gives the 7-stage adapt-project catalog; both start with "Project kickoff" and end with "SOP" or "Finalization" respectively |
| Stages.CatalogsShareOnlyKickoff | app.py:37-58 | the two catalogs have only their first stage in common |
| Stages.CatalogKeysDistinct | app.py:37-66 | within either catalog no stage name repeats and no two stages read the same form field, so every stage gets its own duration and its own chart column |
| Stages.FormKey | app.py:66 | the field name has the stage name's length; a space becomes `_`, a capital letter becomes its small letter, every other character is kept, and no space or capital remains |
| Stages.FormKeyIdempotent | app.py:66 | normalising a field name again changes nothing |
| Stages.MinorChangeKeysOpening | app.py:38-66 | the field names of "Project kickoff", "Drawing and BOM" and "QGCO" |
| Stages.MinorChangeKeysSourcing | app.py:41-66 | the field names of "Cable Sourcing" and "Air gap analysis" |
| Stages.MinorChangeKeySample | app.py:43-66 | the field name of "Customer C sample" |
| Stages.MinorChangeKeyApproval | app.py:44-66 | the field name of "Customer approval for drawing" |
| Stages.MinorChangeKeyRelease | app.py:45-66 | the field name of "D sample Production Release" |
| Stages.MinorChangeKeysClosing | app.py:46-66 | the field names of "Cable PPAP", "QGC4" and "SOP" |
| Stages.MinorChangeKeysMatch | app.py:37-66 | every minor-change stage reads the field listed for it in `MinorChangeKeys` |
| Stages.AdaptProjectKeysBuild | app.py:51-66 | the field names of "Project kickoff", "Prototype" and "Production" |
| Stages.AdaptProjectKeyDesign | app.py:52-66 | the field name of "Design and Specification" |
| Stages.AdaptProjectKeysClosing | app.py:55-66 | the field names of "Testing", "Implementation" and "Finalization" |
| Stages.AdaptProjectKeys | app.py:50-66 | every adapt-project stage reads the field listed for it in `AdaptProjectKeyList` |
| Durations.Split | app.py:67 | `str.split`: at least one piece, no piece contains the separator, and joining the pieces with the separator gives the text back |
| Durations.SplitJoin | app.py:67 | splitting undoes joining separator-free pieces, so the pieces are determined by the text |
| Durations.ParseNat | app.py:67 | `int` accepts exactly the runs of digits, and on digits without a superfluous leading zero `str` gives the text back |
| Durations.NatToString | app.py:75 | `str` of a number gives digits without a superfluous leading zero that denote that number |
| Durations.CanonicalRoundTrip | app.py:75 | `str(int(s)) == s` for digits without a leading zero, so `str` is the inverse of `int` on them |
| Durations.SplitIntoDigitRuns | app.py:67 | `split('-')` gives two runs of digits exactly when the text is two runs of digits around a `-`, and then the pieces are the text before and after that `-` |
| Durations.ParseDuration | app.py:67 | a duration parses if and only if it is two non-empty runs of digits around one `-`, and then the bounds are the values of those runs |
| Durations.FormatDuration | app.py:75 | no contract of its own; its inverse is stated by `Durations.FormatParseRoundTrip` |
| Durations.FormatParseRoundTrip | app.py:67-75 | parsing a record's label gives back the duration it was printed from |
| Durations.LabelEchoesCanonicalInput | app.py:67-75 | the label equals the typed text if and only if neither bound was typed with a leading zero (`"02-4"` is labelled `"2-4"`) |
| Durations.SeparatorUnique | app.py:67 | a well-formed duration contains exactly one `-` |
| Durations.TwoSeparatorsRejected | app.py:67 | text with two `-` does not parse (three pieces cannot be unpacked into two) |
| Durations.SignedBoundRejected | app.py:67 | a bound written with a sign (`"-2-3"`, `"2--3"`) does not parse, so parsed weeks are never negative |
| Timeline.StageDuration | app.py:66-67 | a stage's duration is read exactly when its field is present and holds two runs of digits around a `-`, with those runs' values as bounds; otherwise the error says whether the field was missing or malformed |
| Timeline.StageStep | app.py:69-76 | no contract of its own; one loop turn, characterised by `Timeline.StageStepMeaning` |
| Timeline.StageStepMeaning | app.py:69-76 | a record exists exactly when the entry parsed and its end is a representable date; it is named after the stage, starts at the cursor, and ends the maximum weeks of its own label later |
| Timeline.Fold | app.py:61-78 | a built timeline has one record per stage, named after the stage in order; it starts at the start date; each record starts where the previous one ends; no record ends before it starts |
| Timeline.BuildTimeline | app.py:61-78 | the timeline is built if and only if every stage's field parsed and the whole project ends by 9999-12-31; it is then the reference timeline, and each record lasts its own maximum weeks |
| Timeline.FoldSnoc | app.py:65-78 | one more stage is one more turn of the loop on the timeline built so far |
| Timeline.FailedPrefixStops | app.py:65-67 | once a stage fails, later stages cannot change the outcome: no partial timeline |
| Timeline.FailsFirstAtFolds | app.py:65-69 | a stage that fails after every earlier stage was built decides the build's error |
| Timeline.FoldFirstFailure | app.py:65-69 | the build fails with error `e` if and only if some stage fails with `e` after every earlier stage was built |
| Timeline.FoldOkCons | app.py:65-78 | the build succeeds exactly when the first stage's turn succeeds and the remaining stages build from that stage's end |
| Timeline.FoldSucceedsExactly | app.py:61-78 | the build succeeds if and only if every field parsed and the whole project ends by 9999-12-31 |
| Timeline.FoldBuildsReference | app.py:61-78 | a built timeline is the reference timeline: record `i` starts and ends at the prefix sums of the maximum weeks, in days, after the start |
| Timeline.SumSnoc | app.py:69-77 | one more stage adds its maximum weeks to the total |
| Timeline.ReferenceRecordWeeks | app.py:69-73 | in the reference timeline each record ends its own maximum weeks, in days, after its own start |
| Timeline.StepSameMaxWeeks | app.py:67-69 | one loop turn on two entries with the same maximum has the same outcome and, on success, the same dates |
| Timeline.FoldIsReference | app.py:61-78 | packages `Timeline.FoldSucceedsExactly` and `Timeline.FoldBuildsReference` in one lemma: success exactly under their condition, and then the reference timeline |
| Timeline.FoldEndsAfterTotal | app.py:63-78 | the last stage ends `7 *` (sum of all maximum weeks) days after the start date |
| Timeline.MinWeeksIrrelevant | app.py:67-69 | entries that agree on every maximum give the same outcome and the same names and dates, whatever their minimums |
| Timeline.FoldPrefixStep | app.py:65-78 | the fold of the first `k + 1` stages is the fold of the first `k` followed by one loop turn |
| Timeline.FoldPrefixStops | app.py:65-67 | a failing prefix of the stages decides the whole build |
| Timeline.FailsAtStage | app.py:65-67 | when all earlier stages parse and fit, a stage whose field is missing or malformed is the error the build reports |
| Timeline.CreateProjectTimeline | app.py:61-78 | the loop, reading and parsing each field in turn and moving the cursor, returns exactly the fold's timeline or its first error |
| Calendar.FromOrdinal | app.py:69 | every ordinal is a valid calendar date whose ordinal is the one given |
| Calendar.OrdinalRoundTrip | app.py:69 | the ordinal of a valid date reads back as that date, so dates and ordinals correspond one to one |
| Calendar.OrdinalOrder | app.py:22 | comparing ordinals is comparing dates chronologically, so `start_date >= end_date` is a comparison of ordinals |
| Calendar.DateRange | app.py:69 | an ordinal is at most that of 9999-12-31 if and only if its year is at most 9999 |
| Calendar.MonthOf | app.py:96 | a date's month number is between 1 and 12 |
| Calendar.FromOrdinalMonotone | app.py:96 | a later date never has an earlier (year, month) |
| Coverage.MonthRange | app.py:100 | `range(s, e + 1)` holds exactly the numbers from `s` to `e`, `e - s + 1` of them, and is empty if and only if `e < s` |
| Coverage.StageMonths | app.py:96-100 | a stage is plotted only at months 1 to 12, and at its start month if and only if its end month is not numerically smaller |
| Coverage.MonthCoverage | app.py:96 | the names in the coverage are exactly the stage names of the timeline, and every plotted month is between 1 and 12 |
| Coverage.CoverageOfLastOccurrence | app.py:96 | a stage decides its name's months unless a later stage has the same name, as in a dict comprehension |
| Coverage.CoverageOfDistinctNames | app.py:96-100 | with distinct names, as in both catalogs, each stage is plotted at its own month range |
| Coverage.SameYearCoverageExact | app.py:96-100 | for a stage within one year the plotted months are exactly the months it touches |
| Coverage.YearCrossingCoverageEmpty | app.py:96-100 | a stage whose end month is numerically before its start month crosses a new year and is plotted at no month, although it touches both months |
| Coverage.DecemberToJanuaryExample | app.py:96-100 | a five-week stage from 2024-12-02 to 2025-01-06 is plotted at no month |
| Planner.MakePlan | app.py:18-31 | a plan needs the start date before the end date; it echoes the request; its timeline has one record per catalog stage, beginning at the start date; each stage's chart months are its own month range |
| Planner.InvalidRangeRejected | app.py:22-25 | the request is rejected with the date-range message if and only if the start date is not before the end date, whatever the form holds |
| Planner.MakePlanOutcome | app.py:22-28 | a plan is produced if and only if the dates are in order and every stage is built, and its timeline is the reference timeline |
| Planner.EndDateIrrelevant | app.py:27-28 | any two end dates after the start give the same outcome and the same timeline: the end date only gates the request |
| Planner.TimelineMayOverrunEnd | app.py:61-78 | with the end date the day after the start, a plan still comes out whenever every field parses and the project fits before 9999-12-31, and its last stage ends after the end date as soon as any stage lasts a week |
| Planner.BadFieldFailsRequest | app.py:27-28 | a missing or malformed field in any stage fails the request, naming the first stage of the catalog that fails |
| Scenarios.FirstTwoFields | app.py:65-67 | fields `"1-1"` and `"2-3"` give the kickoff and design stages the durations 1-1 and 2-3, whatever else the form holds |
| Scenarios.ExampleEntries | app.py:65-67 | the example form's seven fields parse to 1-1, 2-3, 4-6, 2-2, 1-2, 3-4 and 1-1 |
| Scenarios.AdaptProjectFromAnyStart | app.py:61-78 | any form with those entries gives, from any start with nineteen weeks of room, stages ending 1, 4, 10 and 19 weeks after the start, and the second stage is labelled `"2-3"` |
| Scenarios.AdaptProjectExample | app.py:61-78 | the example form itself gives those end dates and that label |
| Scenarios.ExampleCalendar | app.py:69 | counted from 2024-01-01, those end dates are 2024-01-08, 2024-01-29, 2024-03-11 and 2024-05-13 |
| Scenarios.RejectedDateRanges | app.py:22-23 | 2024-05-01 to 2024-05-01 and 2024-06-01 to 2024-01-01 are both rejected with the date-range message |
| Scenarios.WordsRejected | app.py:67 | `"two-four"` in the prototype's field aborts the example's build with `MalformedDuration("Prototype")` |
| Scenarios.MissingFieldRejected | app.py:66 | dropping the prototype's field aborts the example's build with `MissingDuration("Prototype")` |

## Left out

- Flask routing, reading `request.form` and rendering templates are not modelled. A request is given as an explicit `Planner.Request`, and the outcome is a `Result` instead of a rendered page.
- Parsing the two dates with `strptime`, and the `ValueError` it raises on a badly formatted date, are left out: dates arrive already parsed, as ordinals. The time of day is always midnight, so it is not modelled either.
- The pandas `DataFrame` and the `to_excel` write to the fixed file `project_timeline.xlsx` are left out. They are file output through a foreign library, and the fixed file name only concerns concurrent requests.
- All matplotlib drawing and `savefig` are left out, apart from the month ranges. This covers axes, ticks, titles and the fixed `static/calendar.png`. The order in which the chart iterates its dict does not affect which points are drawn, so only the resulting map is modelled.
- Durations.ParseNat: models `int` on plain ASCII decimal digits only. Python also accepts surrounding whitespace, a leading `+`, digit-group underscores and non-ASCII Unicode digits, and it refuses strings of more than 4300 digits. None of that is modelled.
- Stages.FormKey: lowers ASCII capitals only. Python's `str.lower` also lowers non-ASCII letters, which no catalog stage name contains.
- Stages.GetStages: its contract gives the catalogs' lengths, first and last stages. The full lists are the constants `MinorChangeStages` and `AdaptProjectStages`, which it returns.
- Error values: For a missing field Python raises `BadRequestKeyError` (a `KeyError`) carrying the field's key, not the stage name, and for a malformed one a bare `ValueError`. The model's `MissingDuration`, `MalformedDuration` and `DateOverflow` carry the stage name as extra information; whether a plan is produced is unaffected.
- Overflow errors: a `timedelta` too large to construct (more than 999999999 days) and a date past 9999-12-31 both raise in Python. The model does not tell them apart and reports both as `DateOverflow`.
- The debug-mode server start (`app.run`) is not part of the computation and is not modelled.
