/** The request handler's computation: reject a start date that is not
    before the end date, pick the stage catalog, build the timeline and derive
    the month coverage for the chart. */
module Planner {
  import opened Results
  import opened Calendar
  import opened Durations
  import opened Stages
  import opened Timeline
  import opened Coverage

  /** A submitted form, with the two dates already parsed. */
  datatype Request = Request(projectType: string, projectName: string, startDate: Date, endDate: Date, form: Form)

  /** Why no plan is produced. */
  datatype PlanError =
    | InvalidDateRange(message: string)  // start date not before end date
    | BuildFailed(cause: BuildError)     // a stage could not be built

  /** What the result page shows: the request echoed back, the timeline and
      the months each stage is plotted at. */
  datatype Plan = Plan(projectType: string, projectName: string, startDate: Date, endDate: Date,
                       timeline: seq<StageRecord>, coverage: map<string, set<int>>)

  const InvalidDateRangeMessage: string := "End date should be after start date."

  /** The POST branch of the index page. */
  function MakePlan(req: Request): (r: Result<Plan, PlanError>)
    ensures r.Ok? ==> req.startDate < req.endDate
    ensures r.Ok? ==> r.value.projectType == req.projectType && r.value.projectName == req.projectName
    ensures r.Ok? ==> r.value.startDate == req.startDate && r.value.endDate == req.endDate
    ensures r.Ok? ==> |r.value.timeline| == |GetStages(req.projectType)|
    ensures r.Ok? ==> r.value.timeline[0].start == req.startDate
    ensures r.Ok? ==> forall i :: 0 <= i < |r.value.timeline| ==>
      r.value.timeline[i].name in r.value.coverage && r.value.coverage[r.value.timeline[i].name] == StageMonths(r.value.timeline[i])
  {
    if req.startDate >= req.endDate then Err(InvalidDateRange(InvalidDateRangeMessage))
    else
      var stages := GetStages(req.projectType);
      match BuildTimeline(req.form, stages, req.startDate)
      case Err(e) => Err(BuildFailed(e))
      case Ok(t) =>
        CatalogKeysDistinct(req.projectType);
        CoverageOfDistinctNames(t);
        Ok(Plan(req.projectType, req.projectName, req.startDate, req.endDate, t, MonthCoverage(t)))
  }

  /** A start date on or after the end date is rejected before any stage is
      looked at, whatever the form holds. */
  lemma InvalidRangeRejected(req: Request)
    ensures MakePlan(req).Err? && MakePlan(req).error.InvalidDateRange? <==> req.startDate >= req.endDate
  {
  }

  /** A plan is produced exactly when the dates are in order and every stage
      of the chosen catalog is built, and its timeline is the reference
      timeline of those stages. */
  lemma MakePlanOutcome(req: Request)
    ensures MakePlan(req).Ok? <==>
      req.startDate < req.endDate && BuildTimeline(req.form, GetStages(req.projectType), req.startDate).Ok?
    ensures MakePlan(req).Ok? ==>
      var stages := GetStages(req.projectType);
      var entries := Entries(req.form, stages);
      AllOk(entries) && IsReferenceTimeline(MakePlan(req).value.timeline, stages, req.startDate, Values(entries))
  {
    var stages := GetStages(req.projectType);
    FoldIsReference(stages, Entries(req.form, stages), req.startDate);
  }

  /** The end date only gates the request: any two end dates after the start
      give the same outcome and the same timeline. */
  lemma EndDateIrrelevant(req: Request, otherEnd: Date)
    requires req.startDate < req.endDate && req.startDate < otherEnd
    ensures var other := req.(endDate := otherEnd);
      && (MakePlan(req).Ok? <==> MakePlan(other).Ok?)
      && (MakePlan(req).Ok? ==> MakePlan(req).value.timeline == MakePlan(other).value.timeline)
      && (MakePlan(req).Err? ==> MakePlan(req).error == MakePlan(other).error)
  {
  }

  /** Nothing keeps the timeline inside the project's dates: with the end
      date the day after the start, a plan still comes out whenever every
      stage's duration is entered and the project ends by 9999-12-31, and its
      last stage ends past the end date as soon as any stage lasts a week or
      more. */
  lemma TimelineMayOverrunEnd(req: Request)
    requires req.startDate < MaxOrdinal
    requires AllOk(Entries(req.form, GetStages(req.projectType)))
    requires 0 < SumMaxWeeks(Values(Entries(req.form, GetStages(req.projectType))))
    requires req.startDate + DaysPerWeek * SumMaxWeeks(Values(Entries(req.form, GetStages(req.projectType)))) <= MaxOrdinal
    ensures var tight := req.(endDate := req.startDate + 1);
      && MakePlan(tight).Ok?
      && EndOf(MakePlan(tight).value.timeline, req.startDate) > tight.endDate
  {
    var stages := GetStages(req.projectType);
    var entries := Entries(req.form, stages);
    FoldIsReference(stages, entries, req.startDate);
    FoldEndsAfterTotal(stages, entries, req.startDate);
  }

  /** A stage whose field is missing or does not parse makes the whole
      request fail, naming the first stage of the catalog that fails. */
  lemma BadFieldFailsRequest(req: Request, i: int)
    requires req.startDate < req.endDate
    requires 0 <= i < |GetStages(req.projectType)|
    requires StageDuration(req.form, GetStages(req.projectType)[i]).Err?
    ensures MakePlan(req).Err? && MakePlan(req).error.BuildFailed?
    ensures exists j :: 0 <= j < |GetStages(req.projectType)| && FailsFirstAt(
      GetStages(req.projectType), Entries(req.form, GetStages(req.projectType)), req.startDate, j, MakePlan(req).error.cause)
  {
    var stages := GetStages(req.projectType);
    var entries := Entries(req.form, stages);
    FoldIsReference(stages, entries, req.startDate);
    assert entries[i] == StageDuration(req.form, stages[i]);
    FoldFirstFailure(stages, entries, req.startDate, MakePlan(req).error.cause);
  }
}
