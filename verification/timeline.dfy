/** The timeline builder: a strict left fold over the stages, with a cursor
    that starts at the project start date. Each stage reads its duration from
    the form, runs from the cursor for its maximum number of weeks, and moves
    the cursor to its end. The first stage that cannot be built aborts the
    whole build. */
module Timeline {
  import opened Results
  import opened Calendar
  import opened Durations
  import opened Stages

  /** The submitted form: field name to the text typed into it. */
  type Form = map<string, string>

  /** One row of the timeline; `durationLabel` is the `"<min>-<max>"` text shown in
      the `Duration (weeks)` column. */
  datatype StageRecord = StageRecord(name: string, start: Date, end: Date, durationLabel: string)

  /** Why a build stops, naming the stage it stopped at. */
  datatype BuildError =
    | MissingDuration(stage: string)    // the form has no field for the stage
    | MalformedDuration(stage: string)  // the field is not `"<int>-<int>"`
    | DateOverflow(stage: string)       // the stage would end after 9999-12-31

  const DaysPerWeek: int := 7

  /** The duration typed for `stage`, read from its form field and parsed: a
      duration exactly when the field is there and holds two runs of digits
      around a `'-'`, with the values of those runs as bounds; otherwise the
      error says whether the field was missing or malformed. */
  function StageDuration(form: Form, stage: string): (r: Result<Duration, BuildError>)
    ensures r.Ok? <==> FormKey(stage) in form && WellFormedDuration(form[FormKey(stage)])
    ensures r.Ok? ==> forall i :: SplitsAt(form[FormKey(stage)], i) ==>
      r.value == Duration(DigitsValue(form[FormKey(stage)][..i]), DigitsValue(form[FormKey(stage)][i + 1..]))
    ensures r.Err? ==> r.error == if FormKey(stage) in form then MalformedDuration(stage) else MissingDuration(stage)
  {
    var key := FormKey(stage);
    if key !in form then Err(MissingDuration(stage))
    else match ParseDuration(form[key])
      case None => Err(MalformedDuration(stage))
      case Some(d) => Ok(d)
  }

  /** What the loop reads for each stage, in stage order. Reading the form
      has no effect, so reading every field up front and stopping at the
      first failure is the same as reading them one turn at a time. */
  function Entries(form: Form, stages: seq<string>): (entries: seq<Result<Duration, BuildError>>)
    ensures |entries| == |stages|
  {
    seq(|stages|, i requires 0 <= i < |stages| => StageDuration(form, stages[i]))
  }

  /** One turn of the loop: the record of `stage`, with duration entry
      `entry`, when the cursor is at `cursor`. */
  function StageStep(stage: string, entry: Result<Duration, BuildError>, cursor: Date): Result<StageRecord, BuildError> {
    match entry
    case Err(e) => Err(e)
    case Ok(d) =>
      var end := cursor + DaysPerWeek * d.maxWeeks;
      if end > MaxOrdinal then Err(DateOverflow(stage))
      else Ok(StageRecord(stage, cursor, end, FormatDuration(d)))
  }

  /** A record starts at the cursor and ends the maximum number of weeks
      shown in its own label later; the record exists exactly when the
      entry parsed and that end is a representable date. */
  lemma StageStepMeaning(stage: string, entry: Result<Duration, BuildError>, cursor: Date)
    ensures StageStep(stage, entry, cursor).Ok? <==> entry.Ok? && cursor + DaysPerWeek * entry.value.maxWeeks <= MaxOrdinal
    ensures StageStep(stage, entry, cursor).Ok? ==>
      var rec := StageStep(stage, entry, cursor).value;
      && rec.name == stage && rec.start == cursor
      && ParseDuration(rec.durationLabel) == Some(entry.value)
      && rec.end == rec.start + DaysPerWeek * ParseDuration(rec.durationLabel).value.maxWeeks
    ensures entry.Err? ==> StageStep(stage, entry, cursor) == Err(entry.error)
  {
    if entry.Ok? {
      FormatParseRoundTrip(entry.value);
    }
  }

  /** Each record starts exactly where the previous one ends. */
  predicate Contiguous(t: seq<StageRecord>) {
    forall i :: 0 < i < |t| ==> t[i].start == t[i - 1].end
  }

  /** Where the cursor stands after the timeline `t` built from `start`. */
  function EndOf(t: seq<StageRecord>, start: Date): Date {
    if |t| == 0 then start else t[|t| - 1].end
  }

  /** The loop as a strict left fold over the stages and their entries: all
      records, or the error of the first stage that fails, never a partial
      timeline. */
  function Fold(stages: seq<string>, entries: seq<Result<Duration, BuildError>>, start: Date): (r: Result<seq<StageRecord>, BuildError>)
    requires |entries| == |stages|
    ensures r.Ok? ==> |r.value| == |stages|
    ensures r.Ok? ==> forall i :: 0 <= i < |stages| ==> r.value[i].name == stages[i]
    ensures r.Ok? && |stages| > 0 ==> r.value[0].start == start
    ensures r.Ok? ==> Contiguous(r.value)
    ensures r.Ok? ==> forall i :: 0 <= i < |r.value| ==> r.value[i].start <= r.value[i].end
    decreases |stages|
  {
    if |stages| == 0 then Ok([])
    else match StageStep(stages[0], entries[0], start)
      case Err(e) => Err(e)
      case Ok(rec) =>
        match Fold(stages[1..], entries[1..], rec.end)
        case Err(e) => Err(e)
        case Ok(rest) => Ok([rec] + rest)
  }

  /** The timeline `create_project_timeline` builds from the form: it is
      built exactly when every stage's field parsed and the whole project,
      the sum of all maximum weeks, ends by 9999-12-31, and then it is the
      reference timeline of those durations. */
  function BuildTimeline(form: Form, stages: seq<string>, start: Date): (r: Result<seq<StageRecord>, BuildError>)
    ensures r.Ok? <==>
      AllOk(Entries(form, stages)) && start + DaysPerWeek * SumMaxWeeks(Values(Entries(form, stages))) <= MaxOrdinal
    ensures r.Ok? ==> IsReferenceTimeline(r.value, stages, start, Values(Entries(form, stages)))
    ensures r.Ok? ==> forall i :: 0 <= i < |r.value| ==>
      r.value[i].end == r.value[i].start + DaysPerWeek * Values(Entries(form, stages))[i].maxWeeks
  {
    var entries := Entries(form, stages);
    FoldIsReference(stages, entries, start);
    var r := Fold(stages, entries, start);
    if r.Ok? then ReferenceRecordWeeks(r.value, stages, start, Values(entries)); r else r
  }

  /** The fold extended by one more stage: what the loop does in one turn
      once the records so far are `r`. */
  function Extend(r: Result<seq<StageRecord>, BuildError>, stage: string, entry: Result<Duration, BuildError>, start: Date): Result<seq<StageRecord>, BuildError> {
    match r
    case Err(e) => Err(e)
    case Ok(t) =>
      match StageStep(stage, entry, EndOf(t, start))
      case Err(e) => Err(e)
      case Ok(rec) => Ok(t + [rec])
  }

  /** Folding one more stage is one more turn of the loop. */
  lemma {:induction false} FoldSnoc(stages: seq<string>, entries: seq<Result<Duration, BuildError>>, stage: string, entry: Result<Duration, BuildError>, start: Date)
    requires |entries| == |stages|
    ensures Fold(stages + [stage], entries + [entry], start) == Extend(Fold(stages, entries, start), stage, entry, start)
    decreases |stages|
  {
    var all, allEntries := stages + [stage], entries + [entry];
    if |stages| > 0 {
      assert all[0] == stages[0] && all[1..] == stages[1..] + [stage];
      assert allEntries[0] == entries[0] && allEntries[1..] == entries[1..] + [entry];
      match StageStep(stages[0], entries[0], start)
      case Err(e) =>
      case Ok(rec) =>
        FoldSnoc(stages[1..], entries[1..], stage, entry, rec.end);
        match Fold(stages[1..], entries[1..], rec.end)
        case Err(e) =>
        case Ok(rest) =>
          assert EndOf([rec] + rest, start) == EndOf(rest, rec.end);
          match StageStep(stage, entry, EndOf(rest, rec.end))
          case Err(e) =>
          case Ok(last) =>
            assert [rec] + (rest + [last]) == ([rec] + rest) + [last];
    } else {
      assert all[1..] == [] && allEntries[1..] == [];
      assert EndOf([], start) == start;
      match StageStep(stage, entry, start)
      case Err(e) =>
      case Ok(rec) =>
        assert [rec] + [] == [] + [rec];
    }
  }

  /** Once a prefix of the stages fails, later stages change nothing: the
      build stops with the same error. */
  lemma {:induction false} FailedPrefixStops(stages: seq<string>, entries: seq<Result<Duration, BuildError>>,
                                             more: seq<string>, moreEntries: seq<Result<Duration, BuildError>>, start: Date)
    requires |entries| == |stages| && |moreEntries| == |more|
    requires Fold(stages, entries, start).Err?
    ensures Fold(stages + more, entries + moreEntries, start) == Fold(stages, entries, start)
    decreases |stages|
  {
    var all, allEntries := stages + more, entries + moreEntries;
    assert all[0] == stages[0] && all[1..] == stages[1..] + more;
    assert allEntries[0] == entries[0] && allEntries[1..] == entries[1..] + moreEntries;
    match StageStep(stages[0], entries[0], start)
    case Err(e) =>
    case Ok(rec) =>
      FailedPrefixStops(stages[1..], entries[1..], more, moreEntries, rec.end);
  }

  /** One turn of the loop on the first `k` stages gives the fold of the
      first `k + 1`. */
  lemma FoldPrefixStep(stages: seq<string>, entries: seq<Result<Duration, BuildError>>, k: int, start: Date)
    requires |entries| == |stages| && 0 <= k < |stages|
    ensures Fold(stages[..k + 1], entries[..k + 1], start) == Extend(Fold(stages[..k], entries[..k], start), stages[k], entries[k], start)
  {
    var front, frontEntries := stages[..k], entries[..k];
    assert front + [stages[k]] == stages[..k + 1];
    assert frontEntries + [entries[k]] == entries[..k + 1];
    FoldSnoc(front, frontEntries, stages[k], entries[k], start);
  }

  /** A prefix that fails decides the whole fold. */
  lemma FoldPrefixStops(stages: seq<string>, entries: seq<Result<Duration, BuildError>>, k: int, start: Date)
    requires |entries| == |stages| && 0 <= k <= |stages|
    requires Fold(stages[..k], entries[..k], start).Err?
    ensures Fold(stages, entries, start) == Fold(stages[..k], entries[..k], start)
  {
    FailedPrefixStops(stages[..k], entries[..k], stages[k..], entries[k..], start);
    assert stages[..k] + stages[k..] == stages;
    assert entries[..k] + entries[k..] == entries;
  }

  /** Stage `i` is where the fold stops with error `e`: every earlier stage
      was built and stage `i` fails at the cursor they leave. */
  predicate FailsFirstAt(stages: seq<string>, entries: seq<Result<Duration, BuildError>>, start: Date, i: int, e: BuildError)
    requires |entries| == |stages| && 0 <= i < |stages|
  {
    var before := Fold(stages[..i], entries[..i], start);
    before.Ok? && StageStep(stages[i], entries[i], EndOf(before.value, start)) == Err(e)
  }

  /** A stage that fails after every earlier stage was built decides the
      build's error. */
  lemma FailsFirstAtFolds(stages: seq<string>, entries: seq<Result<Duration, BuildError>>, start: Date, i: int, e: BuildError)
    requires |entries| == |stages| && 0 <= i < |stages|
    requires FailsFirstAt(stages, entries, start, i, e)
    ensures Fold(stages, entries, start) == Err(e)
  {
    FoldPrefixStep(stages, entries, i, start);
    FoldPrefixStops(stages, entries, i + 1, start);
  }

  /** The fold fails with error `e` exactly when some stage fails with `e`
      after all the stages before it were built. */
  lemma {:induction false} FoldFirstFailure(stages: seq<string>, entries: seq<Result<Duration, BuildError>>, start: Date, e: BuildError)
    requires |entries| == |stages|
    ensures Fold(stages, entries, start) == Err(e) <==>
      exists i :: 0 <= i < |stages| && FailsFirstAt(stages, entries, start, i, e)
    decreases |stages|
  {
    forall i | 0 <= i < |stages| && FailsFirstAt(stages, entries, start, i, e)
      ensures Fold(stages, entries, start) == Err(e)
    {
      FailsFirstAtFolds(stages, entries, start, i, e);
    }
    if Fold(stages, entries, start) == Err(e) {
      var n := |stages| - 1;
      var front, frontEntries := stages[..n], entries[..n];
      FoldPrefixStep(stages, entries, n, start);
      assert stages[..n + 1] == stages && entries[..n + 1] == entries;
      match Fold(front, frontEntries, start)
      case Err(_) =>
        FoldFirstFailure(front, frontEntries, start, e);
        var i :| 0 <= i < |front| && FailsFirstAt(front, frontEntries, start, i, e);
        assert front[..i] == stages[..i] && front[i] == stages[i];
        assert frontEntries[..i] == entries[..i] && frontEntries[i] == entries[i];
        assert FailsFirstAt(stages, entries, start, i, e);
      case Ok(t) =>
        assert FailsFirstAt(stages, entries, start, n, e);
    }
  }

  /** The sum of the maximum weeks of `ds`. */
  function SumMaxWeeks(ds: seq<Duration>): nat
    decreases |ds|
  {
    if |ds| == 0 then 0 else ds[0].maxWeeks + SumMaxWeeks(ds[1..])
  }

  /** Every entry parsed. */
  predicate AllOk(entries: seq<Result<Duration, BuildError>>) {
    forall i :: 0 <= i < |entries| ==> entries[i].Ok?
  }

  /** The parsed durations, in stage order. */
  function Values(entries: seq<Result<Duration, BuildError>>): (ds: seq<Duration>)
    requires AllOk(entries)
  {
    seq(|entries|, i requires 0 <= i < |entries| => entries[i].value)
  }

  /** With a parsed first entry, all entries parse exactly when the rest do,
      and the durations are the first followed by the rest's. */
  lemma ValuesCons(entries: seq<Result<Duration, BuildError>>)
    requires |entries| > 0 && entries[0].Ok?
    ensures AllOk(entries) <==> AllOk(entries[1..])
    ensures AllOk(entries) ==> Values(entries) == [entries[0].value] + Values(entries[1..])
  {
    if AllOk(entries[1..]) {
      forall i | 0 <= i < |entries| ensures entries[i].Ok? {
        if i > 0 { assert entries[i] == entries[1..][i - 1]; }
      }
    }
  }

  /** The timeline described directly: record `i` starts after the maximum
      weeks of all earlier stages and lasts its own maximum weeks; the
      minimum weeks only appear in the label. */
  ghost predicate IsReferenceTimeline(t: seq<StageRecord>, stages: seq<string>, start: int, ds: seq<Duration>) {
    && |t| == |stages| == |ds|
    && forall i :: 0 <= i < |t| ==>
      && t[i].name == stages[i]
      && t[i].start == start + DaysPerWeek * SumMaxWeeks(ds[..i])
      && t[i].end == start + DaysPerWeek * SumMaxWeeks(ds[..i + 1])
      && t[i].durationLabel == FormatDuration(ds[i])
  }

  /** The maximum weeks of one more duration add to the sum. */
  lemma {:induction false} SumSnoc(ds: seq<Duration>, d: Duration)
    ensures SumMaxWeeks(ds + [d]) == SumMaxWeeks(ds) + d.maxWeeks
    decreases |ds|
  {
    if |ds| > 0 {
      assert (ds + [d])[1..] == ds[1..] + [d];
      SumSnoc(ds[1..], d);
    }
  }

  /** In a reference timeline each record lasts its own maximum weeks. */
  lemma ReferenceRecordWeeks(t: seq<StageRecord>, stages: seq<string>, start: int, ds: seq<Duration>)
    requires IsReferenceTimeline(t, stages, start, ds)
    ensures forall i :: 0 <= i < |t| ==> t[i].end == t[i].start + DaysPerWeek * ds[i].maxWeeks
  {
    forall i | 0 <= i < |t|
      ensures t[i].end == t[i].start + DaysPerWeek * ds[i].maxWeeks
    {
      assert ds[..i + 1] == ds[..i] + [ds[i]];
      SumSnoc(ds[..i], ds[i]);
    }
  }

  /** A reference timeline preceded by a reference record for one more stage
      is the reference timeline of all the stages. */
  lemma ReferenceCons(rec: StageRecord, tr: seq<StageRecord>, stages: seq<string>, start: int, d0: Duration, ds: seq<Duration>)
    requires |stages| > 0
    requires rec.name == stages[0] && rec.start == start && rec.end == start + DaysPerWeek * d0.maxWeeks
    requires rec.durationLabel == FormatDuration(d0)
    requires IsReferenceTimeline(tr, stages[1..], rec.end, ds)
    ensures IsReferenceTimeline([rec] + tr, stages, start, [d0] + ds)
  {
    var t, all := [rec] + tr, [d0] + ds;
    forall i | 0 <= i < |t|
      ensures t[i].name == stages[i]
      ensures t[i].start == start + DaysPerWeek * SumMaxWeeks(all[..i])
      ensures t[i].end == start + DaysPerWeek * SumMaxWeeks(all[..i + 1])
      ensures t[i].durationLabel == FormatDuration(all[i])
    {
      assert all[..i + 1][1..] == ds[..i];
      if i > 0 {
        assert all[..i][1..] == ds[..i - 1];
        assert t[i] == tr[i - 1] && stages[i] == stages[1..][i - 1];
      }
    }
  }

  /** The fold succeeds exactly when its first turn does and the rest of
      the stages fold from the first record's end. */
  lemma FoldOkCons(stages: seq<string>, entries: seq<Result<Duration, BuildError>>, start: Date)
    requires |entries| == |stages| > 0
    ensures Fold(stages, entries, start).Ok? <==>
      StageStep(stages[0], entries[0], start).Ok? &&
      Fold(stages[1..], entries[1..], StageStep(stages[0], entries[0], start).value.end).Ok?
  {
  }

  /** The fold succeeds exactly when every entry parsed and the whole
      project, the sum of all maximum weeks, ends by 9999-12-31. */
  lemma {:induction false} FoldSucceedsExactly(stages: seq<string>, entries: seq<Result<Duration, BuildError>>, start: Date)
    requires |entries| == |stages|
    ensures Fold(stages, entries, start).Ok? <==>
      AllOk(entries) && start + DaysPerWeek * SumMaxWeeks(Values(entries)) <= MaxOrdinal
    decreases |stages|
  {
    if |stages| == 0 {
      return;
    }
    if entries[0].Err? {
      assert !AllOk(entries);
      return;
    }
    var d0 := entries[0].value;
    var end0 := start + DaysPerWeek * d0.maxWeeks;
    ValuesCons(entries);
    var rest := entries[1..];
    if AllOk(entries) {
      var restTotal := SumMaxWeeks(Values(rest));
      assert SumMaxWeeks(Values(entries)) == d0.maxWeeks + restTotal;
      assert DaysPerWeek * SumMaxWeeks(Values(entries)) == DaysPerWeek * d0.maxWeeks + DaysPerWeek * restTotal;
      assert DaysPerWeek * restTotal >= 0;
    }
    StageStepMeaning(stages[0], entries[0], start);
    FoldOkCons(stages, entries, start);
    if end0 <= MaxOrdinal {
      assert StageStep(stages[0], entries[0], start).value.end == end0;
      FoldSucceedsExactly(stages[1..], rest, end0);
    }
  }

  /** A built timeline is the reference timeline of its entries. */
  lemma {:induction false} FoldBuildsReference(stages: seq<string>, entries: seq<Result<Duration, BuildError>>, start: Date)
    requires |entries| == |stages|
    requires Fold(stages, entries, start).Ok?
    ensures AllOk(entries)
    ensures IsReferenceTimeline(Fold(stages, entries, start).value, stages, start, Values(entries))
    decreases |stages|
  {
    FoldSucceedsExactly(stages, entries, start);
    if |stages| == 0 {
      return;
    }
    var d0 := entries[0].value;
    var end0 := start + DaysPerWeek * d0.maxWeeks;
    ValuesCons(entries);
    FoldBuildsReference(stages[1..], entries[1..], end0);
    var tr := Fold(stages[1..], entries[1..], end0).value;
    var rec := StageRecord(stages[0], start, end0, FormatDuration(d0));
    assert Fold(stages, entries, start) == Ok([rec] + tr);
    ReferenceCons(rec, tr, stages, start, d0, Values(entries[1..]));
  }

  /** The fold builds exactly the reference timeline: it succeeds when every
      entry parsed and the whole project ends by 9999-12-31, and then record
      `i` is the reference record `i`. */
  lemma FoldIsReference(stages: seq<string>, entries: seq<Result<Duration, BuildError>>, start: Date)
    requires |entries| == |stages|
    ensures Fold(stages, entries, start).Ok? <==>
      AllOk(entries) && start + DaysPerWeek * SumMaxWeeks(Values(entries)) <= MaxOrdinal
    ensures Fold(stages, entries, start).Ok? ==>
      IsReferenceTimeline(Fold(stages, entries, start).value, stages, start, Values(entries))
  {
    FoldSucceedsExactly(stages, entries, start);
    if Fold(stages, entries, start).Ok? {
      FoldBuildsReference(stages, entries, start);
    }
  }

  /** A built timeline ends `7 * SumMaxWeeks` days after the start: the
      project's length is the sum of the stages' maximum weeks. */
  lemma FoldEndsAfterTotal(stages: seq<string>, entries: seq<Result<Duration, BuildError>>, start: Date)
    requires |entries| == |stages|
    requires Fold(stages, entries, start).Ok?
    ensures AllOk(entries)
    ensures EndOf(Fold(stages, entries, start).value, start) == start + DaysPerWeek * SumMaxWeeks(Values(entries))
  {
    FoldIsReference(stages, entries, start);
    if |stages| > 0 {
      assert Values(entries)[..|stages|] == Values(entries);
    }
  }

  /** Two entries with the same outcome and, where they parsed, the same
      maximum weeks. */
  predicate SameMaxWeeks(a: Result<Duration, BuildError>, b: Result<Duration, BuildError>) {
    match (a, b)
    case (Ok(d1), Ok(d2)) => d1.maxWeeks == d2.maxWeeks
    case (Err(e1), Err(e2)) => e1 == e2
    case _ => false
  }

  /** Two timelines with the same stages over the same dates. */
  predicate SameDates(t1: seq<StageRecord>, t2: seq<StageRecord>) {
    && |t1| == |t2|
    && forall i :: 0 <= i < |t1| ==>
      t1[i].name == t2[i].name && t1[i].start == t2[i].start && t1[i].end == t2[i].end
  }

  /** Entry lists that agree on every maximum agree after their first entry
      too. */
  lemma SameMaxWeeksRest(e1: seq<Result<Duration, BuildError>>, e2: seq<Result<Duration, BuildError>>)
    requires |e1| == |e2| > 0
    requires forall i :: 0 <= i < |e1| ==> SameMaxWeeks(e1[i], e2[i])
    ensures forall i :: 0 <= i < |e1| - 1 ==> SameMaxWeeks(e1[1..][i], e2[1..][i])
  {
    forall i | 0 <= i < |e1| - 1 ensures SameMaxWeeks(e1[1..][i], e2[1..][i]) {
      assert e1[1..][i] == e1[i + 1] && e2[1..][i] == e2[i + 1];
    }
  }

  /** Records over the same dates, in front of timelines over the same
      dates, give timelines over the same dates. */
  lemma SameDatesCons(r1: StageRecord, r2: StageRecord, t1: seq<StageRecord>, t2: seq<StageRecord>)
    requires r1.name == r2.name && r1.start == r2.start && r1.end == r2.end
    requires SameDates(t1, t2)
    ensures SameDates([r1] + t1, [r2] + t2)
  {
    var u1, u2 := [r1] + t1, [r2] + t2;
    forall i | 0 < i < |u1|
      ensures u1[i].name == u2[i].name && u1[i].start == u2[i].start && u1[i].end == u2[i].end
    {
      assert u1[i] == t1[i - 1] && u2[i] == t2[i - 1];
    }
  }

  /** The minimum weeks never move a date: entries that agree on every
      stage's maximum give the same outcome and the same dates. */
  lemma {:induction false} MinWeeksIrrelevant(stages: seq<string>, e1: seq<Result<Duration, BuildError>>,
                                              e2: seq<Result<Duration, BuildError>>, start: Date)
    requires |e1| == |stages| && |e2| == |stages|
    requires forall i :: 0 <= i < |stages| ==> SameMaxWeeks(e1[i], e2[i])
    ensures Fold(stages, e1, start).Err? <==> Fold(stages, e2, start).Err?
    ensures Fold(stages, e1, start).Err? ==> Fold(stages, e1, start).error == Fold(stages, e2, start).error
    ensures Fold(stages, e1, start).Ok? ==> SameDates(Fold(stages, e1, start).value, Fold(stages, e2, start).value)
    decreases |stages|
  {
    if |stages| == 0 {
      return;
    }
    SameMaxWeeksRest(e1, e2);
    var s1, s2 := StageStep(stages[0], e1[0], start), StageStep(stages[0], e2[0], start);
    StepSameMaxWeeks(stages[0], e1[0], e2[0], start);
    if s1.Ok? {
      var end := s1.value.end;
      MinWeeksIrrelevant(stages[1..], e1[1..], e2[1..], end);
      var f1, f2 := Fold(stages[1..], e1[1..], end), Fold(stages[1..], e2[1..], end);
      if f1.Ok? {
        SameDatesCons(s1.value, s2.value, f1.value, f2.value);
      }
    }
  }

  /** One loop turn on entries with the same maximum: the same outcome, and
      on success a record over the same dates. */
  lemma StepSameMaxWeeks(stage: string, a: Result<Duration, BuildError>, b: Result<Duration, BuildError>, cursor: Date)
    requires SameMaxWeeks(a, b)
    ensures StageStep(stage, a, cursor).Err? <==> StageStep(stage, b, cursor).Err?
    ensures StageStep(stage, a, cursor).Err? ==> StageStep(stage, a, cursor).error == StageStep(stage, b, cursor).error
    ensures StageStep(stage, a, cursor).Ok? ==>
      var r1, r2 := StageStep(stage, a, cursor).value, StageStep(stage, b, cursor).value;
      r1.name == r2.name && r1.start == r2.start && r1.end == r2.end
  {
  }

  /** When the stages before stage `k` all parse and fit, a stage `k` that
      fails to parse is the error the build reports. */
  lemma FailsAtStage(stages: seq<string>, entries: seq<Result<Duration, BuildError>>, start: Date, k: int)
    requires |entries| == |stages| && 0 <= k < |stages|
    requires AllOk(entries[..k]) && entries[k].Err?
    requires start + DaysPerWeek * SumMaxWeeks(Values(entries[..k])) <= MaxOrdinal
    ensures Fold(stages, entries, start) == Err(entries[k].error)
  {
    FoldIsReference(stages[..k], entries[..k], start);
    FoldPrefixStep(stages, entries, k, start);
    FoldPrefixStops(stages, entries, k + 1, start);
  }

  /** `create_project_timeline`'s `for` loop: for each stage in turn it reads
      and parses the stage's field, appends the record running from the
      cursor, and moves the cursor to the record's end; the first failing
      stage ends the build. */
  method CreateProjectTimeline(form: Form, stages: seq<string>, start: Date) returns (r: Result<seq<StageRecord>, BuildError>)
    ensures r == BuildTimeline(form, stages, start)
  {
    ghost var entries := Entries(form, stages);
    var timeline: seq<StageRecord> := [];
    var current: Date := start;
    for k := 0 to |stages|
      invariant Fold(stages[..k], entries[..k], start) == Ok(timeline)
      invariant current == EndOf(timeline, start)
    {
      var entry := StageDuration(form, stages[k]);
      FoldPrefixStep(stages, entries, k, start);
      var step := StageStep(stages[k], entry, current);
      if step.Err? {
        FoldPrefixStops(stages, entries, k + 1, start);
        return Err(step.error);
      }
      timeline := timeline + [step.value];
      current := step.value.end;
    }
    assert stages[..|stages|] == stages && entries[..|stages|] == entries;
    return Ok(timeline);
  }
}
