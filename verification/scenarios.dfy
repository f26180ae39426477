/** Worked requests: an adapt project starting on 2024-01-01, and the
    requests that are turned away. */
module Scenarios {
  import opened Results
  import opened Calendar
  import opened Durations
  import opened Stages
  import opened Timeline
  import opened Planner

  /** The ordinal of 2024-01-01. */
  lemma NewYear2024()
    ensures ToOrdinal(Civil(2024, 1, 1)) == 738886
  {
    DaysBeforeYearClosedForm(2024);
  }

  /** The dates of the example, as ordinals. */
  lemma ExampleDates()
    ensures ToOrdinal(Civil(2024, 1, 8)) == ToOrdinal(Civil(2024, 1, 1)) + 7
    ensures ToOrdinal(Civil(2024, 1, 29)) == ToOrdinal(Civil(2024, 1, 1)) + 28
    ensures ToOrdinal(Civil(2024, 3, 11)) == ToOrdinal(Civil(2024, 1, 1)) + 70
    ensures ToOrdinal(Civil(2024, 5, 13)) == ToOrdinal(Civil(2024, 1, 1)) + 133
  {
  }

  /** The durations typed for the example project. */
  function ExampleForm(): Form {
    map[
      "project_kickoff" := "1-1",
      "design_and_specification" := "2-3",
      "prototype" := "4-6",
      "production" := "2-2",
      "testing" := "1-2",
      "implementation" := "3-4",
      "finalization" := "1-1"
    ]
  }

  /** A one-digit range such as `"2-3"` parses to its two digits. */
  lemma OneDigitRange(s: string)
    requires |s| == 3 && IsDigit(s[0]) && s[1] == Separator && IsDigit(s[2])
    ensures ParseDuration(s) == Some(Duration(DigitValue(s[0]), DigitValue(s[2])))
  {
    assert s[..1] == [s[0]] && s[2..] == [s[2]];
    assert DigitsValue([s[0]]) == DigitValue(s[0]) by { assert [s[0]][..0] == []; }
    assert DigitsValue([s[2]]) == DigitValue(s[2]) by { assert [s[2]][..0] == []; }
    assert SplitsAt(s, 1);
    assert s[1 + 1..] == s[2..];
  }

  /** The durations the example's fields parse to. */
  const ExampleEntryList: seq<Result<Duration, BuildError>> := [
    Ok(Duration(1, 1)), Ok(Duration(2, 3)), Ok(Duration(4, 6)), Ok(Duration(2, 2)),
    Ok(Duration(1, 2)), Ok(Duration(3, 4)), Ok(Duration(1, 1))]

  /** The example's kickoff field, `"1-1"`. */
  lemma ExampleEntry0()
    ensures StageDuration(ExampleForm(), AdaptProjectStages[0]) == Ok(Duration(1, 1))
  {
    AdaptProjectKeysBuild();
    assert ExampleForm()["project_kickoff"] == "1-1";
    OneDigitRange("1-1");
  }

  /** The example's design and specification field, `"2-3"`. */
  lemma ExampleEntry1()
    ensures StageDuration(ExampleForm(), AdaptProjectStages[1]) == Ok(Duration(2, 3))
  {
    AdaptProjectKeyDesign();
    assert ExampleForm()["design_and_specification"] == "2-3";
    OneDigitRange("2-3");
  }

  /** The example's prototype field, `"4-6"`. */
  lemma ExampleEntry2()
    ensures StageDuration(ExampleForm(), AdaptProjectStages[2]) == Ok(Duration(4, 6))
  {
    AdaptProjectKeysBuild();
    assert ExampleForm()["prototype"] == "4-6";
    OneDigitRange("4-6");
  }

  /** The example's production field, `"2-2"`. */
  lemma ExampleEntry3()
    ensures StageDuration(ExampleForm(), AdaptProjectStages[3]) == Ok(Duration(2, 2))
  {
    AdaptProjectKeysBuild();
    assert ExampleForm()["production"] == "2-2";
    OneDigitRange("2-2");
  }

  /** The example's testing field, `"1-2"`. */
  lemma ExampleEntry4()
    ensures StageDuration(ExampleForm(), AdaptProjectStages[4]) == Ok(Duration(1, 2))
  {
    AdaptProjectKeysClosing();
    assert ExampleForm()["testing"] == "1-2";
    OneDigitRange("1-2");
  }

  /** The example's implementation field, `"3-4"`. */
  lemma ExampleEntry5()
    ensures StageDuration(ExampleForm(), AdaptProjectStages[5]) == Ok(Duration(3, 4))
  {
    AdaptProjectKeysClosing();
    assert ExampleForm()["implementation"] == "3-4";
    OneDigitRange("3-4");
  }

  /** The example's finalization field, `"1-1"`. */
  lemma ExampleEntry6()
    ensures StageDuration(ExampleForm(), AdaptProjectStages[6]) == Ok(Duration(1, 1))
  {
    AdaptProjectKeysClosing();
    assert ExampleForm()["finalization"] == "1-1";
    OneDigitRange("1-1");
  }

  /** Entries agree with a list that agrees with them stage by stage. */
  lemma EntriesAre(form: Form, stages: seq<string>, list: seq<Result<Duration, BuildError>>)
    requires |list| == |stages|
    requires forall i :: 0 <= i < |stages| ==> StageDuration(form, stages[i]) == list[i]
    ensures Entries(form, stages) == list
  {
  }

  /** The entries the loop reads for the example project. */
  lemma ExampleEntries()
    ensures Entries(ExampleForm(), AdaptProjectStages) == ExampleEntryList
  {
    forall i | 0 <= i < |AdaptProjectStages|
      ensures StageDuration(ExampleForm(), AdaptProjectStages[i]) == ExampleEntryList[i]
    {
      if i == 0 { ExampleEntry0(); }
      else if i == 1 { ExampleEntry1(); }
      else if i == 2 { ExampleEntry2(); }
      else if i == 3 { ExampleEntry3(); }
      else if i == 4 { ExampleEntry4(); }
      else if i == 5 { ExampleEntry5(); }
      else { ExampleEntry6(); }
    }
    EntriesAre(ExampleForm(), AdaptProjectStages, ExampleEntryList);
  }

  /** The maximum weeks of the example: 1, 3, 6, 2, 2, 4 and 1. */
  const ExampleDurations: seq<Duration> :=
    [Duration(1, 1), Duration(2, 3), Duration(4, 6), Duration(2, 2), Duration(1, 2), Duration(3, 4), Duration(1, 1)]

  /** Every example entry parsed, to the example's durations. */
  lemma ExampleValues()
    ensures AllOk(ExampleEntryList) && Values(ExampleEntryList) == ExampleDurations
  {
  }

  /** The running totals of the example's maximum weeks. */
  lemma ExamplePrefixSums()
    ensures SumMaxWeeks(ExampleDurations[..1]) == 1
    ensures SumMaxWeeks(ExampleDurations[..2]) == 4
    ensures SumMaxWeeks(ExampleDurations[..3]) == 10
    ensures SumMaxWeeks(ExampleDurations[..7]) == 19
  {
    var ds := ExampleDurations;
    var t6 := ds[6..];
    var t5 := ds[5..];
    var t4 := ds[4..];
    var t3 := ds[3..];
    var t2 := ds[2..];
    var t1 := ds[1..];
    assert t6[1..] == [] && t5[1..] == t6 && t4[1..] == t5 && t3[1..] == t4 && t2[1..] == t3 && t1[1..] == t2;
    assert SumMaxWeeks(t6) == 1;
    assert SumMaxWeeks(t5) == 5;
    assert SumMaxWeeks(t4) == 7;
    assert SumMaxWeeks(t3) == 9;
    assert SumMaxWeeks(t2) == 15;
    assert SumMaxWeeks(t1) == 18;
    assert ds[..7] == ds && ds[1..] == t1;
    var p3, p2, p1 := ds[..3], ds[..2], ds[..1];
    assert p3[1..] == ds[1..3] && ds[1..3][1..] == ds[2..3] && ds[2..3][1..] == [];
    assert p2[1..] == ds[1..2] && ds[1..2][1..] == [];
    assert p1[1..] == [];
    assert SumMaxWeeks(ds[2..3]) == 6;
    assert SumMaxWeeks(ds[1..3]) == 9;
    assert SumMaxWeeks(ds[1..2]) == 3;
    assert SumMaxWeeks(p1) == 1;
    assert SumMaxWeeks(p2) == 4;
    assert SumMaxWeeks(p3) == 10;
    assert SumMaxWeeks(ds) == 19;
  }

  /** The label of a two-to-three-week stage. */
  lemma DesignLabel()
    ensures FormatDuration(Duration(2, 3)) == "2-3"
  {
    assert NatToString(2) == ['2'];
    assert NatToString(3) == ['3'];
  }

  /** Record `i` of a built timeline ends after the maximum weeks of stages
      `0..i`, and carries the label of its own duration. */
  lemma ReferenceRecord(stages: seq<string>, entries: seq<Result<Duration, BuildError>>, start: Date, i: int)
    requires |entries| == |stages| && AllOk(entries)
    requires start + DaysPerWeek * SumMaxWeeks(Values(entries)) <= MaxOrdinal
    requires 0 <= i < |stages|
    ensures Fold(stages, entries, start).Ok?
    ensures |Fold(stages, entries, start).value| == |stages|
    ensures Fold(stages, entries, start).value[i].end == start + DaysPerWeek * SumMaxWeeks(Values(entries)[..i + 1])
    ensures Fold(stages, entries, start).value[i].durationLabel == FormatDuration(Values(entries)[i])
  {
    FoldIsReference(stages, entries, start);
  }

  /** The example's fields give, from any start date with nineteen weeks of
      room before 9999-12-31, stages ending 1, 4, 10 and (the last) 19 weeks
      after the start. */
  lemma AdaptProjectFromAnyStart(form: Form, start: Date)
    requires Entries(form, AdaptProjectStages) == ExampleEntryList
    requires start + 133 <= MaxOrdinal
    ensures var r := BuildTimeline(form, AdaptProjectStages, start);
      && r.Ok? && |r.value| == 7
      && r.value[0].start == start
      && r.value[0].end == start + 7
      && r.value[1].end == start + 28
      && r.value[2].end == start + 70
      && r.value[6].end == start + 133
      && r.value[1].durationLabel == "2-3"
  {
    ExamplePrefixSums();
    ExampleValues();
    var stages, entries := AdaptProjectStages, ExampleEntryList;
    ReferenceRecord(stages, entries, start, 0);
    ReferenceRecord(stages, entries, start, 1);
    ReferenceRecord(stages, entries, start, 2);
    ReferenceRecord(stages, entries, start, 6);
    DesignLabel();
  }

  /** Counted from 2024-01-01, the example's end dates are 7, 28, 70 and 133
      days on, all well before 9999-12-31. The start date is a parameter,
      pinned to 2024-01-01, so that these facts plug into
      `AdaptProjectExample`, whose start is symbolic: handed a literal date,
      Dafny would unfold the whole day count of the timeline instead. */
  lemma ExampleCalendar(start: Date)
    requires start == ToOrdinal(Civil(2024, 1, 1))
    ensures start + 133 <= MaxOrdinal
    ensures start + 7 == ToOrdinal(Civil(2024, 1, 8))
    ensures start + 28 == ToOrdinal(Civil(2024, 1, 29))
    ensures start + 70 == ToOrdinal(Civil(2024, 3, 11))
    ensures start + 133 == ToOrdinal(Civil(2024, 5, 13))
  {
    NewYear2024();
    ExampleDates();
  }

  /** The example project: started on any date with nineteen weeks of room
      (2024-01-01, say: see `ExampleCalendar`), kickoff ends a week later
      (2024-01-08), design and specification four weeks later (2024-01-29),
      the prototype ten weeks later (2024-03-11), and finalization, after
      the nineteen weeks of maxima, on 2024-05-13. */
  lemma AdaptProjectExample(start: Date)
    requires start + 133 <= MaxOrdinal
    ensures var r := BuildTimeline(ExampleForm(), AdaptProjectStages, start);
      && r.Ok? && |r.value| == 7
      && r.value[0].start == start
      && r.value[0].end == start + 7
      && r.value[1].end == start + 28
      && r.value[2].end == start + 70
      && r.value[6].end == start + 133
      && r.value[1].durationLabel == "2-3"
  {
    ExampleEntries();
    AdaptProjectFromAnyStart(ExampleForm(), start);
  }

  /** Equal dates (2024-05-01 twice) and an end before the start
      (2024-06-01 to 2024-01-01) are both rejected. */
  lemma RejectedDateRanges(projectType: string, projectName: string, form: Form)
    ensures MakePlan(Request(projectType, projectName, 738886 + 121, 738886 + 121, form)).error
      == InvalidDateRange(InvalidDateRangeMessage)
    ensures MakePlan(Request(projectType, projectName, 738886 + 152, 738886, form)).error
      == InvalidDateRange(InvalidDateRangeMessage)
    ensures ToOrdinal(Civil(2024, 5, 1)) == 738886 + 121
    ensures ToOrdinal(Civil(2024, 6, 1)) == 738886 + 152
  {
    NewYear2024();
  }

  /** Words are not a duration. */
  lemma WordsNotDuration()
    ensures ParseDuration("two-four") == None
  {
    var s := "two-four";
    forall i | 0 <= i < |s| ensures !SplitsAt(s, i) {
      if 0 < i {
        assert s[..i][0] == 't';
      }
    }
  }

  /** The example's first two fields parse, whatever the rest of the form
      holds. */
  lemma FirstTwoFields(form: Form)
    requires "project_kickoff" in form && form["project_kickoff"] == "1-1"
    requires "design_and_specification" in form && form["design_and_specification"] == "2-3"
    ensures StageDuration(form, AdaptProjectStages[0]) == Ok(Duration(1, 1))
    ensures StageDuration(form, AdaptProjectStages[1]) == Ok(Duration(2, 3))
  {
    AdaptProjectKeysBuild();
    AdaptProjectKeyDesign();
    OneDigitRange("1-1");
    OneDigitRange("2-3");
  }

  /** The example's first two fields, whatever happens to its prototype
      field. */
  lemma ExampleFirstTwo(form: Form)
    requires "project_kickoff" in form && form["project_kickoff"] == "1-1"
    requires "design_and_specification" in form && form["design_and_specification"] == "2-3"
    ensures var entries := Entries(form, AdaptProjectStages);
      && AllOk(entries[..2])
      && Values(entries[..2]) == [Duration(1, 1), Duration(2, 3)]
  {
    FirstTwoFields(form);
    var entries := Entries(form, AdaptProjectStages);
    var front := entries[..2];
    assert front == [Ok(Duration(1, 1)), Ok(Duration(2, 3))];
  }

  /** `"two-four"` in the prototype's field of the example aborts the build
      with `MalformedDuration` naming the prototype stage. */
  lemma WordsRejected(start: Date)
    requires start + 28 <= MaxOrdinal
    ensures BuildTimeline(ExampleForm()["prototype" := "two-four"], AdaptProjectStages, start)
      == Err(MalformedDuration("Prototype"))
  {
    var form := ExampleForm()["prototype" := "two-four"];
    ExampleFirstTwo(form);
    AdaptProjectKeysBuild();
    WordsNotDuration();
    var entries := Entries(form, AdaptProjectStages);
    assert entries[2] == Err(MalformedDuration("Prototype"));
    assert SumMaxWeeks([Duration(1, 1), Duration(2, 3)]) == 4;
    FailsAtStage(AdaptProjectStages, entries, start, 2);
  }

  /** A form without the prototype's field aborts the build with
      `MissingDuration`. */
  lemma MissingFieldRejected(start: Date)
    requires start + 28 <= MaxOrdinal
    ensures BuildTimeline(ExampleForm() - {"prototype"}, AdaptProjectStages, start)
      == Err(MissingDuration("Prototype"))
  {
    var form := ExampleForm() - {"prototype"};
    ExampleFirstTwo(form);
    AdaptProjectKeysBuild();
    var entries := Entries(form, AdaptProjectStages);
    assert entries[2] == Err(MissingDuration("Prototype"));
    assert SumMaxWeeks([Duration(1, 1), Duration(2, 3)]) == 4;
    FailsAtStage(AdaptProjectStages, entries, start, 2);
  }
}
