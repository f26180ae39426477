/** The stage catalog: the ordered stage names of the two kinds of project,
    and the form field under which each stage's duration is entered. */
module Stages {

  /** The project-type selector value that picks the minor-change catalog. */
  const MinorChangeSelector: string := "1"

  const MinorChangeStages: seq<string> := [
    "Project kickoff",
    "Drawing and BOM",
    "QGCO",
    "Cable Sourcing",
    "Air gap analysis",
    "Customer C sample",
    "Customer approval for drawing",
    "D sample Production Release",
    "Cable PPAP",
    "QGC4",
    "SOP"
  ]

  const AdaptProjectStages: seq<string> := [
    "Project kickoff",
    "Design and Specification",
    "Prototype",
    "Production",
    "Testing",
    "Implementation",
    "Finalization"
  ]

  /** No name occurs twice. */
  predicate Distinct(names: seq<string>) {
    forall i, j :: 0 <= i < j < |names| ==> names[i] != names[j]
  }

  /** The stages of a project of the given type: the minor-change catalog for
      selector `"1"`, the adapt-project catalog for every other value. */
  function GetStages(projectType: string): (stages: seq<string>)
    ensures projectType == MinorChangeSelector ==> |stages| == 11
    ensures projectType != MinorChangeSelector ==> |stages| == 7
    ensures |stages| > 0 && stages[0] == "Project kickoff"
    ensures stages[|stages| - 1] == (if projectType == MinorChangeSelector then "SOP" else "Finalization")
  {
    if projectType == MinorChangeSelector then MinorChangeStages else AdaptProjectStages
  }

  /** The two catalogs share only their first stage. */
  lemma CatalogsShareOnlyKickoff()
    ensures forall i, j :: 0 <= i < |MinorChangeStages| && 0 <= j < |AdaptProjectStages| ==>
      (MinorChangeStages[i] == AdaptProjectStages[j] <==> i == 0 && j == 0)
  {
  }

  /** `str.lower` on one character, for the ASCII letters. */
  function LowerChar(c: char): char {
    if 'A' <= c <= 'Z' then (c as int - 'A' as int + 'a' as int) as char else c
  }

  /** One character of a form key: lowered, and a space becomes `'_'`. */
  function KeyChar(c: char): char {
    if c == ' ' then '_' else LowerChar(c)
  }

  /** The form field holding a stage's duration:
      `stage_name.lower().replace(" ", "_")`. Character by character, a space
      becomes `'_'`, a capital letter becomes its small letter and every
      other character is kept. */
  function FormKey(name: string): (key: string)
    ensures |key| == |name|
    ensures forall i :: 0 <= i < |key| ==> key[i] != ' ' && !('A' <= key[i] <= 'Z')
    ensures forall i :: 0 <= i < |key| && name[i] == ' ' ==> key[i] == '_'
    ensures forall i :: 0 <= i < |key| && 'A' <= name[i] <= 'Z' ==> key[i] as int == name[i] as int + 32
    ensures forall i :: 0 <= i < |key| && name[i] != ' ' && !('A' <= name[i] <= 'Z') ==> key[i] == name[i]
  {
    seq(|name|, i requires 0 <= i < |name| => KeyChar(name[i]))
  }

  /** Keys are already normal: normalising a key leaves it unchanged. */
  lemma FormKeyIdempotent(name: string)
    ensures FormKey(FormKey(name)) == FormKey(name)
  {
  }

  /** The form fields of the first minor-change stages. */
  lemma MinorChangeKeysOpening()
    ensures FormKey(MinorChangeStages[0]) == "project_kickoff"
    ensures FormKey(MinorChangeStages[1]) == "drawing_and_bom"
    ensures FormKey(MinorChangeStages[2]) == "qgco"
  {
  }

  /** The form fields of the sourcing and air-gap stages. */
  lemma MinorChangeKeysSourcing()
    ensures FormKey(MinorChangeStages[3]) == "cable_sourcing"
    ensures FormKey(MinorChangeStages[4]) == "air_gap_analysis"
  {
  }

  /** The form field of the customer sample stage. */
  lemma MinorChangeKeySample()
    ensures FormKey(MinorChangeStages[5]) == "customer_c_sample"
  {
  }

  /** The form field of the longest minor-change stage name. */
  lemma MinorChangeKeyApproval()
    ensures FormKey(MinorChangeStages[6]) == "customer_approval_for_drawing"
  {
  }

  /** The form field of the production-release stage. */
  lemma MinorChangeKeyRelease()
    ensures FormKey(MinorChangeStages[7]) == "d_sample_production_release"
  {
  }

  /** The form fields of the last minor-change stages. */
  lemma MinorChangeKeysClosing()
    ensures FormKey(MinorChangeStages[8]) == "cable_ppap"
    ensures FormKey(MinorChangeStages[9]) == "qgc4"
    ensures FormKey(MinorChangeStages[10]) == "sop"
  {
  }

  /** The form fields of the kickoff, prototype and production stages of an
      adapt project. */
  lemma AdaptProjectKeysBuild()
    ensures FormKey(AdaptProjectStages[0]) == "project_kickoff"
    ensures FormKey(AdaptProjectStages[2]) == "prototype"
    ensures FormKey(AdaptProjectStages[3]) == "production"
  {
  }

  /** The form field of the design stage of an adapt project. */
  lemma AdaptProjectKeyDesign()
    ensures FormKey(AdaptProjectStages[1]) == "design_and_specification"
  {
  }

  /** The form fields of the last adapt-project stages. */
  lemma AdaptProjectKeysClosing()
    ensures FormKey(AdaptProjectStages[4]) == "testing"
    ensures FormKey(AdaptProjectStages[5]) == "implementation"
    ensures FormKey(AdaptProjectStages[6]) == "finalization"
  {
  }

  /** The form fields of the minor-change stages, in catalog order. */
  const MinorChangeKeys: seq<string> := [
    "project_kickoff", "drawing_and_bom", "qgco", "cable_sourcing", "air_gap_analysis",
    "customer_c_sample", "customer_approval_for_drawing", "d_sample_production_release",
    "cable_ppap", "qgc4", "sop"]

  /** The form fields of the adapt-project stages, in catalog order. */
  const AdaptProjectKeyList: seq<string> := [
    "project_kickoff", "design_and_specification", "prototype", "production",
    "testing", "implementation", "finalization"]

  /** Every minor-change stage reads the field listed for it. */
  lemma MinorChangeKeysMatch()
    ensures forall i :: 0 <= i < |MinorChangeStages| ==> FormKey(MinorChangeStages[i]) == MinorChangeKeys[i]
  {
    MinorChangeKeysOpening();
    MinorChangeKeysSourcing();
    MinorChangeKeySample();
    MinorChangeKeyApproval();
    MinorChangeKeyRelease();
    MinorChangeKeysClosing();
  }

  /** Every adapt-project stage reads the field listed for it. */
  lemma AdaptProjectKeys()
    ensures forall i :: 0 <= i < |AdaptProjectStages| ==> FormKey(AdaptProjectStages[i]) == AdaptProjectKeyList[i]
  {
    AdaptProjectKeysBuild();
    AdaptProjectKeyDesign();
    AdaptProjectKeysClosing();
  }

  /** Within either catalog, different stages read different form fields, so
      every stage's duration is entered separately. */
  lemma CatalogKeysDistinct(projectType: string)
    ensures Distinct(GetStages(projectType))
    ensures forall i, j :: 0 <= i < j < |GetStages(projectType)| ==>
      FormKey(GetStages(projectType)[i]) != FormKey(GetStages(projectType)[j])
  {
    if projectType == MinorChangeSelector {
      assert Distinct(MinorChangeStages);
      assert Distinct(MinorChangeKeys);
      MinorChangeKeysMatch();
    } else {
      assert Distinct(AdaptProjectStages);
      assert Distinct(AdaptProjectKeyList);
      AdaptProjectKeys();
    }
  }
}
