/**
 * The results view: the guard that sends the user back to the form when no
 * result state was carried over, the summary counts, and the per-result labels.
 */
module ResultsPage {
  import opened Wrappers
  import opened JsArray

  /** One element of the webhook's response (`Detection_id`, `Face_detection_violation`, `Status`). */
  datatype DetectionResult = DetectionResult(detectionId: string, faceDetectionViolation: bool, status: string)

  /** The state carried over by navigation. `results` is `None` when the parsed
      body was falsy (`null`, `false`, `0`, `""`); an empty array is `Some([])`.
      The unused `detectionImages` member is not part of this model. */
  datatype LocationState = LocationState(
    results: Option<seq<DetectionResult>>,
    sourceImage: string,
    candidateName: string,
    email: string)

  predicate IsViolation(r: DetectionResult) {
    r.faceDetectionViolation
  }

  predicate IsClean(r: DetectionResult) {
    !r.faceDetectionViolation
  }

  /** `violationCount`: `results.filter(r => r.Face_detection_violation).length`. */
  function ViolationCount(results: seq<DetectionResult>): (n: nat)
    ensures n <= |results|
  {
    |Filter(results, IsViolation)|
  }

  /** `totalCount`: `results.length`, which splits into the violations and the clean results. */
  function TotalCount(results: seq<DetectionResult>): (n: nat)
    ensures n == ViolationCount(results) + |Filter(results, IsClean)|
  {
    FilterPartition(results, IsViolation, IsClean);
    |results|
  }

  /** `totalCount - violationCount`, the "Clean Detections" figure. */
  function CleanCount(results: seq<DetectionResult>): (c: int)
    ensures 0 <= c <= TotalCount(results)
  {
    TotalCount(results) - ViolationCount(results)
  }

  /** The violation count is the number of positions whose flag is true, so it
      lies between 0 and the total. */
  lemma ViolationCountCountsFlags(results: seq<DetectionResult>)
    ensures ViolationCount(results) == |AcceptedPositions(results, IsViolation)|
    ensures ViolationCount(results) <= TotalCount(results)
  {
    FilterCountsPositions(results, IsViolation);
  }

  /** The clean figure is never negative, equals the number of results whose flag
      is false, and adds up with the violations to the total. */
  lemma CleanCountIsCleanResults(results: seq<DetectionResult>)
    ensures CleanCount(results) == |Filter(results, IsClean)| >= 0
    ensures ViolationCount(results) + CleanCount(results) == TotalCount(results)
  {
    FilterPartition(results, IsViolation, IsClean);
  }

  /** `result.Face_detection_violation ? 'VIOLATION' : 'CLEAN'`. */
  function Badge(r: DetectionResult): (badge: string)
    ensures badge == "VIOLATION" <==> r.faceDetectionViolation
    ensures badge == "CLEAN" <==> !r.faceDetectionViolation
  {
    if r.faceDetectionViolation then "VIOLATION" else "CLEAN"
  }

  /** `result.Face_detection_violation ? 'Yes' : 'No'`. */
  function FlagText(r: DetectionResult): (text: string)
    ensures text == "Yes" || text == "No"
    ensures text == "Yes" <==> Badge(r) == "VIOLATION"
  {
    if r.faceDetectionViolation then "Yes" else "No"
  }

  /** One detail block: its heading number ("Detection #n"), identifier, badge,
      violation text and raw status. */
  datatype Card = Card(number: nat, detectionId: string, badge: string, flagText: string, status: string)

  /** What the view shows when it renders. */
  datatype Summary = Summary(
    candidateName: string,
    email: string,
    total: nat,
    violations: nat,
    clean: int,
    cards: seq<Card>)

  datatype Screen = RedirectToForm | Render(summary: Summary)

  /** The card for result `index`: numbered from 1, with the result's identifier
      and status, and the badge and flag text its flag selects. */
  function CardOf(results: seq<DetectionResult>, index: nat): (card: Card)
    requires index < |results|
    ensures card.number == index + 1
    ensures card.detectionId == results[index].detectionId && card.status == results[index].status
    ensures card.badge == "VIOLATION" <==> results[index].faceDetectionViolation
    ensures card.flagText == "Yes" <==> results[index].faceDetectionViolation
    ensures card.badge == Badge(results[index]) && card.flagText == FlagText(results[index])
  {
    var r := results[index];
    Card(index + 1, r.detectionId, Badge(r), FlagText(r), r.status)
  }

  /** The view for a carried-over state: redirect when it is absent or carries no
      results; otherwise the summary and one card per result, in order. */
  function View(state: Option<LocationState>): (screen: Screen)
    ensures screen.RedirectToForm? <==> state.None? || state.value.results.None?
    ensures screen.Render? ==>
      var rs := state.value.results.value;
      && screen.summary.candidateName == state.value.candidateName
      && screen.summary.email == state.value.email
      && screen.summary.total == |rs|
      && screen.summary.violations == |AcceptedPositions(rs, IsViolation)| <= |rs|
      && screen.summary.clean == |Filter(rs, IsClean)| >= 0
      && screen.summary.violations + screen.summary.clean == screen.summary.total
      && |screen.summary.cards| == |rs|
  {
    match state
    case None => RedirectToForm
    case Some(s) =>
      match s.results
      case None => RedirectToForm
      case Some(rs) =>
        ViolationCountCountsFlags(rs);
        CleanCountIsCleanResults(rs);
        Render(Summary(
          s.candidateName, s.email,
          TotalCount(rs), ViolationCount(rs), CleanCount(rs),
          seq(|rs|, i requires 0 <= i < |rs| => CardOf(rs, i))))
  }

  /** The cards follow the results one to one, and exactly the violation count of
      them carry the VIOLATION badge. */
  lemma CardsMatchResults(state: LocationState)
    requires state.results.Some?
    ensures var screen := View(Some(state));
      var rs := state.results.value;
      && screen.Render?
      && (forall i :: 0 <= i < |rs| ==>
            && screen.summary.cards[i].number == i + 1
            && screen.summary.cards[i].detectionId == rs[i].detectionId
            && screen.summary.cards[i].status == rs[i].status
            && (screen.summary.cards[i].badge == "VIOLATION" <==> rs[i].faceDetectionViolation)
            && (screen.summary.cards[i].flagText == "Yes" <==> rs[i].faceDetectionViolation)
            && screen.summary.cards[i].badge == Badge(rs[i])
            && screen.summary.cards[i].flagText == FlagText(rs[i]))
      && |set i: nat | i < |rs| && screen.summary.cards[i].badge == "VIOLATION"| == screen.summary.violations
  {
    var screen := View(Some(state));
    var rs := state.results.value;
    assert (set i: nat | i < |rs| && screen.summary.cards[i].badge == "VIOLATION") == AcceptedPositions(rs, IsViolation);
  }

  /** The worked example: one violation and one clean result give 2 / 1 / 1. */
  lemma TwoResultsExample()
    ensures var rs := [DetectionResult("d1", true, "multiple faces"), DetectionResult("d2", false, "ok")];
      View(Some(LocationState(Some(rs), "", "", ""))).summary.total == 2
      && View(Some(LocationState(Some(rs), "", "", ""))).summary.violations == 1
      && View(Some(LocationState(Some(rs), "", "", ""))).summary.clean == 1
  {
    var rs := [DetectionResult("d1", true, "multiple faces"), DetectionResult("d2", false, "ok")];
    assert rs[..1] == [rs[0]];
  }
}
