/**
 * The submission form: the editable list of detection rows, the three-step
 * validation, the request payload, and the submit lifecycle that clears the
 * error, validates, marks the request in flight and, on failure, shows the
 * error and clears the in-flight flag.
 */
module FormPage {
  import opened Wrappers
  import opened JsString
  import opened JsArray
  import ResultsPage

  /** One editable row of the form. */
  datatype Detection = Detection(detectionId: string, capturedAt: string, imageUrl: string)

  /** `keyof Detection`. */
  datatype Field = DetectionIdField | CapturedAtField | ImageUrlField

  function Get(d: Detection, f: Field): string {
    match f
    case DetectionIdField => d.detectionId
    case CapturedAtField => d.capturedAt
    case ImageUrlField => d.imageUrl
  }

  /** `d[field] = value`: that one field takes the value, the other two are kept. */
  function WithField(d: Detection, f: Field, value: string): (e: Detection)
    ensures Get(e, f) == value
    ensures forall g :: g != f ==> Get(e, g) == Get(d, g)
  {
    match f
    case DetectionIdField => d.(detectionId := value)
    case CapturedAtField => d.(capturedAt := value)
    case ImageUrlField => d.(imageUrl := value)
  }

  /** The row the form starts with and appends: no identifier, no image, and the
      given default time (the page reads it from the clock). */
  function EmptyRow(capturedAt: string): (row: Detection)
    ensures row.capturedAt == capturedAt && row.detectionId == "" && row.imageUrl == ""
  {
    Detection("", capturedAt, "")
  }

  // ---------------------------------------------------------------------------
  // Removing a row

  /** `rows.filter((_, i) => i !== index)`: keeps every row whose position is not `index`. */
  function WithoutIndex<T>(rows: seq<T>, index: int): (r: seq<T>)
    ensures |r| <= |rows|
  {
    if rows == [] then []
    else WithoutIndex(rows[..|rows| - 1], index) + (if |rows| - 1 == index then [] else [rows[|rows| - 1]])
  }

  /** An index out of range selects nothing, so the filter keeps every row. */
  lemma {:induction false} WithoutIndexOutOfRange<T>(rows: seq<T>, index: int)
    requires index < 0 || |rows| <= index
    ensures WithoutIndex(rows, index) == rows
  {
    if rows != [] {
      WithoutIndexOutOfRange(rows[..|rows| - 1], index);
    }
  }

  /** An index in range removes exactly that row: one fewer row, and the others
      keep their values and their relative order. */
  lemma {:induction false} WithoutIndexInRange<T>(rows: seq<T>, index: int)
    requires 0 <= index < |rows|
    ensures WithoutIndex(rows, index) == rows[..index] + rows[index + 1..]
    ensures |WithoutIndex(rows, index)| == |rows| - 1
    ensures forall k :: 0 <= k < |rows| - 1 ==>
      WithoutIndex(rows, index)[k] == rows[if k < index then k else k + 1]
  {
    var n := |rows| - 1;
    if index == n {
      WithoutIndexOutOfRange(rows[..n], index);
    } else {
      WithoutIndexInRange(rows[..n], index);
      assert rows[..n][..index] == rows[..index];
      assert rows[..n][index + 1..] + [rows[n]] == rows[index + 1..];
    }
  }

  // ---------------------------------------------------------------------------
  // Updating a row

  /** The copied list with one field of row `index` replaced. */
  function UpdateAt(rows: seq<Detection>, index: nat, f: Field, value: string): (r: seq<Detection>)
    requires index < |rows|
    ensures |r| == |rows|
    ensures forall k :: 0 <= k < |rows| && k != index ==> r[k] == rows[k]
    ensures Get(r[index], f) == value
    ensures forall g :: g != f ==> Get(r[index], g) == Get(rows[index], g)
  {
    rows[index := WithField(rows[index], f, value)]
  }

  // ---------------------------------------------------------------------------
  // Filtering the rows that carry an image

  /** `d.imageUrl.trim() !== ''`. */
  predicate HasImage(d: Detection) {
    !IsBlank(d.imageUrl)
  }

  /** `validDetections`: the rows whose trimmed image URL is non-empty, in order. */
  function ValidDetections(rows: seq<Detection>): (valid: seq<Detection>)
    ensures |valid| <= |rows|
  {
    Filter(rows, HasImage)
  }

  /** `validDetections` is an order-preserving subsequence of the rows: its k-th
      element is the row at the k-th kept position, the positions increase, a
      position is kept exactly when its row has an image, and it is never longer
      than the rows. */
  lemma ValidDetectionsIsOrderedSubsequence(rows: seq<Detection>)
    ensures var kept := KeptPositions(rows, HasImage);
      && |kept| == |ValidDetections(rows)| <= |rows|
      && (forall k :: 0 <= k < |kept| ==> kept[k] < |rows| && ValidDetections(rows)[k] == rows[kept[k]])
      && (forall k, l :: 0 <= k < l < |kept| ==> kept[k] < kept[l])
      && (forall i :: 0 <= i < |rows| ==> (!IsBlank(rows[i].imageUrl) <==> i in kept))
  {
    FilterIsOrderedSubsequence(rows, HasImage);
  }

  /** The filter leaves nothing exactly when every row's image URL is blank. */
  lemma ValidDetectionsEmptyIff(rows: seq<Detection>)
    ensures ValidDetections(rows) == [] <==> forall i :: 0 <= i < |rows| ==> IsBlank(rows[i].imageUrl)
  {
    FilterEmptyIff(rows, HasImage);
  }

  /** A freshly added row is left out of the submission until its URL is filled in. */
  lemma EmptyRowIsNotSubmitted(rows: seq<Detection>, capturedAt: string)
    ensures ValidDetections(rows + [EmptyRow(capturedAt)]) == ValidDetections(rows)
  {
    assert (rows + [EmptyRow(capturedAt)])[..|rows|] == rows;
  }

  // ---------------------------------------------------------------------------
  // Validation

  /** The three rules, in the order they are checked. */
  datatype ValidationError = MissingIdentity | MissingSourceImage | MissingDetectionImage {
    /** The text `setError` shows for this rule; every one asks for the missing input. */
    function Message(): (msg: string)
      ensures |msg| > 15 && msg[..15] == "Please provide "
    {
      match this
      case MissingIdentity => "Please provide candidate name and email"
      case MissingSourceImage => "Please provide a source image URL"
      case MissingDetectionImage => "Please provide at least one detection image"
    }
  }

  /** No two rules share a message, so the text shown names the rule that failed. */
  lemma MessagesIdentifyTheRule(a: ValidationError, b: ValidationError)
    ensures a.Message() == b.Message() <==> a == b
  {
  }

  datatype Validation = Rejected(reason: ValidationError) | Accepted(validDetections: seq<Detection>)

  /** The first failing rule, or the rows to submit when all three pass. */
  function Validate(candidateName: string, email: string, sourceImage: string, rows: seq<Detection>): (v: Validation)
    ensures v == Rejected(MissingIdentity) <==> IsBlank(candidateName) || IsBlank(email)
    ensures v == Rejected(MissingSourceImage) <==>
      !IsBlank(candidateName) && !IsBlank(email) && IsBlank(sourceImage)
    ensures v == Rejected(MissingDetectionImage) <==>
      && !IsBlank(candidateName) && !IsBlank(email) && !IsBlank(sourceImage)
      && forall i :: 0 <= i < |rows| ==> IsBlank(rows[i].imageUrl)
    ensures v.Accepted? ==> v.validDetections == ValidDetections(rows) && v.validDetections != []
  {
    ValidDetectionsEmptyIff(rows);
    if IsBlank(candidateName) || IsBlank(email) then Rejected(MissingIdentity)
    else if IsBlank(sourceImage) then Rejected(MissingSourceImage)
    else
      var valid := ValidDetections(rows);
      if |valid| == 0 then Rejected(MissingDetectionImage) else Accepted(valid)
  }

  // ---------------------------------------------------------------------------
  // The request payload

  /** One element of `detections` on the wire (`detection_id`, `captured_at`, `image_url`). */
  datatype WireDetection = WireDetection(detectionId: string, capturedAt: string, imageUrl: string)

  /** The request body (`candidate_name`, `email`, `source_image.image_url`, `detections`). */
  datatype Payload = Payload(candidateName: string, email: string, sourceImageUrl: string, detections: seq<WireDetection>)

  /** `` `image-${now}` ``: the prefix followed by the clock reading's digits. */
  function SyntheticId(now: nat): (id: string)
    ensures |id| > 6 && id[..6] == "image-"
    ensures forall i :: 6 <= i < |id| ==> '0' <= id[i] <= '9'
    ensures DecimalValue(id[6..]) == now
    ensures id[6] == '0' ==> |id| == 7
  {
    DecimalRoundTrip(now);
    var id := "image-" + Decimal(now);
    assert id[6..] == Decimal(now);
    id
  }

  /** `d.detectionId || ...`: the `||` tests the raw string, so only the empty
      identifier is replaced (a whitespace-only one is kept). */
  function WireId(d: Detection, now: nat): (id: string)
    ensures id != ""
    ensures d.detectionId != "" ==> id == d.detectionId
    ensures d.detectionId == "" ==> id == SyntheticId(now)
  {
    if d.detectionId != "" then d.detectionId else SyntheticId(now)
  }

  /** One retained row as sent: time and URL copied, identifier as `WireId` gives it. */
  function ToWire(d: Detection, now: nat): (w: WireDetection)
    ensures w.capturedAt == d.capturedAt && w.imageUrl == d.imageUrl
    ensures w.detectionId != ""
    ensures d.detectionId != "" ==> w.detectionId == d.detectionId
    ensures d.detectionId == "" ==> w.detectionId == SyntheticId(now)
  {
    WireDetection(WireId(d, now), d.capturedAt, d.imageUrl)
  }

  /** The payload. `clock(k)` is what `Date.now()` returns when the k-th retained
      row is mapped; it is read only for rows with an empty identifier. */
  function BuildPayload(candidateName: string, email: string, sourceImage: string,
                        valid: seq<Detection>, clock: nat -> nat): (p: Payload)
    ensures p.candidateName == candidateName && p.email == email && p.sourceImageUrl == sourceImage
    ensures |p.detections| == |valid|
    ensures forall k :: 0 <= k < |valid| ==> p.detections[k] == ToWire(valid[k], clock(k))
  {
    Payload(candidateName, email, sourceImage,
      seq(|valid|, k requires 0 <= k < |valid| => ToWire(valid[k], clock(k))))
  }

  /** What reaches the wire: one element per row that has an
      image, in row order, with the time and URL copied unchanged and a non-empty
      identifier that is the row's own whenever it has one and otherwise the
      synthetic one for the reading taken at that entry. */
  lemma PayloadFollowsRows(candidateName: string, email: string, sourceImage: string,
                           rows: seq<Detection>, clock: nat -> nat)
    ensures var p := BuildPayload(candidateName, email, sourceImage, ValidDetections(rows), clock);
      var kept := KeptPositions(rows, HasImage);
      && |p.detections| == |kept|
      && forall k :: 0 <= k < |kept| ==>
           && kept[k] < |rows|
           && p.detections[k].capturedAt == rows[kept[k]].capturedAt
           && p.detections[k].imageUrl == rows[kept[k]].imageUrl
           && !IsBlank(p.detections[k].imageUrl)
           && p.detections[k].detectionId != ""
           && (rows[kept[k]].detectionId != "" ==> p.detections[k].detectionId == rows[kept[k]].detectionId)
           && (rows[kept[k]].detectionId == "" ==> p.detections[k].detectionId == SyntheticId(clock(k)))
  {
    ValidDetectionsIsOrderedSubsequence(rows);
  }

  /** Two retained rows without an identifier that are mapped within the same
      clock reading get the same synthetic identifier. */
  lemma SameReadingSameId(valid: seq<Detection>, clock: nat -> nat, k: nat, l: nat)
    requires k < |valid| && l < |valid|
    requires valid[k].detectionId == "" && valid[l].detectionId == ""
    requires clock(k) == clock(l)
    ensures BuildPayload("", "", "", valid, clock).detections[k].detectionId
         == BuildPayload("", "", "", valid, clock).detections[l].detectionId
  {
  }

  // ---------------------------------------------------------------------------
  // The submit lifecycle

  /** A value thrown inside the `try`: an `Error` carries a message. */
  datatype Thrown = ErrorObject(message: string) | NonErrorValue

  /** How the request ends. `Delivered` is a response whose `ok` holds and whose
      body parsed (`None` when the parsed body is falsy); `HttpError` is a response
      whose `ok` does not hold; `TransportError` is anything thrown by `fetch` or
      by parsing the body. */
  datatype FetchOutcome =
    | Delivered(data: Option<seq<ResultsPage.DetectionResult>>)
    | HttpError(status: nat)
    | TransportError(thrown: Thrown)

  /** The message the `catch` shows. */
  function FailureMessage(outcome: FetchOutcome): (m: string)
    requires !outcome.Delivered?
    ensures outcome.HttpError? ==>
      && |m| > 20 && m[..20] == "HTTP error! status: "
      && (forall i :: 20 <= i < |m| ==> '0' <= m[i] <= '9')
      && DecimalValue(m[20..]) == outcome.status
      && (m[20] == '0' ==> |m| == 21)
    ensures outcome.TransportError? && outcome.thrown.ErrorObject? ==> m == outcome.thrown.message
    ensures outcome.TransportError? && outcome.thrown.NonErrorValue? ==> m == "Failed to process request"
  {
    match outcome
    case HttpError(status) =>
      DecimalRoundTrip(status);
      var m := "HTTP error! status: " + Decimal(status);
      assert m[20..] == Decimal(status);
      m
    case TransportError(ErrorObject(message)) => message
    case TransportError(NonErrorValue) => "Failed to process request"
  }

  /** The state handed to the results view by navigation. */
  datatype Navigation = Navigation(
    results: Option<seq<ResultsPage.DetectionResult>>,
    sourceImage: string,
    detectionImages: seq<Detection>,
    candidateName: string,
    email: string)

  /** The part of the handed-over state the results view reads. */
  function Carried(n: Navigation): ResultsPage.LocationState {
    ResultsPage.LocationState(n.results, n.sourceImage, n.candidateName, n.email)
  }

  /** Everything one submit attempt decides: the error shown afterwards, the
      in-flight flag afterwards, the request sent (if any) and the navigation
      made (if any). */
  datatype SubmitEffect = SubmitEffect(
    error: Option<string>,
    isSubmitting: bool,
    request: Option<Payload>,
    navigation: Option<Navigation>)

  /** The specification of one submit attempt over the form's current values. */
  function Submission(candidateName: string, email: string, sourceImage: string, rows: seq<Detection>,
                      wasSubmitting: bool, clock: nat -> nat, outcome: FetchOutcome): (e: SubmitEffect)
    // a rejected form shows the first failing rule, sends nothing and leaves the flag alone
    ensures Validate(candidateName, email, sourceImage, rows).Rejected? ==>
      && e.error == Some(Validate(candidateName, email, sourceImage, rows).reason.Message())
      && e.request.None? && e.navigation.None? && e.isSubmitting == wasSubmitting
    // an accepted form sends exactly the payload of its rows with an image
    ensures Validate(candidateName, email, sourceImage, rows).Accepted? ==>
      e.request == Some(BuildPayload(candidateName, email, sourceImage, ValidDetections(rows), clock))
    // a delivered response navigates with the results and the submitted values, and no error
    ensures Validate(candidateName, email, sourceImage, rows).Accepted? && outcome.Delivered? ==>
      && e.error.None? && e.isSubmitting
      && e.navigation == Some(Navigation(outcome.data, sourceImage, ValidDetections(rows), candidateName, email))
    // a failed request shows its message, stays on the form and clears the flag
    ensures Validate(candidateName, email, sourceImage, rows).Accepted? && !outcome.Delivered? ==>
      e.error == Some(FailureMessage(outcome)) && !e.isSubmitting && e.navigation.None?
    // navigation happens only after a request, and exactly when no error is left
    ensures e.navigation.Some? ==> e.request.Some?
    ensures e.navigation.Some? <==> e.error.None?
  {
    match Validate(candidateName, email, sourceImage, rows)
    case Rejected(reason) => SubmitEffect(Some(reason.Message()), wasSubmitting, None, None)
    case Accepted(valid) =>
      var request := BuildPayload(candidateName, email, sourceImage, valid, clock);
      match outcome
      case Delivered(data) =>
        SubmitEffect(None, true, Some(request), Some(Navigation(data, sourceImage, valid, candidateName, email)))
      case _ => SubmitEffect(Some(FailureMessage(outcome)), false, Some(request), None)
  }

  /** A blank name or email stops the attempt before any request, whatever else
      the form holds. */
  lemma BlankIdentitySendsNothing(candidateName: string, email: string, sourceImage: string, rows: seq<Detection>,
                                  wasSubmitting: bool, clock: nat -> nat, outcome: FetchOutcome)
    requires forall i :: 0 <= i < |candidateName| ==> IsJsWhitespace(candidateName[i])
    ensures var e := Submission(candidateName, email, sourceImage, rows, wasSubmitting, clock, outcome);
      e.request.None? && e.error == Some("Please provide candidate name and email")
  {
    BlankIffAllWhitespace(candidateName);
  }

  /** Rows whose image URLs are all blank never reach the network. */
  lemma BlankImagesSendNothing(candidateName: string, email: string, sourceImage: string, rows: seq<Detection>,
                               wasSubmitting: bool, clock: nat -> nat, outcome: FetchOutcome)
    requires forall i :: 0 <= i < |rows| ==> IsBlank(rows[i].imageUrl)
    ensures var e := Submission(candidateName, email, sourceImage, rows, wasSubmitting, clock, outcome);
      e.request.None? && e.navigation.None? && e.error.Some?
  {
  }

  /** A rejected HTTP status leaves the form with a message that carries the
      status code and with the flag cleared. */
  lemma HttpFailureReportsStatus(candidateName: string, email: string, sourceImage: string, rows: seq<Detection>,
                                 wasSubmitting: bool, clock: nat -> nat, status: nat)
    ensures var e := Submission(candidateName, email, sourceImage, rows, wasSubmitting, clock, HttpError(status));
      Validate(candidateName, email, sourceImage, rows).Accepted? ==>
      && e.navigation.None? && !e.isSubmitting && e.error.Some?
      && e.error.value == "HTTP error! status: " + Decimal(status)
  {
  }

  /** After a delivered response the results view renders exactly when the body
      parsed to an array, and then it counts the response's results. */
  lemma DeliveredResultsReachTheView(candidateName: string, email: string, sourceImage: string, rows: seq<Detection>,
                                     wasSubmitting: bool, clock: nat -> nat,
                                     data: Option<seq<ResultsPage.DetectionResult>>)
    requires Validate(candidateName, email, sourceImage, rows).Accepted?
    ensures var e := Submission(candidateName, email, sourceImage, rows, wasSubmitting, clock, Delivered(data));
      && e.navigation.Some?
      && var screen := ResultsPage.View(Some(Carried(e.navigation.value)));
      && (screen.Render? <==> data.Some?)
      && (screen.Render? ==>
            && screen.summary.total == |data.value|
            && screen.summary.candidateName == candidateName
            && screen.summary.email == email)
  {
  }

  // ---------------------------------------------------------------------------
  // The form's state

  /** The component state: the three text inputs, the rows, the in-flight flag
      and the error message. */
  class ComposeView {
    var candidateName: string
    var email: string
    var sourceImage: string
    var detectionImages: seq<Detection>
    var isSubmitting: bool
    var error: Option<string>

    /** At least one row is always present. */
    ghost predicate Valid()
      reads this
    {
      |detectionImages| >= 1
    }

    /** A fresh form: empty inputs, one empty row stamped with `now`, no error. */
    constructor (now: string)
      ensures Valid()
      ensures candidateName == "" && email == "" && sourceImage == ""
      ensures detectionImages == [EmptyRow(now)]
      ensures !isSubmitting && error.None?
    {
      candidateName, email, sourceImage := "", "", "";
      detectionImages := [EmptyRow(now)];
      isSubmitting, error := false, None;
    }

    method SetCandidateName(value: string)
      requires Valid()
      modifies this
      ensures Valid()
      ensures candidateName == value
      ensures email == old(email) && sourceImage == old(sourceImage)
      ensures detectionImages == old(detectionImages)
      ensures isSubmitting == old(isSubmitting) && error == old(error)
    {
      candidateName := value;
    }

    method SetEmail(value: string)
      requires Valid()
      modifies this
      ensures Valid()
      ensures email == value
      ensures candidateName == old(candidateName) && sourceImage == old(sourceImage)
      ensures detectionImages == old(detectionImages)
      ensures isSubmitting == old(isSubmitting) && error == old(error)
    {
      email := value;
    }

    method SetSourceImage(value: string)
      requires Valid()
      modifies this
      ensures Valid()
      ensures sourceImage == value
      ensures candidateName == old(candidateName) && email == old(email)
      ensures detectionImages == old(detectionImages)
      ensures isSubmitting == old(isSubmitting) && error == old(error)
    {
      sourceImage := value;
    }

    /** `addDetectionImage`: one more row at the end, every existing row kept. */
    method AddDetectionImage(now: string)
      requires Valid()
      modifies this
      ensures Valid()
      ensures detectionImages == old(detectionImages) + [EmptyRow(now)]
      ensures |detectionImages| == |old(detectionImages)| + 1
      ensures candidateName == old(candidateName) && email == old(email) && sourceImage == old(sourceImage)
      ensures isSubmitting == old(isSubmitting) && error == old(error)
    {
      detectionImages := detectionImages + [EmptyRow(now)];
    }

    /** `removeDetectionImage`: refuses when one row is left; otherwise drops the
        row at `index`, which changes nothing when `index` is out of range. */
    method RemoveDetectionImage(index: int)
      requires Valid()
      modifies this
      ensures Valid()
      ensures |old(detectionImages)| == 1 ==> detectionImages == old(detectionImages)
      ensures |old(detectionImages)| > 1 && 0 <= index < |old(detectionImages)| ==>
        detectionImages == old(detectionImages)[..index] + old(detectionImages)[index + 1..]
      ensures (index < 0 || |old(detectionImages)| <= index) ==> detectionImages == old(detectionImages)
      ensures candidateName == old(candidateName) && email == old(email) && sourceImage == old(sourceImage)
      ensures isSubmitting == old(isSubmitting) && error == old(error)
    {
      if |detectionImages| > 1 {
        if 0 <= index < |detectionImages| {
          WithoutIndexInRange(detectionImages, index);
        } else {
          WithoutIndexOutOfRange(detectionImages, index);
        }
        detectionImages := WithoutIndex(detectionImages, index);
      }
    }

    /** `updateDetectionImage`: replaces one field of row `index`. With `index`
        out of range, `updated[index]` is undefined and the assignment throws a
        TypeError before any state changes; `threw` reports that case. */
    method UpdateDetectionImage(index: int, field: Field, value: string) returns (threw: bool)
      requires Valid()
      modifies this
      ensures Valid()
      ensures threw <==> !(0 <= index < |old(detectionImages)|)
      ensures threw ==> detectionImages == old(detectionImages)
      ensures !threw ==> detectionImages == UpdateAt(old(detectionImages), index, field, value)
      ensures candidateName == old(candidateName) && email == old(email) && sourceImage == old(sourceImage)
      ensures isSubmitting == old(isSubmitting) && error == old(error)
    {
      threw := !(0 <= index < |detectionImages|);
      if !threw {
        var updated := detectionImages;
        updated := updated[index := WithField(updated[index], field, value)];
        detectionImages := updated;
      }
    }

    /** `handleSubmit`, step by step: clear the error, validate, mark the request
        in flight, build and send the payload, then navigate or show the failure. */
    method HandleSubmit(clock: nat -> nat, outcome: FetchOutcome)
      returns (request: Option<Payload>, navigation: Option<Navigation>)
      requires Valid()
      modifies this
      ensures Valid()
      ensures var e := Submission(old(candidateName), old(email), old(sourceImage), old(detectionImages),
                                  old(isSubmitting), clock, outcome);
        error == e.error && isSubmitting == e.isSubmitting && request == e.request && navigation == e.navigation
      ensures candidateName == old(candidateName) && email == old(email) && sourceImage == old(sourceImage)
      ensures detectionImages == old(detectionImages)
    {
      error := None;
      request, navigation := None, None;
      var validation := Validate(candidateName, email, sourceImage, detectionImages);
      if validation.Rejected? {
        error := Some(validation.reason.Message());
        return;
      }
      var validDetections := validation.validDetections;
      isSubmitting := true;
      var payload := BuildPayload(candidateName, email, sourceImage, validDetections, clock);
      request := Some(payload);
      match outcome
      case Delivered(data) =>
        navigation := Some(Navigation(data, sourceImage, validDetections, candidateName, email));
      case _ =>
        error := Some(FailureMessage(outcome));
        isSubmitting := false;
    }
  }
}
