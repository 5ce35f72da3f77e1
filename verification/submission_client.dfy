/**
 This module models `submitFormData`: the wizard's one network call and the
 redirect decision taken when it completes. The request itself (a POST with a
 JSON content type and the values serialised as the body) is foreign browser
 code; it appears here only as the `Submit` effect, and its completion as a
 `FetchOutcome`.
 */
module SubmissionClient {
  import opened Wrappers
  import opened FormValues

  /** The side effects the component asks the browser to perform. */
  datatype Effect =
    | Submit(action: string, payload: Values)  // POST `payload` as JSON to `action`
    | Navigate(url: string)                    // assign `window.location.href`

  /**
   How the fetch promise settles. `Rejected` is a network failure, which the
   component never handles. `Resolved` carries the `url` property of the
   `Response` object itself (not a field of the response body); it may be
   missing, which is `None`.
   */
  datatype FetchOutcome = Rejected | Resolved(url: Option<string>)

  /** JavaScript truthiness of an optional string: present and non-empty. */
  predicate Truthy(url: Option<string>)
  {
    url.Some? && |url.value| > 0
  }

  /**
   The `then` callback: navigate to the response's URL when it is truthy, and
   otherwise (a missing or empty URL, or a rejected fetch) do nothing.
   */
  function OnResponse(outcome: FetchOutcome): (r: seq<Effect>)
    ensures |r| <= 1
    ensures |r| == 1 <==> outcome.Resolved? && Truthy(outcome.url)
    ensures forall i :: 0 <= i < |r| ==> r[i].Navigate? && Some(r[i].url) == outcome.url
  {
    match outcome
    case Rejected => []
    case Resolved(url) => if url.Some? && url.value != "" then [Navigate(url.value)] else []
  }

  /** A navigation always targets exactly the URL of the response, which is never empty. */
  lemma NavigateTargetsResponseUrl(outcome: FetchOutcome, target: string)
    ensures Navigate(target) in OnResponse(outcome)
        <==> outcome == Resolved(Some(target)) && target != ""
  {
  }
}
