/** The error overlay of the answer view: which message a recorded HTTP status shows. */
module ErrorView {
  import opened Wrappers

  const RateLimitedStatus: int := 429
  const RateLimitedMessage: string := "Sorry, you have made too many requests recently, try again later."
  const OverloadedMessage: string := "Sorry, we might be overloaded, try again later."

  /** JavaScript truthiness of the `error` state: a missing status and status 0 are falsy. */
  predicate Truthy(error: Option<int>) {
    error.Some? && error.value != 0
  }

  /** `{error && (... error === 429 ? ... : ...)}`: the overlay text, if any. */
  function ErrorOverlay(error: Option<int>): (r: Option<string>)
    ensures r.Some? <==> Truthy(error)
    ensures r.Some? ==> (r.value == RateLimitedMessage <==> error.value == RateLimitedStatus)
    ensures r.Some? ==> r.value in {RateLimitedMessage, OverloadedMessage}
  {
    if !Truthy(error) then None
    else if error.value == RateLimitedStatus then Some(RateLimitedMessage)
    else Some(OverloadedMessage)
  }

  /** The cases one by one: nothing, 0, 429, and any other status. */
  lemma OverlayCases(status: int)
    ensures ErrorOverlay(None) == None
    ensures ErrorOverlay(Some(0)) == None
    ensures ErrorOverlay(Some(RateLimitedStatus)) == Some(RateLimitedMessage)
    ensures status != 0 && status != RateLimitedStatus ==> ErrorOverlay(Some(status)) == Some(OverloadedMessage)
  {
  }
}
