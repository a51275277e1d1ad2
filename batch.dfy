/** The batch step of the application: one extraction call per file joined
    with Promise.all, and the classification of the value a failed batch was
    rejected with into the one message shown to the user. */
module Batch {
  import opened Types
  import opened JsStrings

  const UNEXPECTED_ERROR_MESSAGE: string :=
    "An unexpected error occurred while processing the images. Please try again."
  const API_KEY_ERROR_MESSAGE: string :=
    "API Key is invalid or missing. Please ensure it is configured correctly."
  const SERVICE_FAILURE_PREFIX: string := "Image processing failed: "
  const SERVICE_UNKNOWN_FAILURE: string := "Image processing failed due to an unknown error."

  /** `order` lists the positions 0..n-1 of the calls in the order in which
      they settled: each position exactly once. */
  predicate IsSettleOrder(order: seq<nat>, n: nat) {
    && |order| == n
    && (forall k :: 0 <= k < |order| ==> order[k] < n)
    && (forall p :: 0 <= p < n ==> p in order)
  }

  /** The rejection Promise.all reports: that of the first call, in settling
      order, that was rejected; None when every call was fulfilled. */
  function FirstRejection(outcomes: seq<Outcome>, order: seq<nat>): (r: Option<Thrown>)
    requires forall k :: 0 <= k < |order| ==> order[k] < |outcomes|
    ensures r.None? <==> forall k :: 0 <= k < |order| ==> outcomes[order[k]].Resolved?
    ensures r.Some? ==> exists k :: && 0 <= k < |order|
                                    && outcomes[order[k]] == Rejected(r.value)
                                    && forall m :: 0 <= m < k ==> outcomes[order[m]].Resolved?
    decreases |order|
  {
    if order == [] then None
    else if outcomes[order[0]].Rejected? then Some(outcomes[order[0]].reason)
    else
      var r := FirstRejection(outcomes, order[1..]);
      assert forall k :: 1 <= k < |order| ==> order[k] == order[1..][k - 1];
      r
  }

  /** Promise.all over the extraction calls, settled in `order`. It is
      fulfilled exactly when every call is, and then with the usernames of
      call i at position i whatever the settling order; otherwise it is
      rejected with the reason of one of the rejected calls, the first to
      settle. */
  function PromiseAll(outcomes: seq<Outcome>, order: seq<nat>): (r: Result<seq<seq<string>>, Thrown>)
    requires IsSettleOrder(order, |outcomes|)
    ensures r.Success? <==> forall p :: 0 <= p < |outcomes| ==> outcomes[p].Resolved?
    ensures r.Success? ==> && |r.value| == |outcomes|
                           && forall p :: 0 <= p < |outcomes| ==> r.value[p] == outcomes[p].usernames
    ensures r.Failure? ==> exists p :: 0 <= p < |outcomes| && outcomes[p] == Rejected(r.error)
  {
    match FirstRejection(outcomes, order)
    case Some(reason) => Failure(reason)
    case None =>
      assert forall p :: 0 <= p < |outcomes| ==> outcomes[p].Resolved? by {
        forall p | 0 <= p < |outcomes| ensures outcomes[p].Resolved? {
          assert p in order;
          var k :| 0 <= k < |order| && order[k] == p;
        }
      }
      Success(seq(|outcomes|, p requires 0 <= p < |outcomes| => outcomes[p].usernames))
  }

  /** When every call is fulfilled the joined value does not depend on the
      order in which the calls settled. */
  lemma PromiseAllIgnoresSettleOrder(outcomes: seq<Outcome>, order1: seq<nat>, order2: seq<nat>)
    requires IsSettleOrder(order1, |outcomes|) && IsSettleOrder(order2, |outcomes|)
    requires forall p :: 0 <= p < |outcomes| ==> outcomes[p].Resolved?
    ensures PromiseAll(outcomes, order1) == PromiseAll(outcomes, order2)
  {
    var r1, r2 := PromiseAll(outcomes, order1), PromiseAll(outcomes, order2);
    assert r1.value == r2.value;
  }

  /** The reported rejection is the first in time, not the one at the lowest
      position: with both calls rejected and call 1 settling first, the batch
      fails with call 1's reason. */
  lemma LaterPositionCanWin()
    ensures PromiseAll([Rejected(ErrorObject("Image processing failed: a")),
                        Rejected(ErrorObject("Image processing failed: b"))], [1, 0])
            == Failure(ErrorObject("Image processing failed: b"))
  {
    var outcomes := [Rejected(ErrorObject("Image processing failed: a")),
                     Rejected(ErrorObject("Image processing failed: b"))];
    assert 0 == [1, 0][1] && 1 == [1, 0][0];
    assert IsSettleOrder([1, 0], |outcomes|);
  }

  /** The message a failed batch shows: the fixed API-key text for an Error
      whose lower-cased message mentions "api key", the Error's own message
      exactly for every other Error, and the generic text for anything else. */
  function ClassifyError(thrown: Thrown): (message: string)
    ensures thrown.OtherValue? ==> message == UNEXPECTED_ERROR_MESSAGE
    ensures thrown.ErrorObject? ==> message == API_KEY_ERROR_MESSAGE || message == thrown.message
    ensures thrown.ErrorObject? && Includes(ToLowerCase(thrown.message), "api key") ==>
              message == API_KEY_ERROR_MESSAGE
    ensures thrown.ErrorObject? && !Includes(ToLowerCase(thrown.message), "api key") ==>
              message == thrown.message
  {
    match thrown
    case ErrorObject(m) =>
      if Includes(ToLowerCase(m), "api key") then API_KEY_ERROR_MESSAGE else m
    case OtherValue => UNEXPECTED_ERROR_MESSAGE
  }

  /** The test is not case sensitive: "API KEY", "Api Key" and the like,
      anywhere in the message, all give the API-key text. */
  lemma ApiKeyInAnyCase(message: string, i: nat)
    requires i + 7 <= |message| && ToLowerCase(message[i..i + 7]) == "api key"
    ensures ClassifyError(ErrorObject(message)) == API_KEY_ERROR_MESSAGE
  {
    LowerCaseSlice(message, i, i + 7);
    assert OccursAt(ToLowerCase(message), "api key", i);
  }

  /** How the extraction service rethrows whatever went wrong in it: an Error
      gets the "Image processing failed: " prefix, anything else becomes an
      Error with a fixed message. */
  function ServiceFailure(cause: Thrown): (thrown: Thrown)
    ensures thrown.ErrorObject? && StartsWith(thrown.message, "Image processing failed")
  {
    match cause
    case ErrorObject(m) => ErrorObject(SERVICE_FAILURE_PREFIX + m)
    case OtherValue => ErrorObject(SERVICE_UNKNOWN_FAILURE)
  }

  lemma IncludesAfterPrefix(prefix: string, s: string, sub: string)
    requires Includes(s, sub)
    ensures Includes(prefix + s, sub)
  {
    var i: nat :| OccursAt(s, sub, i);
    assert (prefix + s)[|prefix| + i..|prefix| + i + |sub|] == s[i..i + |sub|];
    assert OccursAt(prefix + s, sub, |prefix| + i);
  }

  /** An API-key failure inside the service still reaches the user as the
      API-key text, after the service has prefixed its message. */
  lemma ServiceApiKeyFailureIsClassified(message: string)
    requires Includes(ToLowerCase(message), "api key")
    ensures ClassifyError(ServiceFailure(ErrorObject(message))) == API_KEY_ERROR_MESSAGE
  {
    LowerCaseAppend(SERVICE_FAILURE_PREFIX, message);
    IncludesAfterPrefix(ToLowerCase(SERVICE_FAILURE_PREFIX), ToLowerCase(message), "api key");
  }

  /** Whatever the service failed with, the message set for the user is not
      empty, so the error banner (rendered only for a non-empty message) is
      shown. */
  lemma ServiceFailureMessageIsNotEmpty(cause: Thrown)
    ensures ClassifyError(ServiceFailure(cause)) != ""
  {
    var t := ServiceFailure(cause);
    assert |t.message| >= |"Image processing failed"|;
  }
}
