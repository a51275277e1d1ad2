/** The application's state container: the result list, the loading flag
    and the error message, and the three handlers that change them. */
module App {
  import opened Types
  import opened JsStrings
  import opened Batch
  import Edits

  class AppState {
    var results: seq<ProcessedImageResult>
    var isLoading: bool
    var error: Option<string>

    /** The initial state: no results, not loading, no error. */
    constructor ()
      ensures results == [] && !isLoading && error == None
    {
      results := [];
      isLoading := false;
      error := None;
    }

    /** `handleProcessImages(files)`, with the extraction of file k settling as
        `outcomes[k]` and the calls settling in `order`. An empty batch
        changes nothing. Otherwise the state is cleared first; then either
        every file is paired, in input order, with its own usernames and no
        error is set, or the list stays empty and the one message set is the
        classification of a rejected call's reason. Loading is off at the end
        either way. */
    method ProcessImages(files: seq<File>, outcomes: seq<Outcome>, order: seq<nat>)
      requires |outcomes| == |files|
      requires IsSettleOrder(order, |files|)
      modifies this
      ensures |files| == 0 ==> results == old(results) && isLoading == old(isLoading) && error == old(error)
      ensures |files| > 0 ==> !isLoading
      ensures |files| > 0 && (forall k :: 0 <= k < |files| ==> outcomes[k].Resolved?) ==>
                && error == None
                && |results| == |files|
                && forall k :: 0 <= k < |files| ==>
                     results[k] == ProcessedImageResult(files[k], outcomes[k].usernames)
      ensures |files| > 0 && (exists k :: 0 <= k < |files| && outcomes[k].Rejected?) ==>
                && results == []
                && exists k :: 0 <= k < |files| && outcomes[k].Rejected?
                                && error == Some(ClassifyError(outcomes[k].reason))
      ensures |files| > 0 && PromiseAll(outcomes, order).Failure? ==>
                error == Some(ClassifyError(PromiseAll(outcomes, order).error))
    {
      if |files| == 0 {
        return;
      }
      isLoading := true;
      error := None;
      results := [];
      var settled := PromiseAll(outcomes, order);
      match settled {
        case Success(lists) =>
          results := seq(|files|, k requires 0 <= k < |files| => ProcessedImageResult(files[k], lists[k]));
        case Failure(reason) =>
          error := Some(ClassifyError(reason));
      }
      isLoading := false;
    }

    /** `handleDeleteUsername(imageIndex, usernameIndex)`: the list becomes a
        copy in which that image's entry is removed; loading flag and error
        are untouched. */
    method DeleteUsername(imageIndex: nat, usernameIndex: nat)
      requires imageIndex < |results|
      modifies this
      ensures results == Edits.DeleteUsername(old(results), imageIndex, usernameIndex)
      ensures isLoading == old(isLoading) && error == old(error)
    {
      var newResults := results;
      var targetResult := newResults[imageIndex];
      var newUsernames := targetResult.usernames;
      if usernameIndex < |newUsernames| {
        newUsernames := newUsernames[..usernameIndex] + newUsernames[usernameIndex + 1..];
      }
      targetResult := targetResult.(usernames := newUsernames);
      newResults := newResults[imageIndex := targetResult];
      results := newResults;
    }

    /** `handleUpdateUsername(imageIndex, usernameIndex, newUsername)`: a
        blank value is passed on to the delete handler; any other value, with
        one leading '@' removed, is written into a copy of the list. */
    method UpdateUsername(imageIndex: nat, usernameIndex: nat, newUsername: string)
      requires imageIndex < |results|
      requires IsBlank(newUsername) || usernameIndex <= |results[imageIndex].usernames|
      modifies this
      ensures results == Edits.UpdateUsername(old(results), imageIndex, usernameIndex, newUsername)
      ensures isLoading == old(isLoading) && error == old(error)
    {
      if IsBlank(newUsername) {
        DeleteUsername(imageIndex, usernameIndex);
        return;
      }
      var newResults := results;
      var targetResult := newResults[imageIndex];
      var newUsernames := targetResult.usernames;
      var stored := StripLeadingAt(newUsername);
      if usernameIndex < |newUsernames| {
        newUsernames := newUsernames[usernameIndex := stored];
      } else {
        newUsernames := newUsernames + [stored];
      }
      targetResult := targetResult.(usernames := newUsernames);
      newResults := newResults[imageIndex := targetResult];
      results := newResults;
    }
  }
}
