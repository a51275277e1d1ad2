/** The two edits of the result list, as the values the state updaters
    return. Each builds a new outer list, a new record for the target image
    and a new username list; with Dafny's value sequences the list it was
    given is, as in the application, left as it was. */
module Edits {
  import opened Types
  import opened JsStrings

  /** `copy[j] = v` on a copy of `u`: replaces entry j, or appends when j is
      one past the end. */
  function SetAt(u: seq<string>, j: nat, v: string): (r: seq<string>)
    requires j <= |u|
    ensures |r| == if j < |u| then |u| else |u| + 1
    ensures r[j] == v
    ensures forall m :: 0 <= m < |u| && m != j ==> r[m] == u[m]
  {
    if j < |u| then u[j := v] else u + [v]
  }

  /** `copy.splice(j, 1)` on a copy of `u`: removes entry j and moves the
      later entries down by one; an index past the end removes nothing. */
  function RemoveAt(u: seq<string>, j: nat): (r: seq<string>)
    ensures j < |u| ==> && |r| == |u| - 1
                        && (forall m :: 0 <= m < j ==> r[m] == u[m])
                        && (forall m :: j <= m < |r| ==> r[m] == u[m + 1])
    ensures j >= |u| ==> r == u
  {
    if j < |u| then u[..j] + u[j + 1..] else u
  }

  /** Putting the removed entry back where it was gives the list back. */
  lemma RemoveAtInverse(u: seq<string>, j: nat)
    requires j < |u|
    ensures RemoveAt(u, j)[..j] + [u[j]] + RemoveAt(u, j)[j..] == u
  {
    var r := RemoveAt(u, j);
    assert r[..j] == u[..j];
    assert r[j..] == u[j + 1..];
  }

  /** Removing loses exactly the one entry: the other names, with their
      multiplicities, are all still there. */
  lemma RemoveAtMultiset(u: seq<string>, j: nat)
    requires j < |u|
    ensures multiset(RemoveAt(u, j)) + multiset{u[j]} == multiset(u)
  {
    assert u == u[..j] + [u[j]] + u[j + 1..];
  }

  /** `handleDeleteUsername(imageIndex, usernameIndex)`: image `imageIndex`
      loses entry `usernameIndex`; every other image, and the image's file,
      stay as they were. */
  function DeleteUsername(rs: seq<ProcessedImageResult>, imageIndex: nat, usernameIndex: nat)
    : (r: seq<ProcessedImageResult>)
    requires imageIndex < |rs|
    ensures |r| == |rs|
    ensures forall k :: 0 <= k < |rs| && k != imageIndex ==> r[k] == rs[k]
    ensures r[imageIndex].file == rs[imageIndex].file
    ensures r[imageIndex].usernames == RemoveAt(rs[imageIndex].usernames, usernameIndex)
  {
    var target := rs[imageIndex];
    rs[imageIndex := target.(usernames := RemoveAt(target.usernames, usernameIndex))]
  }

  /** `handleUpdateUsername(imageIndex, usernameIndex, newUsername)`: a blank
      value deletes the entry; any other value, with at most one leading '@'
      removed and otherwise untrimmed, replaces it. Nothing else changes. */
  function UpdateUsername(rs: seq<ProcessedImageResult>, imageIndex: nat, usernameIndex: nat,
                          newUsername: string): (r: seq<ProcessedImageResult>)
    requires imageIndex < |rs|
    requires IsBlank(newUsername) || usernameIndex <= |rs[imageIndex].usernames|
    ensures IsBlank(newUsername) ==> r == DeleteUsername(rs, imageIndex, usernameIndex)
    ensures !IsBlank(newUsername) ==>
              && |r| == |rs|
              && (forall k :: 0 <= k < |rs| && k != imageIndex ==> r[k] == rs[k])
              && r[imageIndex].file == rs[imageIndex].file
              && r[imageIndex].usernames
                 == SetAt(rs[imageIndex].usernames, usernameIndex, StripLeadingAt(newUsername))
  {
    if IsBlank(newUsername) then
      DeleteUsername(rs, imageIndex, usernameIndex)
    else
      var target := rs[imageIndex];
      rs[imageIndex := target.(usernames := SetAt(target.usernames, usernameIndex,
                                                  StripLeadingAt(newUsername)))]
  }

  /** An update at an existing address keeps the shape of the whole list:
      the number of images and every image's number of usernames. */
  lemma UpdateKeepsShape(rs: seq<ProcessedImageResult>, imageIndex: nat, usernameIndex: nat,
                         newUsername: string)
    requires imageIndex < |rs| && usernameIndex < |rs[imageIndex].usernames|
    requires !IsBlank(newUsername)
    ensures var r := UpdateUsername(rs, imageIndex, usernameIndex, newUsername);
            && |r| == |rs|
            && (forall k :: 0 <= k < |rs| ==> |r[k].usernames| == |rs[k].usernames|)
            && (forall k, m :: 0 <= k < |rs| && 0 <= m < |rs[k].usernames| && (k, m) != (imageIndex, usernameIndex)
                  ==> r[k].usernames[m] == rs[k].usernames[m])
  {
  }

  /** A second update of the same entry overrides the first. */
  lemma UpdateOverridesUpdate(rs: seq<ProcessedImageResult>, imageIndex: nat, usernameIndex: nat,
                              first: string, second: string)
    requires imageIndex < |rs| && usernameIndex < |rs[imageIndex].usernames|
    requires !IsBlank(first) && !IsBlank(second)
    ensures UpdateUsername(UpdateUsername(rs, imageIndex, usernameIndex, first),
                           imageIndex, usernameIndex, second)
            == UpdateUsername(rs, imageIndex, usernameIndex, second)
  {
    var once := UpdateUsername(rs, imageIndex, usernameIndex, first);
    var twice := UpdateUsername(once, imageIndex, usernameIndex, second);
    var direct := UpdateUsername(rs, imageIndex, usernameIndex, second);
    assert twice[imageIndex].usernames == direct[imageIndex].usernames;
    assert twice[imageIndex] == direct[imageIndex];
  }

  /** A non-blank update at an existing address stores the value with one
      leading '@' removed at exactly that place of the image's list. */
  lemma UpdateStoresStripped(rs: seq<ProcessedImageResult>, imageIndex: nat, usernameIndex: nat,
                             newUsername: string)
    requires imageIndex < |rs| && usernameIndex < |rs[imageIndex].usernames|
    requires !IsBlank(newUsername)
    ensures UpdateUsername(rs, imageIndex, usernameIndex, newUsername)[imageIndex].usernames
            == rs[imageIndex].usernames[usernameIndex := StripLeadingAt(newUsername)]
  {
  }

  /** Only one '@' is removed: "@@x" is stored as "@x". */
  lemma UpdateStripsOneAt(rs: seq<ProcessedImageResult>, imageIndex: nat, usernameIndex: nat)
    requires imageIndex < |rs| && usernameIndex < |rs[imageIndex].usernames|
    ensures UpdateUsername(rs, imageIndex, usernameIndex, "@@x")[imageIndex].usernames
            == rs[imageIndex].usernames[usernameIndex := "@x"]
  {
    NotBlankWithNonWhitespace("@@x", 0);
    UpdateStoresStripped(rs, imageIndex, usernameIndex, "@@x");
    assert StripLeadingAt("@@x") == "@x";
  }

  /** The value is not trimmed, and a '@' after leading spaces is not at the
      start: " @bob" is stored as it is. */
  lemma UpdateDoesNotTrim(rs: seq<ProcessedImageResult>, imageIndex: nat, usernameIndex: nat)
    requires imageIndex < |rs| && usernameIndex < |rs[imageIndex].usernames|
    ensures UpdateUsername(rs, imageIndex, usernameIndex, " @bob")[imageIndex].usernames
            == rs[imageIndex].usernames[usernameIndex := " @bob"]
  {
    NotBlankWithNonWhitespace(" @bob", 1);
    UpdateStoresStripped(rs, imageIndex, usernameIndex, " @bob");
    assert StripLeadingAt(" @bob") == " @bob";
  }

  /** A lone "@" is not blank, so it is an update, and it stores the empty
      string: a stored username can be empty. */
  lemma UpdateWithLoneAtStoresEmpty(rs: seq<ProcessedImageResult>, imageIndex: nat, usernameIndex: nat)
    requires imageIndex < |rs| && usernameIndex < |rs[imageIndex].usernames|
    ensures UpdateUsername(rs, imageIndex, usernameIndex, "@")[imageIndex].usernames
            == rs[imageIndex].usernames[usernameIndex := ""]
  {
    LoneAtIsNotBlank();
    UpdateStoresStripped(rs, imageIndex, usernameIndex, "@");
  }

  lemma LoneAtIsNotBlank()
    ensures !IsBlank("@") && StripLeadingAt("@") == ""
  {
    NotBlankWithNonWhitespace("@", 0);
  }

  /** An example: deleting entry 1 of ["a", "b", "c"] in image 0
      gives ["a", "c"] and leaves image 1 alone. */
  lemma DeleteExample(f0: File, f1: File, other: seq<string>)
    ensures DeleteUsername([ProcessedImageResult(f0, ["a", "b", "c"]), ProcessedImageResult(f1, other)], 0, 1)
            == [ProcessedImageResult(f0, ["a", "c"]), ProcessedImageResult(f1, other)]
  {
    var u: seq<string> := ["a", "b", "c"];
    assert RemoveAt(u, 1) == ["a", "c"];
  }
}
