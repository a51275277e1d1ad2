/** What the result view computes from the result list: the username total,
    the "copy all" text, the link and the edit/delete address of each tag,
    and the edit state of one tag. */
module ResultsView {
  import opened Types
  import opened JsStrings
  import Edits

  const PROFILE_URL_PREFIX: string := "https://www.instagram.com/"

  /** The Instagram profile link of a username. */
  function ProfileUrl(username: string): (url: string)
    ensures StartsWith(url, PROFILE_URL_PREFIX) && url[|PROFILE_URL_PREFIX|..] == username
    ensures '\n' in url <==> '\n' in username
  {
    PROFILE_URL_PREFIX + username
  }

  /** `results.flatMap(result => result.usernames)`: the usernames of every
      image, image by image, each image's in its own order. */
  function AllUsernames(rs: seq<ProcessedImageResult>): seq<string>
    decreases |rs|
  {
    if rs == [] then [] else rs[0].usernames + AllUsernames(rs[1..])
  }

  /** Flattening distributes over concatenation of result lists. */
  lemma {:induction false} AllUsernamesAppend(a: seq<ProcessedImageResult>, b: seq<ProcessedImageResult>)
    ensures AllUsernames(a + b) == AllUsernames(a) + AllUsernames(b)
    decreases |a|
  {
    if a == [] {
      assert a + b == b;
    } else {
      AllUsernamesAppend(a[1..], b);
      assert (a + b)[0] == a[0];
      assert (a + b)[1..] == a[1..] + b;
    }
  }

  /** `results.reduce((acc, r) => acc + r.usernames.length, 0)`, accumulated
      from the left; it counts exactly the flattened usernames. */
  function TotalUsernames(rs: seq<ProcessedImageResult>): (total: nat)
    ensures total == |AllUsernames(rs)|
    decreases |rs|
  {
    if rs == [] then 0
    else
      var init := rs[..|rs| - 1];
      var total := TotalUsernames(init) + |rs[|rs| - 1].usernames|;
      AllUsernamesAppend(init, [rs[|rs| - 1]]);
      assert init + [rs[|rs| - 1]] == rs;
      total
  }

  /** Username j of image i sits in the flattened list after all the
      usernames of the images before i: image order first, then username
      order. */
  lemma UsernamePosition(rs: seq<ProcessedImageResult>, i: nat, j: nat)
    requires i < |rs| && j < |rs[i].usernames|
    ensures TotalUsernames(rs[..i]) + j < TotalUsernames(rs)
    ensures AllUsernames(rs)[TotalUsernames(rs[..i]) + j] == rs[i].usernames[j]
  {
    assert rs == rs[..i] + ([rs[i]] + rs[i + 1..]);
    AllUsernamesAppend(rs[..i], [rs[i]] + rs[i + 1..]);
    AllUsernamesAppend([rs[i]], rs[i + 1..]);
    assert AllUsernames([rs[i]]) == rs[i].usernames by {
      assert [rs[i]][1..] == [];
    }
  }

  /** The lines of the copied text: one profile link per username, in
      flattened order. */
  function Links(rs: seq<ProcessedImageResult>): (links: seq<string>)
    ensures |links| == TotalUsernames(rs)
    ensures forall p :: 0 <= p < |links| ==> links[p] == ProfileUrl(AllUsernames(rs)[p])
  {
    var names := AllUsernames(rs);
    seq(|names|, p requires 0 <= p < |names| => ProfileUrl(names[p]))
  }

  /** `handleCopyAll`: with no usernames it returns before building or
      writing anything (None); otherwise the text it writes is the links
      joined by single newlines. */
  function CopyAllText(rs: seq<ProcessedImageResult>): (text: Option<string>)
    ensures text.None? <==> TotalUsernames(rs) == 0
  {
    if TotalUsernames(rs) == 0 then None else Some(Join(Links(rs), '\n'))
  }

  /** The copied text holds the profile link of every username. */
  lemma CopyAllTextHasEveryLink(rs: seq<ProcessedImageResult>, i: nat, j: nat)
    requires i < |rs| && j < |rs[i].usernames|
    ensures CopyAllText(rs).Some?
    ensures Includes(CopyAllText(rs).value, ProfileUrl(rs[i].usernames[j]))
  {
    UsernamePosition(rs, i, j);
    JoinContainsEveryPart(Links(rs), '\n', TotalUsernames(rs[..i]) + j);
  }

  /** When no username contains a newline, splitting the copied text on
      newlines gives back exactly the links: one line per username, in
      order, with no empty line from a trailing newline. */
  lemma CopyAllTextLines(rs: seq<ProcessedImageResult>)
    requires TotalUsernames(rs) > 0
    requires forall p :: 0 <= p < |AllUsernames(rs)| ==> '\n' !in AllUsernames(rs)[p]
    ensures Split(CopyAllText(rs).value, '\n') == Links(rs)
    ensures |Split(CopyAllText(rs).value, '\n')| == TotalUsernames(rs)
  {
    SplitJoin(Links(rs), '\n');
  }

  /** An example: ["alice"] in image 0 and ["bob", "carol"] in
      image 1 give three lines, in that order, joined by two newlines. */
  lemma CopyAllExample(f0: File, f1: File)
    ensures CopyAllText([ProcessedImageResult(f0, ["alice"]), ProcessedImageResult(f1, ["bob", "carol"])])
            == Some(PROFILE_URL_PREFIX + "alice" + "\n" + PROFILE_URL_PREFIX + "bob" + "\n" + PROFILE_URL_PREFIX + "carol")
  {
    var rs := [ProcessedImageResult(f0, ["alice"]), ProcessedImageResult(f1, ["bob", "carol"])];
    assert rs[1..][1..] == [];
    assert AllUsernames(rs[1..]) == ["bob", "carol"];
    assert AllUsernames(rs) == ["alice"] + ["bob", "carol"];
    var links := Links(rs);
    assert links == [ProfileUrl("alice"), ProfileUrl("bob"), ProfileUrl("carol")];
    assert links[1..][1..] == [ProfileUrl("carol")];
    assert Join(links[1..][1..], '\n') == ProfileUrl("carol");
    assert Join(links[1..], '\n') == ProfileUrl("bob") + "\n" + ProfileUrl("carol");
    assert TotalUsernames(rs) == 3;
    var a, b, c := ProfileUrl("alice"), ProfileUrl("bob"), ProfileUrl("carol");
    assert Join(links, '\n') == a + "\n" + (b + "\n" + c);
    assert a + "\n" + (b + "\n" + c) == a + "\n" + b + "\n" + c;
    var p := PROFILE_URL_PREFIX;
    assert a == p + "alice" && b == p + "bob" && c == p + "carol";
    assert a + "\n" + b == p + "alice" + "\n" + p + "bob";
    assert CopyAllText(rs) == Some(Join(links, '\n'));
    assert Join(links, '\n') == p + "alice" + "\n" + p + "bob" + "\n" + p + "carol";
  }

  /** What the tag rendered for username `usernameIndex` of card
      `resultIndex` is bound to: the name it shows and the link it opens. */
  datatype TagBinding = TagBinding(resultIndex: nat, usernameIndex: nat, username: string, href: string)

  /** A request a tag sends to the application's handlers. */
  datatype EditRequest =
    | UpdateRequest(imageIndex: nat, usernameIndex: nat, newUsername: string)
    | DeleteRequest(imageIndex: nat, usernameIndex: nat)

  /** The tags of one card, bound in username order. */
  function CardTags(result: ProcessedImageResult, resultIndex: nat): (tags: seq<TagBinding>)
    ensures |tags| == |result.usernames|
  {
    seq(|result.usernames|, j requires 0 <= j < |result.usernames| =>
      TagBinding(resultIndex, j, result.usernames[j], ProfileUrl(result.usernames[j])))
  }

  /** The cards of the result view, bound in result order. */
  function Cards(rs: seq<ProcessedImageResult>): (cards: seq<seq<TagBinding>>)
    ensures |cards| == |rs|
  {
    seq(|rs|, i requires 0 <= i < |rs| => CardTags(rs[i], i))
  }

  /** `onUpdate` of a tag: the update handler with the tag's own address. */
  function OnUpdate(tag: TagBinding, newUsername: string): EditRequest {
    UpdateRequest(tag.resultIndex, tag.usernameIndex, newUsername)
  }

  /** `onDelete` of a tag: the delete handler with the tag's own address. */
  function OnDelete(tag: TagBinding): EditRequest {
    DeleteRequest(tag.resultIndex, tag.usernameIndex)
  }

  /** The tag at position j of card i shows username (i, j), reports edits
      and deletes with exactly the address (i, j), and links to the same URL
      as that username's line of the copied text. */
  lemma TagBindingAddressesItsEntry(rs: seq<ProcessedImageResult>, i: nat, j: nat, newUsername: string)
    requires i < |rs| && j < |rs[i].usernames|
    ensures j < |Cards(rs)[i]| && TotalUsernames(rs[..i]) + j < |Links(rs)|
    ensures Cards(rs)[i][j].username == rs[i].usernames[j]
    ensures OnUpdate(Cards(rs)[i][j], newUsername) == UpdateRequest(i, j, newUsername)
    ensures OnDelete(Cards(rs)[i][j]) == DeleteRequest(i, j)
    ensures Cards(rs)[i][j].href == Links(rs)[TotalUsernames(rs[..i]) + j]
  {
    UsernamePosition(rs, i, j);
  }

  /** `handleSave`: the trimmed edit is reported only when it is not empty
      and differs from the username shown. A reported value is never blank,
      so it never takes the application's delete-on-blank path. */
  function SaveRequest(username: string, editedUsername: string): (update: Option<string>)
    ensures update.Some? <==> Trim(editedUsername) != [] && Trim(editedUsername) != username
    ensures update.Some? ==> update.value == Trim(editedUsername) && !IsBlank(update.value)
  {
    var trimmed := Trim(editedUsername);
    if trimmed != [] && trimmed != username then
      TrimmedNonEmptyIsNotBlank(editedUsername);
      Some(trimmed)
    else
      None
  }

  /** A save through the tag at (i, j) that reports a value replaces that
      entry with the trimmed edit, one leading '@' removed, and keeps the
      list's length. */
  lemma SavedEditReplacesEntry(rs: seq<ProcessedImageResult>, i: nat, j: nat, editedUsername: string)
    requires i < |rs| && j < |rs[i].usernames|
    requires SaveRequest(rs[i].usernames[j], editedUsername).Some?
    ensures var r := Edits.UpdateUsername(rs, i, j, SaveRequest(rs[i].usernames[j], editedUsername).value);
            && |r[i].usernames| == |rs[i].usernames|
            && r[i].usernames[j] == StripLeadingAt(Trim(editedUsername))
  {
  }

  /** The edit state of one username tag. `username` is the value it was
      rendered with; the tag is keyed by username and position, so a changed
      username makes a new tag. */
  class EditableUsernameTag {
    const username: string
    var isEditing: bool
    var editedUsername: string

    constructor (username: string)
      ensures this.username == username && !isEditing && editedUsername == username
    {
      this.username := username;
      isEditing := false;
      editedUsername := username;
    }

    /** The edit button: editing starts with the buffer as it is. */
    method StartEditing()
      modifies this
      ensures isEditing && editedUsername == old(editedUsername)
    {
      isEditing := true;
    }

    /** The input's change event: the buffer takes the typed value. */
    method Change(value: string)
      modifies this
      ensures editedUsername == value && isEditing == old(isEditing)
    {
      editedUsername := value;
    }

    /** `handleSave` (also the input's blur handler): reports the update
      that SaveRequest gives, if any, and always ends editing; the buffer is
      kept. */
    method Save() returns (update: Option<string>)
      modifies this
      ensures update == SaveRequest(username, old(editedUsername))
      ensures !isEditing && editedUsername == old(editedUsername)
    {
      var trimmed := Trim(editedUsername);
      if trimmed != [] && trimmed != username {
        update := Some(trimmed);
      } else {
        update := None;
      }
      isEditing := false;
    }

    /** `handleCancel`: the buffer goes back to the username and editing
      ends; nothing is reported. */
    method Cancel()
      modifies this
      ensures editedUsername == username && !isEditing
    {
      editedUsername := username;
      isEditing := false;
    }

    /** `handleKeyDown`: Enter saves, Escape cancels, any other key changes
      nothing and reports nothing. */
    method KeyDown(key: string) returns (update: Option<string>)
      modifies this
      ensures key == "Enter" ==> update == SaveRequest(username, old(editedUsername))
                                 && !isEditing && editedUsername == old(editedUsername)
      ensures key == "Escape" ==> update == None && !isEditing && editedUsername == username
      ensures key != "Enter" && key != "Escape" ==>
                update == None && isEditing == old(isEditing) && editedUsername == old(editedUsername)
    {
      update := None;
      if key == "Enter" {
        update := Save();
      } else if key == "Escape" {
        Cancel();
      }
    }
  }
}
