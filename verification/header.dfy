/** The site header (src/components/Header.tsx): the avatar letter, which
    navigation link is highlighted for the current path, and whether the
    "write" link is offered. */
module Header {
  import opened Wrappers
  import opened Strings
  import Session
  import DocCard

  /** `getAvatarLetter`: the nickname's initial, else the user name's,
      else `U`. Unlike the card, an initial that upper-cases to "" is not
      replaced. */
  function AvatarLetter(user: Option<Session.UserInfo>, upper: string -> string): (r: string)
    ensures user.None? ==> r == "U"
    ensures user.Some? && user.value.nickName.Some? && user.value.nickName.value != "" ==>
            r == upper(user.value.nickName.value[..1])
    ensures user.Some? && (user.value.nickName.None? || user.value.nickName.value == "") ==>
            r == (if user.value.username != "" then upper(user.value.username[..1]) else "U")
  {
    if user.Some? && user.value.nickName.Some? && user.value.nickName.value != "" then
      upper(DocCard.FirstChar(user.value.nickName.value))
    else if user.Some? && user.value.username != "" then upper(DocCard.FirstChar(user.value.username))
    else "U"
  }

  /** The header's avatar and a card by the same user show the same letter
      whenever upper-casing keeps lengths and the user name is not empty. */
  lemma AvatarAgreesWithCard(u: Session.UserInfo, upper: string -> string)
    requires forall s :: |upper(s)| == |s|
    requires u.username != ""
    ensures AvatarLetter(Some(u), upper) == DocCard.AuthorInitial(u.username, u.nickName, upper)
  {
    DocCard.InitialOfDisplayedName(u.username, u.nickName, upper);
  }

  /** The home link: exactly `/`, which no other link's path shares. */
  predicate HomeActive(path: string): (b: bool)
    ensures b <==> path == "/"
    ensures b ==> !StartsWith(path, "/docs")
  {
    path == "/"
  }

  /** The documents link: the path begins with `/docs` and holds `/edit`
      nowhere, so every editor page, new or existing, is excluded. */
  predicate DocsActive(path: string): (b: bool)
    ensures b <==> StartsWith(path, "/docs") && forall i :: !OccursAt(path, "/edit", i)
  {
    StartsWith(path, "/docs") && !Includes(path, "/edit")
  }

  /** The write link: exactly `/docs/new`, a page that also lights the
      documents link. */
  predicate WriteActive(path: string): (b: bool)
    ensures b <==> path == "/docs/new"
    ensures b ==> DocsActive(path)
  {
    assert path == "/docs/new" ==> !Includes(path, "/edit") by {
      if path == "/docs/new" {
        forall i ensures !OccursAt(path, "/edit", i) {
          if 0 <= i && i + 5 <= |path| {
            if i == 0 {
              assert path[i + 1] != 'e';
            } else {
              assert path[i] != '/';
            }
          }
        }
      }
    }
    path == "/docs/new"
  }

  /** The write link is offered only to holders of `create_doc`. */
  function WriteLinkShown(grants: seq<Session.Grant>, now: int, parseDate: string -> Option<int>): (b: bool)
    ensures (forall k :: 0 <= k < |grants| ==> grants[k].item != "create_doc") ==> !b
    ensures forall k :: Session.IsFirstFor(grants, "create_doc", k) ==>
            (b <==> !Session.Expired(grants[k], now, parseDate))
  {
    Session.HasPermission(grants, "create_doc", now, parseDate)
  }

  /** Highlighting: on the new-document page both the documents and the
      write link are active; the write link is never active alone; the home
      link excludes the others; an editor page highlights nothing. */
  lemma NavHighlighting(path: string, id: string)
    ensures HomeActive("/") && DocsActive("/docs/new") && WriteActive("/docs/new")
    ensures WriteActive(path) ==> DocsActive(path)
    ensures HomeActive(path) ==> !DocsActive(path) && !WriteActive(path)
    ensures !DocsActive("/docs/" + id + "/edit") && !WriteActive("/docs/" + id + "/edit")
  {
    assert WriteActive("/docs/new");
    var e := "/docs/" + id + "/edit";
    assert OccursAt(e, "/edit", |e| - 5);
    assert e[..5] == "/docs";
  }

  /** After signing out the write link disappears. */
  lemma SignOutHidesWriteLink(s: Session.State, now: int, parseDate: string -> Option<int>)
    ensures !WriteLinkShown(Session.SignOut(s, true).state.grants, now, parseDate)
  {
  }
}
