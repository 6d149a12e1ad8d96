/** The document card of the list (src/components/DocCard.tsx): at most
    three tag chips and a "+N" badge for the rest, the author's display name
    and the letter in the author's avatar. Upper-casing is the parameter
    `upper` (`toUpperCase`). */
module DocCard {
  import opened Wrappers

  /** The shown chips and the number behind the badge, if any. */
  datatype TagRow<T> = TagRow(shown: seq<T>, more: Option<nat>)

  const MaxShownTags: nat := 3

  /** The tag block: hidden without tags, else the first three chips and a
      badge counting the remainder when there is one. */
  function CardTags<T>(tags: seq<T>): (r: Option<TagRow<T>>)
    ensures r.None? <==> |tags| == 0
    ensures r.Some? ==> |r.value.shown| <= MaxShownTags && r.value.shown <= tags
    ensures r.Some? ==> (r.value.more.Some? <==> |tags| > MaxShownTags)
    ensures r.Some? ==> |r.value.shown| + r.value.more.GetOr(0) == |tags|
    ensures r.Some? && r.value.more.Some? ==> r.value.more.value > 0
  {
    if |tags| == 0 then None
    else if |tags| <= MaxShownTags then Some(TagRow(tags, None))
    else Some(TagRow(tags[..MaxShownTags], Some(|tags| - MaxShownTags)))
  }

  /** The chips together with the badge account for every tag: the shown
      ones are all of them when there is no badge. */
  lemma NoBadgeShowsAll<T>(tags: seq<T>)
    requires |tags| > 0
    ensures CardTags(tags).value.more.None? ==> CardTags(tags).value.shown == tags
    ensures CardTags(tags).value.more.Some? ==> |CardTags(tags).value.shown| == MaxShownTags
  {
  }

  /** `s.charAt(0)`: the first character as a string, or "" for "". */
  function FirstChar(s: string): (r: string)
    ensures |r| == if s == "" then 0 else 1
    ensures r <= s
  {
    if s == "" then "" else s[..1]
  }

  /** `owner_nick_name || owner` */
  function AuthorName(owner: string, nick: Option<string>): (r: string)
    ensures r == owner || (nick.Some? && r == nick.value && r != "")
    ensures nick.Some? && nick.value != "" ==> r == nick.value
  {
    if nick.Some? && nick.value != "" then nick.value else owner
  }

  /** `owner_nick_name?.charAt(0).toUpperCase() || owner.charAt(0).toUpperCase()`:
      the nickname's initial unless that comes out empty. */
  function AuthorInitial(owner: string, nick: Option<string>, upper: string -> string): (r: string)
    ensures nick.Some? && upper(FirstChar(nick.value)) != "" ==> r == upper(FirstChar(nick.value))
    ensures nick.None? || upper(FirstChar(nick.value)) == "" ==> r == upper(FirstChar(owner))
  {
    var fromNick := if nick.Some? then upper(FirstChar(nick.value)) else "";
    if fromNick != "" then fromNick else upper(FirstChar(owner))
  }

  /** When upper-casing keeps lengths, the avatar letter is the initial of
      the name displayed next to it. */
  lemma InitialOfDisplayedName(owner: string, nick: Option<string>, upper: string -> string)
    requires forall s :: |upper(s)| == |s|
    ensures AuthorInitial(owner, nick, upper) == upper(FirstChar(AuthorName(owner, nick)))
  {
    if nick.Some? {
      assert |upper(FirstChar(nick.value))| == |FirstChar(nick.value)|;
    }
  }
}
