/** The tag input of the markdown editor (src/pages/DocEditor.tsx):
    `handleAddTag` (Enter or ','), `handleSelectTag` (a click on a
    suggestion), `handleRemoveTag`, and the suggestion list filtered from all
    known tags. `toLowerCase` is the parameter `lower`. */
module EditorTags {
  import opened Strings
  import Seqs

  datatype TagEditor = TagEditor(tags: seq<string>, input: string, showSuggestions: bool)

  datatype TagInfo = TagInfo(id: string, name: string)

  /** `handleAddTag` on a key press: Enter and ',' add the trimmed input
      unless it is blank or already there, and always clear the input; any
      other key changes nothing. */
  function HandleAddTag(s: TagEditor, key: string): (r: TagEditor)
    ensures key != "Enter" && key != "," ==> r == s
    ensures key == "Enter" || key == "," ==>
      && r.input == "" && !r.showSuggestions
      && (Trim(s.input) != "" && Trim(s.input) !in s.tags ==> r.tags == s.tags + [Trim(s.input)])
      && (Trim(s.input) == "" || Trim(s.input) in s.tags ==> r.tags == s.tags)
  {
    if key == "Enter" || key == "," then
      var t := Trim(s.input);
      TagEditor(if t != "" && t !in s.tags then s.tags + [t] else s.tags, "", false)
    else s
  }

  /** `handleSelectTag`: the suggestion is appended unless already there. */
  function HandleSelectTag(s: TagEditor, name: string): (r: TagEditor)
    ensures name in r.tags && r.input == "" && !r.showSuggestions
    ensures name in s.tags ==> r.tags == s.tags
    ensures name !in s.tags ==> r.tags == s.tags + [name]
  {
    TagEditor(if name in s.tags then s.tags else s.tags + [name], "", false)
  }

  /** `handleRemoveTag`: every occurrence dropped, the others kept in order
      (`Seqs.Remove` filters piecewise, see `Seqs.RemoveAppend`). */
  function HandleRemoveTag(s: TagEditor, name: string): (r: TagEditor)
    ensures r.tags == Seqs.Remove(s.tags, name)
    ensures name !in r.tags
    ensures multiset(r.tags) == multiset(s.tags)[name := 0]
    ensures r.input == s.input && r.showSuggestions == s.showSuggestions
  {
    s.(tags := Seqs.Remove(s.tags, name))
  }

  /** Every tag the keyboard adds is non-blank and already trimmed. */
  lemma AddedTagIsTrimmed(s: TagEditor, key: string)
    requires HandleAddTag(s, key).tags != s.tags
    ensures var t := HandleAddTag(s, key).tags[|s.tags|];
            t != "" && Trim(t) == t && HandleAddTag(s, key).tags == s.tags + [t]
  {
    TrimIdempotent(s.input);
  }

  /** Adding, selecting and removing keep the tag list duplicate-free. */
  lemma TagOpsKeepNoDups(s: TagEditor, key: string, name: string)
    requires Seqs.NoDups(s.tags)
    ensures Seqs.NoDups(HandleAddTag(s, key).tags)
    ensures Seqs.NoDups(HandleSelectTag(s, name).tags)
    ensures Seqs.NoDups(HandleRemoveTag(s, name).tags)
  {
    if key == "Enter" || key == "," {
      var t := Trim(s.input);
      if t != "" && t !in s.tags {
        Seqs.AppendKeepsNoDups(s.tags, t);
      }
    }
    if name !in s.tags {
      Seqs.AppendKeepsNoDups(s.tags, name);
    }
    Seqs.RemoveKeepsNoDups(s.tags, name);
  }

  /** Selecting a new tag and removing it again restores the list. */
  lemma {:induction false} SelectThenRemove(s: TagEditor, name: string)
    requires name !in s.tags
    ensures HandleRemoveTag(HandleSelectTag(s, name), name).tags == s.tags
  {
    Seqs.RemoveAppend(s.tags, [name], name);
    Seqs.RemoveAbsent(s.tags, name);
  }

  /** A known tag is suggested when it is not chosen yet and its lower-cased
      name contains the lower-cased input. */
  predicate Suggested(t: TagInfo, tags: seq<string>, input: string, lower: string -> string) {
    t.name !in tags && Includes(lower(t.name), lower(input))
  }

  /** The suggestion list: the known tags that qualify, in their order. */
  function Suggestions(all: seq<TagInfo>, tags: seq<string>, input: string, lower: string -> string): (r: seq<TagInfo>)
    ensures forall t :: t in r <==> t in all && Suggested(t, tags, input, lower)
    ensures |r| <= |all|
  {
    if |all| == 0 then []
    else
      var rest := Suggestions(all[1..], tags, input, lower);
      assert forall t :: t in all <==> t == all[0] || t in all[1..];
      if Suggested(all[0], tags, input, lower) then [all[0]] + rest else rest
  }

  /** Filtering works piecewise, so the suggestions keep the order of the
      known tags. */
  lemma {:induction false} SuggestionsAppend(a: seq<TagInfo>, b: seq<TagInfo>, tags: seq<string>, input: string,
                                             lower: string -> string)
    ensures Suggestions(a + b, tags, input, lower)
            == Suggestions(a, tags, input, lower) + Suggestions(b, tags, input, lower)
  {
    if |a| == 0 {
      assert a + b == b;
    } else {
      assert (a + b)[0] == a[0];
      assert (a + b)[1..] == a[1..] + b;
      SuggestionsAppend(a[1..], b, tags, input, lower);
    }
  }

  /** Suggestions are never tags that are already chosen, and an empty
      input (whose lower case is empty) suggests every tag not yet chosen. */
  lemma SuggestionsOfEmptyInput(all: seq<TagInfo>, tags: seq<string>, lower: string -> string)
    requires lower("") == ""
    ensures forall t :: t in Suggestions(all, tags, "", lower) <==> t in all && t.name !in tags
  {
    forall t | t in all && t.name !in tags
      ensures t in Suggestions(all, tags, "", lower)
    {
      assert OccursAt(lower(t.name), "", 0);
    }
  }

  /** What the suggestion box says when nothing qualifies. */
  datatype Hint = NoHint | CreateTag(input: string) | TypeToCreate

  function SuggestionHint(all: seq<TagInfo>, tags: seq<string>, input: string, lower: string -> string): (h: Hint)
    ensures h.NoHint? <==> exists t :: t in all && Suggested(t, tags, input, lower)
    ensures h.CreateTag? ==> h.input == input && input != ""
    ensures !h.NoHint? ==> h == (if input != "" then CreateTag(input) else TypeToCreate)
  {
    if |Suggestions(all, tags, input, lower)| > 0 then
      assert Suggestions(all, tags, input, lower)[0] in Suggestions(all, tags, input, lower);
      NoHint
    else if input != "" then CreateTag(input)
    else TypeToCreate
  }
}
