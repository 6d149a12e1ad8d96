/** The draft lifecycle and saving of the markdown editor
    (src/pages/DocEditor.tsx). A single local-storage slot holds the draft of
    a NEW document: it is read on mount in create mode when younger than a
    day, rewritten with the full current fields while creating, and removed
    only after the document was created. Edit mode loads the document from
    the server and never touches the slot. The route's `id` is the empty
    string in create mode. Clock values are milliseconds. */
module EditorDraft {
  import opened Wrappers
  import opened Strings
  import EditorTags

  /** Maximum age of a draft that is restored: 24 hours. */
  const DraftMaxAge: int := 24 * 60 * 60 * 1000

  /** The editable fields. */
  datatype Fields = Fields(title: string, content: string, headerImg: string, isPublic: bool, tags: seq<string>)

  const EmptyFields := Fields("", "", "", true, [])

  /** The slot's content once parsed. `Unparsable` stands for a value that
      `JSON.parse` rejects (the empty string included); a missing field is
      `None`. */
  datatype Stored =
    | Unparsable
    | Draft(title: Option<string>, content: Option<string>, headerImg: Option<string>,
            isPublic: Option<bool>, tags: Option<seq<string>>, updatedAt: Option<int>)

  type Slot = Option<Stored>

  function OrEmpty(s: Option<string>): string {
    match s
    case Some(v) => v
    case None => ""
  }

  /** A draft is restored when `now - updatedAt` is below a day; with no
      timestamp the difference is `NaN` and the test fails. Put the other way:
      a stamped draft is fresh exactly when written after the instant one
      day before now. */
  predicate Fresh(updatedAt: Option<int>, now: int): (b: bool)
    ensures updatedAt.None? ==> !b
    ensures updatedAt.Some? ==> (b <==> updatedAt.value > now - DraftMaxAge)
  {
    updatedAt.Some? && now - updatedAt.value < DraftMaxAge
  }

  /** The fields a create-mode mount starts from. */
  function Hydrate(slot: Slot, now: int): (f: Fields)
    ensures slot.None? || slot.value.Unparsable? ==> f == EmptyFields
    ensures slot.Some? && slot.value.Draft? && !Fresh(slot.value.updatedAt, now) ==> f == EmptyFields
    ensures slot.Some? && slot.value.Draft? && Fresh(slot.value.updatedAt, now) ==>
      && f.title == OrEmpty(slot.value.title)
      && f.content == OrEmpty(slot.value.content)
      && f.headerImg == OrEmpty(slot.value.headerImg)
      && f.isPublic == slot.value.isPublic.GetOr(true)
      && f.tags == slot.value.tags.GetOr([])
  {
    match slot
    case None => EmptyFields
    case Some(Unparsable) => EmptyFields
    case Some(d) =>
      if Fresh(d.updatedAt, now) then
        Fields(OrEmpty(d.title), OrEmpty(d.content), OrEmpty(d.headerImg), d.isPublic.GetOr(true), d.tags.GetOr([]))
      else EmptyFields
  }

  /** The document as the server returns it for editing: its tags are
      `{id, name}` records. */
  datatype Doc = Doc(title: string, content: string, headerImg: Option<string>, isPublic: bool,
                     tags: seq<EditorTags.TagInfo>)

  /** The names of tag records, in order. */
  function Names(infos: seq<EditorTags.TagInfo>): (names: seq<string>)
    ensures |names| == |infos|
    ensures forall k :: 0 <= k < |infos| ==> names[k] == infos[k].name
  {
    seq(|infos|, k requires 0 <= k < |infos| => infos[k].name)
  }

  datatype Fetch = FetchFailed | Fetched(doc: Doc)

  /** Fields after mounting, and where the editor navigates to, if anywhere. */
  datatype Mounted = Mounted(fields: Fields, navigate: Option<string>)

  /** The mount effect: edit mode loads the document (and goes back to the
      list when that fails), create mode hydrates from the draft slot. The
      tag state receives the NAMES of the document's tags; the mount as
      written stores the records themselves (see `EditTagsAsWritten`). */
  function Mount(id: string, slot: Slot, now: int, fetch: Fetch): (m: Mounted)
    ensures id == "" ==> m == Mounted(Hydrate(slot, now), None)
    ensures id != "" && fetch.FetchFailed? ==> m == Mounted(EmptyFields, Some("/docs"))
    ensures id != "" && fetch.Fetched? ==>
      && m.navigate.None?
      && m.fields == Fields(fetch.doc.title, fetch.doc.content, OrEmpty(fetch.doc.headerImg),
                            fetch.doc.isPublic, Names(fetch.doc.tags))
  {
    if id != "" then
      match fetch
      case FetchFailed => Mounted(EmptyFields, Some("/docs"))
      case Fetched(d) => Mounted(Fields(d.title, d.content, OrEmpty(d.headerImg), d.isPublic, Names(d.tags)), None)
    else Mounted(Hydrate(slot, now), None)
  }

  /** Edit mode ignores the slot entirely. */
  lemma EditModeIgnoresSlot(id: string, a: Slot, b: Slot, now: int, fetch: Fetch)
    requires id != ""
    ensures Mount(id, a, now, fetch) == Mount(id, b, now, fetch)
  {
  }

  // ---------------------------------------------------------------------
  // The tags of a loaded document
  // ---------------------------------------------------------------------

  /** An element of the tag state as JavaScript holds it. The state is
      declared as a list of strings, but nothing stops a record getting in. */
  datatype TagValue = Text(text: string) | Record(info: EditorTags.TagInfo)

  /** `setTags(doc.tags.map((t) => t))` as written: the fetched records are
      copied into the tag state unchanged. */
  function EditTagsAsWritten(doc: Doc): (tags: seq<TagValue>)
    ensures |tags| == |doc.tags|
    ensures forall k :: 0 <= k < |tags| ==> tags[k].Record? && tags[k].info == doc.tags[k]
  {
    seq(|doc.tags|, k requires 0 <= k < |doc.tags| => Record(doc.tags[k]))
  }

  /** Each chip renders its tag as a React child: a string can be one, a
      plain object cannot. */
  predicate Renderable(tags: seq<TagValue>) {
    forall k :: 0 <= k < |tags| ==> tags[k].Text?
  }

  /** A list of strings as the values it holds. */
  function AsValues(tags: seq<string>): (r: seq<TagValue>)
    ensures |r| == |tags| && Renderable(r)
    ensures forall k :: 0 <= k < |tags| ==> r[k] == Text(tags[k])
  {
    seq(|tags|, k requires 0 <= k < |tags| => Text(tags[k]))
  }

  /** `handleAddTag` on Enter over the values the state really holds: the
      `includes` test compares with `===`, and no string is `===` a record. */
  function AddTagAsWritten(tags: seq<TagValue>, input: string): (r: seq<TagValue>)
    ensures r == tags || r == tags + [Text(Trim(input))]
    ensures r != tags <==> Trim(input) != "" && Text(Trim(input)) !in tags
  {
    var t := Trim(input);
    if t != "" && Text(t) !in tags then tags + [Text(t)] else tags
  }

  /** On a state that holds only strings, that is the modelled
      `EditorTags.HandleAddTag`. */
  lemma AddTagAsWrittenOnText(tags: seq<string>, input: string)
    ensures AddTagAsWritten(AsValues(tags), input)
            == AsValues(EditorTags.HandleAddTag(EditorTags.TagEditor(tags, input, true), "Enter").tags)
  {
    var t := Trim(input);
    TextInValues(tags, t);
    assert AsValues(tags + [t]) == AsValues(tags) + [Text(t)];
  }

  /** A string is among the values of a list exactly when it is in the list. */
  lemma TextInValues(tags: seq<string>, t: string)
    ensures Text(t) in AsValues(tags) <==> t in tags
  {
    if t in tags {
      var k :| 0 <= k < |tags| && tags[k] == t;
      assert AsValues(tags)[k] == Text(t);
    }
  }

  /** Opening a tagged document with the mount as written: the chips are
      handed records, which React refuses to render, and typing the name of
      a tag the document already has adds it a second time. */
  lemma EditingTaggedDocumentAsWritten(doc: Doc, tagId: string, name: string)
    requires doc.tags == [EditorTags.TagInfo(tagId, name)]
    requires name != "" && Trim(name) == name
    ensures !Renderable(EditTagsAsWritten(doc))
    ensures AddTagAsWritten(EditTagsAsWritten(doc), name)
            == [Record(EditorTags.TagInfo(tagId, name)), Text(name)]
  {
    assert EditTagsAsWritten(doc)[0].Record?;
    assert EditTagsAsWritten(doc) == [Record(EditorTags.TagInfo(tagId, name))];
  }

  /** With the names mounted, the chips render, and a tag the document
      already has is not added again. */
  lemma EditMountRecognisesTags(id: string, slot: Slot, now: int, doc: Doc, input: string)
    requires id != ""
    ensures var tags := Mount(id, slot, now, Fetched(doc)).fields.tags;
            && Renderable(AsValues(tags))
            && (forall k :: 0 <= k < |doc.tags| && Trim(input) == doc.tags[k].name ==>
                  AddTagAsWritten(AsValues(tags), input) == AsValues(tags))
  {
    var tags := Mount(id, slot, now, Fetched(doc)).fields.tags;
    forall k | 0 <= k < |doc.tags| && Trim(input) == doc.tags[k].name
      ensures AddTagAsWritten(AsValues(tags), input) == AsValues(tags)
    {
      assert AsValues(tags)[k] == Text(Trim(input));
    }
  }

  /** The full snapshot the autosave writes. */
  function Snapshot(f: Fields, now: int): (d: Stored)
    ensures d.Draft? && d.updatedAt == Some(now)
  {
    Draft(Some(f.title), Some(f.content), Some(f.headerImg), Some(f.isPublic), Some(f.tags), Some(now))
  }

  /** The autosave effect (after its quiet period): only a create-mode
      editor that has finished loading writes the slot, and it writes the
      whole current snapshot. */
  function Autosave(slot: Slot, id: string, loading: bool, f: Fields, now: int): (r: Slot)
    ensures id != "" || loading ==> r == slot
    ensures id == "" && !loading ==> r == Some(Snapshot(f, now))
  {
    if id == "" && !loading then Some(Snapshot(f, now)) else slot
  }

  /** A draft written at `t` is restored in full by a mount at `now` exactly
      when `now - t` is strictly below a day, and not at all otherwise. */
  lemma {:induction false} DraftRoundTrip(f: Fields, t: int, now: int)
    ensures now - t < DraftMaxAge ==> Hydrate(Some(Snapshot(f, t)), now) == f
    ensures now - t >= DraftMaxAge ==> Hydrate(Some(Snapshot(f, t)), now) == EmptyFields
  {
  }

  /** What the autosave writes while creating is what the next create-mode
      mount restores, field for field, when that mount comes less than a day
      later; from a day on the mount starts empty. Whatever the slot held
      before plays no part. */
  lemma AutosaveRestores(slot: Slot, f: Fields, t: int, now: int, fetch: Fetch)
    ensures now - t < DraftMaxAge ==> Mount("", Autosave(slot, "", false, f, t), now, fetch).fields == f
    ensures now - t >= DraftMaxAge ==> Mount("", Autosave(slot, "", false, f, t), now, fetch).fields == EmptyFields
  {
    DraftRoundTrip(f, t, now);
  }

  /** Example: a draft 23 hours old is restored, one 25 hours old is not. */
  lemma ExampleFreshness(f: Fields, now: int)
    ensures Hydrate(Some(Snapshot(f, now - 23 * 3600000)), now) == f
    ensures Hydrate(Some(Snapshot(f, now - 25 * 3600000)), now) == EmptyFields
  {
    DraftRoundTrip(f, now - 23 * 3600000, now);
    DraftRoundTrip(f, now - 25 * 3600000, now);
  }

  // ---------------------------------------------------------------------
  // Saving
  // ---------------------------------------------------------------------

  datatype SaveAlert = EnterTitle | EnterContent | SaveFailed

  /** The body of the create or update request. */
  datatype Request = Request(title: string, content: string, headerImg: string, isPublic: bool, tags: seq<string>)

  /** The server's answer: the new document's id on a create. */
  datatype Outcome = Failed | Succeeded(newId: string)

  datatype Saved = Saved(alert: Option<SaveAlert>, request: Option<Request>, slot: Slot, navigate: Option<string>)

  /** `handleSave` */
  function HandleSave(f: Fields, id: string, slot: Slot, outcome: Outcome): (r: Saved)
    ensures Trim(f.title) == "" ==> r == Saved(Some(EnterTitle), None, slot, None)
    ensures Trim(f.title) != "" && Trim(f.content) == "" ==> r == Saved(Some(EnterContent), None, slot, None)
    ensures Trim(f.title) != "" && Trim(f.content) != "" ==>
      r.request == Some(Request(Trim(f.title), f.content, f.headerImg, f.isPublic, f.tags))
    ensures r.slot != slot ==> id == "" && outcome.Succeeded? && r.slot.None?
    ensures r.request.Some? && outcome.Failed? ==> r.alert == Some(SaveFailed) && r.navigate.None? && r.slot == slot
    ensures Trim(f.title) != "" && Trim(f.content) != "" && outcome.Succeeded? ==>
      && r.alert.None?
      && r.navigate == Some("/docs/" + (if id != "" then id else outcome.newId))
  {
    if Trim(f.title) == "" then Saved(Some(EnterTitle), None, slot, None)
    else if Trim(f.content) == "" then Saved(Some(EnterContent), None, slot, None)
    else
      var req := Request(Trim(f.title), f.content, f.headerImg, f.isPublic, f.tags);
      match outcome
      case Failed => Saved(Some(SaveFailed), Some(req), slot, None)
      case Succeeded(newId) =>
        if id != "" then Saved(None, Some(req), slot, Some("/docs/" + id))
        else Saved(None, Some(req), None, Some("/docs/" + newId))
  }

  /** A successful create empties the slot, so the next new document starts
      from empty fields whatever the clock says. */
  lemma CreateClearsDraft(f: Fields, slot: Slot, newId: string, later: int, fetch: Fetch)
    requires Trim(f.title) != "" && Trim(f.content) != ""
    ensures HandleSave(f, "", slot, Succeeded(newId)).slot.None?
    ensures Mount("", HandleSave(f, "", slot, Succeeded(newId)).slot, later, fetch).fields == EmptyFields
  {
  }

  /** Updating an existing document never touches the draft slot. */
  lemma UpdateKeepsDraft(f: Fields, id: string, slot: Slot, outcome: Outcome)
    requires id != ""
    ensures HandleSave(f, id, slot, outcome).slot == slot
  {
  }
}
