/** Text operations of the markdown editor (src/pages/DocEditor.tsx): the
    toolbar's `insertMarkdown`, which wraps the textarea selection in a
    prefix and a suffix, and the splice that replaces the selection with the
    markdown reference of an uploaded image or file. The textarea's
    `selectionStart`/`selectionEnd` are inputs; `None` stands for a missing
    textarea. */
module EditorText {
  import opened Wrappers
  import opened Strings

  datatype Selection = Selection(start: int, end: int)

  /** What the browser guarantees of a textarea selection over `content`. */
  predicate ValidSelection(content: string, sel: Selection) {
    0 <= sel.start <= sel.end <= |content|
  }

  /** New content and the caret position restored afterwards (`None` when
      nothing was done). */
  datatype Edit = Edit(content: string, caret: Option<int>)

  /** `insertMarkdown(prefix, suffix)` */
  function InsertMarkdown(content: string, sel: Option<Selection>, prefix: string, suffix: string): (r: Edit)
    ensures sel.None? ==> r == Edit(content, None)
    ensures sel.Some? && ValidSelection(content, sel.value) ==>
      var (s, e) := (sel.value.start, sel.value.end);
      && r.content == content[..s] + prefix + content[s..e] + suffix + content[e..]
      && r.caret == Some(s + |prefix| + (e - s) + |suffix|)
  {
    match sel
    case None => Edit(content, None)
    case Some(Selection(start, end)) =>
      var selected := Substring(content, start, end);
      var next := Substring(content, 0, start) + prefix + selected + suffix + Substring(content, end, |content|);
      Edit(next, Some(start + |prefix| + |selected| + |suffix|))
  }

  /** The text before and after the selection is untouched, the caret lands
      right after the suffix, and stripping the inserted prefix and suffix
      gives back the original content. */
  lemma InsertMarkdownFrames(content: string, sel: Selection, prefix: string, suffix: string)
    requires ValidSelection(content, sel)
    ensures var r := InsertMarkdown(content, Some(sel), prefix, suffix);
            var caret := r.caret.value;
            && |r.content| == |content| + |prefix| + |suffix|
            && caret <= |r.content|
            && r.content[..sel.start] == content[..sel.start]
            && r.content[caret..] == content[sel.end..]
            && r.content[sel.start..sel.start + |prefix|] == prefix
            && r.content[caret - |suffix|..caret] == suffix
            && r.content[..sel.start] + r.content[sel.start + |prefix|..caret - |suffix|] + r.content[caret..] == content
  {
    var r := InsertMarkdown(content, Some(sel), prefix, suffix);
    var s, e := sel.start, sel.end;
    var caret := r.caret.value;
    assert r.content == content[..s] + prefix + content[s..e] + suffix + content[e..];
    assert r.content[..s] == content[..s];
    assert r.content[caret..] == content[e..];
    assert r.content[s + |prefix|..caret - |suffix|] == content[s..e];
    assert content == content[..s] + content[s..e] + content[e..];
  }

  /** Wrapping an empty selection puts the caret after both markers. */
  lemma InsertAtCaret(content: string, pos: int, prefix: string, suffix: string)
    requires 0 <= pos <= |content|
    ensures InsertMarkdown(content, Some(Selection(pos, pos)), prefix, suffix)
            == Edit(content[..pos] + prefix + suffix + content[pos..], Some(pos + |prefix| + |suffix|))
  {
    assert content[pos..pos] == "";
  }

  // ---------------------------------------------------------------------
  // Upload splicing
  // ---------------------------------------------------------------------

  datatype UploadKind = Image | File

  /** `![name](url)` for an image, `[name](url)` for any other file. */
  function UploadMarkdown(kind: UploadKind, name: string, url: string): (md: string)
    ensures md == (if kind == Image then "!" else "") + "[" + name + "](" + url + ")"
  {
    match kind
    case Image => "![" + name + "](" + url + ")"
    case File => "[" + name + "](" + url + ")"
  }

  /** The selection `[start, end)` of `content` replaced by `md`, caret after it. */
  function Splice(content: string, sel: Selection, md: string): (r: Edit)
    ensures ValidSelection(content, sel) ==>
      && r.content == content[..sel.start] + md + content[sel.end..]
      && r.caret == Some(sel.start + |md|)
  {
    Edit(Substring(content, 0, sel.start) + md + Substring(content, sel.end, |content|),
         Some(sel.start + |md|))
  }

  /** The length changes by `|md| - (end - start)`, the surroundings are kept
      and the caret sits right after the markdown. */
  lemma SpliceFrames(content: string, sel: Selection, md: string)
    requires ValidSelection(content, sel)
    ensures var r := Splice(content, sel, md);
            && |r.content| == |content| + |md| - (sel.end - sel.start)
            && r.content[..sel.start] == content[..sel.start]
            && r.content[sel.start..r.caret.value] == md
            && r.content[r.caret.value..] == content[sel.end..]
  {
    var r := Splice(content, sel, md);
    assert r.content == content[..sel.start] + md + content[sel.end..];
  }

  /** Example: an image inserted at caret 5 of "ab123cd". */
  lemma ExampleImageAtCaret()
    ensures Splice("ab123cd", Selection(5, 5), UploadMarkdown(Image, "x", "u"))
            == Edit("ab123![x](u)cd", Some(12))
  {
    assert "ab123cd"[..5] == "ab123";
    assert "ab123cd"[5..] == "cd";
  }
}
