/** The upload handlers of the markdown editor (src/pages/DocEditor.tsx):
    `handleImageUpload`, `handleFileUpload` and `handleHeaderImageUpload`.
    Each checks the `upload_file` permission, uploads (the outcome is an
    input: the final URL, or `None` when the upload was rejected), and then
    changes the content or the header image. Progress is 0 while the upload
    runs and `null` once it is over; only the final state is modelled. */
module EditorUpload {
  import opened Wrappers
  import opened EditorText

  datatype Alert = NoUploadPerm | UploadFailed

  /** The slice of the editor state the upload handlers touch. */
  datatype UploadState = UploadState(content: string, headerImg: string, progress: Option<int>)

  /** The state after the handler, the alert it raised, and where the caret
      was put back. */
  datatype Step = Step(state: UploadState, alert: Option<Alert>, caret: Option<int>)

  /** An image or file upload whose markdown is spliced into the content as
      it is when the upload completes. `now` is the state at completion and
      `sel` the textarea selection at that moment. */
  function HandleUpload(kind: UploadKind, now: UploadState, canUpload: bool, name: string,
                        url: Option<string>, sel: Option<Selection>): (r: Step)
    ensures !canUpload ==> r == Step(now, Some(NoUploadPerm), None)
    ensures canUpload ==> r.state.progress.None? && r.state.headerImg == now.headerImg
    ensures canUpload && url.None? ==> r.state.content == now.content && r.alert == Some(UploadFailed)
    ensures canUpload && url.Some? && sel.Some? && ValidSelection(now.content, sel.value) ==>
      var md := UploadMarkdown(kind, name, url.value);
      && r.state.content == now.content[..sel.value.start] + md + now.content[sel.value.end..]
      && r.caret == Some(sel.value.start + |md|)
      && r.alert.None?
    ensures r.state.content != now.content ==> canUpload && url.Some? && sel.Some?
  {
    if !canUpload then Step(now, Some(NoUploadPerm), None)
    else
      match url
      case None => Step(now.(progress := None), Some(UploadFailed), None)
      case Some(u) =>
        match sel
        case None => Step(now.(progress := None), None, None)
        case Some(s) =>
          var e := Splice(now.content, s, UploadMarkdown(kind, name, u));
          Step(now.(content := e.content, progress := None), None, e.caret)
  }

  /** The handler as the source writes it: the callback splices into the
      content captured when the upload STARTED (`contentAtStart`), while the
      selection is read from the live textarea when it completes. */
  function HandleUploadAsWritten(kind: UploadKind, contentAtStart: string, now: UploadState, canUpload: bool,
                                 name: string, url: Option<string>, sel: Option<Selection>): (r: Step)
    ensures contentAtStart == now.content ==> r == HandleUpload(kind, now, canUpload, name, url, sel)
    ensures !canUpload ==> r == Step(now, Some(NoUploadPerm), None)
    ensures canUpload ==> r.state.progress.None? && r.state.headerImg == now.headerImg
    ensures canUpload && url.None? ==> r.state.content == now.content && r.alert == Some(UploadFailed)
    ensures canUpload && url.Some? && sel.Some? && ValidSelection(contentAtStart, sel.value) ==>
      var md := UploadMarkdown(kind, name, url.value);
      && r.state.content == contentAtStart[..sel.value.start] + md + contentAtStart[sel.value.end..]
      && r.caret == Some(sel.value.start + |md|)
      && r.alert.None?
  {
    if !canUpload then Step(now, Some(NoUploadPerm), None)
    else
      match url
      case None => Step(now.(progress := None), Some(UploadFailed), None)
      case Some(u) =>
        match sel
        case None => Step(now.(progress := None), None, None)
        case Some(s) =>
          var e := Splice(contentAtStart, s, UploadMarkdown(kind, name, u));
          Step(now.(content := e.content, progress := None), None, e.caret)
  }

  /** Text typed while an upload runs is lost: the content was "abc" when
      the upload started, the user typed "d", and the completed upload
      overwrites "abcd" with "abc![x](u)". The corrected handler keeps it. */
  lemma TypingDuringUploadIsLost()
    ensures var now := UploadState("abcd", "", Some(0));
            && HandleUploadAsWritten(Image, "abc", now, true, "x", Some("u"), Some(Selection(4, 4))).state.content
               == "abc![x](u)"
            && HandleUpload(Image, now, true, "x", Some("u"), Some(Selection(4, 4))).state.content
               == "abcd![x](u)"
  {
    var md := UploadMarkdown(Image, "x", "u");
    assert md == "![x](u)";
    assert Strings.Substring("abc", 0, 4) == "abc";
    assert Strings.Substring("abc", 4, 3) == "abc"[3..4 - 1];
    assert "abcd"[..4] == "abcd";
    assert "abcd"[4..] == "";
  }

  /** Two uploads started on the same content: when the second completes it
      discards the markdown the first one inserted. */
  lemma SecondUploadDiscardsFirst()
    ensures var first := HandleUploadAsWritten(Image, "", UploadState("", "", Some(0)), true, "a", Some("1"), Some(Selection(0, 0)));
            && first.state.content == "![a](1)"
            && HandleUploadAsWritten(Image, "", first.state, true, "b", Some("2"), Some(Selection(7, 7))).state.content
               == "![b](2)"
  {
    assert Strings.Substring("", 0, 7) == "";
    assert Strings.Substring("", 7, 0) == "";
  }

  /** With the corrected handler, uploads completing one after the other
      keep each other's markdown. */
  lemma SuccessiveUploadsKeepBoth(content: string, pos: nat, a: string, ua: string, b: string, ub: string)
    requires pos <= |content|
    ensures var first := HandleUpload(Image, UploadState(content, "", Some(0)), true, a, Some(ua), Some(Selection(pos, pos)));
            var p := first.caret.value;
            var second := HandleUpload(Image, first.state, true, b, Some(ub), Some(Selection(p, p)));
            second.state.content
            == content[..pos] + UploadMarkdown(Image, a, ua) + UploadMarkdown(Image, b, ub) + content[pos..]
  {
    var ma := UploadMarkdown(Image, a, ua);
    var mb := UploadMarkdown(Image, b, ub);
    var c1 := content[..pos] + ma + content[pos..];
    var p := pos + |ma|;
    assert c1[..p] == content[..pos] + ma;
    assert c1[p..] == content[pos..];
  }

  /** `handleHeaderImageUpload`: a successful upload sets the header image;
      the content is never touched. */
  function HandleHeaderImageUpload(now: UploadState, canUpload: bool, url: Option<string>): (r: Step)
    ensures r.state.content == now.content && r.caret.None?
    ensures !canUpload ==> r == Step(now, Some(NoUploadPerm), None)
    ensures canUpload ==> r.state.progress.None?
    ensures canUpload && url.Some? ==> r.state.headerImg == url.value && r.alert.None?
    ensures canUpload && url.None? ==> r.state.headerImg == now.headerImg && r.alert == Some(UploadFailed)
  {
    if !canUpload then Step(now, Some(NoUploadPerm), None)
    else
      match url
      case None => Step(now.(progress := None), Some(UploadFailed), None)
      case Some(u) => Step(now.(headerImg := u, progress := None), None, None)
  }

  /** A header image upload does not interfere with an image or file
      upload: the content the latter produces is the same whether or not the
      header image changed first, and the header image the former set is
      kept. */
  lemma HeaderUploadIndependent(now: UploadState, canHeader: bool, headerUrl: Option<string>, kind: UploadKind,
                                canUpload: bool, name: string, url: Option<string>, sel: Option<Selection>)
    ensures var h := HandleHeaderImageUpload(now, canHeader, headerUrl).state;
            && HandleUpload(kind, h, canUpload, name, url, sel).state.content
               == HandleUpload(kind, now, canUpload, name, url, sel).state.content
            && HandleUpload(kind, h, canUpload, name, url, sel).state.headerImg == h.headerImg
  {
  }
}
