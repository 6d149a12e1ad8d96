# iWiki web client: a Dafny model of its decision logic

iWiki is a wiki whose browser client is a React application. Most of the
client is presentation. Its behaviour sits in a set of small decisions inside
the components, and this project states each of them as a total Dafny
function and proves what it promises:

- the pagination bar of the document list;
- the search state mirrored into the URL, and how it is read back;
- the markdown editor:
  - its text splicing (toolbar and uploads);
  - its tag list;
  - its save validation;
  - its create-mode draft;
- the session (permission grants, bootstrap merge, sign-out);
- the single-sign-on callback's redirect decision;
- the assembly of an uploaded object's URL;
- the code-block renderer (code flattening, language, mermaid dispatch);
- the translation lookup;
- the document card;
- the header;
- the image zoom.

One module per component:

| file | module | component |
|---|---|---|
| pagination.dfy | `Pagination` | `renderPagination` of the document list |
| search_state.dfy | `SearchState` | URL query state of the document list |
| editor_text.dfy | `EditorText` | `insertMarkdown` and the upload splice |
| editor_upload.dfy | `EditorUpload` | image, file and header-image upload handlers |
| editor_tags.dfy | `EditorTags` | tag input and suggestions |
| editor_draft.dfy | `EditorDraft` | draft slot, mount, autosave, save |
| session.dfy | `Session` | application context: user, grants, features |
| login_callback.dfy | `LoginCallback` | SSO callback page |
| cos_url.dfy | `CosUrl` | final URL of an object-storage upload |
| code_block.dfy | `CodeBlock` | `CodeBlock`, `MermaidBlock` id, `PreBlock` |
| i18n.dfy | `I18n` | `getTranslation`, `getNestedValue` |
| doc_card.dfy | `DocCard` | tag chips and author of a card |
| header.dfy | `Header` | avatar letter, active links, write link |
| image_preview.dfy | `ImagePreview` | zoom state of the image preview |
| strings.dfy, seqs.dfy, wrappers.dfy | `Strings`, `Seqs`, `Wrappers` | JavaScript string and array primitives, `Option` |

Some browser primitives are not modelled. They are parameters of the
functions that use them:
- `Number(...)` (`None` for `NaN`);
- `decodeURIComponent`;
- `new URL(...).origin`;
- `toUpperCase`/`toLowerCase`;
- date parsing.

The clock (`now`, in milliseconds) is a parameter too. Request outcomes are
inputs: succeeded with a value, or failed.

JavaScript `substring` (clamping and swapping its arguments), `trim` (the
ECMAScript white-space and line-terminator set), `split`/`join` on one
character, `includes` and `startsWith` are defined in `Strings`.

Where the project's design notes and the code disagree, the model follows the
code:
- there is no `tag:` search-token codec and no upgrade of a legacy query
  format: keywords and tags are separate query parameters;
- typing in the search box does not return to page 1; only submitting the
  form, changing the mode or toggling a tag does;
- the `mode` parameter is not validated when it is read back: any non-empty
  value becomes the mode.

## Model

| member | source | states |
|---|---|---|
| `Pagination.TotalPages` | src/pages/DocsList.tsx:33 | the number of pages is the ceiling of total/12: enough pages for every document, and one fewer would not be |
| `Pagination.PageWindow` | src/pages/DocsList.tsx:63-70 | for at least one page the window lies inside [1, totalPages], has exactly min(5, totalPages) pages, and contains the current page when that page exists |
| `Pagination.WindowCentred` | src/pages/DocsList.tsx:65-70 | with two pages on either side the window is page-2..page+2 |
| `Pagination.WindowAtEdges` | src/pages/DocsList.tsx:65-70 | near the first page the window starts at 1; near the last it ends at the last page |
| `Pagination.RenderPagination` | src/pages/DocsList.tsx:60-116 | nothing is rendered exactly when there is at most one page; prev is disabled iff page is 1, next iff page is the last; min(5, totalPages) numbered buttons |
| `Pagination.PagesAreWindow` | src/pages/DocsList.tsx:72-74 | the numbered buttons are a contiguous ascending run inside [1, totalPages] that includes the current page when it exists |
| `Pagination.ShortcutRules` | src/pages/DocsList.tsx:88-112 | first shortcut iff page 1 is not numbered, its ellipsis iff neither 1 nor 2 is; the same at the end; a shortcut never repeats a numbered button |
| `Pagination.ExampleNinePages` | src/pages/DocsList.tsx:60-112 | 100 documents on page 5 show 3..7 with both shortcuts and ellipses and last page 9 |
| `Pagination.Click` | src/pages/DocsList.tsx:81-117 | the `onClick` targets: prev and next step one page unless disabled, the shortcuts go to page 1 and the last page when shown, a numbered button to its own page |
| `Pagination.ClickStaysInRange` | src/pages/DocsList.tsx:78-117 | from an existing page every enabled button leads to an existing page |
| `SearchState.Encode` | src/pages/DocsList.tsx:36-43 | the URL holds page only above 1 (in decimal), keywords only when non-empty, mode only when not `title`, tags only when some are chosen (comma-joined) |
| `SearchState.DecodePage` | src/pages/DocsList.tsx:17 | a missing, non-numeric or zero page reads as 1; any other number, negative ones included, is the page; the page read is never 0 |
| `SearchState.DecodeTags` | src/pages/DocsList.tsx:20-22 | no parameter reads as no tags; otherwise the tags are the non-empty comma-separated pieces in order, each non-empty and comma-free |
| `SearchState.DecodeTagsOfPieces` | src/pages/DocsList.tsx:20-22 | comma-free pieces joined by commas read back as exactly the non-empty pieces, in order: stray commas are ignored |
| `Strings.NonEmptyAppend` | src/pages/DocsList.tsx:21 | `filter(Boolean)` works piecewise, so the kept pieces keep their order |
| `SearchState.Decode` | src/pages/DocsList.tsx:17-22 | missing keywords read as empty, a missing mode as `title` |
| `SearchState.DecodeEncode` | src/pages/DocsList.tsx:17-43 | reading back the written URL restores the state, for a positive page below 2^53, a non-empty mode and non-empty comma-free tags, given a `Number` that reads such digit strings exactly |
| `SearchState.DefaultPage` | src/pages/DocsList.tsx:17 | an absent, zero or non-numeric page parameter opens page 1 |
| `SearchState.SubmitSearch` | src/pages/DocsList.tsx:45-49 | submitting returns to page 1 and keeps keywords, mode and tags |
| `SearchState.ChangeMode` | src/pages/DocsList.tsx:155-158 | a new mode returns to page 1 and keeps keywords and tags |
| `SearchState.TypeKeywords` | src/pages/DocsList.tsx:147 | typing changes only the keywords; the page is kept |
| `SearchState.GoToPage` | src/pages/DocsList.tsx:99 | a pagination click changes only the page |
| `SearchState.ToggleTag` | src/pages/DocsList.tsx:51-58 | a selected tag is filtered out (`Seqs.Remove`: every occurrence goes, the rest keep their order), an unselected one is appended; page returns to 1 |
| `SearchState.ToggleKeepsEncodable` | src/pages/DocsList.tsx:51-58 | toggling a non-empty comma-free tag keeps every selected tag non-empty and comma-free |
| `SearchState.TransitionsSurviveReload` | src/pages/DocsList.tsx:17-58 | after submitting, changing the mode, typing, paging (to a page below 2^53) or toggling, the URL written reads back as the same state; submit, mode change and toggle drop `page` |
| `SearchState.ToggleTwice` | src/pages/DocsList.tsx:51-58 | toggling an unselected tag twice restores the selection |
| `SearchState.ToggleKeepsNoDups` | src/pages/DocsList.tsx:51-58 | a duplicate-free selection stays duplicate-free |
| `EditorText.InsertMarkdown` | src/pages/DocEditor.tsx:379-394 | without a textarea nothing changes; otherwise the selection is framed by prefix and suffix and the caret lands after the suffix |
| `EditorText.InsertMarkdownFrames` | src/pages/DocEditor.tsx:383-392 | the length grows by the markers, the text around the selection is untouched, and removing the markers gives back the original |
| `EditorText.InsertAtCaret` | src/pages/DocEditor.tsx:383-392 | on an empty selection the markers are adjacent and the caret follows both |
| `EditorText.UploadMarkdown` | src/pages/DocEditor.tsx:302-333 | an image reference starts with `!`, a file reference does not; both are `[name](url)` |
| `EditorText.Splice` | src/pages/DocEditor.tsx:300-309 | the selection is replaced by the markdown and the caret lands after it |
| `EditorText.SpliceFrames` | src/pages/DocEditor.tsx:300-309 | the length changes by the markdown's length minus the selection's, the surroundings are kept |
| `EditorText.ExampleImageAtCaret` | src/pages/DocEditor.tsx:300-309 | an image at caret 5 of `ab123cd` gives `ab123![x](u)cd` with the caret at 12 |
| `EditorUpload.HandleUpload` | src/pages/DocEditor.tsx:288-348 | without permission only an alert; a failed upload alerts and keeps the content; otherwise the selection of the current content is replaced; progress ends null |
| `EditorUpload.HandleUploadAsWritten` | src/pages/DocEditor.tsx:288-317 | as written: the markdown is spliced at the live selection into the content captured at upload start, whatever was typed since; permission and failure alerts as in the corrected handler, with which it agrees when nothing was typed meanwhile |
| `EditorUpload.TypingDuringUploadIsLost` | src/pages/DocEditor.tsx:294-304 | text typed during an upload is overwritten as written and kept by the corrected handler |
| `EditorUpload.SecondUploadDiscardsFirst` | src/pages/DocEditor.tsx:294-304 | as written, of two uploads started on the same content the second erases the first's markdown |
| `EditorUpload.SuccessiveUploadsKeepBoth` | src/pages/DocEditor.tsx:300-309 | with the corrected handler two successive uploads leave both references in order |
| `EditorUpload.HandleHeaderImageUpload` | src/pages/DocEditor.tsx:218-233 | the content is never touched; without permission only an alert; success sets the header image, failure alerts and keeps it |
| `EditorUpload.HeaderUploadIndependent` | src/pages/DocEditor.tsx:218-317 | a header-image upload changes nothing a later image or file upload writes into the content, and that upload keeps the header image |
| `EditorTags.HandleAddTag` | src/pages/DocEditor.tsx:264-274 | Enter or comma appends the trimmed input when non-blank and new, and always clears the input; other keys change nothing |
| `EditorTags.HandleSelectTag` | src/pages/DocEditor.tsx:276-282 | the chosen tag is present afterwards, appended only when new; the input is cleared |
| `EditorTags.HandleRemoveTag` | src/pages/DocEditor.tsx:284-286 | the list is filtered (`Seqs.Remove`): every occurrence of the tag goes, every other tag stays, in order; input and box untouched |
| `EditorTags.AddedTagIsTrimmed` | src/pages/DocEditor.tsx:267-269 | a tag added from the keyboard is non-empty and already trimmed |
| `EditorTags.TagOpsKeepNoDups` | src/pages/DocEditor.tsx:264-286 | add, select and remove keep the tag list duplicate-free |
| `EditorTags.SelectThenRemove` | src/pages/DocEditor.tsx:276-286 | selecting a new tag and removing it restores the list |
| `EditorTags.Suggestions` | src/pages/DocEditor.tsx:674-675 | a known tag is suggested iff it is not chosen and its lower-cased name contains the lower-cased input |
| `EditorTags.SuggestionsAppend` | src/pages/DocEditor.tsx:674-675 | the filter works piecewise, so suggestions keep the order of the known tags |
| `EditorTags.SuggestionsOfEmptyInput` | src/pages/DocEditor.tsx:675 | an empty input suggests exactly the tags not yet chosen |
| `EditorTags.SuggestionHint` | src/pages/DocEditor.tsx:685-688 | the empty-list hint appears iff nothing qualifies; it then offers to create the input when that is non-empty, and asks to type one otherwise |
| `EditorDraft.Fresh` | src/pages/DocEditor.tsx:94 | an unstamped draft is never fresh; a stamped one is fresh iff written after the instant one day before now |
| `EditorDraft.Hydrate` | src/pages/DocEditor.tsx:89-104 | a missing, unparsable or day-old draft yields empty fields; a fresh one yields its fields with '', true and [] for missing ones |
| `EditorDraft.Mount` | src/pages/DocEditor.tsx:68-107 | create mode hydrates from the draft; edit mode loads the document, with the NAMES of its tags (corrected), or goes back to the list when that fails |
| `EditorDraft.EditTagsAsWritten` | src/pages/DocEditor.tsx:79 | as written: the tag state receives the fetched tag records themselves, one per tag, in order |
| `EditorDraft.AddTagAsWritten` | src/pages/DocEditor.tsx:264-274 | `handleAddTag` on the values the state really holds: the trimmed input is appended iff non-blank and not `===` an element |
| `EditorDraft.AddTagAsWrittenOnText` | src/pages/DocEditor.tsx:264-274 | on a state of strings that is `EditorTags.HandleAddTag` |
| `EditorDraft.EditingTaggedDocumentAsWritten` | src/pages/DocEditor.tsx:79 | as written, a document tagged `{id, name}` hands records to the chips and adding `name` again appends a duplicate chip |
| `EditorDraft.EditMountRecognisesTags` | src/pages/DocEditor.tsx:68-79 | with names mounted the chips hold strings and a tag the document already has is not added again |
| `EditorDraft.EditModeIgnoresSlot` | src/pages/DocEditor.tsx:69-86 | in edit mode the draft slot has no influence |
| `EditorDraft.Snapshot` | src/pages/DocEditor.tsx:113-120 | the saved draft carries the save time |
| `EditorDraft.Autosave` | src/pages/DocEditor.tsx:110-125 | the slot is written only when creating and loaded, and then with the full snapshot of the fields stamped with the save time |
| `EditorDraft.AutosaveRestores` | src/pages/DocEditor.tsx:89-125 | what the autosave writes is restored field for field by a create-mode mount less than a day later, and not at all from a day on |
| `EditorDraft.DraftRoundTrip` | src/pages/DocEditor.tsx:94-120 | a saved draft is restored in full iff less than 24 hours have passed, otherwise not at all |
| `EditorDraft.ExampleFreshness` | src/pages/DocEditor.tsx:94 | a 23-hour-old draft is restored, a 25-hour-old one is not |
| `EditorDraft.HandleSave` | src/pages/DocEditor.tsx:183-216 | a blank title alerts first, then a blank content; the request has the trimmed title and the untouched content; only a successful create clears the slot; a failure alerts; a success raises no alert and navigates to the edited document, or to the new id after a create |
| `EditorDraft.CreateClearsDraft` | src/pages/DocEditor.tsx:206-209 | after a successful create the next new document starts empty |
| `EditorDraft.UpdateKeepsDraft` | src/pages/DocEditor.tsx:203-205 | updating an existing document never touches the slot |
| `Session.FindGrant` | src/contexts/AppContext.tsx:47 | the first grant for the item, or none when no grant has it |
| `Session.Expired` | src/contexts/AppContext.tsx:49 | a null, empty or unparseable expiry never lapses; a parseable one has lapsed iff it lies strictly before now |
| `Session.HasPermission` | src/contexts/AppContext.tsx:45-53 | false without a grant for the item; otherwise true iff the first such grant is not expired |
| `Session.FindGrantAppend` | src/contexts/AppContext.tsx:47 | grants after the first match do not change the lookup |
| `Session.FirstGrantDecides` | src/contexts/AppContext.tsx:47-48 | appending grants after a matching one does not change the permission |
| `Session.ExpiryIsStrict` | src/contexts/AppContext.tsx:49 | an expiry equal to now is still active, one a millisecond earlier is not |
| `Session.NoExpiryNeverLapses` | src/contexts/AppContext.tsx:49-50 | a missing or empty expiry never lapses |
| `Session.FetchUserData` | src/contexts/AppContext.tsx:13-39 | loading ends false; a failed bootstrap clears the user; the user is taken only with a non-empty user name, grants when present, features from the first result |
| `Session.UserIndependentOfSecondaryFetches` | src/contexts/AppContext.tsx:16-25 | the user does not depend on the permission and feature requests |
| `Session.FailedPermissionsGrantNothing` | src/contexts/AppContext.tsx:9-29 | from the initial state a failed permission request leaves no permission |
| `Session.IsLoggedIn` | src/contexts/AppContext.tsx:77 | logged in iff there is a user |
| `Session.SignOut` | src/contexts/AppContext.tsx:55-64 | success clears user and grants and reloads at `/`; failure changes nothing |
| `Session.SignOutRevokes` | src/contexts/AppContext.tsx:55-64 | after sign-out nobody is logged in and nothing is permitted |
| `LoginCallback.HandleLoginAsWritten` | src/pages/LoginCallback.tsx:11-37 | signIn iff a code is present; a full-page redirect iff signIn succeeded and the decoded redirect is same-origin, to the raw value; home otherwise |
| `LoginCallback.RawRedirectLeavesOrigin` | src/pages/LoginCallback.tsx:23-26 | a raw redirect whose decoded form passes the check can navigate to another origin |
| `LoginCallback.HandleLogin` | src/pages/LoginCallback.tsx:20-34 | corrected: redirects exactly when the original does, and only to a URL of the current origin |
| `LoginCallback.NoCodeOrFailureGoesHome` | src/pages/LoginCallback.tsx:13-36 | without a code nothing is exchanged and the page goes home; a failed exchange goes home |
| `CosUrl.FinalUrl` | src/utils/cos.ts:37-44 | the URL starts with cos_url/key, then the signature when both sign fields are set, then the image format after `&` if a `?` precedes, else `?`; with neither it is the base |
| `CosUrl.QueryPresence` | src/utils/cos.ts:38-44 | the URL has a `?` iff the base had one or a signature or format was added; with both, the format follows `&` |
| `CosUrl.UploadResult` | src/utils/cos.ts:32-45 | an upload error yields no URL, success the final URL built from the credential |
| `CosUrl.UploadedUrlShape` | src/utils/cos.ts:37-44 | an unsigned upload without image format resolves to the bucket URL and key exactly; otherwise the URL carries a query |
| `CodeBlock.CodeString` | src/components/CodeBlock.tsx:123-135 | `getCodeString`: a string gives itself, an array the in-order join of its children's text, an element its children's text, anything else ''; stated as the concatenation of the string leaves in order |
| `CodeBlock.CodeStrings` | src/components/CodeBlock.tsx:127-129 | `map(getCodeString).join('')`: the concatenation of the children's leaves in order |
| `CodeBlock.LeavesOfAppend` | src/components/CodeBlock.tsx:127-129 | the leaves of two runs of children are those of the first followed by those of the second |
| `CodeBlock.CodeStringsAppend` | src/components/CodeBlock.tsx:127-129 | flattening an array works piecewise: the text of two runs of children is the first run's text followed by the second's |
| `CodeBlock.WordRun` | src/components/CodeBlock.tsx:120 | the longest run of word characters at a position |
| `CodeBlock.LanguageFrom` | src/components/CodeBlock.tsx:120-121 | the capture of the leftmost match at or after a position, empty iff there is none |
| `CodeBlock.Language` | src/components/CodeBlock.tsx:120-121 | the language is made of word characters and is empty without a class name |
| `CodeBlock.LanguageIsLeftmostMatch` | src/components/CodeBlock.tsx:120-121 | the language is the word run after the leftmost `language-` followed by a word character, and empty iff there is none |
| `CodeBlock.ExampleLanguage` | src/components/CodeBlock.tsx:120-121 | `language-c++` has language `c` |
| `CodeBlock.MermaidLanguageHasMarker` | src/components/CodeBlock.tsx:209 | a class whose language is `mermaid` contains `language-mermaid` |
| `CodeBlock.Render` | src/components/CodeBlock.tsx:149-163 | no class name renders inline code; language `mermaid` a diagram of the flattened code; anything else a block labelled with the language or `code` |
| `CodeBlock.MermaidId` | src/components/CodeBlock.tsx:62 | `mermaid` followed by the id, each colon turned into `-` and every other character kept |
| `CodeBlock.MermaidIdCollisions` | src/components/CodeBlock.tsx:62 | two ids give the same diagram id iff they have the same length and differ only by `:` against `-` |
| `CodeBlock.RenderPre` | src/components/CodeBlock.tsx:204-220 | the `<pre>` is dropped iff some element child's class contains `language-mermaid` |
| `CodeBlock.DiagramChildUnwrapsPre` | src/components/CodeBlock.tsx:206-216 | a child that renders as a diagram drops its `<pre>` |
| `CodeBlock.LongerLanguageAlsoUnwraps` | src/components/CodeBlock.tsx:206-212 | `language-mermaid` followed by more word characters drops the `<pre>` yet renders as a labelled block |
| `CodeBlock.ExampleMermaidJs` | src/components/CodeBlock.tsx:206-212 | `language-mermaidjs` drops the `<pre>` and renders as a block labelled `mermaidjs` |
| `I18n.GetTranslation` | src/i18n/index.ts:12-15 | English for exactly `en`, Simplified Chinese for every other code |
| `I18n.Walk` | src/i18n/index.ts:20-22 | the `reduce` over the key's segments; whenever it ends on a truthy value, that is the value the strict lookup finds at the path |
| `I18n.GetNestedValue` | src/i18n/index.ts:19-23 | the result is the walked value or the path; it is falsy only for the empty path |
| `I18n.FalsyStaysNull` | src/i18n/index.ts:20-22 | once a step yields a falsy value the walk stays null |
| `I18n.WalkIsLookup` | src/i18n/index.ts:20-22 | the walk ends truthy iff the strict path lookup finds a truthy value, and then they agree |
| `I18n.GetNestedValueIsLookup` | src/i18n/index.ts:19-23 | the value at the path when it exists and is truthy, the path itself otherwise |
| `I18n.TwoLevelKey` | src/i18n/index.ts:19-23 | key `a.b` in `{a: {b: v}}` gives v when truthy, the key otherwise |
| `DocCard.CardTags` | src/components/DocCard.tsx:44-53 | hidden iff there are no tags; at most three chips, a prefix of the tags; a badge iff more than three, counting the rest |
| `DocCard.NoBadgeShowsAll` | src/components/DocCard.tsx:46-53 | without a badge every tag is shown; with one exactly three |
| `DocCard.AuthorName` | src/components/DocCard.tsx:60 | the nickname when non-empty, else the owner |
| `DocCard.AuthorInitial` | src/components/DocCard.tsx:12 | the upper-cased first character of the nickname unless that is empty, else of the owner |
| `DocCard.InitialOfDisplayedName` | src/components/DocCard.tsx:12-60 | when upper-casing keeps lengths, the avatar letter is the initial of the displayed name |
| `Header.AvatarLetter` | src/components/Header.tsx:36-40 | the nickname's initial, else the user name's, else `U` |
| `Header.AvatarAgreesWithCard` | src/components/Header.tsx:36-40 | the header and a card by the same user show the same letter |
| `Header.HomeActive` | src/components/Header.tsx:53 | the home link is lit exactly on `/`, a path no documents page shares |
| `Header.DocsActive` | src/components/Header.tsx:59 | the documents link is lit iff the path begins with `/docs` and `/edit` occurs nowhere in it |
| `Header.WriteActive` | src/components/Header.tsx:66 | the write link is lit exactly on `/docs/new`, where the documents link is lit too |
| `Header.WriteLinkShown` | src/components/Header.tsx:14 | the write link needs an unexpired first `create_doc` grant |
| `Header.NavHighlighting` | src/components/Header.tsx:53-66 | on `/docs/new` both docs and write are active; write implies docs; home excludes both; an edit page activates neither |
| `Header.SignOutHidesWriteLink` | src/components/Header.tsx:63-70 | after sign-out the write link is hidden |
| `ImagePreview.Step` | src/components/ImagePreview.tsx:15-30 | zoom in/out by a quarter clamped to [0.5, 3]; reset to 1; close shuts and resets; every step keeps the range |
| `ImagePreview.RunStaysInRange` | src/components/ImagePreview.tsx:13-30 | any sequence of handler calls keeps the scale in [0.5, 3] |
| `ImagePreview.FromInitialStaysInRange` | src/components/ImagePreview.tsx:13-30 | from the initial scale 1 the scale stays in [0.5, 3] |
| `ImagePreview.ZoomSteps` | src/components/ImagePreview.tsx:15-21 | zoom out undoes zoom in inside the range, and zooms at the bounds are no-ops |
| `ImagePreview.Label` | src/components/ImagePreview.tsx:64 | the percentage is scale × 100 (4 × pct = 100 × quarters), so a multiple of 25 in [50, 300], and 100 at scale 1 |
| `ImagePreview.LabelDistinguishes` | src/components/ImagePreview.tsx:64 | distinct scales show distinct labels |
| `ImagePreview.Rendered` | src/components/ImagePreview.tsx:32-34 | nothing is rendered without a non-empty source |

## Left out

- Rendering (JSX, CSS, animation), the modal and loading components, routing and the pages without decision logic are presentation only.
- Markdown, KaTeX, mermaid and DOMPurify rendering and the DOM rewriting of diagrams are foreign libraries and DOM side effects.
- The HTTP client and API wrappers, document fetching and the object-storage SDK are network I/O; their outcomes are inputs.
- Upload progress percentages are floating point; the model keeps only "running" (0) and "over" (`None`).
- Debounce and timer mechanics (the autosave delay, the preview key, the caret restore, copy feedback) are timing; only the resulting state is modelled.
- The bootstrap's `Promise.all` concurrency is treated as a merge of three settled outcomes.
- Date formatting, Unicode case mapping, `decodeURIComponent`, `new URL(...).origin`, `Number(...)` and date parsing are parameters, not implementations.
- The legacy Vue files, the build, lint and environment configuration, `useDocumentTitle` and the type declarations are wiring.
- Percent-encoding of the query string belongs to the browser; the query is a list of name/value pairs.
- The `saving` flag of the editor only disables the button while a request is pending.
- Loading the list of known tags for the suggestions is a request whose result is an input.
- SearchState.DecodePage: `Number` results are integers, so a fractional page from the URL is not represented.
- SearchState.Encode: the page is written as plain decimal digits; `String(page)` agrees only below 10^21 and switches to exponent form (`1e+21`) from there, and `Number` reads back exactly only below 2^53, so the round-trip lemmas `SearchState.DecodeEncode` and `SearchState.TransitionsSurviveReload` assume a page below 2^53 and promise nothing above it.
- I18n.GetNestedValue: stepping into a string or number yields `undefined`; JavaScript would expose properties such as `length`, and inherited object properties are not modelled.
- I18n.Truthy: numbers are integers, so `NaN` and `-0` are not represented.
- EditorDraft.Hydrate: the stored fields are typed; a draft whose fields have other JSON types is not represented.
- Text positions and lengths: the caret and selection offsets, `.length` and `charAt(0)` count UTF-16 code units in JavaScript, while the model counts characters; a character outside the Basic Multilingual Plane (`😀bob`) is one position here and two there, so the splice offsets, the `substring` clamping and the avatar initial differ on such text.

## Findings

| source | as written | input that shows it | evidently intended | confidence | as-written member | corrected member |
|---|---|---|---|---|---|---|
| src/pages/DocEditor.tsx:288-348 | the upload callbacks splice the markdown into `content` as captured when the upload started | content `abc` when an upload starts; the user types `d`; the upload completes with the caret at 4: the content becomes `abc![x](u)` and `d` is lost | splice into the content as it is when the upload completes | high, not executed | `EditorUpload.HandleUploadAsWritten` (`EditorUpload.TypingDuringUploadIsLost`, `EditorUpload.SecondUploadDiscardsFirst`) | `EditorUpload.HandleUpload` (`EditorUpload.SuccessiveUploadsKeepBoth`) |
| src/pages/LoginCallback.tsx:20-34 | the origin check is made on `decodeURIComponent(redirect)` but the page is sent to the raw `redirect` | redirect `https://good.example%2F@evil.example` on `https://good.example`: the decoded form has the current origin, the raw one points at `evil.example` | navigate to the same string that was checked | medium, not executed | `LoginCallback.HandleLoginAsWritten` (`LoginCallback.RawRedirectLeavesOrigin`) | `LoginCallback.HandleLogin` |
| src/pages/DocEditor.tsx:79 | edit mode copies the fetched tags, `{id, name}` records, into the tag state declared as strings | a document tagged `{id: "1", name: "go"}` opened for editing: the chip is handed a record, which React refuses to render, and typing `go` then Enter appends a second `go` because `includes` compares a string with a record | `setTags(doc.tags.map((t) => t.name))`, as the detail page shows `tag.name` | high, not executed | `EditorDraft.EditTagsAsWritten` (`EditorDraft.EditingTaggedDocumentAsWritten`) | `EditorDraft.Mount` (`EditorDraft.EditMountRecognisesTags`) |
