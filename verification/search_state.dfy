/** The search state of the document list (src/pages/DocsList.tsx): page,
    keywords, search mode and selected tags, mirrored into the URL query with
    default values left out, and read back from it when the page loads.

    The query is modelled as the ordered list of `(name, value)` pairs of a
    `URLSearchParams`; percent-encoding of the query string is the browser's
    and is not modelled. `Number(...)` is a parameter `number`, where `None`
    stands for `NaN`. */
module SearchState {
  import opened Wrappers
  import opened Strings
  import Seqs

  /** Default search mode. */
  const TitleMode: string := "title"

  /** The state held by the list view. `mode` is a plain string because the
      value read from the URL is cast, not checked. */
  datatype Search = Search(page: int, keywords: string, mode: string, tags: seq<string>)

  type Params = seq<(string, string)>

  /** `params.get(name)`: the first value under `name`, or `null`. */
  function Get(ps: Params, name: string): (r: Option<string>)
    ensures r.None? <==> forall k :: 0 <= k < |ps| ==> ps[k].0 != name
    ensures r.Some? ==> exists k :: 0 <= k < |ps| && ps[k] == (name, r.value)
  {
    if |ps| == 0 then None
    else if ps[0].0 == name then Some(ps[0].1)
    else
      var r := Get(ps[1..], name);
      assert forall k :: 0 < k < |ps| ==> ps[k] == ps[1..][k - 1];
      r
  }

  function OptionalParam(present: bool, name: string, value: string): Params {
    if present then [(name, value)] else []
  }

  /** A lookup in a concatenation looks in the first part, then the second. */
  lemma {:induction false} GetAppend(a: Params, b: Params, name: string)
    ensures Get(a + b, name) == if Get(a, name).Some? then Get(a, name) else Get(b, name)
  {
    if |a| > 0 {
      assert (a + b)[1..] == a[1..] + b;
      GetAppend(a[1..], b, name);
    } else {
      assert a + b == b;
    }
  }

  /** The effect that writes the state into the URL: `page` only above 1,
      `keywords` only when non-empty, `mode` only when not `title`, `tags`
      only when some are selected, comma-joined. */
  function Encode(s: Search): (ps: Params)
    ensures Get(ps, "page") == if s.page > 1 then Some(DecimalString(s.page)) else None
    ensures Get(ps, "keywords") == if s.keywords != "" then Some(s.keywords) else None
    ensures Get(ps, "mode") == if s.mode != TitleMode then Some(s.mode) else None
    ensures Get(ps, "tags") == if |s.tags| > 0 then Some(Join(s.tags, ',')) else None
  {
    var p1 := OptionalParam(s.page > 1, "page", if s.page > 1 then DecimalString(s.page) else "");
    var p2 := OptionalParam(s.keywords != "", "keywords", s.keywords);
    var p3 := OptionalParam(s.mode != TitleMode, "mode", s.mode);
    var p4 := OptionalParam(|s.tags| > 0, "tags", Join(s.tags, ','));
    EncodeLookup(p1, p2, p3, p4, "page");
    EncodeLookup(p1, p2, p3, p4, "keywords");
    EncodeLookup(p1, p2, p3, p4, "mode");
    EncodeLookup(p1, p2, p3, p4, "tags");
    p1 + p2 + p3 + p4
  }

  /** A lookup in four concatenated parts takes the first part that has the name. */
  lemma EncodeLookup(p1: Params, p2: Params, p3: Params, p4: Params, name: string)
    ensures Get(p1 + p2 + p3 + p4, name)
            == if Get(p1, name).Some? then Get(p1, name)
               else if Get(p2, name).Some? then Get(p2, name)
               else if Get(p3, name).Some? then Get(p3, name)
               else Get(p4, name)
  {
    GetAppend(p1 + p2 + p3, p4, name);
    GetAppend(p1 + p2, p3, name);
    GetAppend(p1, p2, name);
  }

  /** `Number(params.get('page')) || 1`: a missing parameter reads as
      `Number(null)`, which is 0. */
  function DecodePage(raw: Option<string>, number: string -> Option<int>): (p: int)
    ensures raw.None? ==> p == 1
    ensures raw.Some? && number(raw.value).None? ==> p == 1
    ensures raw.Some? && number(raw.value) == Some(0) ==> p == 1
    ensures raw.Some? && number(raw.value).Some? && number(raw.value).value != 0 ==> p == number(raw.value).value
    ensures p != 0
  {
    match raw
    case None => 1
    case Some(v) =>
      match number(v)
      case None => 1
      case Some(n) => if n == 0 then 1 else n
  }

  /** `params.get('tags')?.split(',').filter(Boolean) || []`: the non-empty
      comma-separated pieces, in order (`NonEmpty` filters piecewise, see
      `Strings.NonEmptyAppend`). */
  function DecodeTags(raw: Option<string>): (tags: seq<string>)
    ensures raw.None? ==> tags == []
    ensures raw.Some? ==> tags == NonEmpty(Split(raw.value, ','))
    ensures forall t :: t in tags ==> t != "" && ',' !in t
  {
    match raw
    case None => []
    case Some(v) => NonEmpty(Split(v, ','))
  }

  /** The initial state read from the URL. */
  function Decode(ps: Params, number: string -> Option<int>): (s: Search)
    ensures s.page != 0 && s.mode != ""
    ensures Get(ps, "keywords").None? ==> s.keywords == ""
    ensures Get(ps, "mode").None? ==> s.mode == TitleMode
  {
    Search(
      DecodePage(Get(ps, "page"), number),
      Get(ps, "keywords").GetOr(""),
      var m := Get(ps, "mode").GetOr(""); if m == "" then TitleMode else m,
      DecodeTags(Get(ps, "tags")))
  }

  /** `Number` reads a string of decimal digits as the number it denotes,
      whenever that number is one a double holds exactly. */
  ghost predicate ReadsDigits(number: string -> Option<int>) {
    forall s :: IsDigitString(s) && DigitsValue(s) < ExactIntegers ==> number(s) == Some(DigitsValue(s))
  }

  /** `Number` yields a double: every whole number below 2^53 is read
      exactly, larger ones may be rounded to a neighbour. */
  const ExactIntegers: int := 0x20_0000_0000_0000

  /** A list of tags that survives the comma-joined encoding. */
  predicate TagsEncodable(tags: seq<string>) {
    forall t :: t in tags ==> t != "" && ',' !in t
  }

  /** Reading back the URL written for a state gives the state again, when
      the page is positive and below 2^53, the mode non-empty and every tag
      non-empty and comma-free. */
  lemma {:induction false} DecodeEncode(s: Search, number: string -> Option<int>)
    requires ReadsDigits(number)
    requires 1 <= s.page < ExactIntegers && s.mode != "" && TagsEncodable(s.tags)
    ensures Decode(Encode(s), number) == s
  {
    var ps := Encode(s);
    if s.page > 1 {
      DigitsValueOfDecimal(s.page);
    }
    if |s.tags| > 0 {
      SplitJoin(s.tags, ',');
      NonEmptyOfNonEmpty(s.tags);
    }
  }

  /** A `tags` value written as comma-free pieces joined by commas reads
      back as exactly those pieces that are not empty, in their order: stray,
      doubled, leading or trailing commas are ignored. */
  lemma DecodeTagsOfPieces(pieces: seq<string>)
    requires |pieces| >= 1
    requires forall p :: p in pieces ==> ',' !in p
    ensures DecodeTags(Some(Join(pieces, ','))) == NonEmpty(pieces)
  {
    SplitJoin(pieces, ',');
  }

  /** Without a `page` parameter, or with one that is 0 or not a number, the
      list opens on page 1. */
  lemma DefaultPage(ps: Params, number: string -> Option<int>)
    requires Get(ps, "page").None?
             || number(Get(ps, "page").value).None?
             || number(Get(ps, "page").value) == Some(0)
    ensures Decode(ps, number).page == 1
  {
  }

  // ---------------------------------------------------------------------
  // Transitions
  // ---------------------------------------------------------------------

  /** `handleSearch`: submitting the form returns to page 1. */
  function SubmitSearch(s: Search): (r: Search)
    ensures r.page == 1
    ensures r.keywords == s.keywords && r.mode == s.mode && r.tags == s.tags
  {
    s.(page := 1)
  }

  /** Changing the search mode returns to page 1. */
  function ChangeMode(s: Search, mode: string): (r: Search)
    ensures r.page == 1 && r.mode == mode
    ensures r.keywords == s.keywords && r.tags == s.tags
  {
    s.(mode := mode, page := 1)
  }

  /** Typing in the search box changes only the keywords; the page is kept
      until the form is submitted. */
  function TypeKeywords(s: Search, keywords: string): (r: Search)
    ensures r.keywords == keywords
    ensures r.page == s.page && r.mode == s.mode && r.tags == s.tags
  {
    s.(keywords := keywords)
  }

  /** A pagination click changes only the page. */
  function GoToPage(s: Search, page: int): (r: Search)
    ensures r.page == page
    ensures r.keywords == s.keywords && r.mode == s.mode && r.tags == s.tags
  {
    s.(page := page)
  }

  /** `toggleTag`: a selected tag is dropped (every occurrence), any other is
      appended; either way the list returns to page 1. */
  function ToggleTag(s: Search, tag: string): (r: Search)
    ensures r.page == 1 && r.keywords == s.keywords && r.mode == s.mode
    ensures tag in s.tags ==> r.tags == Seqs.Remove(s.tags, tag)
    ensures tag in s.tags ==> tag !in r.tags
    ensures tag in s.tags ==> multiset(r.tags) == multiset(s.tags)[tag := 0]
    ensures tag !in s.tags ==> r.tags == s.tags + [tag]
  {
    var tags := if tag in s.tags then Seqs.Remove(s.tags, tag) else s.tags + [tag];
    s.(tags := tags, page := 1)
  }

  /** Toggling an unselected tag twice restores the selection. */
  lemma {:induction false} ToggleTwice(s: Search, tag: string)
    requires tag !in s.tags
    ensures ToggleTag(ToggleTag(s, tag), tag).tags == s.tags
  {
    Seqs.RemoveAppend(s.tags, [tag], tag);
    Seqs.RemoveAbsent(s.tags, tag);
  }

  /** Toggling keeps a duplicate-free selection duplicate-free. */
  lemma ToggleKeepsNoDups(s: Search, tag: string)
    requires Seqs.NoDups(s.tags)
    ensures Seqs.NoDups(ToggleTag(s, tag).tags)
  {
    if tag in s.tags {
      Seqs.RemoveKeepsNoDups(s.tags, tag);
    } else {
      Seqs.AppendKeepsNoDups(s.tags, tag);
    }
  }

  /** Every transition yields a state that the URL effect writes and the
      next mount reads back unchanged, so reloading the page after any of
      them shows the same list; submitting, changing the mode and toggling a
      tag drop the `page` parameter. */
  lemma {:induction false} TransitionsSurviveReload(s: Search, number: string -> Option<int>, keywords: string,
                                                    mode: string, page: int, tag: string)
    requires ReadsDigits(number)
    requires 1 <= s.page < ExactIntegers && s.mode != "" && TagsEncodable(s.tags)
    ensures Get(Encode(SubmitSearch(s)), "page").None? && Decode(Encode(SubmitSearch(s)), number) == SubmitSearch(s)
    ensures mode != "" ==>
            Get(Encode(ChangeMode(s, mode)), "page").None? && Decode(Encode(ChangeMode(s, mode)), number) == ChangeMode(s, mode)
    ensures Decode(Encode(TypeKeywords(s, keywords)), number) == TypeKeywords(s, keywords)
    ensures 1 <= page < ExactIntegers ==> Decode(Encode(GoToPage(s, page)), number) == GoToPage(s, page)
    ensures tag != "" && ',' !in tag ==>
            Get(Encode(ToggleTag(s, tag)), "page").None? && Decode(Encode(ToggleTag(s, tag)), number) == ToggleTag(s, tag)
  {
    DecodeEncode(SubmitSearch(s), number);
    if mode != "" {
      DecodeEncode(ChangeMode(s, mode), number);
    }
    DecodeEncode(TypeKeywords(s, keywords), number);
    if 1 <= page < ExactIntegers {
      DecodeEncode(GoToPage(s, page), number);
    }
    if tag != "" && ',' !in tag {
      ToggleKeepsEncodable(s, tag);
      DecodeEncode(ToggleTag(s, tag), number);
    }
  }

  /** Toggling a non-empty, comma-free tag keeps the selection encodable. */
  lemma ToggleKeepsEncodable(s: Search, tag: string)
    requires TagsEncodable(s.tags) && tag != "" && ',' !in tag
    ensures TagsEncodable(ToggleTag(s, tag).tags)
  {
    var r := ToggleTag(s, tag);
    forall t | t in r.tags ensures t != "" && ',' !in t {
      if tag in s.tags {
        assert multiset(r.tags)[t] > 0;
        assert t != tag && multiset(s.tags)[t] == multiset(r.tags)[t];
        assert t in s.tags;
      } else {
        assert t in s.tags || t == tag;
      }
    }
  }
}
