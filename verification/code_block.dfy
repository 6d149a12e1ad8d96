/** The code renderer used for markdown (src/components/CodeBlock.tsx):
    flattening the React children into the code text, extracting the
    language from the class name, choosing between inline code, a mermaid
    diagram and a labelled block, the mermaid element id, and `PreBlock`'s
    decision to drop its `<pre>` wrapper. */
module CodeBlock {
  import opened Wrappers
  import opened Strings

  /** A React child: a string, an array of children, an element with its
      `className` and `children` props, a number, or nothing (`null`,
      `undefined`, a boolean). */
  datatype Node =
    | Text(s: string)
    | Fragment(children: seq<Node>)
    | Element(className: Option<string>, child: Node)
    | Number(n: int)
    | Nothing

  /** `getCodeString`: the code text is the concatenation of the string
      leaves in order; numbers and empty children contribute nothing. */
  function CodeString(n: Node): (r: string)
    ensures r == Concat(Leaves(n))
    decreases n, 1
  {
    match n
    case Text(s) => s
    case Fragment(cs) => CodeStrings(cs)
    case Element(_, c) => CodeString(c)
    case Number(_) => ""
    case Nothing => ""
  }

  /** `children.map(getCodeString).join('')` */
  function CodeStrings(ns: seq<Node>): (r: string)
    ensures r == Concat(LeavesOf(ns))
    decreases ns, 0
  {
    if |ns| == 0 then ""
    else
      ConcatAppend(Leaves(ns[0]), LeavesOf(ns[1..]));
      CodeString(ns[0]) + CodeStrings(ns[1..])
  }

  /** The string leaves of a child tree, left to right. */
  function Leaves(n: Node): seq<string>
    decreases n, 1
  {
    match n
    case Text(s) => [s]
    case Fragment(cs) => LeavesOf(cs)
    case Element(_, c) => Leaves(c)
    case Number(_) => []
    case Nothing => []
  }

  function LeavesOf(ns: seq<Node>): seq<string>
    decreases ns, 0
  {
    if |ns| == 0 then [] else Leaves(ns[0]) + LeavesOf(ns[1..])
  }

  function Concat(xs: seq<string>): string {
    if |xs| == 0 then "" else xs[0] + Concat(xs[1..])
  }

  lemma {:induction false} ConcatAppend(a: seq<string>, b: seq<string>)
    ensures Concat(a + b) == Concat(a) + Concat(b)
  {
    if |a| > 0 {
      assert (a + b)[1..] == a[1..] + b;
      ConcatAppend(a[1..], b);
    } else {
      assert a + b == b;
    }
  }

  /** The leaves of two runs of children are those of the first, then
      those of the second. */
  lemma {:induction false} LeavesOfAppend(a: seq<Node>, b: seq<Node>)
    ensures LeavesOf(a + b) == LeavesOf(a) + LeavesOf(b)
  {
    if |a| > 0 {
      assert (a + b)[0] == a[0];
      assert (a + b)[1..] == a[1..] + b;
      LeavesOfAppend(a[1..], b);
    } else {
      assert a + b == b;
    }
  }

  /** Flattening works piecewise over an array of children, so splitting
      the children into two runs splits the code text at the same place. */
  lemma CodeStringsAppend(a: seq<Node>, b: seq<Node>)
    ensures CodeStrings(a + b) == CodeStrings(a) + CodeStrings(b)
  {
    LeavesOfAppend(a, b);
    ConcatAppend(LeavesOf(a), LeavesOf(b));
  }

  // ---------------------------------------------------------------------
  // Language
  // ---------------------------------------------------------------------

  const LanguagePrefix: string := "language-"

  /** A regular-expression word character `\w`. */
  predicate IsWordChar(c: char) {
    ('a' <= c <= 'z') || ('A' <= c <= 'Z') || ('0' <= c <= '9') || c == '_'
  }

  /** `/language-(\w+)/` matches at index `i`. */
  predicate MatchesAt(cls: string, i: int) {
    OccursAt(cls, LanguagePrefix, i) && i + |LanguagePrefix| < |cls| && IsWordChar(cls[i + |LanguagePrefix|])
  }

  /** The longest run of word characters starting at `k`. */
  function WordRun(s: string, k: nat): (r: string)
    requires k <= |s|
    ensures k + |r| <= |s| && s[k..k + |r|] == r
    ensures forall j :: 0 <= j < |r| ==> IsWordChar(r[j])
    ensures k + |r| == |s| || !IsWordChar(s[k + |r|])
    decreases |s| - k
  {
    if k < |s| && IsWordChar(s[k]) then [s[k]] + WordRun(s, k + 1) else ""
  }

  /** The capture of the leftmost match at or after `from`, or "". */
  function LanguageFrom(cls: string, from: nat): (r: string)
    ensures r == "" <==> forall i :: from <= i ==> !MatchesAt(cls, i)
    ensures r != "" ==> exists i :: from <= i && MatchesAt(cls, i) && r == WordRun(cls, i + |LanguagePrefix|)
                                    && forall j :: from <= j < i ==> !MatchesAt(cls, j)
    decreases |cls| - from
  {
    if from + |LanguagePrefix| >= |cls| then ""
    else if MatchesAt(cls, from) then WordRun(cls, from + |LanguagePrefix|)
    else LanguageFrom(cls, from + 1)
  }

  /** `match ? match[1] : ''` for `/language-(\w+)/.exec(className || '')`. */
  function Language(className: Option<string>): (r: string)
    ensures forall j :: 0 <= j < |r| ==> IsWordChar(r[j])
    ensures className.None? ==> r == ""
  {
    LanguageFrom(className.GetOr(""), 0)
  }

  /** The language is the word run after the leftmost `language-` that is
      followed by a word character, and empty when there is none. */
  lemma LanguageIsLeftmostMatch(cls: string)
    ensures Language(Some(cls)) == "" <==> forall i :: !MatchesAt(cls, i)
    ensures Language(Some(cls)) != "" ==>
      exists i :: MatchesAt(cls, i) && (forall j :: 0 <= j < i ==> !MatchesAt(cls, j))
                  && Language(Some(cls)) == WordRun(cls, i + |LanguagePrefix|)
  {
    var r := Language(Some(cls));
    if r == "" {
      forall i ensures !MatchesAt(cls, i) {
        if i < 0 {
          assert !OccursAt(cls, LanguagePrefix, i);
        }
      }
    }
  }

  /** Example: the run stops at the first non-word character. */
  lemma ExampleLanguage()
    ensures Language(Some("language-c++")) == "c"
  {
    var cls := "language-c++";
    assert cls[0..9] == LanguagePrefix;
    assert MatchesAt(cls, 0);
    assert WordRun(cls, 10) == "";
  }

  /** A match at `i` whose capture is `mermaid` spells `language-mermaid` at `i`. */
  lemma MarkerAt(cls: string, i: int)
    requires MatchesAt(cls, i) && WordRun(cls, i + |LanguagePrefix|) == "mermaid"
    ensures OccursAt(cls, "language-mermaid", i)
  {
    assert cls[i..i + 9] == LanguagePrefix;
    assert cls[i + 9..i + 16] == "mermaid";
    assert cls[i..i + 16] == cls[i..i + 9] + cls[i + 9..i + 16];
  }

  /** A class name whose language is `mermaid` contains `language-mermaid`. */
  lemma MermaidLanguageHasMarker(cls: string)
    requires Language(Some(cls)) == "mermaid"
    ensures Includes(cls, "language-mermaid")
  {
    LanguageIsLeftmostMatch(cls);
    var i :| MatchesAt(cls, i) && Language(Some(cls)) == WordRun(cls, i + |LanguagePrefix|);
    MarkerAt(cls, i);
  }

  // ---------------------------------------------------------------------
  // Dispatch
  // ---------------------------------------------------------------------

  datatype Rendering =
    | InlineCode
    | MermaidDiagram(code: string)
    | LabelledBlock(caption: string)

  /** `CodeBlock`: no class name means inline code; the `mermaid` language
      becomes a diagram of the flattened code; anything else is a block
      labelled with its language, or `code` when there is none. */
  function Render(className: Option<string>, children: Node): (r: Rendering)
    ensures r.InlineCode? <==> className.None? || className.value == ""
    ensures r.MermaidDiagram? <==> !r.InlineCode? && Language(className) == "mermaid"
    ensures r.MermaidDiagram? ==> r.code == CodeString(children)
    ensures r.LabelledBlock? ==> r.caption == (if Language(className) == "" then "code" else Language(className))
  {
    if className.None? || className.value == "" then InlineCode
    else
      var language := Language(className);
      if language == "mermaid" then MermaidDiagram(CodeString(children))
      else LabelledBlock(if language == "" then "code" else language)
  }

  /** The id of a diagram: `mermaid` followed by the React id with every ':'
      turned into '-'. */
  function MermaidId(id: string): (r: string)
    ensures ':' !in r
    ensures |r| == |"mermaid"| + |id| && StartsWith(r, "mermaid")
    ensures forall k :: 0 <= k < |id| && id[k] != ':' ==> r[|"mermaid"| + k] == id[k]
    ensures forall k :: 0 <= k < |id| && id[k] == ':' ==> r[|"mermaid"| + k] == '-'
  {
    var r := "mermaid" + ReplaceAll(id, ':', '-');
    assert forall k :: 0 <= k < |id| ==> r[7 + k] == ReplaceAll(id, ':', '-')[k];
    r
  }

  /** Two ids agree at a position up to the ':' / '-' renaming. */
  predicate SameUpToColon(x: char, y: char) {
    x == y || (x in ":-" && y in ":-")
  }

  /** Diagram ids coincide exactly when the React ids have the same length
      and differ only by ':' against '-'; in particular distinct ids made of
      the same characters apart from ':' never share a diagram id. */
  lemma MermaidIdCollisions(a: string, b: string)
    ensures MermaidId(a) == MermaidId(b) <==>
            |a| == |b| && forall k :: 0 <= k < |a| ==> SameUpToColon(a[k], b[k])
  {
    var ra, rb := MermaidId(a), MermaidId(b);
    if ra == rb {
      forall k | 0 <= k < |a| ensures SameUpToColon(a[k], b[k]) {
        assert ra[7 + k] == rb[7 + k];
      }
    }
    if |a| == |b| && forall k :: 0 <= k < |a| ==> SameUpToColon(a[k], b[k]) {
      assert ra[..7] == rb[..7];
      forall i | 0 <= i < |ra| ensures ra[i] == rb[i] {
        if i >= 7 {
          assert SameUpToColon(a[i - 7], b[i - 7]);
        } else {
          assert ra[..7][i] == rb[..7][i];
        }
      }
    }
  }

  // ---------------------------------------------------------------------
  // PreBlock
  // ---------------------------------------------------------------------

  datatype PreRendering = Unwrapped | Wrapped

  /** A child that marks its `<pre>` as holding a mermaid diagram: an
      element whose class name contains `language-mermaid`. */
  predicate MarksMermaid(child: Node) {
    child.Element? && Includes(child.className.GetOr(""), "language-mermaid")
  }

  /** `PreBlock` over the flattened children. */
  function RenderPre(children: seq<Node>): (r: PreRendering)
    ensures r.Unwrapped? <==> exists k :: 0 <= k < |children| && MarksMermaid(children[k])
  {
    if |children| == 0 then Wrapped
    else if MarksMermaid(children[0]) then Unwrapped
    else
      var r := RenderPre(children[1..]);
      assert forall k :: 0 < k < |children| ==> children[k] == children[1..][k - 1];
      r
  }

  /** A child that renders as a diagram drops its `<pre>`. */
  lemma DiagramChildUnwrapsPre(children: seq<Node>, k: nat)
    requires k < |children| && children[k].Element?
    requires Render(children[k].className, children[k].child).MermaidDiagram?
    ensures RenderPre(children) == Unwrapped
  {
    MermaidLanguageHasMarker(children[k].className.value);
    assert MarksMermaid(children[k]);
  }

  /** The converse fails: `language-mermaid` followed by more word
      characters, such as `language-mermaidjs`, drops the `<pre>` although
      it renders as an ordinary labelled block. */
  lemma LongerLanguageAlsoUnwraps(more: string, code: Node)
    requires |more| > 0 && forall j :: 0 <= j < |more| ==> IsWordChar(more[j])
    ensures var child := Element(Some("language-mermaid" + more), code);
            && RenderPre([child]) == Unwrapped
            && Render(child.className, child.child) == LabelledBlock("mermaid" + more)
  {
    var cls := "language-mermaid" + more;
    assert cls[0..16] == "language-mermaid";
    assert OccursAt(cls, "language-mermaid", 0);
    assert cls[0..9] == LanguagePrefix;
    assert MatchesAt(cls, 0);
    var w := WordRun(cls, 9);
    assert forall j :: 9 <= j < |cls| ==> IsWordChar(cls[j]) by {
      forall j | 9 <= j < |cls| ensures IsWordChar(cls[j]) {
        if j >= 16 {
          assert cls[j] == more[j - 16];
        }
      }
    }
    assert 9 + |w| == |cls|;
    assert w == cls[9..] == "mermaid" + more;
    assert Language(Some(cls)) == w;
  }

  /** Example: `language-mermaidjs`. */
  lemma ExampleMermaidJs()
    ensures RenderPre([Element(Some("language-mermaidjs"), Text("x"))]) == Unwrapped
    ensures Render(Some("language-mermaidjs"), Text("x")) == LabelledBlock("mermaidjs")
  {
    LongerLanguageAlsoUnwraps("js", Text("x"));
    assert "language-mermaid" + "js" == "language-mermaidjs";
    assert "mermaid" + "js" == "mermaidjs";
  }
}
