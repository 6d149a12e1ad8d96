/** The zoomable image preview (src/components/ImagePreview.tsx). The scale
    moves in steps of 0.25 between 0.5 and 3, so it is kept here as a whole
    number of quarters: `quarters == scale * 4`, between 2 and 12, starting
    at 4. Every value the scale can reach is a multiple of 0.25, which binary
    floating point represents exactly, so nothing is lost by this. */
module ImagePreview {
  import opened Wrappers

  const MinQuarters: int := 2    // scale 0.5
  const MaxQuarters: int := 12   // scale 3
  const OneQuarters: int := 4    // scale 1

  datatype Preview = Preview(open: bool, quarters: int)

  const Initial := Preview(false, OneQuarters)

  predicate InRange(p: Preview) {
    MinQuarters <= p.quarters <= MaxQuarters
  }

  datatype Action = ZoomIn | ZoomOut | Reset | Close | OpenDialog

  /** The handlers: zoom in and out by a quarter within the bounds, reset to
      1, close (which also resets), and a click on the image to open. */
  function Step(p: Preview, a: Action): (r: Preview)
    ensures a == ZoomIn ==> r.open == p.open && r.quarters == if p.quarters + 1 < MaxQuarters then p.quarters + 1 else MaxQuarters
    ensures a == ZoomOut ==> r.open == p.open && r.quarters == if p.quarters - 1 > MinQuarters then p.quarters - 1 else MinQuarters
    ensures a == Reset ==> r == p.(quarters := OneQuarters)
    ensures a == Close ==> r == Preview(false, OneQuarters)
    ensures a == OpenDialog ==> r == p.(open := true)
    ensures InRange(p) ==> InRange(r)
  {
    match a
    case ZoomIn => p.(quarters := if p.quarters + 1 < MaxQuarters then p.quarters + 1 else MaxQuarters)
    case ZoomOut => p.(quarters := if p.quarters - 1 > MinQuarters then p.quarters - 1 else MinQuarters)
    case Reset => p.(quarters := OneQuarters)
    case Close => Preview(false, OneQuarters)
    case OpenDialog => p.(open := true)
  }

  function Run(p: Preview, actions: seq<Action>): Preview
    decreases |actions|
  {
    if |actions| == 0 then p else Run(Step(p, actions[0]), actions[1..])
  }

  /** Any sequence of handler calls keeps the scale within [0.5, 3]. */
  lemma {:induction false} RunStaysInRange(p: Preview, actions: seq<Action>)
    requires InRange(p)
    ensures InRange(Run(p, actions))
    decreases |actions|
  {
    if |actions| > 0 {
      RunStaysInRange(Step(p, actions[0]), actions[1..]);
    }
  }

  /** From a fresh preview, in particular. */
  lemma FromInitialStaysInRange(actions: seq<Action>)
    ensures InRange(Run(Initial, actions))
  {
    RunStaysInRange(Initial, actions);
  }

  /** Zooming out undoes a zoom in below the maximum, and the reverse above
      the minimum; at the bounds a zoom is a no-op. */
  lemma ZoomSteps(p: Preview)
    requires InRange(p)
    ensures p.quarters < MaxQuarters ==> Step(Step(p, ZoomIn), ZoomOut) == p
    ensures p.quarters > MinQuarters ==> Step(Step(p, ZoomOut), ZoomIn) == p
    ensures p.quarters == MaxQuarters ==> Step(p, ZoomIn) == p
    ensures p.quarters == MinQuarters ==> Step(p, ZoomOut) == p
  {
  }

  /** `Math.round(scale * 100)` as a percentage: with the scale a whole
      number of quarters, the product is already whole and no rounding
      happens. */
  function Label(p: Preview): (pct: int)
    ensures 4 * pct == 100 * p.quarters
    ensures InRange(p) ==> pct % 25 == 0 && 50 <= pct <= 300
    ensures p.quarters == OneQuarters ==> pct == 100
  {
    p.quarters * 25
  }

  /** Distinct zoom levels show distinct labels. */
  lemma LabelDistinguishes(p: Preview, q: Preview)
    requires Label(p) == Label(q)
    ensures p.quarters == q.quarters
  {
  }

  /** Without a source, or with an empty one, nothing is rendered. */
  function Rendered(src: Option<string>): (b: bool)
    ensures b <==> src.Some? && src.value != ""
  {
    match src
    case None => false
    case Some(s) => s != ""
  }
}
