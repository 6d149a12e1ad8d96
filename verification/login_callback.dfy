/** The single-sign-on callback page (src/pages/LoginCallback.tsx): exchange
    the `code` query parameter for a session, then go to the `redirect`
    parameter if it is a same-origin URL, or to `/` otherwise.

    Browser primitives are parameters: `decode` is `decodeURIComponent`
    (`None` when it throws), `origin` is `new URL(x).origin` (`None` when the
    constructor throws), and `here` is `window.location.origin`. */
module LoginCallback {
  import opened Wrappers

  datatype Navigation =
    | Navigate(path: string, replace: bool)   // router navigation
    | Assign(href: string)                    // `window.location.href = …`

  /** Whether `signIn` was called, and where the page went. */
  datatype Outcome = Outcome(signInCalled: bool, nav: Navigation)

  const Home := Navigate("/", true)

  /** The same-origin test applied to a redirect target. */
  predicate SameOrigin(target: string, decode: string -> Option<string>, origin: string -> Option<string>, here: string) {
    decode(target).Some? && origin(decode(target).value) == Some(here)
  }

  /** `handleLogin` as written: the origin is checked on the DECODED value,
      but the page is sent to the RAW parameter. `signInOk` is the outcome of
      `signIn(code)` when it is called. */
  function HandleLoginAsWritten(code: Option<string>, redirect: Option<string>, signInOk: bool,
                                decode: string -> Option<string>, origin: string -> Option<string>,
                                here: string): (r: Outcome)
    ensures r.signInCalled <==> code.Some? && code.value != ""
    ensures r.nav.Assign? <==>
      && code.Some? && code.value != "" && signInOk
      && redirect.Some? && redirect.value != ""
      && SameOrigin(redirect.value, decode, origin, here)
    ensures r.nav.Assign? ==> r.nav.href == redirect.value
    ensures !r.nav.Assign? ==> r.nav == Home
  {
    if code.None? || code.value == "" then Outcome(false, Home)
    else if !signInOk then Outcome(true, Home)
    else if redirect.Some? && redirect.value != "" && SameOrigin(redirect.value, decode, origin, here) then
      Outcome(true, Assign(redirect.value))
    else Outcome(true, Home)
  }

  /** The raw parameter `https://good.example%2F@evil.example` on
      `https://good.example`: decoded it reads `https://good.example/@evil.example`,
      whose origin is `https://good.example`, so the check passes; but the
      raw string, as a URL, has user name `good.example%2F` and host
      `evil.example`, and that is where the page goes. `decode` and `origin`
      below give the browser's answers on exactly these strings. */
  lemma RawRedirectLeavesOrigin()
    ensures var raw := "https://good.example%2F@evil.example";
            var decoded := "https://good.example/@evil.example";
            var decode := (s: string) => if s == raw then Some(decoded) else Some(s);
            var origin := (s: string) => if s == decoded then Some("https://good.example")
                                         else if s == raw then Some("https://evil.example") else None;
            var r := HandleLoginAsWritten(Some("c"), Some(raw), true, decode, origin, "https://good.example");
            && r.nav == Assign(raw)
            && origin(r.nav.href) != Some("https://good.example")
  {
  }

  /** `handleLogin` with the check and the navigation on the same string:
      the page goes to the decoded URL that was checked. */
  function HandleLogin(code: Option<string>, redirect: Option<string>, signInOk: bool,
                       decode: string -> Option<string>, origin: string -> Option<string>,
                       here: string): (r: Outcome)
    ensures r.signInCalled <==> code.Some? && code.value != ""
    ensures !r.nav.Assign? ==> r.nav == Home
    ensures r.nav.Assign? ==> origin(r.nav.href) == Some(here)
    ensures r.nav.Assign? <==> HandleLoginAsWritten(code, redirect, signInOk, decode, origin, here).nav.Assign?
  {
    if code.None? || code.value == "" then Outcome(false, Home)
    else if !signInOk then Outcome(true, Home)
    else if redirect.Some? && redirect.value != "" && SameOrigin(redirect.value, decode, origin, here) then
      Outcome(true, Assign(decode(redirect.value).value))
    else Outcome(true, Home)
  }

  /** Without a code nothing is exchanged and the page goes home; a failed
      exchange also goes home. */
  lemma NoCodeOrFailureGoesHome(code: Option<string>, redirect: Option<string>, signInOk: bool,
                                decode: string -> Option<string>, origin: string -> Option<string>, here: string)
    ensures code.None? ==> HandleLogin(code, redirect, signInOk, decode, origin, here) == Outcome(false, Home)
    ensures code.Some? && code.value != "" && !signInOk ==>
            HandleLogin(code, redirect, signInOk, decode, origin, here) == Outcome(true, Home)
  {
  }
}
