/** The application session (src/contexts/AppContext.tsx): the current
    user, the permission grants and the feature flags, filled by one
    bootstrap of three requests; the permission check; and sign-out.
    Request outcomes are inputs. Parsing an `expired_at` string into a
    millisecond time is the parameter `parseDate` (`None` for an invalid
    date), and `now` is the current time. */
module Session {
  import opened Wrappers

  datatype UserInfo = UserInfo(username: string, nickName: Option<string>)

  /** A permission grant: `permission_item` and `expired_at`. */
  datatype Grant = Grant(item: string, expiredAt: Option<string>)

  datatype Features = Features(docFuzzySearch: bool)

  datatype State = State(user: Option<UserInfo>, grants: seq<Grant>, features: Option<Features>, loading: bool)

  const Initial := State(None, [], None, true)

  // ---------------------------------------------------------------------
  // Permissions
  // ---------------------------------------------------------------------

  /** `k` is the index of the first grant for `item`. */
  predicate IsFirstFor(grants: seq<Grant>, item: string, k: int) {
    0 <= k < |grants| && grants[k].item == item && forall j :: 0 <= j < k ==> grants[j].item != item
  }

  /** `permissions.find((p) => p.permission_item === item)` */
  function FindGrant(grants: seq<Grant>, item: string): (r: Option<Grant>)
    ensures r.None? <==> forall k :: 0 <= k < |grants| ==> grants[k].item != item
    ensures forall k :: IsFirstFor(grants, item, k) ==> r == Some(grants[k])
  {
    if |grants| == 0 then None
    else if grants[0].item == item then Some(grants[0])
    else
      var r := FindGrant(grants[1..], item);
      assert forall k :: 0 < k < |grants| ==> grants[k] == grants[1..][k - 1];
      assert forall k :: IsFirstFor(grants, item, k) ==> IsFirstFor(grants[1..], item, k - 1);
      r
  }

  /** A grant has lapsed when its expiry is a non-empty string denoting a
      time strictly before now. An invalid date compares false and so keeps
      the grant alive. */
  predicate Expired(g: Grant, now: int, parseDate: string -> Option<int>): (b: bool)
    ensures g.expiredAt.None? || g.expiredAt == Some("") ==> !b
    ensures g.expiredAt.Some? && parseDate(g.expiredAt.value).None? ==> !b
    ensures g.expiredAt.Some? && g.expiredAt.value != "" && parseDate(g.expiredAt.value).Some? ==>
            (b <==> parseDate(g.expiredAt.value).value < now)
  {
    g.expiredAt.Some? && g.expiredAt.value != ""
    && parseDate(g.expiredAt.value).Some? && parseDate(g.expiredAt.value).value < now
  }

  /** `hasPermission(item)`: false without a grant for the item, otherwise
      decided by the first such grant alone. */
  function HasPermission(grants: seq<Grant>, item: string, now: int, parseDate: string -> Option<int>): (b: bool)
    ensures (forall k :: 0 <= k < |grants| ==> grants[k].item != item) ==> !b
    ensures forall k :: IsFirstFor(grants, item, k) ==> (b <==> !Expired(grants[k], now, parseDate))
  {
    var g := FindGrant(grants, item);
    g.Some? && !Expired(g.value, now, parseDate)
  }

  /** Grants appended after the first one for an item do not change the
      lookup. */
  lemma {:induction false} FindGrantAppend(grants: seq<Grant>, more: seq<Grant>, item: string)
    requires exists k :: 0 <= k < |grants| && grants[k].item == item
    ensures FindGrant(grants + more, item) == FindGrant(grants, item)
  {
    if grants[0].item != item {
      assert (grants + more)[1..] == grants[1..] + more;
      var k :| 0 <= k < |grants| && grants[k].item == item;
      assert grants[1..][k - 1].item == item;
      FindGrantAppend(grants[1..], more, item);
    }
  }

  /** Only the first grant for an item counts: grants after it change nothing. */
  lemma FirstGrantDecides(grants: seq<Grant>, more: seq<Grant>, item: string, now: int, parseDate: string -> Option<int>)
    requires exists k :: 0 <= k < |grants| && grants[k].item == item
    ensures HasPermission(grants + more, item, now, parseDate) == HasPermission(grants, item, now, parseDate)
  {
    FindGrantAppend(grants, more, item);
  }

  /** An expiry exactly at `now` still counts as active; one a millisecond
      before does not. */
  lemma ExpiryIsStrict(item: string, e: string, now: int, parseDate: string -> Option<int>)
    requires e != ""
    ensures parseDate(e) == Some(now) ==> HasPermission([Grant(item, Some(e))], item, now, parseDate)
    ensures parseDate(e) == Some(now - 1) ==> !HasPermission([Grant(item, Some(e))], item, now, parseDate)
  {
  }

  /** With no expiry, or an empty one, a grant never lapses. */
  lemma NoExpiryNeverLapses(grants: seq<Grant>, item: string, now: int, parseDate: string -> Option<int>)
    requires FindGrant(grants, item).Some?
    requires FindGrant(grants, item).value.expiredAt in {None, Some("")}
    ensures HasPermission(grants, item, now, parseDate)
  {
  }

  // ---------------------------------------------------------------------
  // Bootstrap
  // ---------------------------------------------------------------------

  /** The bootstrap request: rejected, or the `user` field of its answer. */
  datatype HomeOutcome = HomeFailed | HomeOk(user: Option<UserInfo>)

  /** The permissions request: failures become `null`; `results` may be missing. */
  datatype PermOutcome = PermFailed | PermOk(results: Option<seq<Grant>>)

  /** The features request, likewise. */
  datatype FeatOutcome = FeatFailed | FeatOk(results: Option<seq<Features>>)

  /** `fetchUserData` after all three requests have settled. */
  function FetchUserData(s: State, home: HomeOutcome, perm: PermOutcome, feat: FeatOutcome): (r: State)
    ensures !r.loading
    ensures home.HomeFailed? ==> r.user.None? && r.grants == s.grants && r.features == s.features
    ensures home.HomeOk? ==>
      r.user == (if home.user.Some? && home.user.value.username != "" then home.user else s.user)
    ensures home.HomeOk? ==>
      r.grants == (if perm.PermOk? && perm.results.Some? then perm.results.value else s.grants)
    ensures home.HomeOk? ==>
      r.features == (if feat.FeatOk? && feat.results.Some? && |feat.results.value| > 0
                     then Some(feat.results.value[0]) else s.features)
  {
    match home
    case HomeFailed => s.(user := None, loading := false)
    case HomeOk(u) =>
      var user := if u.Some? && u.value.username != "" then u else s.user;
      var grants := if perm.PermOk? && perm.results.Some? then perm.results.value else s.grants;
      var features := if feat.FeatOk? && feat.results.Some? && |feat.results.value| > 0
                      then Some(feat.results.value[0]) else s.features;
      State(user, grants, features, false)
  }

  /** The user slice does not depend on how the permissions and features
      requests went. */
  lemma UserIndependentOfSecondaryFetches(s: State, home: HomeOutcome, p1: PermOutcome, f1: FeatOutcome,
                                          p2: PermOutcome, f2: FeatOutcome)
    ensures FetchUserData(s, home, p1, f1).user == FetchUserData(s, home, p2, f2).user
  {
  }

  /** From the initial state, a failed permissions request leaves no
      permission at all. */
  lemma FailedPermissionsGrantNothing(home: HomeOutcome, feat: FeatOutcome, item: string, now: int,
                                      parseDate: string -> Option<int>)
    ensures !HasPermission(FetchUserData(Initial, home, PermFailed, feat).grants, item, now, parseDate)
  {
  }

  /** `isLoggedIn` */
  function IsLoggedIn(s: State): (b: bool)
    ensures b <==> s.user != None
  {
    s.user.Some?
  }

  /** `signOut`: after a successful sign-out request the user and grants are
      cleared and the page is reloaded at `/`; a failed one changes nothing. */
  datatype SignedOut = SignedOut(state: State, reload: Option<string>)

  function SignOut(s: State, ok: bool): (r: SignedOut)
    ensures ok ==> r.state.user.None? && r.state.grants == [] && r.reload == Some("/")
    ensures ok ==> r.state.features == s.features && r.state.loading == s.loading
    ensures !ok ==> r == SignedOut(s, None)
  {
    if ok then SignedOut(s.(user := None, grants := []), Some("/")) else SignedOut(s, None)
  }

  /** After a successful sign-out nobody is logged in and nothing is permitted. */
  lemma SignOutRevokes(s: State, item: string, now: int, parseDate: string -> Option<int>)
    ensures !IsLoggedIn(SignOut(s, true).state)
    ensures !HasPermission(SignOut(s, true).state.grants, item, now, parseDate)
  {
  }
}
