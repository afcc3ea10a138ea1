/**
 * The route table of renderRoutes in lib/index.js, and which enter hooks a
 * navigation runs. Matching follows the router's rules: routes are tried in
 * declaration order and depth first; a relative path extends its parent's
 * pattern and an absolute one ("/...") stands alone; `:name` matches one
 * non-empty segment; a route with a path matches when its pattern consumes
 * the whole URL, and otherwise the search continues in its children. A
 * `<Redirect from to>` is a route on `from` whose enter hook redirects to
 * `to`. URLs are given as their list of path segments.
 */
module Routes {
  import opened JsValue
  import opened ReducerFactory
  import opened ReduxStore
  import opened Session
  import opened Guards

  datatype Component =
    | Application | Home | GithubStargazers | GithubRepo | GithubUser
    | About | Account | AccountHome | SuperSecretArea | Login

  /** The guards the table assigns as `onEnter` hooks. */
  datatype Hook = RequireAuthHook | LogoutHook

  datatype Segment = Lit(text: string) | Param(name: string)

  /** A route's `path` attribute: absolute when it starts with "/". */
  datatype PathPattern = PathPattern(absolute: bool, segments: seq<Segment>)

  datatype Route =
    | Route(path: Option<PathPattern>, component: Option<Component>, onEnter: Option<Hook>, children: seq<Route>)
    | Redirect(from: PathPattern, to: seq<string>)

  /** An enter hook the router runs for a matched route. */
  datatype EnterHook = Guard(hook: Hook) | RedirectHook(to: seq<string>)

  // <Route path="/" component={Home} />
  const HomeRoute: Route := Route(Some(PathPattern(true, [])), Some(Home), None, [])
  // <Redirect from="/account" to="/account/profile" />
  const AccountRedirect: Route := Redirect(PathPattern(true, [Lit("account")]), ["account", "profile"])
  // <Route path=':username/:repo' component={GithubRepo} />
  const RepoRoute: Route := Route(Some(PathPattern(false, [Param("username"), Param("repo")])), Some(GithubRepo), None, [])
  // <Route path=':username' component={GithubUser} />
  const UserRoute: Route := Route(Some(PathPattern(false, [Param("username")])), Some(GithubUser), None, [])
  const StargazersRoute: Route :=
    Route(Some(PathPattern(false, [Lit("stargazers")])), Some(GithubStargazers), None, [RepoRoute, UserRoute])
  const AboutRoute: Route := Route(Some(PathPattern(false, [Lit("about")])), Some(About), None, [])
  const ProfileRoute: Route := Route(Some(PathPattern(false, [Lit("profile")])), Some(AccountHome), None, [])
  const SecretAreaRoute: Route := Route(Some(PathPattern(false, [Lit("secret-area")])), Some(SuperSecretArea), None, [])
  // <Route path="account" component={Account} onEnter={requireAuth}>
  const AccountRoute: Route :=
    Route(Some(PathPattern(false, [Lit("account")])), Some(Account), Some(RequireAuthHook), [ProfileRoute, SecretAreaRoute])
  const LoginRoute: Route := Route(Some(PathPattern(false, [Lit("login")])), Some(Login), None, [])
  // <Route path="logout" onEnter={logout} />
  const LogoutRoute: Route := Route(Some(PathPattern(false, [Lit("logout")])), None, Some(LogoutHook), [])

  const ApplicationChildren: seq<Route> :=
    [HomeRoute, AccountRedirect, StargazersRoute, AboutRoute, AccountRoute, LoginRoute, LogoutRoute]
  // <Route component={Application}>, the one child of the router
  const ApplicationRoute: Route := Route(None, Some(Application), None, ApplicationChildren)
  const RouteTable: seq<Route> := [ApplicationRoute]

  /** The pattern a route's path denotes under its parent's pattern. */
  function FullPattern(parent: seq<Segment>, p: PathPattern): seq<Segment> {
    if p.absolute then p.segments else parent + p.segments
  }

  predicate SegmentMatches(pattern: Segment, segment: string) {
    match pattern
    case Lit(text) => text == segment
    case Param(_) => segment != ""
  }

  /** What is left of `url` once `pattern` has matched a prefix of it, if it does. */
  function Remaining(pattern: seq<Segment>, url: seq<string>): Option<seq<string>>
    decreases |pattern|
  {
    if |pattern| == 0 then Some(url)
    else if |url| == 0 || !SegmentMatches(pattern[0], url[0]) then None
    else Remaining(pattern[1..], url[1..])
  }

  /** The branch of routes, from `r` down, that matches `url`, if any. */
  function MatchRoute(r: Route, parent: seq<Segment>, url: seq<string>): Option<seq<Route>>
    decreases r
  {
    match r
    case Redirect(from, _) =>
      if Remaining(FullPattern(parent, from), url) == Some([]) then Some([r]) else None
    case Route(path, _, _, children) =>
      var pattern := if path.Some? then FullPattern(parent, path.value) else parent;
      var rest := Remaining(pattern, url);
      if rest == Some([]) && path.Some? then Some([r])
      else if rest.Some? then
        match MatchRoutes(children, pattern, url)
        case Some(branch) => Some([r] + branch)
        case None => None
      else None
  }

  /** The first of `routes`, in order, that matches `url`. */
  function MatchRoutes(routes: seq<Route>, parent: seq<Segment>, url: seq<string>): Option<seq<Route>>
    decreases routes
  {
    if |routes| == 0 then None
    else match MatchRoute(routes[0], parent, url)
      case Some(branch) => Some(branch)
      case None => MatchRoutes(routes[1..], parent, url)
  }

  /** The branch of the application's route table that `url` selects. */
  function Match(url: seq<string>): Option<seq<Route>> {
    MatchRoutes(RouteTable, [], url)
  }

  function HooksOf(r: Route): seq<EnterHook> {
    match r
    case Redirect(_, to) => [RedirectHook(to)]
    case Route(_, _, onEnter, _) => if onEnter.Some? then [Guard(onEnter.value)] else []
  }

  /** The enter hooks of a branch, outermost route first. */
  function EnterHooks(branch: seq<Route>): seq<EnterHook>
    decreases |branch|
  {
    if |branch| == 0 then [] else HooksOf(branch[0]) + EnterHooks(branch[1..])
  }

  /**
   * The table written out as the routes each URL selects below the
   * application route, route by route: the reference the matching function
   * is proved against.
   */
  function ExpectedChildren(url: seq<string>): Option<seq<Route>> {
    if url == [] then Some([HomeRoute])
    else if url == ["account"] then Some([AccountRedirect])
    else if url == ["stargazers"] then Some([StargazersRoute])
    else if |url| == 3 && url[0] == "stargazers" && url[1] != "" && url[2] != "" then Some([StargazersRoute, RepoRoute])
    else if |url| == 2 && url[0] == "stargazers" && url[1] != "" then Some([StargazersRoute, UserRoute])
    else if url == ["about"] then Some([AboutRoute])
    else if url == ["account", "profile"] then Some([AccountRoute, ProfileRoute])
    else if url == ["account", "secret-area"] then Some([AccountRoute, SecretAreaRoute])
    else if url == ["login"] then Some([LoginRoute])
    else if url == ["logout"] then Some([LogoutRoute])
    else None
  }

  /** The whole branch a URL selects: the application route, then the written-out routes below it. */
  function ExpectedBranch(url: seq<string>): Option<seq<Route>> {
    match ExpectedChildren(url)
    case Some(below) => Some([ApplicationRoute] + below)
    case None => None
  }

  /** Matching a concatenated pattern is matching its first part, then the second on what is left. */
  lemma {:induction false} RemainingAppend(p: seq<Segment>, q: seq<Segment>, url: seq<string>)
    ensures Remaining(p + q, url) == match Remaining(p, url) case None => None case Some(rest) => Remaining(q, rest)
    decreases |p|
  {
    if |p| > 0 {
      assert (p + q)[0] == p[0];
      assert (p + q)[1..] == p[1..] + q;
      if |url| > 0 && SegmentMatches(p[0], url[0]) {
        RemainingAppend(p[1..], q, url[1..]);
      }
    } else {
      assert p + q == q;
    }
  }

  lemma RemainingOne(s: Segment, url: seq<string>)
    ensures Remaining([s], url) == if |url| > 0 && SegmentMatches(s, url[0]) then Some(url[1..]) else None
  {
    if |url| > 0 && SegmentMatches(s, url[0]) {
      assert [s][1..] == [];
    }
  }

  /** A childless route on one literal segment, directly under the application route, matches exactly that segment. */
  lemma MatchLeaf(r: Route, text: string, url: seq<string>)
    requires r.Route? && r.path == Some(PathPattern(false, [Lit(text)])) && r.children == []
    ensures MatchRoute(r, [], url) == if url == [text] then Some([r]) else None
  {
    assert FullPattern([], r.path.value) == [Lit(text)];
    RemainingOne(Lit(text), url);
  }

  lemma MatchHome(url: seq<string>)
    ensures MatchRoute(HomeRoute, [], url) == if url == [] then Some([HomeRoute]) else None
  {
  }

  lemma MatchAccountRedirect(url: seq<string>)
    ensures MatchRoute(AccountRedirect, [], url) == if url == ["account"] then Some([AccountRedirect]) else None
  {
    RemainingOne(Lit("account"), url);
  }

  lemma MatchRepo(url: seq<string>)
    requires |url| > 0 && url[0] == "stargazers"
    ensures MatchRoute(RepoRoute, [Lit("stargazers")], url) ==
      if |url| == 3 && url[1] != "" && url[2] != "" then Some([RepoRoute]) else None
  {
    var base := [Lit("stargazers")];
    var rest := url[1..];
    assert FullPattern(base, RepoRoute.path.value) == base + [Param("username"), Param("repo")];
    RemainingOne(Lit("stargazers"), url);
    RemainingAppend(base, [Param("username"), Param("repo")], url);
    assert [Param("username")] + [Param("repo")] == [Param("username"), Param("repo")];
    RemainingAppend([Param("username")], [Param("repo")], rest);
    RemainingOne(Param("username"), rest);
    if |rest| > 0 && rest[0] != "" {
      RemainingOne(Param("repo"), rest[1..]);
      if |rest| == 2 { assert rest[1..][1..] == []; }
    }
  }

  lemma MatchUser(url: seq<string>)
    requires |url| > 0 && url[0] == "stargazers"
    ensures MatchRoute(UserRoute, [Lit("stargazers")], url) ==
      if |url| == 2 && url[1] != "" then Some([UserRoute]) else None
  {
    var base := [Lit("stargazers")];
    var rest := url[1..];
    assert FullPattern(base, UserRoute.path.value) == base + [Param("username")];
    RemainingOne(Lit("stargazers"), url);
    RemainingAppend(base, [Param("username")], url);
    RemainingOne(Param("username"), rest);
    if |rest| == 1 { assert rest[1..] == []; }
  }

  lemma MatchStargazers(url: seq<string>)
    ensures MatchRoute(StargazersRoute, [], url) ==
      if url == ["stargazers"] then Some([StargazersRoute])
      else if |url| == 3 && url[0] == "stargazers" && url[1] != "" && url[2] != "" then Some([StargazersRoute, RepoRoute])
      else if |url| == 2 && url[0] == "stargazers" && url[1] != "" then Some([StargazersRoute, UserRoute])
      else None
  {
    var base := [Lit("stargazers")];
    assert FullPattern([], StargazersRoute.path.value) == base;
    RemainingOne(Lit("stargazers"), url);
    if |url| > 0 && url[0] == "stargazers" && |url| > 1 {
      MatchRepo(url);
      MatchUser(url);
      MatchRoutesCons(RepoRoute, [UserRoute], base, url);
      MatchRoutesCons(UserRoute, [], base, url);
      assert [RepoRoute] + [UserRoute] == StargazersRoute.children && [UserRoute] + [] == [UserRoute];
      assert [StargazersRoute] + [RepoRoute] == [StargazersRoute, RepoRoute];
      assert [StargazersRoute] + [UserRoute] == [StargazersRoute, UserRoute];
      assert Remaining(base, url) == Some(url[1..]) && url[1..] != [];
    } else if |url| == 1 && url[0] == "stargazers" {
      assert url[1..] == [];
    }
  }

  lemma MatchAccount(url: seq<string>)
    ensures MatchRoute(AccountRoute, [], url) ==
      if url == ["account"] then Some([AccountRoute])
      else if url == ["account", "profile"] then Some([AccountRoute, ProfileRoute])
      else if url == ["account", "secret-area"] then Some([AccountRoute, SecretAreaRoute])
      else None
  {
    var base := [Lit("account")];
    assert FullPattern([], AccountRoute.path.value) == base;
    RemainingOne(Lit("account"), url);
    if |url| > 0 && url[0] == "account" && |url| > 1 {
      var rest := url[1..];
      assert FullPattern(base, ProfileRoute.path.value) == base + [Lit("profile")];
      assert FullPattern(base, SecretAreaRoute.path.value) == base + [Lit("secret-area")];
      RemainingAppend(base, [Lit("profile")], url);
      RemainingAppend(base, [Lit("secret-area")], url);
      RemainingOne(Lit("profile"), rest);
      RemainingOne(Lit("secret-area"), rest);
      if |rest| == 1 { assert rest == [rest[0]] && rest[1..] == []; }
      if |url| == 2 { assert url == ["account", rest[0]]; }
      assert rest == ["profile"] <==> url == ["account", "profile"];
      assert rest == ["secret-area"] <==> url == ["account", "secret-area"];
      assert MatchRoute(ProfileRoute, base, url) == if rest == ["profile"] then Some([ProfileRoute]) else None;
      assert MatchRoute(SecretAreaRoute, base, url) == if rest == ["secret-area"] then Some([SecretAreaRoute]) else None;
      MatchRoutesCons(ProfileRoute, [SecretAreaRoute], base, url);
      MatchRoutesCons(SecretAreaRoute, [], base, url);
      assert [ProfileRoute] + [SecretAreaRoute] == AccountRoute.children && [SecretAreaRoute] + [] == [SecretAreaRoute];
      assert MatchRoutes(AccountRoute.children, base, url) ==
        if rest == ["profile"] then Some([ProfileRoute])
        else if rest == ["secret-area"] then Some([SecretAreaRoute])
        else None;
      assert [AccountRoute] + [ProfileRoute] == [AccountRoute, ProfileRoute];
      assert [AccountRoute] + [SecretAreaRoute] == [AccountRoute, SecretAreaRoute];
      assert Remaining(base, url) == Some(rest) && rest != [];
      assert MatchRoute(AccountRoute, [], url) ==
        match MatchRoutes(AccountRoute.children, base, url)
        case Some(b) => Some([AccountRoute] + b)
        case None => None;
      if rest == ["profile"] {
        assert MatchRoute(AccountRoute, [], url) == Some([AccountRoute, ProfileRoute]);
      } else if rest == ["secret-area"] {
        assert MatchRoute(AccountRoute, [], url) == Some([AccountRoute, SecretAreaRoute]);
      } else {
        assert MatchRoute(AccountRoute, [], url) == None;
      }
    } else if |url| == 1 && url[0] == "account" {
      assert url[1..] == [];
    }
  }

  /** Routes are tried in order: the first one that matches decides, whatever follows it. */
  lemma {:induction false} FirstMatchWins(routes: seq<Route>, parent: seq<Segment>, url: seq<string>, i: nat)
    requires i < |routes|
    requires forall k :: 0 <= k < i ==> MatchRoute(routes[k], parent, url).None?
    requires MatchRoute(routes[i], parent, url).Some?
    ensures MatchRoutes(routes, parent, url) == MatchRoute(routes[i], parent, url)
    decreases i
  {
    if i > 0 {
      assert forall k :: 0 <= k < i - 1 ==> routes[1..][k] == routes[k + 1];
      FirstMatchWins(routes[1..], parent, url, i - 1);
    }
  }

  /** When none of the routes matches, neither does the list. */
  lemma {:induction false} NoneMatches(routes: seq<Route>, parent: seq<Segment>, url: seq<string>)
    requires forall k :: 0 <= k < |routes| ==> MatchRoute(routes[k], parent, url).None?
    ensures MatchRoutes(routes, parent, url).None?
    decreases |routes|
  {
    if |routes| > 0 {
      assert forall k :: 0 <= k < |routes| - 1 ==> routes[1..][k] == routes[k + 1];
      NoneMatches(routes[1..], parent, url);
    }
  }

  /** A list of routes matches as its first route does, or else as the rest of the list does. */
  lemma MatchRoutesCons(r: Route, rest: seq<Route>, parent: seq<Segment>, url: seq<string>)
    ensures MatchRoutes([r] + rest, parent, url) ==
      if MatchRoute(r, parent, url).Some? then MatchRoute(r, parent, url) else MatchRoutes(rest, parent, url)
  {
    assert ([r] + rest)[0] == r && ([r] + rest)[1..] == rest;
  }

  /** Under the application route, the children select what the written-out table lists below it. */
  lemma MatchChildren(url: seq<string>)
    ensures MatchRoutes(ApplicationChildren, [], url) == ExpectedChildren(url)
  {
    MatchHome(url);
    MatchAccountRedirect(url);
    MatchStargazers(url);
    MatchLeaf(AboutRoute, "about", url);
    MatchAccount(url);
    MatchLeaf(LoginRoute, "login", url);
    MatchLeaf(LogoutRoute, "logout", url);
    var t6: seq<Route> := [LogoutRoute];
    var t5 := [LoginRoute] + t6;
    var t4 := [AccountRoute] + t5;
    var t3 := [AboutRoute] + t4;
    var t2 := [StargazersRoute] + t3;
    var t1 := [AccountRedirect] + t2;
    assert ApplicationChildren == [HomeRoute] + t1;
    MatchRoutesCons(HomeRoute, t1, [], url);
    MatchRoutesCons(AccountRedirect, t2, [], url);
    MatchRoutesCons(StargazersRoute, t3, [], url);
    MatchRoutesCons(AboutRoute, t4, [], url);
    MatchRoutesCons(AccountRoute, t5, [], url);
    MatchRoutesCons(LoginRoute, t6, [], url);
    MatchRoutesCons(LogoutRoute, [], [], url);
    assert [LogoutRoute] + [] == t6;
  }

  /** The matching function agrees with the table written out branch by branch, for every URL. */
  lemma MatchTable(url: seq<string>)
    ensures Match(url) == ExpectedBranch(url)
  {
    MatchChildren(url);
    var found := MatchRoutes(ApplicationChildren, [], url);
    assert Remaining([], url) == Some(url);
    assert MatchRoute(ApplicationRoute, [], url) ==
      match found case Some(b) => Some([ApplicationRoute] + b) case None => None;
    assert RouteTable[0] == ApplicationRoute && RouteTable[1..] == [];
    assert Match(url) == MatchRoute(ApplicationRoute, [], url);
  }

  /**
   * The enter hooks every matched URL runs: "/account" only the redirect to
   * "/account/profile", the two pages under "account" only requireAuth,
   * "/logout" only logout, and every other route none. So no branch runs
   * more than one hook.
   */
  lemma HookAssignment(url: seq<string>)
    requires Match(url).Some?
    ensures EnterHooks(Match(url).value) ==
      if url == ["account"] then [RedirectHook(["account", "profile"])]
      else if url == ["account", "profile"] || url == ["account", "secret-area"] then [Guard(RequireAuthHook)]
      else if url == ["logout"] then [Guard(LogoutHook)]
      else []
  {
    MatchTable(url);
    var branch := Match(url).value;
    var rest := ExpectedChildren(url).value;
    assert branch[0] == ApplicationRoute && branch[1..] == rest && HooksOf(ApplicationRoute) == [];
    assert EnterHooks(branch) == EnterHooks(rest);
    assert EnterHooks(rest) == HooksOf(rest[0]) + EnterHooks(rest[1..]);
    if |rest| == 2 {
      assert EnterHooks(rest[1..]) == HooksOf(rest[1]) + EnterHooks(rest[1..][1..]);
      assert rest[1..][1..] == [];
    } else {
      assert rest[1..] == [];
    }
  }

  /** The redirect target of "/account" is itself guarded by requireAuth. */
  lemma AccountRedirectIsGuarded()
    ensures Match(["account"]).Some? && EnterHooks(Match(["account"]).value) == [RedirectHook(["account", "profile"])]
    ensures Match(["account", "profile"]).Some?
    ensures EnterHooks(Match(["account", "profile"]).value) == [Guard(RequireAuthHook)]
  {
    MatchTable(["account"]);
    HookAssignment(["account"]);
    MatchTable(["account", "profile"]);
    HookAssignment(["account", "profile"]);
  }

  /** `location.pathname` of a URL given by its segments. */
  function Pathname(url: seq<string>): string {
    if |url| == 0 then "/" else JoinSegments(url)
  }

  function JoinSegments(url: seq<string>): string
    decreases |url|
  {
    if |url| == 0 then "" else "/" + url[0] + JoinSegments(url[1..])
  }

  /** The redirect target of the table, written back as a pathname, is "/account/profile". */
  lemma AccountProfilePathname()
    ensures Pathname(["account", "profile"]) == "/account/profile"
  {
    var url := ["account", "profile"];
    assert url[1..] == ["profile"] && url[1..][1..] == [];
    assert JoinSegments(url[1..]) == "/profile";
  }

  /** The outcome of a navigation: no route, a hook that threw, or a settled transition. */
  datatype Navigation = NotFound | Failed | Settled(transition: Transition)

  /**
   * A navigation to `url` from outside its branch: the router matches it
   * against the table and runs the branch's enter hooks with `nextState`
   * for that URL; the hooks' effects settle the transition.
   */
  method Navigate(store: Store, url: seq<string>) returns (outcome: Navigation, effects: seq<Effect>)
    requires store.Valid()
    modifies store
    ensures store.Valid()
    ensures Match(url).None? ==> outcome == NotFound && effects == []
    ensures url == ["account"] ==> outcome == Settled(Redirected("/account/profile", None)) && effects == [RedirectedTo("/account/profile", None)]
    ensures url == ["account", "profile"] || url == ["account", "secret-area"] ==>
      match ApplicationField(old(store.state), "token")
      case TypeError => outcome == Failed
      case Ok(token) =>
        outcome == Settled(if Truthy(token) then Allowed else Redirected(LoginPath, Some(Pathname(url))))
    ensures url == ["account", "profile"] || url == ["account", "secret-area"] ==>
      match RequireAuth(old(store.state), NextState(Location(Pathname(url))))
      case TypeError => effects == []
      case Ok(guardEffects) => effects == guardEffects
    ensures url == ["logout"] ==>
      && outcome == Settled(Redirected(LoginPath, None))
      && effects == LogoutEffects
      && store.dispatched == old(store.dispatched) + [LogOutAction]
      && store.state == store.reducer(Some(old(store.state)), LogOutAction)
    ensures url != ["logout"] ==> store.state == old(store.state) && store.dispatched == old(store.dispatched)
    ensures Match(url).Some? && url !in {["account"], ["account", "profile"], ["account", "secret-area"], ["logout"]} ==>
      outcome == Settled(Allowed) && effects == []
    ensures forall i :: 0 <= i < |effects| && effects[i].Dispatched? ==> url == ["logout"]
  {
    var branch := Match(url);
    MatchTable(url);
    if branch.None? {
      return NotFound, [];
    }
    HookAssignment(url);
    var hooks := EnterHooks(branch.value);
    var nextState := NextState(Location(Pathname(url)));
    if hooks == [] {
      return Settled(Allowed), [];
    }
    match hooks[0]
    case RedirectHook(to) =>
      AccountProfilePathname();
      effects := [RedirectedTo(Pathname(to), None)];
      SettleOnRedirect(Pathname(to), None);
      outcome := Settled(Settle(effects));
    case Guard(RequireAuthHook) =>
      var r := RequireAuth(store.state, nextState);
      if r.TypeError? {
        return Failed, [];
      }
      effects := r.value;
      RequireAuthSettles(store.state, nextState);
      outcome := Settled(Settle(effects));
    case Guard(LogoutHook) =>
      effects := Logout(store, nextState);
      LogoutSettles();
      outcome := Settled(Settle(effects));
  }
}
