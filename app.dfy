/**
 * Application bootstrap: the navigation guard that probes the session before
 * every non-public navigation, and the start-up sequence that re-validates a
 * remembered session, makes sure the menu is loaded and registers the routes
 * built from it under the layout route.
 */
module App {
  import opened Http
  import Js
  import opened Menus
  import opened ComponentMap
  import opened DynamicRoutes

  const LoginPath: string := "/login"

  /** The exact paths the guard lets through without asking the backend. */
  const PublicPaths: seq<string> := [LoginPath]

  const AuthCheckEndpoint: string := "/auth-check"

  /** The name of the layout route that dynamic routes are added under. */
  const DefaultLayout: string := "DefaultLayout"

  datatype Verdict =
    | Proceed
    | Redirect(path: string, query: map<string, string>)

  /** The guard's decision and the backend calls it made to reach it. */
  datatype GuardResult = GuardResult(verdict: Verdict, calls: seq<string>)

  /**
   * The `beforeEach` guard for a navigation to `path` (`fullPath` adds query
   * and hash). `authCheck` is the outcome of the session probe, consulted only
   * when the guard makes it.
   */
  function Guard(path: string, fullPath: string, authCheck: Response<Js.Value>): (g: GuardResult)
    ensures g.calls == [] <==> path in PublicPaths
    ensures g.calls != [] ==> g.calls == [AuthCheckEndpoint]
    ensures g.verdict == Proceed <==> path in PublicPaths || authCheck.Received?
    ensures g.verdict.Redirect? ==> g.verdict == Redirect(LoginPath, map["redirect" := fullPath])
  {
    if path in PublicPaths then GuardResult(Proceed, [])
    else
      match authCheck
      case Received(_) => GuardResult(Proceed, [AuthCheckEndpoint])
      case Failed => GuardResult(Redirect(LoginPath, map["redirect" := fullPath]), [AuthCheckEndpoint])
  }

  /** The guard's redirect target is itself let through without a probe, so a redirect never loops. */
  lemma RedirectTargetIsPublic(path: string, fullPath: string, authCheck: Response<Js.Value>,
                               next: string, nextCheck: Response<Js.Value>)
    requires Guard(path, fullPath, authCheck).verdict.Redirect?
    ensures var target := Guard(path, fullPath, authCheck).verdict.path;
            Guard(target, next, nextCheck) == GuardResult(Proceed, [])
  {
  }

  /** Membership is exact: the callback, the catch-all and "/login/" are all probed and redirected on failure. */
  lemma OnlyLoginIsPublic(fullPath: string)
    ensures Guard("/google-callback", fullPath, Failed).verdict == Redirect(LoginPath, map["redirect" := fullPath])
    ensures Guard("/no-such-page", fullPath, Failed).verdict.Redirect?
    ensures Guard("/login/", fullPath, Failed).calls == [AuthCheckEndpoint]
  {
  }

  /** The part of the authentication store that start-up uses; the store itself is not part of this model. */
  class AuthStore {
    var isLoggedIn: bool

    constructor (loggedIn: bool)
      ensures isLoggedIn == loggedIn
    {
      isLoggedIn := loggedIn;
    }

    method ClearUser()
      modifies this
      ensures !isLoggedIn
    {
      isLoggedIn := false;
    }
  }

  /** The router state start-up changes: the child routes of each named route, and the navigations pushed. */
  class Router {
    var children: map<string, seq<Route>>
    var pushed: seq<string>

    /** The static route table has one named route, the layout, with no children yet. */
    constructor ()
      ensures children == map[DefaultLayout := []] && pushed == []
    {
      children := map[DefaultLayout := []];
      pushed := [];
    }

    method AddRoute(parentName: string, r: Route)
      requires parentName in children
      modifies this
      ensures children == old(children)[parentName := old(children)[parentName] + [r]]
      ensures pushed == old(pushed)
    {
      children := children[parentName := children[parentName] + [r]];
    }

    /** `routes.forEach(r => router.addRoute(parentName, r))`: appends each route in order. */
    method AddRoutes(parentName: string, routes: seq<Route>)
      requires parentName in children
      modifies this
      ensures children == old(children)[parentName := old(children)[parentName] + routes]
      ensures pushed == old(pushed)
    {
      ghost var before := children[parentName];
      assert routes[..0] == [] && before + [] == before;
      for i := 0 to |routes|
        invariant children == old(children)[parentName := before + routes[..i]]
        invariant pushed == old(pushed)
      {
        AddRoute(parentName, routes[i]);
        assert before + routes[..i + 1] == (before + routes[..i]) + [routes[i]];
      }
      assert routes[..|routes|] == routes;
    }

    method Push(path: string)
      modifies this
      ensures pushed == old(pushed) + [path] && children == old(children)
    {
      pushed := pushed + [path];
    }
  }

  /**
   * `initApp`. Returns the backend endpoints it called, in order. With no
   * remembered session nothing happens. Otherwise the session is probed: on
   * failure the user and the menus are cleared and the login page is pushed;
   * on success the menu is fetched unless already loaded (a failed fetch is
   * swallowed and leaves the menus as they were) and the routes built from
   * the store's menus are added under the layout, in builder order.
   */
  method InitApp(auth: AuthStore, menuStore: MenuStore, router: Router,
                 authCheck: Response<Js.Value>, menuResponse: Response<seq<Menu>>)
    returns (calls: seq<string>)
    requires menuStore.Valid()
    requires DefaultLayout in router.children
    modifies auth, menuStore, router
    ensures menuStore.Valid()
    ensures !old(auth.isLoggedIn) ==> calls == [] && unchanged(auth, menuStore, router)
    ensures old(auth.isLoggedIn) && authCheck.Failed? ==>
              && calls == [AuthCheckEndpoint]
              && !auth.isLoggedIn
              && menuStore.State() == InitialState
              && router.pushed == old(router.pushed) + [LoginPath]
              && router.children == old(router.children)
    ensures old(auth.isLoggedIn) && authCheck.Received? ==>
              && calls == [AuthCheckEndpoint] + (if old(menuStore.loaded) then [] else [MenuEndpoint])
              && auth.isLoggedIn
              && menuStore.State() == (if old(menuStore.loaded) then old(menuStore.State())
                                       else Step(old(menuStore.State()), MenuAction.FetchMenus(menuResponse)))
              && router.children == old(router.children)[DefaultLayout :=
                                      old(router.children[DefaultLayout]) + Walk(Registry, menuStore.menus)]
              && router.pushed == old(router.pushed)
  {
    calls := [];
    if auth.isLoggedIn {
      calls := calls + [AuthCheckEndpoint];
      match authCheck {
        case Failed =>
          auth.ClearUser();
          menuStore.ClearMenus();
          router.Push(LoginPath);
        case Received(_) =>
          if !menuStore.loaded {
            calls := calls + [MenuEndpoint];
            var _ := menuStore.FetchMenus(menuResponse);
          }
          var dynamicRoutes := BuildRoutes(menuStore.menus);
          router.AddRoutes(DefaultLayout, dynamicRoutes);
      }
    }
  }
}
