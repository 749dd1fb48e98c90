# Admin shell: menu-driven routes, menu store, status stores, navigation guard

This project models the client-side core of a small web administration
dashboard. It covers these parts:

- **Component registry** (`ComponentMap`): a constant table from ten symbolic
  component names to deferred page loaders. Loaders are opaque tokens.
- **Route builder** (`DynamicRoutes`): walks the server-supplied menu forest
  depth-first in pre-order. For every node whose component name is non-empty
  and resolves in the lookup table, it emits a route record
  `{path, name, component, meta}`. It descends into every node's children
  whether or not the node emitted a route. `Walk` is the builder as a
  function of the table and the forest. `WalkInto` is the accumulator-and-loop
  form the source runs, proved to compute `Walk`. `BuildRoutes` runs it over
  the registry's own keys. That is the corrected lookup of the finding below:
  as written, the source also resolves names inherited from `Object.prototype`.
- **Menu store** (`Menus`): the menu forest plus a `loaded` flag, with
  `setMenus`, `clearMenus` and `fetchMenus`. `fetchMenus` swallows its own
  failure and reports it as `false`. The actions exist twice: as a
  transition function `Step` (lemmas about whole action histories use it) and
  as the methods of `MenuStore`, each proved to move the state by `Step`.
- **Status stores** (`GoogleConfig`, `Subscription`): each has a check that
  raises `isChecking`, interprets one response and lowers `isChecking` on
  every path. `Settled` gives the state a check leaves.
- **Bootstrap** (`App`): `Guard` is the `beforeEach` decision over the target
  path and the outcome of the session probe. Only the exact path `/login` is
  public. `InitApp` is the start-up sequence over the auth store, the menu
  store and the router.

Every backend request becomes a parameter of type `Http.Response<T>`: either
`Received(data)` or `Failed` (the awaited call threw). JavaScript values that
the code inspects by shape are `Js.Value`. Truthiness and property reads are
written out: reading a property of `undefined` or `null` throws.

The guard's final `next()` (src/main.ts:90) cannot be reached, because both
branches of its `try` return. `Guard` has no such branch.

Three further facts about the code:

- The public list is `["/login"]` only, so `/google-callback` and the
  catch-all route are probed too (`App.OnlyLoginIsPublic`).
- A failed Google-configuration check sets `errors` to one fixed message.
- `fetchMenus` stores whatever `response.data.data` holds, without checking it.

## Model

| member | source | states |
|---|---|---|
| `ComponentMap.Lookup` | src/Router/componentMap.ts:1-12 | a name resolves exactly when it is one of the registry's own keys, and then to a page loader |
| `ComponentMap.AsWrittenTable` | src/Router/componentMap.ts:1-12 | the names `componentMap[name]` resolves as written: the ten registered keys plus every name inherited from `Object.prototype`, with registered names keeping their loaders |
| `ComponentMap.RegistryKeys` | src/Router/componentMap.ts:2-11 | the key set is exactly the ten names |
| `ComponentMap.LookupIsCaseSensitive` | src/Router/componentMap.ts:2-11 | lookup is case-sensitive: `Stripe`, `Plans` and the empty name do not resolve, `stripe` does |
| `ComponentMap.PrototypeNamesAreNotRegistered` | src/Router/componentMap.ts:1-12 | no inherited property name is a registered key, so own-key lookup rejects all of them |
| `Js.GetProp` | src/Shared/subscription.ts:15 | reading a property throws exactly when the object is `undefined` or `null`; on any non-object it reads `undefined` |
| `Js.Truthy` | src/Router/dynamicRoutes.ts:16 | a value is truthy iff it is not one of the six falsy values (undefined, null, false, 0, NaN, the empty string), as `!` and `&&` read it |
| `DynamicRoutes.RoutableOverRegistry` | src/Router/dynamicRoutes.ts:9 | the emission condition `Routable` (component present, non-empty and in the table) is, over the registry, exactly "present and resolved by `Lookup`" |
| `DynamicRoutes.ToRouteFields` | src/Router/dynamicRoutes.ts:10-18 | the record `ToRoute` builds: the node's path, its component name as route name, that name's loader, `requiresAuth` copied, and `public` its negation, so a node without `requiresAuth` is public |
| `DynamicRoutes.EmittedIsOwnRoute` | src/Router/dynamicRoutes.ts:9-19 | `Emitted`: a node by itself contributes at most one route, its `ToRoute` exactly when it is routable, nothing otherwise |
| `DynamicRoutes.RoutableNodes` | src/Router/dynamicRoutes.ts:9 | keeps only routable nodes, keeps every routable member, and never returns more nodes than it was given |
| `DynamicRoutes.RoutableNodesSingle` | src/Router/dynamicRoutes.ts:9 | a single node is kept exactly when it is routable |
| `DynamicRoutes.RoutableNodesAppend` | src/Router/dynamicRoutes.ts:7-19 | filtering distributes over concatenation, so with the single-node case it keeps the routable nodes in their order and multiplicity |
| `DynamicRoutes.Walk` | src/Router/dynamicRoutes.ts:6-25 | every emitted route is named after a resolving component and carries that component's loader; `meta.public` is always the negation of `meta.requiresAuth`'s truthiness |
| `DynamicRoutes.WalkAppend` | src/Router/dynamicRoutes.ts:7-24 | routes of earlier siblings precede those of later siblings: walking `a + b` is walking `a` then `b` |
| `DynamicRoutes.WalkSingle` | src/Router/dynamicRoutes.ts:9-23 | one node yields its own route (if any) followed by its subtree's routes; a node that emits nothing still has its children walked |
| `DynamicRoutes.PreorderPlacement` | src/Router/dynamicRoutes.ts:7-24 | for a node among siblings: earlier siblings' routes, then the node's route, then its subtree's, then later siblings' routes |
| `DynamicRoutes.WalkIsRoutesOfPreorder` | src/Router/dynamicRoutes.ts:6-25 | the builder visits nodes in depth-first pre-order: its output equals the node-by-node output over the pre-order listing |
| `DynamicRoutes.WalkIsRoutablePreorder` | src/Router/dynamicRoutes.ts:3-29 | the output is "pre-order nodes, keep the routable ones, build each one's route": same length, same order, and route i is built from the i-th routable node |
| `DynamicRoutes.RouteCount` | src/Router/dynamicRoutes.ts:7-24 | the number of routes equals the number of routable nodes, which is at most the number of nodes |
| `DynamicRoutes.RouteIffRoutableNode` | src/Router/dynamicRoutes.ts:9-18 | a route is emitted iff some node of the forest is routable and the route has that node's path, its component name as name, the resolved loader and the derived meta |
| `DynamicRoutes.DuplicatesKept` | src/Router/dynamicRoutes.ts:7-18 | no deduplication: a node repeated among siblings yields its routes twice |
| `DynamicRoutes.WalkInto` | src/Router/dynamicRoutes.ts:6-25 | the loop with the shared accumulator appends exactly `Walk(items)` to the routes already accumulated |
| `DynamicRoutes.BuildRoutes` | src/Router/dynamicRoutes.ts:3-29 | `buildRoutes` over the registry's own keys (the corrected lookup) returns `Walk(Registry, menus)`, and nothing for an empty forest |
| `DynamicRoutes.OnlyRegisteredPagesRouted` | src/Router/dynamicRoutes.ts:9-13 | with the registry's own keys, every route is named after a registered component and loads a page |
| `DynamicRoutes.InheritedNameRoutedAsWritten` | src/Router/dynamicRoutes.ts:9-18 | as written, a node with component `toString` (not a registered name) yields a route whose component is an inherited member rather than a page |
| `DynamicRoutes.UnknownChildSkipped` | src/Router/dynamicRoutes.ts:9-23 | a `Dashboard` node at `/a` with an `Unknown` child at `/a/b` yields exactly one route, for `/a`, public since `requiresAuth` is absent |
| `Menus.Step` | src/Store/menu.ts:37-60 | `setMenus` and a successful fetch store the payload as it is and mark loaded; `clearMenus` returns to the initial state; a failed fetch changes nothing; every action keeps "menus only when loaded" |
| `Menus.LoadedIffUnclearedLoad` | src/Store/menu.ts:37-60 | from the initial state, `loaded` holds iff some `setMenus` or successful fetch happened and no `clearMenus` came after it |
| `Menus.MenusAreLastPayload` | src/Store/menu.ts:37-60 | after the last load, until a clear or another load, the store holds exactly that load's payload, unvalidated, and is loaded; failed fetches in between change nothing |
| `Menus.MenusOnlyWhenLoaded` | src/Store/menu.ts:27-45 | from the initial state, a non-empty menu forest is only ever held by a loaded store |
| `Menus.MenuStore.constructor` | src/Store/menu.ts:27-30 | the initial state is no menus, not loaded |
| `Menus.MenuStore.HasMenus` | src/Store/menu.ts:33 | `hasMenus` is true iff the menu list is non-empty, and then the store is loaded |
| `Menus.MenuStore.SetMenus` | src/Store/menu.ts:37-40 | stores the given forest and marks the store loaded, whatever the prior state |
| `Menus.MenuStore.ClearMenus` | src/Store/menu.ts:42-45 | resets to no menus and not loaded, whatever the prior state (so clearing twice is clearing once) |
| `Menus.MenuStore.FetchMenus` | src/Store/menu.ts:47-61 | returns true iff the request succeeded; on success stores the payload and marks loaded, on failure leaves both fields unchanged; never raises |
| `GoogleConfig.Settled` | src/Shared/googleConfig.ts:12-26 | after a check `isChecking` is false; `isValid` holds iff no errors are held, so only after a successful request; errors are the array body, or none for another body, or the one fixed message on failure |
| `GoogleConfig.NonArrayBodyIsValid` | src/Shared/googleConfig.ts:18-19 | a successful response whose body is not an array leaves no errors and a valid configuration |
| `GoogleConfig.GoogleConfigStore.constructor` | src/Shared/googleConfig.ts:5-9 | the initial state is valid, not checking, no errors, which satisfies the validity invariant |
| `GoogleConfig.GoogleConfigStore.Check` | src/Shared/googleConfig.ts:12-26 | the state after a check is `Settled(response)` whatever it was before; `isChecking` ends false and the validity invariant holds |
| `Subscription.Settled` | src/Shared/subscription.ts:11-21 | after a check `isChecking` is false; `isValid` holds iff the request succeeded and the body's `data` field is the boolean `true` itself |
| `Subscription.TruthyIsNotEnough` | src/Shared/subscription.ts:15 | a truthy `data` other than `true` (a number, a string, an object) leaves the subscription invalid |
| `Subscription.SubscriptionStore.constructor` | src/Shared/subscription.ts:5-8 | the initial state is not valid, not checking |
| `Subscription.SubscriptionStore.CheckSubscription` | src/Shared/subscription.ts:11-21 | the state after a check is `Settled(response)` on every path, including the `TypeError` of a null body |
| `App.Guard` | src/main.ts:68-91 | no backend call iff the path is exactly a public path, otherwise exactly one `/auth-check`; proceeds iff public or the probe succeeded; otherwise redirects to `/login` with the full target path as `redirect` |
| `App.RedirectTargetIsPublic` | src/main.ts:68-87 | the guard's redirect target passes the guard without a probe, so a redirect cannot loop |
| `App.OnlyLoginIsPublic` | src/main.ts:68-81 | `/google-callback`, an unknown path and `/login/` are all probed, and redirected when the probe fails |
| `App.AuthStore.constructor` | src/main.ts:107 | the auth store starts with the remembered logged-in flag |
| `App.AuthStore.ClearUser` | src/main.ts:119 | clearing the user ends the logged-in state |
| `App.Router.constructor` | src/main.ts:36-65 | the static table has one named route, `DefaultLayout`, with no dynamic children and no navigation pushed |
| `App.Router.AddRoute` | src/main.ts:116 | appends one route under the named parent and changes nothing else |
| `App.Router.AddRoutes` | src/main.ts:116 | appends all routes under the named parent in order and changes nothing else |
| `App.Router.Push` | src/main.ts:121 | records the navigation and leaves the routes alone |
| `App.InitApp` | src/main.ts:103-124 | not logged in: no calls and no change; probe fails: user cleared, menus cleared, `/login` pushed, no routes added; probe succeeds: menus fetched only if not loaded (a failed fetch leaves them as they were), then the builder's routes for the store's menus are appended under `DefaultLayout` in builder order |

## Findings

| source | as written | input that shows it | evidently intended | confidence | as-written member | corrected member |
|---|---|---|---|---|---|---|
| src/Router/dynamicRoutes.ts:9 | `componentMap[menu.component]` looks the name up on a plain object literal, so names inherited from `Object.prototype` resolve to truthy values | a menu node with component `"toString"` (or `"constructor"`, `"valueOf"`, `"__proto__"`, ...) | only the ten registered names yield a route, and every route loads a page | not executed; high (standard property lookup on an object literal) | `DynamicRoutes.InheritedNameRoutedAsWritten` | `DynamicRoutes.OnlyRegisteredPagesRouted` |

The rest of the model (`BuildRoutes`, `InitApp`) uses the corrected own-key
lookup; "## Left out" records what that means for those two members.

## Left out

- DynamicRoutes.BuildRoutes: walks the registry's own keys, the corrected lookup. A node whose component is a name inherited from `Object.prototype` (such as `toString`) gets a route from the source's `buildRoutes` and none here. The as-written table is walked in `DynamicRoutes.InheritedNameRoutedAsWritten`.
- App.InitApp: the routes it adds under `DefaultLayout` are `Walk(Registry, menus)`, the corrected lookup. For a menu with an inherited-name component, the source's `initApp` also adds that node's route.
- HTTP client and backend: every request is a `Response` parameter. Retries, timeouts and status codes beyond success or failure are not modelled.
- Framework wiring: `createApp`, `createRouter`, `app.use`, `app.mount`, the Highcharts, toast and CSS imports, and the static routes' components are not modelled. The router is reduced to its named children and the navigations pushed.
- Store persistence: the persisted-state plugin may start the menu store from a state saved earlier. Such a state was reached by the same actions, so the invariants proved from the initial state cover it, but restoring is not modelled.
- Page loaders and `.vue` pages are opaque tokens. Nothing is imported.
- Toast notifications and `console.error` in `fetchMenus` are not modelled. They are user-interface and logging side effects.
- Auth store: its module is not part of this model. Only the `isLoggedIn` flag and `clearUser` are modelled.
- Concurrency: each status check is one atomic settle. The moment during the await when `isChecking` is true is not observable, and the last-writer-wins race of overlapping checks is not modelled.
- Subscription: only the flat `data === true` response shape is modelled. A nested `{isValid, expiresAt}` shape does not appear in this code.
- Menus.MenuStore.FetchMenus: the payload `response.data.data` is typed as a menu forest. A body that is `undefined` or `null` is modelled as a failed response, matching the caught `TypeError`. A payload of another shape (an object, a number) and the error `buildRoutes` would then throw inside start-up are not modelled.
- Menus.Menu: `component` is a string or absent, and `children` is a list or absent (absent and empty walk the same way). Nodes that are not objects, and non-string components, are not modelled.
- App.Router.AddRoute: requires the parent name to exist. vue-router's error for an unknown parent, and its replacement of an earlier route with the same name, are not modelled. So `addRoute` never throws here, and the case where routes added before a throw stay registered cannot arise.
- Js.Value: numbers are reals. Infinities and the sign of zero are not distinguished. Property reads are modelled only for keys that no built-in prototype defines, such as `data`.
