/**
 * The route builder: a depth-first, pre-order walk over a menu forest that
 * emits one route record for every node whose component name resolves in the
 * component registry, and descends into every node's children whether or not
 * the node itself produced a route.
 *
 * `Walk` is the meaning of the builder as a function; `WalkInto` and
 * `BuildRoutes` are the accumulator-and-loop form the source runs, proved to
 * compute it. The table consulted is a parameter so that both the registry's
 * own keys and the table as written can be walked.
 */
module DynamicRoutes {
  import opened Wrappers
  import Js
  import opened ComponentMap
  import opened Menus

  datatype Meta = Meta(requiresAuth: Js.Value, public: bool)

  datatype Route = Route(path: string, name: string, component: Loader, meta: Meta)

  /**
   * A node produces a route: its component name is truthy (non-empty) and
   * resolves in the table. Over the registry this is exactly "the name is
   * present and registered": no registered name is empty.
   */
  predicate Routable(table: map<string, Loader>, m: Menu) {
    m.component.Some? && m.component.value != "" && m.component.value in table
  }

  /** Over the registry, routable is exactly "the component is present and `Lookup` resolves it": no registered name is empty. */
  lemma RoutableOverRegistry(m: Menu)
    ensures Routable(Registry, m) <==> m.component.Some? && Lookup(m.component.value).Some?
  {
  }

  /** The record emitted for a routable node. */
  function ToRoute(table: map<string, Loader>, m: Menu): Route
    requires Routable(table, m)
  {
    var name := m.component.value;
    Route(m.path, name, table[name], Meta(m.requiresAuth, !Js.Truthy(m.requiresAuth)))
  }

  /** What a node contributes by itself, before its subtree. */
  function Emitted(table: map<string, Loader>, m: Menu): seq<Route> {
    if Routable(table, m) then [ToRoute(table, m)] else []
  }

  /**
   * A route carries the node's path, its component name as route name, the
   * loader the table gives that name, `requiresAuth` as it is, and `public`
   * as its negation, so that a node without `requiresAuth` is public.
   */
  lemma ToRouteFields(table: map<string, Loader>, m: Menu)
    requires Routable(table, m)
    ensures var r := ToRoute(table, m);
            && r.path == m.path && Some(r.name) == m.component
            && r.name in table && r.component == table[r.name]
            && r.meta.requiresAuth == m.requiresAuth
            && r.meta.public == !Js.Truthy(r.meta.requiresAuth)
            && (m.requiresAuth == Js.Undefined ==> r.meta.public)
  {
  }

  /** A node by itself contributes at most one route: its own route exactly when it is routable. */
  lemma EmittedIsOwnRoute(table: map<string, Loader>, m: Menu)
    ensures |Emitted(table, m)| <= 1
    ensures Emitted(table, m) != [] <==> Routable(table, m)
    ensures Emitted(table, m) != [] ==> Emitted(table, m)[0] == ToRoute(table, m)
  {
  }

  /** Every node of a forest, in depth-first pre-order. */
  function Preorder(items: seq<Menu>): seq<Menu>
    decreases items
  {
    if items == [] then []
    else [items[0]] + Preorder(items[0].children) + Preorder(items[1..])
  }

  /**
   * The routable nodes of a flat sequence, in order: exactly the members that
   * are routable, and never more of them than there are nodes.
   */
  function RoutableNodes(table: map<string, Loader>, nodes: seq<Menu>): (r: seq<Menu>)
    ensures |r| <= |nodes|
    ensures forall i :: 0 <= i < |r| ==> Routable(table, r[i])
    ensures forall m :: m in r <==> m in nodes && Routable(table, m)
  {
    if nodes == [] then []
    else (if Routable(table, nodes[0]) then [nodes[0]] else []) + RoutableNodes(table, nodes[1..])
  }

  /**
   * The routes the builder returns for a forest. Every route is named after a
   * registered component and carries that component's loader, its `public`
   * flag is the negation of the truthiness of `requiresAuth`, and there are
   * never more routes than nodes.
   */
  function Walk(table: map<string, Loader>, items: seq<Menu>): (r: seq<Route>)
    decreases items
    ensures forall i :: 0 <= i < |r| ==> r[i].name in table && r[i].component == table[r[i].name]
    ensures forall i :: 0 <= i < |r| ==> r[i].meta.public == !Js.Truthy(r[i].meta.requiresAuth)
  {
    if items == [] then []
    else Emitted(table, items[0]) + Walk(table, items[0].children) + Walk(table, items[1..])
  }

  /** Walking two sibling lists one after the other is walking their concatenation. */
  lemma {:induction false} WalkAppend(table: map<string, Loader>, a: seq<Menu>, b: seq<Menu>)
    ensures Walk(table, a + b) == Walk(table, a) + Walk(table, b)
    decreases |a|
  {
    if a == [] {
      assert a + b == b;
    } else {
      assert (a + b)[0] == a[0];
      assert (a + b)[1..] == a[1..] + b;
      WalkAppend(table, a[1..], b);
    }
  }

  /**
   * Pre-order: the routes of earlier siblings come first, then the node's own
   * route, then those of its subtree, then those of later siblings. In
   * particular a node that emits nothing still has its children walked.
   */
  lemma PreorderPlacement(table: map<string, Loader>, before: seq<Menu>, m: Menu, after: seq<Menu>)
    ensures Walk(table, before + [m] + after)
         == Walk(table, before) + (Emitted(table, m) + Walk(table, m.children)) + Walk(table, after)
  {
    WalkAppend(table, before + [m], after);
    WalkAppend(table, before, [m]);
    WalkSingle(table, m);
  }

  lemma WalkSingle(table: map<string, Loader>, m: Menu)
    ensures Walk(table, [m]) == Emitted(table, m) + Walk(table, m.children)
  {
    assert [m][1..] == [];
  }

  /** Filtering a single node keeps it exactly when it is routable. */
  lemma RoutableNodesSingle(table: map<string, Loader>, m: Menu)
    ensures RoutableNodes(table, [m]) == if Routable(table, m) then [m] else []
  {
    assert [m][1..] == [];
  }

  /**
   * Filtering keeps order and multiplicity: with `RoutableNodesSingle`, it
   * distributes over concatenation node by node.
   */
  lemma {:induction false} RoutableNodesAppend(table: map<string, Loader>, a: seq<Menu>, b: seq<Menu>)
    ensures RoutableNodes(table, a + b) == RoutableNodes(table, a) + RoutableNodes(table, b)
    decreases |a|
  {
    if a == [] {
      assert a + b == b;
    } else {
      assert (a + b)[0] == a[0];
      assert (a + b)[1..] == a[1..] + b;
      RoutableNodesAppend(table, a[1..], b);
    }
  }

  /** Routes of a flat sequence of nodes, node by node. */
  function RoutesOf(table: map<string, Loader>, nodes: seq<Menu>): seq<Route> {
    if nodes == [] then [] else Emitted(table, nodes[0]) + RoutesOf(table, nodes[1..])
  }

  lemma {:induction false} RoutesOfAppend(table: map<string, Loader>, a: seq<Menu>, b: seq<Menu>)
    ensures RoutesOf(table, a + b) == RoutesOf(table, a) + RoutesOf(table, b)
    decreases |a|
  {
    if a == [] {
      assert a + b == b;
    } else {
      assert (a + b)[0] == a[0];
      assert (a + b)[1..] == a[1..] + b;
      RoutesOfAppend(table, a[1..], b);
    }
  }

  /** Walking the forest is visiting its nodes in pre-order, one after the other. */
  lemma {:induction false} WalkIsRoutesOfPreorder(table: map<string, Loader>, items: seq<Menu>)
    ensures Walk(table, items) == RoutesOf(table, Preorder(items))
    decreases items
  {
    if items != [] {
      var m := items[0];
      WalkIsRoutesOfPreorder(table, m.children);
      WalkIsRoutesOfPreorder(table, items[1..]);
      RoutesOfAppend(table, [m] + Preorder(m.children), Preorder(items[1..]));
      RoutesOfAppend(table, [m], Preorder(m.children));
      assert [m][1..] == [];
    }
  }

  /** On a flat sequence: the routes are those of the routable nodes, one each, in order. */
  lemma {:induction false} RoutesOfRoutableNodes(table: map<string, Loader>, nodes: seq<Menu>)
    ensures |RoutesOf(table, nodes)| == |RoutableNodes(table, nodes)|
    ensures forall i :: 0 <= i < |RoutesOf(table, nodes)| ==>
              RoutesOf(table, nodes)[i] == ToRoute(table, RoutableNodes(table, nodes)[i])
    decreases |nodes|
  {
    if nodes != [] {
      RoutesOfRoutableNodes(table, nodes[1..]);
    }
  }

  /**
   * The builder is "take the nodes in pre-order, keep the routable ones, turn
   * each into its route": same length, same order, one route per routable node.
   */
  lemma WalkIsRoutablePreorder(table: map<string, Loader>, items: seq<Menu>)
    ensures |Walk(table, items)| == |RoutableNodes(table, Preorder(items))|
    ensures forall i :: 0 <= i < |Walk(table, items)| ==>
              Walk(table, items)[i] == ToRoute(table, RoutableNodes(table, Preorder(items))[i])
  {
    WalkIsRoutesOfPreorder(table, items);
    RoutesOfRoutableNodes(table, Preorder(items));
  }

  /** The number of routes is the number of routable nodes, at most the number of nodes. */
  lemma RouteCount(table: map<string, Loader>, items: seq<Menu>)
    ensures |Walk(table, items)| == |RoutableNodes(table, Preorder(items))| <= |Preorder(items)|
  {
    WalkIsRoutablePreorder(table, items);
  }

  /** A route is emitted exactly for the routable nodes of the forest, and is built from that node's fields. */
  lemma {:induction false} RouteIffRoutableNode(table: map<string, Loader>, items: seq<Menu>, r: Route)
    ensures r in Walk(table, items) <==>
              exists m :: m in Preorder(items) && Routable(table, m) && r == ToRoute(table, m)
  {
    WalkIsRoutablePreorder(table, items);
    var routes, ns := Walk(table, items), RoutableNodes(table, Preorder(items));
    if r in routes {
      var i :| 0 <= i < |routes| && routes[i] == r;
      assert ns[i] in ns;
    }
    if exists m :: m in Preorder(items) && Routable(table, m) && r == ToRoute(table, m) {
      var m :| m in Preorder(items) && Routable(table, m) && r == ToRoute(table, m);
      assert m in ns;
      var i :| 0 <= i < |ns| && ns[i] == m;
      assert routes[i] == r;
    }
  }

  /** No deduplication: repeating a node repeats its routes. */
  lemma {:induction false} DuplicatesKept(table: map<string, Loader>, m: Menu)
    ensures Walk(table, [m, m]) == Walk(table, [m]) + Walk(table, [m])
    ensures Routable(table, m) ==> |Walk(table, [m, m])| >= 2
  {
    WalkAppend(table, [m], [m]);
    assert [m] + [m] == [m, m];
  }

  /**
   * Extending a prefix of a sibling list by one node adds that node's route
   * and its subtree's, after whatever was accumulated before.
   */
  lemma WalkPrefixStep(table: map<string, Loader>, items: seq<Menu>, i: nat, acc: seq<Route>)
    requires i < |items|
    ensures acc + Walk(table, items[..i + 1])
         == ((acc + Walk(table, items[..i])) + Emitted(table, items[i])) + Walk(table, items[i].children)
  {
    assert items[..i] + [items[i]] == items[..i + 1];
    WalkAppend(table, items[..i], [items[i]]);
    WalkSingle(table, items[i]);
  }

  /** The builder's accumulator: appends the routes of `items` to `routes`, walking children recursively. */
  method WalkInto(table: map<string, Loader>, items: seq<Menu>, routes: seq<Route>) returns (out: seq<Route>)
    decreases items
    ensures out == routes + Walk(table, items)
  {
    out := routes;
    assert items[..0] == [];
    for i := 0 to |items|
      invariant out == routes + Walk(table, items[..i])
    {
      var menu := items[i];
      ghost var before := out;
      if Routable(table, menu) {
        out := out + [ToRoute(table, menu)];
      }
      assert out == before + Emitted(table, menu);
      if |menu.children| > 0 {
        out := WalkInto(table, menu.children, out);
      }
      WalkPrefixStep(table, items, i, routes);
    }
    assert items[..|items|] == items;
  }

  /** `buildRoutes` over the registry: the route list for a menu forest; empty for an empty forest. */
  method BuildRoutes(menus: seq<Menu>) returns (routes: seq<Route>)
    ensures routes == Walk(Registry, menus)
    ensures menus == [] ==> routes == []
  {
    routes := [];
    routes := WalkInto(Registry, menus, routes);
  }

  /** With the registry's own keys, every route loads one of the registered pages. */
  lemma {:induction false} OnlyRegisteredPagesRouted(items: seq<Menu>)
    ensures forall r :: r in Walk(Registry, items) ==> r.name in Registry.Keys && r.component.Page?
  {
    forall r | r in Walk(Registry, items)
      ensures r.name in Registry.Keys && r.component.Page?
    {
      var i :| 0 <= i < |Walk(Registry, items)| && Walk(Registry, items)[i] == r;
      assert Lookup(r.name).Some?;
    }
  }

  /**
   * As written, the lookup also accepts names inherited from `Object.prototype`:
   * a node whose component is "toString" yields a route whose component is not
   * a page loader.
   */
  lemma InheritedNameRoutedAsWritten(path: string)
    ensures "toString" !in Registry
    ensures Walk(AsWrittenTable(), [Menu(1, "t", path, Some("toString"), None, None, 0, Js.Undefined, [])])
         == [Route(path, "toString", PrototypeMember("toString"), Meta(Js.Undefined, true))]
  {
    PrototypeNamesAreNotRegistered();
    var m := Menu(1, "t", path, Some("toString"), None, None, 0, Js.Undefined, []);
    assert "toString" in AsWrittenTable();
    assert Routable(AsWrittenTable(), m);
    assert [m][1..] == [];
  }

  /** A routable parent with an unregistered child yields exactly the parent's route. */
  lemma UnknownChildSkipped()
    ensures
      var child := Menu(2, "b", "/a/b", Some("Unknown"), None, Some(1), 0, Js.Undefined, []);
      var parent := Menu(1, "a", "/a", Some("Dashboard"), None, None, 0, Js.Undefined, [child]);
      Walk(Registry, [parent]) == [Route("/a", "Dashboard", Page("../pages/Dashboard.vue"), Meta(Js.Undefined, true))]
  {
    var child := Menu(2, "b", "/a/b", Some("Unknown"), None, Some(1), 0, Js.Undefined, []);
    var parent := Menu(1, "a", "/a", Some("Dashboard"), None, None, 0, Js.Undefined, [child]);
    assert !Routable(Registry, child);
    WalkSingle(Registry, child);
    assert Walk(Registry, child.children) == [];
    assert Walk(Registry, [child]) == [];
    assert Routable(Registry, parent);
    WalkSingle(Registry, parent);
    assert Walk(Registry, [parent]) == Emitted(Registry, parent) + [];
  }
}
