/**
 * The menu store: the user's menu forest as fetched from the backend and a
 * `loaded` flag. Its three actions are modelled twice: as a transition
 * function on a state value (for properties of whole action histories) and as
 * the methods of a class whose fields they assign.
 */
module Menus {
  import opened Wrappers
  import opened Http
  import Js

  /**
   * A menu node. An absent `children` field is the empty sequence (the route
   * builder only descends into a non-empty one, which is the same thing).
   * `requiresAuth` is not declared by the interface but is read by the route
   * builder; an absent field is `Js.Undefined`.
   */
  datatype Menu = Menu(
    id: int,
    title: string,
    path: string,
    component: Option<string>,
    icon: Option<string>,
    parentId: Option<int>,
    sortOrder: int,
    requiresAuth: Js.Value,
    children: seq<Menu>)

  const MenuEndpoint: string := "/menu"

  datatype MenuState = MenuState(menus: seq<Menu>, loaded: bool)

  const InitialState: MenuState := MenuState([], false)

  /** The store's actions; a fetch carries the outcome of its one request to the menu endpoint. */
  datatype MenuAction =
    | SetMenus(menus: seq<Menu>)
    | ClearMenus
    | FetchMenus(response: Response<seq<Menu>>)

  /** The actions that store a menu forest and mark the store loaded. */
  predicate Loads(a: MenuAction) {
    a.SetMenus? || (a.FetchMenus? && a.response.Received?)
  }

  function Payload(a: MenuAction): seq<Menu>
    requires Loads(a)
  {
    if a.SetMenus? then a.menus else a.response.data
  }

  /**
   * The state after one action: a load stores its payload as it is and marks
   * the store loaded, a clear empties it, and a failed fetch is swallowed and
   * changes nothing. Every action keeps "menus only when loaded".
   */
  function Step(s: MenuState, a: MenuAction): (r: MenuState)
    ensures Loads(a) ==> r == MenuState(Payload(a), true)
    ensures a.ClearMenus? ==> r == InitialState
    ensures !Loads(a) && !a.ClearMenus? ==> r == s
    ensures (s.menus != [] ==> s.loaded) ==> (r.menus != [] ==> r.loaded)
  {
    match a
    case SetMenus(m) => MenuState(m, true)
    case ClearMenus => MenuState([], false)
    case FetchMenus(Failed) => s
    case FetchMenus(Received(m)) => MenuState(m, true)
  }

  /** The state after a history of actions, applied first to last. */
  function Run(s: MenuState, actions: seq<MenuAction>): MenuState
    decreases |actions|
  {
    if actions == [] then s
    else Step(Run(s, actions[..|actions| - 1]), actions[|actions| - 1])
  }

  /** A load at index i that no later clear undoes. */
  ghost predicate LoadStands(actions: seq<MenuAction>, i: int) {
    0 <= i < |actions| && Loads(actions[i]) &&
    forall j :: i < j < |actions| ==> !actions[j].ClearMenus?
  }

  /** From the initial state, `loaded` holds exactly when some load has happened and no clear came after it. */
  lemma {:induction false} LoadedIffUnclearedLoad(actions: seq<MenuAction>)
    ensures Run(InitialState, actions).loaded <==> exists i :: LoadStands(actions, i)
    decreases |actions|
  {
    if actions != [] {
      var n := |actions| - 1;
      var prefix := actions[..n];
      LoadedIffUnclearedLoad(prefix);
      var a := actions[n];
      if Loads(a) {
        assert LoadStands(actions, n);
      } else if a.ClearMenus? {
        forall i | 0 <= i < |actions| ensures !LoadStands(actions, i) {
          if i < n { assert actions[n].ClearMenus?; }
        }
      } else {
        assert Run(InitialState, actions) == Run(InitialState, prefix);
        if exists i :: LoadStands(prefix, i) {
          var i :| LoadStands(prefix, i);
          assert LoadStands(actions, i);
        }
        if exists i :: LoadStands(actions, i) {
          var i :| LoadStands(actions, i);
          assert i < n;
          assert LoadStands(prefix, i);
        }
      }
    }
  }

  /** After the last load, as long as nothing is cleared or loaded again, the store holds that load's payload. */
  lemma {:induction false} MenusAreLastPayload(actions: seq<MenuAction>, i: int)
    requires 0 <= i < |actions| && Loads(actions[i])
    requires forall j :: i < j < |actions| ==> !Loads(actions[j]) && !actions[j].ClearMenus?
    ensures Run(InitialState, actions) == MenuState(Payload(actions[i]), true)
    decreases |actions|
  {
    var n := |actions| - 1;
    if i < n {
      MenusAreLastPayload(actions[..n], i);
    }
  }

  /** From the initial state a non-empty menu forest is only ever held by a loaded store. */
  lemma {:induction false} MenusOnlyWhenLoaded(actions: seq<MenuAction>)
    ensures Run(InitialState, actions).menus != [] ==> Run(InitialState, actions).loaded
    decreases |actions|
  {
    if actions != [] {
      MenusOnlyWhenLoaded(actions[..|actions| - 1]);
    }
  }

  /** The store as a mutable object, as the rest of the application uses it. */
  class MenuStore {
    var menus: seq<Menu>
    var loaded: bool

    function State(): MenuState
      reads this
    {
      MenuState(menus, loaded)
    }

    /** Every state the actions reach keeps menus empty while unloaded. */
    ghost predicate Valid()
      reads this
    {
      menus != [] ==> loaded
    }

    constructor ()
      ensures Valid() && State() == InitialState
    {
      menus := [];
      loaded := false;
    }

    /** The `hasMenus` getter. */
    function HasMenus(): (b: bool)
      reads this
      requires Valid()
      ensures b <==> |menus| > 0
      ensures b ==> loaded
    {
      |menus| > 0
    }

    method SetMenus(m: seq<Menu>)
      modifies this
      ensures Valid() && menus == m && loaded
      ensures State() == Step(old(State()), MenuAction.SetMenus(m))
    {
      menus := m;
      loaded := true;
    }

    method ClearMenus()
      modifies this
      ensures Valid() && menus == [] && !loaded
      ensures State() == Step(old(State()), MenuAction.ClearMenus)
    {
      menus := [];
      loaded := false;
    }

    /** One request to the menu endpoint; a failure is reported by the result, never raised. */
    method FetchMenus(response: Response<seq<Menu>>) returns (ok: bool)
      requires Valid()
      modifies this
      ensures Valid()
      ensures ok <==> response.Received?
      ensures ok ==> menus == response.data && loaded
      ensures !ok ==> menus == old(menus) && loaded == old(loaded)
      ensures State() == Step(old(State()), MenuAction.FetchMenus(response))
    {
      match response
      case Received(payload) =>
        SetMenus(payload);
        ok := true;
      case Failed =>
        ok := false;
    }
  }
}
