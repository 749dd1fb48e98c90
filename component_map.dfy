/**
 * The component registry: a constant table from the symbolic component names
 * a menu node may carry to deferred page loaders. A loader is an opaque token
 * naming the module it would import; nothing is loaded by a lookup.
 */
module ComponentMap {
  import opened Wrappers

  datatype Loader =
    | Page(file: string)              // `() => import(file)`
    | PrototypeMember(name: string)   // a property every plain object inherits

  /** The ten registered names; `stripe` and `plans` are lower case. */
  const Registry: map<string, Loader> := map[
    "Dashboard" := Page("../pages/Dashboard.vue"),
    "SiteManagement" := Page("../pages/SiteManagement.vue"),
    "Settings" := Page("../pages/Settings.vue"),
    "CrawlIndexManagement" := Page("../pages/CrawlIndexManagement.vue"),
    "CrawlIndexDetails" := Page("../pages/CrawlIndexDetails.vue"),
    "GoogleConfiguration" := Page("../pages/GoogleConfiguration.vue"),
    "ScheduleConfiguration" := Page("../pages/ScheduleConfiguration.vue"),
    "Users" := Page("../pages/Users.vue"),
    "stripe" := Page("../Subscriptions/stripe.vue"),
    "plans" := Page("../Subscriptions/plans.vue")
  ]

  /** Names of the properties of `Object.prototype`; each holds a truthy value. */
  const ObjectPrototypeNames: set<string> := {
    "constructor", "hasOwnProperty", "isPrototypeOf", "propertyIsEnumerable",
    "toLocaleString", "toString", "valueOf", "__proto__",
    "__defineGetter__", "__defineSetter__", "__lookupGetter__", "__lookupSetter__"
  }

  /** Lookup restricted to the registry's own keys: None for every other name. */
  function Lookup(name: string): (r: Option<Loader>)
    ensures r.Some? <==> name in Registry.Keys
    ensures r.Some? ==> r.value.Page?
  {
    if name in Registry then Some(Registry[name]) else None
  }

  /**
   * What `componentMap[name]` yields as written: the registry is an object
   * literal, so besides its own keys every inherited property name resolves
   * to a truthy value.
   */
  function AsWrittenTable(): (t: map<string, Loader>)
    ensures t.Keys == Registry.Keys + ObjectPrototypeNames
    ensures forall name :: name in Registry ==> name in t && t[name] == Registry[name]
  {
    map name | name in Registry.Keys + ObjectPrototypeNames ::
      if name in Registry then Registry[name] else PrototypeMember(name)
  }

  /** The registry's key set is exactly the ten names. */
  lemma RegistryKeys()
    ensures Registry.Keys == {"Dashboard", "SiteManagement", "Settings", "CrawlIndexManagement",
                              "CrawlIndexDetails", "GoogleConfiguration", "ScheduleConfiguration",
                              "Users", "stripe", "plans"}
  {
  }

  /** Lookup is case-sensitive: the lower-case names do not answer to capitalised ones. */
  lemma LookupIsCaseSensitive()
    ensures Lookup("Stripe") == None && Lookup("Plans") == None && Lookup("") == None
    ensures Lookup("stripe") == Some(Page("../Subscriptions/stripe.vue"))
  {
  }

  /** The registry's own keys and the inherited names are disjoint, so the as-written table only adds names. */
  lemma PrototypeNamesAreNotRegistered()
    ensures Registry.Keys !! ObjectPrototypeNames
    ensures forall name :: name in ObjectPrototypeNames ==> Lookup(name) == None
  {
  }
}
