/** The index of installed application identifiers (`get_installed_bundle_ids`).
    Three discovery strategies each yield the identifiers they read from
    application manifests: the Spotlight query for application bundles, the
    system `/Applications` folder and the user `~/Applications` folder. A
    manifest that could not be read yields "", and a strategy that fails
    part-way yields only what it read before the failure, because the
    source adds each identifier to the shared set as soon as it is read. */
module InstalledApps {
  import opened Text

  /** The normalized identifiers one strategy contributes. */
  function Normalize(found: seq<string>): (r: set<string>)
    ensures forall id :: id in r <==> exists x :: x in found && x != "" && Lower(x) == id
    ensures forall id :: id in r ==> id != "" && IsLowerCase(id)
  {
    set x | x in found && x != "" :: Lower(x)
  }

  /** The union of the three strategies, lower-cased, with empty identifiers dropped. */
  function BuildIndex(spotlight: seq<string>, system: seq<string>, user: seq<string>): (r: set<string>)
    ensures forall id :: id in r ==> id != "" && IsLowerCase(id)
    ensures forall x :: (x in spotlight || x in system || x in user) && x != "" ==> Lower(x) in r
    ensures forall id :: id in r ==>
              exists x :: (x in spotlight || x in system || x in user) && x != "" && Lower(x) == id
  {
    Normalize(spotlight) + Normalize(system) + Normalize(user)
  }

  /** A strategy that contributes nothing leaves the other two strategies' identifiers in place. */
  lemma FailedStrategyContributesNothing(spotlight: seq<string>, system: seq<string>, user: seq<string>)
    ensures BuildIndex([], system, user) == Normalize(system) + Normalize(user)
    ensures BuildIndex(spotlight, [], user) == Normalize(spotlight) + Normalize(user)
    ensures BuildIndex(spotlight, system, []) == Normalize(spotlight) + Normalize(system)
  {
    assert Normalize([]) == {};
  }
}
