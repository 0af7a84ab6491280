/**
 * The tab identity provider: one identifier per browser profile, kept under
 * the well-known key and generated on first use.
 */
module TabIdentity {
  import opened JsValues
  import opened Storage

  /** `tab_${Date.now()}_${suffix}`; the clock reading and the random base-36
      suffix are parameters. */
  function GenerateTabId(now: int, suffix: string): (id: string)
    ensures StartsWith(id, "tab_")
    ensures |id| > 4
  {
    "tab_" + IntToDecimal(now) + "_" + suffix
  }

  datatype Identity = Identity(id: string, store: Store)

  /** The stored identity, when it is a non-empty string. An entry holding a JSON
      document is treated as absent (see the README). */
  predicate HasIdentity(store: Store) {
    IdentityKey in store && store[IdentityKey].Raw? && store[IdentityKey].text != ""
  }

  /** Get-or-create: a stored, truthy identity is returned with the store left
      alone; otherwise a freshly generated one is stored and returned. */
  function GetTabId(store: Store, now: int, suffix: string): (r: Identity)
    ensures r.id != ""
    ensures HasIdentity(r.store) && r.store[IdentityKey] == Raw(r.id)
    ensures HasIdentity(store) ==> r.id == store[IdentityKey].text && r.store == store
    ensures !HasIdentity(store) ==> r.id == GenerateTabId(now, suffix)
    ensures forall k :: k != IdentityKey ==> Get(r.store, k) == Get(store, k)
  {
    if HasIdentity(store) then Identity(store[IdentityKey].text, store)
    else
      var id := GenerateTabId(now, suffix);
      Identity(id, store[IdentityKey := Raw(id)])
  }

  /** A second lookup, whatever the clock and the random draw, changes nothing. */
  lemma GetTabIdIdempotent(store: Store, now: int, suffix: string, now2: int, suffix2: string)
    ensures var first := GetTabId(store, now, suffix);
            GetTabId(first.store, now2, suffix2) == first
  {
  }

  /** An empty stored identity counts as absent and is replaced. */
  lemma EmptyIdentityIsReplaced(store: Store, now: int, suffix: string)
    requires IdentityKey in store && store[IdentityKey] == Raw("")
    ensures GetTabId(store, now, suffix).id == GenerateTabId(now, suffix)
    ensures GetTabId(store, now, suffix).store[IdentityKey] != Raw("")
  {
  }
}
