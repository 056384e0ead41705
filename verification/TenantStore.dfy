/** The in-memory stores of the event-sourced logs: tenant to records, in the order they were first stored. */
module TenantStores {
  import opened Options
  import opened OrderedDicts

  type TenantStore<+V> = map<string, Dict<string, V>>

  function BucketOf<V>(store: TenantStore<V>, tenant: string): Dict<string, V> {
    if tenant in store then store[tenant] else []
  }

  function Find<V>(store: TenantStore<V>, tenant: string, id: string): Option<V> {
    Lookup(BucketOf(store, tenant), id)
  }

  /** `store.setdefault(tenant, {})[id] = v`. */
  function SetIn<V>(store: TenantStore<V>, tenant: string, id: string, v: V): TenantStore<V> {
    store[tenant := Assign(BucketOf(store, tenant), id, v)]
  }

  lemma FindSetIn<V>(store: TenantStore<V>, tenant: string, id: string, v: V, t: string, k: string)
    ensures Find(SetIn(store, tenant, id, v), t, k) == if t == tenant && k == id then Some(v) else Find(store, t, k)
  {
    AssignLookup(BucketOf(store, tenant), id, v, k);
  }

  lemma SetInTwice<V>(store: TenantStore<V>, tenant: string, id: string, a: V, b: V)
    ensures SetIn(SetIn(store, tenant, id, a), tenant, id, b) == SetIn(store, tenant, id, b)
  {
    AssignTwice(BucketOf(store, tenant), id, a, b);
  }

  lemma {:induction false} RemoveFinds<V>(d: Dict<string, V>, k: string, q: string)
    ensures Lookup(Remove(d, k), q) == if q == k then None else Lookup(d, q)
  {
    if d != [] {
      RemoveFinds(d[1..], k, q);
      if d[0].key != k {
        assert ([d[0]] + Remove(d[1..], k))[1..] == Remove(d[1..], k);
      }
    }
  }

  /** `store.get(tenant, {}).pop(id, None)`, skipped for a blank id. */
  lemma FindRemoved<V>(store: TenantStore<V>, tenant: string, id: string, t: string, k: string)
    ensures var after := if tenant in store && id != "" then store[tenant := Remove(store[tenant], id)] else store;
            Find(after, t, k) == if t == tenant && k == id && id != "" then None else Find(store, t, k)
  {
    if tenant in store {
      RemoveFinds(store[tenant], id, k);
    }
  }
}
