// FeatureEntitlementService: which features a tenant may have, answered from a
// node-local cache in front of a shared table.
module Entitlements {
  import opened Results

  const CACHE_TTL_MS := 30_000

  type Tenant = string
  type FeatureKey = string

  datatype Feature = Feature(defaultEnabled: bool, irreversible: bool)

  // The features the program knows, with their properties.
  type Catalog = map<FeatureKey, Feature>

  type FeatureMap = map<FeatureKey, bool>

  // A row of the entitlement table, as loadMap selects it.
  datatype Row = Row(featureKey: FeatureKey, enabled: bool)

  datatype CacheEntry = CacheEntry(features: FeatureMap, expiresAt: int)

  datatype SetInput = SetInput(enabled: bool, acknowledgeIrreversible: bool)

  datatype SetError = UnknownFeature | CannotTurnOff | NotAcknowledged

  function DefaultEnabledMap(catalog: Catalog): FeatureMap {
    map key | key in catalog :: catalog[key].defaultEnabled
  }

  // The features of one tenant according to its rows; a later row wins.
  ghost function Overlay(catalog: Catalog, rows: seq<Row>): (features: FeatureMap)
    ensures features.Keys == catalog.Keys
  {
    if rows == [] then DefaultEnabledMap(catalog) else
      var last := rows[|rows| - 1];
      var before := Overlay(catalog, rows[..|rows| - 1]);
      if last.featureKey in catalog then before[last.featureKey := last.enabled] else before
  }

  // setEnabled's checks, in order, before anything is read or written.
  function CheckSet(catalog: Catalog, key: FeatureKey, input: SetInput): (r: Result<bool, SetError>)
    ensures r.Success? <==>
      key in catalog && (catalog[key].irreversible ==> input.enabled && input.acknowledgeIrreversible)
    ensures r.Success? ==> r.value == input.enabled
    ensures r == Failure(CannotTurnOff) <==> key in catalog && catalog[key].irreversible && !input.enabled
    ensures r == Failure(UnknownFeature) <==> key !in catalog
  {
    if key !in catalog then Failure(UnknownFeature)
    else if catalog[key].irreversible && !input.enabled then Failure(CannotTurnOff)
    else if catalog[key].irreversible && !input.acknowledgeIrreversible then Failure(NotAcknowledged)
    else Success(input.enabled)
  }

  // What a cached entry, if any, answers at time `now`.
  function Hit(cached: Option<CacheEntry>, now: int): Option<FeatureMap> {
    if cached.Some? && cached.value.expiresAt > now then Some(cached.value.features) else None
  }

  function NewEntry(features: FeatureMap, now: int): CacheEntry {
    CacheEntry(features, now + CACHE_TTL_MS)
  }

  // One node's service object, cut where it awaits the database.
  class FeatureEntitlementService {
    const catalog: Catalog
    var cache: map<Tenant, CacheEntry>

    constructor (catalog: Catalog)
      ensures this.catalog == catalog && cache == map[]
    {
      this.catalog := catalog;
      cache := map[];
    }

    function Cached(tenantId: Tenant): Option<CacheEntry>
      reads this
    {
      if tenantId in cache then Some(cache[tenantId]) else None
    }

    // loadMap up to its query: a hit, or nothing and the query goes out.
    method LookUp(tenantId: Tenant, now: int) returns (features: Option<FeatureMap>)
      ensures features == Hit(Cached(tenantId), now)
    {
      if tenantId in cache && cache[tenantId].expiresAt > now {
        return Some(cache[tenantId].features);
      }
      return None;
    }

    // loadMap from the query's reply on.
    method StoreRows(tenantId: Tenant, rows: seq<Row>, now: int) returns (features: FeatureMap)
      modifies this
      ensures features == Overlay(catalog, rows)
      ensures cache == old(cache)[tenantId := NewEntry(features, now)]
    {
      features := DefaultEnabledMap(catalog);
      for i := 0 to |rows|
        invariant features == Overlay(catalog, rows[..i])
        invariant cache == old(cache)
      {
        assert rows[..i + 1][..i] == rows[..i];
        if rows[i].featureKey in catalog {
          features := features[rows[i].featureKey := rows[i].enabled];
        }
      }
      assert rows[..|rows|] == rows;
      cache := cache[tenantId := CacheEntry(features, now + CACHE_TTL_MS)];
    }

    method Invalidate(tenantId: Tenant)
      modifies this
      ensures cache == old(cache) - {tenantId}
      ensures Cached(tenantId) == None
    {
      cache := cache - {tenantId};
    }
  }

  // ---------- The shared table ----------

  type Table = map<(Tenant, FeatureKey), bool>

  // The value in force: the row, or the catalog default without one.
  ghost function Effective(catalog: Catalog, table: Table, tenant: Tenant): FeatureMap {
    map key | key in catalog :: if (tenant, key) in table then table[(tenant, key)] else catalog[key].defaultEnabled
  }

  // The rows are what a query for this tenant finds: each once, in any order.
  ghost predicate Selects(rows: seq<Row>, table: Table, tenant: Tenant) {
    && (forall i, j :: 0 <= i < j < |rows| ==> rows[i].featureKey != rows[j].featureKey)
    && (forall key, enabled :: Row(key, enabled) in rows <==> (tenant, key) in table && table[(tenant, key)] == enabled)
  }

  lemma {:induction false} OverlayLooksUp(catalog: Catalog, rows: seq<Row>, key: FeatureKey)
    requires key in catalog
    requires forall i, j :: 0 <= i < j < |rows| ==> rows[i].featureKey != rows[j].featureKey
    ensures (exists row <- rows :: row.featureKey == key && Overlay(catalog, rows)[key] == row.enabled)
      || ((forall row <- rows :: row.featureKey != key) && Overlay(catalog, rows)[key] == catalog[key].defaultEnabled)
  {
    if rows != [] {
      var n := |rows| - 1;
      OverlayLooksUp(catalog, rows[..n], key);
      assert rows == rows[..n] + [rows[n]];
      if rows[n].featureKey == key {
        assert rows[n] in rows;
      }
    }
  }

  // The map built from a query's rows is the effective map, whatever order the
  // rows come in and whatever unknown keys are among them.
  lemma OverlayIsEffective(catalog: Catalog, rows: seq<Row>, table: Table, tenant: Tenant)
    requires Selects(rows, table, tenant)
    ensures Overlay(catalog, rows) == Effective(catalog, table, tenant)
  {
    forall key | key in catalog
      ensures Overlay(catalog, rows)[key] == Effective(catalog, table, tenant)[key]
    {
      OverlayLooksUp(catalog, rows, key);
      if (tenant, key) in table {
        assert Row(key, table[(tenant, key)]) in rows;
      }
      forall row <- rows | row.featureKey == key
        ensures (tenant, key) in table && table[(tenant, key)] == row.enabled
      {
        assert row == Row(key, row.enabled);
      }
    }
  }
}
