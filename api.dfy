/** The REST handlers of AssetTrack over the in-memory store. A request
    reaches a handler as its path parameter, its query values and its body
    already decoded: `None` stands for a body the JSON decoder rejects. A
    handler's answer is the status code and the JSON envelope
    `{data, error, meta}` it writes. */
module Api {
  import opened Models
  import opened Text
  import opened Store
  import opened Http

  datatype Option<T> = None | Some(value: T)

  const JsonContentType := "application/json"

  /** What the envelope's `data` member carries. */
  datatype Data =
    | NoData
    | AssetData(asset: Asset)
    | AssetList(assets: seq<Asset>)
    | StatsData(stats: AssetStats)
    | RecordData(record: MaintenanceRecord)
    | RecordList(records: seq<MaintenanceRecord>)
    | HealthData(health: string)

  /** A response: status code, Content-Type header ("" when not set), and
      the envelope's data, error and meta total as encoded. */
  datatype Response = Response(status: int, contentType: string, data: Data, error: string, total: Option<int>)

  function RespondJSON(status: int, data: Data): Response {
    Response(status, JsonContentType, data, "", None)
  }

  function RespondError(status: int, message: string): Response {
    Response(status, JsonContentType, NoData, message, None)
  }

  /** The meta total as it appears in the encoded envelope: the field is
      omitted when empty, so a zero total is absent. */
  function MetaTotal(total: int): (t: Option<int>)
    ensures t.Some? <==> total != 0
    ensures t.Some? ==> t.value == total
  {
    if total == 0 then None else Some(total)
  }

  function RespondList(data: Data, total: int): Response {
    Response(StatusOK, JsonContentType, data, "", MetaTotal(total))
  }

  /** `url.Values.Get`: the first value of `key`, or "" when there is none. */
  function QueryGet(query: map<string, seq<string>>, key: string): (v: string)
    ensures key in query && |query[key]| > 0 ==> v == query[key][0]
    ensures !(key in query && |query[key]| > 0) ==> v == ""
  {
    if key in query && |query[key]| > 0 then query[key][0] else ""
  }

  class Handler {
    const store: MemoryStore

    constructor (s: MemoryStore)
      ensures store == s
    {
      store := s;
    }

    /** GET /api/assets: the assets matching the filter made of the query
        values status, category, department and search (no limit, no
        offset), with meta.total their number. */
    method ListAssets(query: map<string, seq<string>>) returns (resp: Response)
      requires store.Valid()
      ensures resp.status == StatusOK && resp.contentType == JsonContentType && resp.data.AssetList?
      ensures resp.total == MetaTotal(|resp.data.assets|)
      ensures var f := AssetFilter(QueryGet(query, "status"), QueryGet(query, "category"),
                                   QueryGet(query, "department"), QueryGet(query, "search"), 0, 0);
        && (forall i :: 0 <= i < |resp.data.assets| ==>
              resp.data.assets[i].ID in store.assets && store.assets[resp.data.assets[i].ID] == resp.data.assets[i]
              && Matches(f, resp.data.assets[i]))
        && (forall k :: k in store.assets && Matches(f, store.assets[k]) ==> store.assets[k] in resp.data.assets)
        && |resp.data.assets| == |MatchingKeys(store.assets, f)|
    {
      var filter := AssetFilter(QueryGet(query, "status"), QueryGet(query, "category"),
                                QueryGet(query, "department"), QueryGet(query, "search"), 0, 0);
      var assets := store.ListAssets(filter);
      resp := RespondList(AssetList(assets), |assets|);
    }

    /** GET /api/assets/{id}: 200 with the asset, or 404 "Asset not found". */
    method GetAsset(id: string) returns (resp: Response)
      requires store.Valid()
      ensures id in store.assets ==> resp == RespondJSON(StatusOK, AssetData(store.assets[id]))
      ensures id !in store.assets ==> resp == RespondError(StatusNotFound, "Asset not found")
    {
      var r := store.GetAsset(id);
      if r.Err? {
        resp := RespondError(StatusNotFound, "Asset not found");
        return;
      }
      resp := RespondJSON(StatusOK, AssetData(r.value));
    }

    /** POST /api/assets: an undecodable body or an empty name is a 400 that
        leaves the store alone; otherwise 201 with the asset as stored,
        carrying its store-assigned ID. */
    method CreateAsset(body: Option<Asset>, now: Timestamp) returns (resp: Response)
      requires store.Valid()
      modifies store
      ensures store.Valid()
      ensures body.None? ==> resp == RespondError(StatusBadRequest, "Invalid request body") && unchanged(store)
      ensures body.Some? && body.value.Name == "" ==>
        resp == RespondError(StatusBadRequest, "Name is required") && unchanged(store)
      ensures body.Some? && body.value.Name != "" ==>
        && resp.status == StatusCreated && resp.data.AssetData?
        && resp.data.asset == body.value.(ID := resp.data.asset.ID, CreatedAt := now, UpdatedAt := now)
        && (body.value.ID != "" ==> resp.data.asset.ID == body.value.ID && store.nextID == old(store.nextID))
        && (body.value.ID == "" ==>
              store.nextID == old(store.nextID) + 1 && resp.data.asset.ID == FormatSerial(AssetPrefix, store.nextID))
        && store.assets == old(store.assets)[resp.data.asset.ID := resp.data.asset]
        && store.maintenance == old(store.maintenance) && store.audit == old(store.audit)
    {
      if body.None? {
        return RespondError(StatusBadRequest, "Invalid request body");
      }
      var asset := body.value;
      if asset.Name == "" {
        return RespondError(StatusBadRequest, "Name is required");
      }
      var created := store.CreateAsset(asset, now);
      resp := RespondJSON(StatusCreated, AssetData(created));
    }

    /** PUT /api/assets/{id}: the path ID overrides the body's before the
        store is asked; an undecodable body is a 400 and an unknown ID a 404,
        both leaving the store alone; otherwise 200 with the replacement. */
    method UpdateAsset(id: string, body: Option<Asset>, now: Timestamp) returns (resp: Response)
      requires store.Valid()
      modifies store
      ensures store.Valid()
      ensures body.None? ==> resp == RespondError(StatusBadRequest, "Invalid request body") && unchanged(store)
      ensures body.Some? && id !in old(store.assets) ==>
        resp == RespondError(StatusNotFound, "Asset not found") && store.assets == old(store.assets)
      ensures body.Some? && id in old(store.assets) ==>
        && resp == RespondJSON(StatusOK, AssetData(body.value.(ID := id, UpdatedAt := now)))
        && store.assets == old(store.assets)[id := body.value.(ID := id, UpdatedAt := now)]
      ensures store.maintenance == old(store.maintenance) && store.audit == old(store.audit)
      ensures store.nextID == old(store.nextID)
    {
      if body.None? {
        return RespondError(StatusBadRequest, "Invalid request body");
      }
      var asset := body.value;
      asset := asset.(ID := id);
      var r := store.UpdateAsset(asset, now);
      if r.Err? {
        return RespondError(StatusNotFound, "Asset not found");
      }
      resp := RespondJSON(StatusOK, AssetData(r.value));
    }

    /** DELETE /api/assets/{id}: 204 with no body once the asset is gone, or
        404 when there was none. */
    method DeleteAsset(id: string) returns (resp: Response)
      requires store.Valid()
      modifies store
      ensures store.Valid()
      ensures id !in old(store.assets) ==>
        resp == RespondError(StatusNotFound, "Asset not found") && store.assets == old(store.assets)
      ensures id in old(store.assets) ==>
        resp == Response(StatusNoContent, "", NoData, "", None) && store.assets == old(store.assets) - {id}
      ensures store.maintenance == old(store.maintenance) && store.audit == old(store.audit)
      ensures store.nextID == old(store.nextID)
    {
      var r := store.DeleteAsset(id);
      if r.Err? {
        return RespondError(StatusNotFound, "Asset not found");
      }
      resp := Response(StatusNoContent, "", NoData, "", None);
    }

    /** GET /api/assets/stats: 200 with the aggregate counts. */
    method GetAssetStats() returns (resp: Response)
      ensures resp.status == StatusOK && resp.contentType == JsonContentType && resp.data.StatsData?
      ensures resp.error == "" && resp.total == None
      ensures resp.data.stats.Total == |store.assets|
      ensures resp.data.stats.Active == |KeysWith(store.assets, StatusOf, "active")|
      ensures resp.data.stats.Maintenance == |KeysWith(store.assets, StatusOf, "maintenance")|
      ensures resp.data.stats.Retired == |KeysWith(store.assets, StatusOf, "retired")|
      ensures resp.data.stats.Active + resp.data.stats.Maintenance + resp.data.stats.Retired <= resp.data.stats.Total
      ensures forall c :: c in resp.data.stats.ByCategory <==> |KeysWith(store.assets, CategoryOf, c)| > 0
      ensures forall c :: c in resp.data.stats.ByCategory ==>
                resp.data.stats.ByCategory[c] == |KeysWith(store.assets, CategoryOf, c)|
      ensures forall d :: d in resp.data.stats.ByDepartment <==> |KeysWith(store.assets, DepartmentOf, d)| > 0
      ensures forall d :: d in resp.data.stats.ByDepartment ==>
                resp.data.stats.ByDepartment[d] == |KeysWith(store.assets, DepartmentOf, d)|
      ensures SumValues(resp.data.stats.ByCategory) == resp.data.stats.Total
      ensures SumValues(resp.data.stats.ByDepartment) == resp.data.stats.Total
    {
      var stats := store.GetAssetStats();
      resp := RespondJSON(StatusOK, StatsData(stats));
    }

    /** GET /api/assets/{id}/maintenance: the asset's records with
        meta.total their number; an unknown asset has none. */
    method GetAssetMaintenance(id: string) returns (resp: Response)
      requires store.Valid()
      ensures resp.status == StatusOK && resp.data == RecordList(ListOf(store.maintenance, id))
      ensures resp.total == MetaTotal(|resp.data.records|)
      ensures forall i :: 0 <= i < |resp.data.records| ==> resp.data.records[i].AssetID == id
    {
      var records := store.ListMaintenance(id);
      resp := RespondList(RecordList(records), |records|);
    }

    /** GET /api/maintenance: every record of every asset, with meta.total
        their number. */
    method ListAllMaintenance() returns (resp: Response)
      requires store.Valid()
      ensures resp.status == StatusOK && resp.data.RecordList?
      ensures multiset(resp.data.records) == Flatten(store.maintenance)
      ensures resp.total == MetaTotal(|resp.data.records|)
    {
      var records := store.ListAllMaintenance();
      resp := RespondList(RecordList(records), |records|);
    }

    /** POST /api/maintenance: an undecodable body or an empty asset ID is a
        400 that leaves the store alone. Otherwise 201 with the numbered
        record, appended to its asset's list whether or not such an asset
        exists. */
    method CreateMaintenance(body: Option<MaintenanceRecord>, now: Timestamp) returns (resp: Response)
      requires store.Valid()
      modifies store
      ensures store.Valid()
      ensures body.None? ==> resp == RespondError(StatusBadRequest, "Invalid request body") && unchanged(store)
      ensures body.Some? && body.value.AssetID == "" ==>
        resp == RespondError(StatusBadRequest, "Asset ID is required") && unchanged(store)
      ensures body.Some? && body.value.AssetID != "" ==>
        && resp.status == StatusCreated && resp.data.RecordData?
        && resp.data.record == body.value.(ID := FormatSerial(MaintenancePrefix, store.nextID), CreatedAt := now)
        && store.nextID == old(store.nextID) + 1
        && store.maintenance == old(store.maintenance)[body.value.AssetID :=
             ListOf(old(store.maintenance), body.value.AssetID) + [resp.data.record]]
        && store.assets == old(store.assets) && store.audit == old(store.audit)
    {
      if body.None? {
        return RespondError(StatusBadRequest, "Invalid request body");
      }
      var record := body.value;
      if record.AssetID == "" {
        return RespondError(StatusBadRequest, "Asset ID is required");
      }
      var created := store.CreateMaintenance(record, now);
      resp := RespondJSON(StatusCreated, RecordData(created));
    }

    /** GET /api/health. */
    method HealthCheck() returns (resp: Response)
      ensures resp.status == StatusOK && resp.data == HealthData("healthy") && resp.error == ""
    {
      resp := RespondJSON(StatusOK, HealthData("healthy"));
    }
  }
}
