/** The in-memory AssetTrack store: an asset table keyed by ID, per-asset
    lists of maintenance records and audit entries, and one counter that
    numbers every generated ID. Each method is one atomic step (the source
    serialises them with a read-write lock). Go map iteration has no fixed
    order; the loops below take an arbitrary remaining key each round. */
module Store {
  import opened Models
  import opened Text

  const AssetPrefix := "A"
  const MaintenancePrefix := "M"
  const AuditPrefix := "AU"

  /** Go's read of a map of slices: a missing key yields the empty (nil) slice. */
  function ListOf<T>(m: map<string, seq<T>>, k: string): (s: seq<T>)
    ensures k in m ==> s == m[k]
    ensures k !in m ==> s == []
  {
    if k in m then m[k] else []
  }

  /** Go's read of a counter map: a missing key counts zero. */
  function Count(m: map<string, nat>, k: string): (n: nat)
    ensures k in m ==> n == m[k]
    ensures k !in m ==> n == 0
  {
    if k in m then m[k] else 0
  }

  // ---------------------------------------------------------------------------
  // Filtering and counting
  // ---------------------------------------------------------------------------

  /** An asset passes a filter when it meets every non-empty criterion:
      status, category and department by equality, the search text as a
      case-insensitive substring of the name. */
  predicate Matches(f: AssetFilter, a: Asset) {
    && (f.Status == "" || a.Status == f.Status)
    && (f.Category == "" || a.Category == f.Category)
    && (f.Department == "" || a.Department == f.Department)
    && (f.Search == "" || Contains(ToLower(a.Name), ToLower(f.Search)))
  }

  /** The search criterion ignores case on both sides: changing the case of
      ASCII letters in the search text or in the asset's name does not
      change whether the asset passes. */
  lemma SearchIgnoresCase(f: AssetFilter, a: Asset, search: string, name: string)
    requires SameIgnoringCase(f.Search, search) && SameIgnoringCase(a.Name, name)
    ensures Matches(f, a) <==> Matches(f.(Search := search), a.(Name := name))
  {
    ToLowerIgnoresCase(f.Search, search);
    ToLowerIgnoresCase(a.Name, name);
  }

  ghost function MatchingKeys(m: map<string, Asset>, f: AssetFilter): set<string> {
    set k | k in m && Matches(f, m[k])
  }

  /** The asset attributes the statistics group by. */
  datatype Attribute = StatusOf | CategoryOf | DepartmentOf

  function AttributeOf(a: Asset, attr: Attribute): string {
    match attr
    case StatusOf => a.Status
    case CategoryOf => a.Category
    case DepartmentOf => a.Department
  }

  /** The keys of the assets whose `attr` equals `v`. */
  ghost function KeysWith(m: map<string, Asset>, attr: Attribute, v: string): set<string> {
    set k | k in m && AttributeOf(m[k], attr) == v
  }

  /** Removing one key takes it out of its group of each attribute. */
  lemma KeysWithRemove(m: map<string, Asset>, k: string, attr: Attribute, v: string)
    requires k in m
    ensures KeysWith(m - {k}, attr, v) == KeysWith(m, attr, v) - {k}
    ensures |KeysWith(m - {k}, attr, v)| == |KeysWith(m, attr, v)| - (if AttributeOf(m[k], attr) == v then 1 else 0)
  {
    assert KeysWith(m - {k}, attr, v) == KeysWith(m, attr, v) - {k};
  }

  /** Loop state of a per-value count: `counts` holds, for every value of
      `attr`, how many of the assets no longer in `rest` have it, and no
      value is present with a zero count. */
  ghost predicate Tallied(counts: map<string, nat>, rest: map<string, Asset>, all: map<string, Asset>, attr: Attribute) {
    && (forall v :: Count(counts, v) + |KeysWith(rest, attr, v)| == |KeysWith(all, attr, v)|)
    && (forall v :: v in counts ==> counts[v] > 0)
  }

  /** A tally of `attr` whose counts add up to `total`. */
  ghost predicate GroupCounted(counts: map<string, nat>, total: nat, rest: map<string, Asset>, all: map<string, Asset>,
                               attr: Attribute) {
    Tallied(counts, rest, all, attr) && SumValues(counts) == total
  }

  /** Counting one more asset (Go's `counts[value]++`) keeps the tally and
      adds one to the sum of the counts. */
  lemma TalliedStep(counts: map<string, nat>, total: nat, rest: map<string, Asset>, all: map<string, Asset>,
                    attr: Attribute, k: string, v: string)
    requires GroupCounted(counts, total, rest, all, attr) && k in rest && v == AttributeOf(rest[k], attr)
    ensures GroupCounted(counts[v := Count(counts, v) + 1], total + 1, rest - {k}, all, attr)
  {
    var counts' := counts[v := Count(counts, v) + 1];
    forall w ensures Count(counts', w) + |KeysWith(rest - {k}, attr, w)| == |KeysWith(all, attr, w)| {
      KeysWithRemove(rest, k, attr, w);
    }
    SumValuesIncrement(counts, v);
  }

  /** Filtering the remaining keys after removing one. */
  lemma MatchingKeysRemove(m: map<string, Asset>, k: string, f: AssetFilter)
    requires k in m
    ensures MatchingKeys(m - {k}, f) == MatchingKeys(m, f) - {k}
    ensures |MatchingKeys(m - {k}, f)| == |MatchingKeys(m, f)| - (if Matches(f, m[k]) then 1 else 0)
  {
    assert MatchingKeys(m - {k}, f) == MatchingKeys(m, f) - {k};
  }

  /** `n` counts the assets of `all` with status `status` whose keys are no
      longer in `rest`. */
  ghost predicate StatusCounted(n: nat, rest: map<string, Asset>, all: map<string, Asset>, status: string) {
    n + |KeysWith(rest, StatusOf, status)| == |KeysWith(all, StatusOf, status)|
  }

  lemma StatusCountedStep(n: nat, rest: map<string, Asset>, all: map<string, Asset>, status: string, k: string)
    requires StatusCounted(n, rest, all, status) && k in rest
    ensures StatusCounted(n + (if rest[k].Status == status then 1 else 0), rest - {k}, all, status)
  {
    KeysWithRemove(rest, k, StatusOf, status);
  }

  /** Loop state of the statistics, status part: `s` counts exactly the
      assets of `all` whose keys are no longer in `rest`, in total and per
      known status. */
  ghost predicate StatusSoFar(s: AssetStats, rest: map<string, Asset>, all: map<string, Asset>) {
    && s.Total + |rest| == |all|
    && StatusCounted(s.Active, rest, all, "active")
    && StatusCounted(s.Maintenance, rest, all, "maintenance")
    && StatusCounted(s.Retired, rest, all, "retired")
    && s.Active + s.Maintenance + s.Retired <= s.Total
  }

  /** Loop state of the statistics, grouping part: the per-category and
      per-department counts of those same assets, each summing to the total. */
  ghost predicate GroupsSoFar(s: AssetStats, rest: map<string, Asset>, all: map<string, Asset>) {
    && GroupCounted(s.ByCategory, s.Total, rest, all, CategoryOf)
    && GroupCounted(s.ByDepartment, s.Total, rest, all, DepartmentOf)
  }

  /** One round of the source's loop keeps the total and status counts exact. */
  lemma StatusStep(s: AssetStats, s': AssetStats, rest: map<string, Asset>, all: map<string, Asset>, k: string)
    requires StatusSoFar(s, rest, all) && k in rest
    requires var a := rest[k];
      && s'.Total == s.Total + 1
      && s'.Active == s.Active + (if a.Status == "active" then 1 else 0)
      && s'.Maintenance == s.Maintenance + (if a.Status == "maintenance" then 1 else 0)
      && s'.Retired == s.Retired + (if a.Status == "retired" then 1 else 0)
    ensures StatusSoFar(s', rest - {k}, all)
  {
    StatusCountedStep(s.Active, rest, all, "active", k);
    StatusCountedStep(s.Maintenance, rest, all, "maintenance", k);
    StatusCountedStep(s.Retired, rest, all, "retired", k);
    assert |(rest - {k}).Keys| == |rest.Keys - {k}|;
  }

  /** One round of the source's loop keeps the category and department
      counts exact. */
  lemma GroupsStep(s: AssetStats, s': AssetStats, rest: map<string, Asset>, all: map<string, Asset>, k: string)
    requires GroupsSoFar(s, rest, all) && k in rest
    requires var a := rest[k];
      && s'.Total == s.Total + 1
      && s'.ByCategory == s.ByCategory[a.Category := Count(s.ByCategory, a.Category) + 1]
      && s'.ByDepartment == s.ByDepartment[a.Department := Count(s.ByDepartment, a.Department) + 1]
    ensures GroupsSoFar(s', rest - {k}, all)
  {
    var a := rest[k];
    TalliedStep(s.ByCategory, s.Total, rest, all, CategoryOf, k, a.Category);
    TalliedStep(s.ByDepartment, s.Total, rest, all, DepartmentOf, k, a.Department);
  }

  /** Once every asset is counted, the statistics describe the whole table. */
  lemma StatsDone(s: AssetStats, all: map<string, Asset>)
    requires StatusSoFar(s, map[], all) && GroupsSoFar(s, map[], all)
    ensures s.Total == |all|
    ensures s.Active == |KeysWith(all, StatusOf, "active")|
    ensures s.Maintenance == |KeysWith(all, StatusOf, "maintenance")|
    ensures s.Retired == |KeysWith(all, StatusOf, "retired")|
    ensures forall c :: c in s.ByCategory <==> |KeysWith(all, CategoryOf, c)| > 0
    ensures forall c :: c in s.ByCategory ==> s.ByCategory[c] == |KeysWith(all, CategoryOf, c)|
    ensures forall d :: d in s.ByDepartment <==> |KeysWith(all, DepartmentOf, d)| > 0
    ensures forall d :: d in s.ByDepartment ==> s.ByDepartment[d] == |KeysWith(all, DepartmentOf, d)|
  {
    assert forall attr, v :: KeysWith(map[], attr, v) == {};
  }

  /** The sum of the counts of a counter map, taken in any order. */
  ghost function SumValues(m: map<string, nat>): nat
    decreases |m|
  {
    if m == map[] then 0
    else
      var k :| k in m;
      assert |(m - {k}).Keys| == |m.Keys - {k}|;
      m[k] + SumValues(m - {k})
  }

  /** The sum does not depend on which key is taken first. */
  lemma {:induction false} SumValuesRemove(m: map<string, nat>, k: string)
    requires k in m
    ensures SumValues(m) == m[k] + SumValues(m - {k})
    decreases |m|
  {
    var j :| j in m && SumValues(m) == m[j] + SumValues(m - {j});
    if j != k {
      assert |(m - {j}).Keys| == |m.Keys - {j}|;
      SumValuesRemove(m - {j}, k);
      assert |(m - {k}).Keys| == |m.Keys - {k}|;
      SumValuesRemove(m - {k}, j);
      assert m - {j} - {k} == m - {k} - {j};
    }
  }

  /** Incrementing one counter (Go's `m[k]++`) adds one to the sum. */
  lemma SumValuesIncrement(m: map<string, nat>, k: string)
    ensures SumValues(m[k := Count(m, k) + 1]) == SumValues(m) + 1
  {
    var m' := m[k := Count(m, k) + 1];
    SumValuesRemove(m', k);
    if k in m {
      SumValuesRemove(m, k);
      assert m' - {k} == m - {k};
    } else {
      assert m' - {k} == m;
    }
  }

  /** All the records of a map of lists, as a bag. */
  ghost function Flatten<T>(m: map<string, seq<T>>): multiset<T>
    decreases |m|
  {
    if m == map[] then multiset{}
    else
      var k :| k in m;
      assert |(m - {k}).Keys| == |m.Keys - {k}|;
      multiset(m[k]) + Flatten(m - {k})
  }

  lemma {:induction false} FlattenRemove<T>(m: map<string, seq<T>>, k: string)
    requires k in m
    ensures Flatten(m) == multiset(m[k]) + Flatten(m - {k})
    decreases |m|
  {
    var j :| j in m && Flatten(m) == multiset(m[j]) + Flatten(m - {j});
    if j != k {
      assert |(m - {j}).Keys| == |m.Keys - {j}|;
      FlattenRemove(m - {j}, k);
      assert |(m - {k}).Keys| == |m.Keys - {k}|;
      FlattenRemove(m - {k}, j);
      assert m - {j} - {k} == m - {k} - {j};
    }
  }

  /** A record is in the bag exactly when some list holds it. */
  lemma {:induction false} FlattenMember<T>(m: map<string, seq<T>>, x: T)
    ensures x in Flatten(m) <==> exists k :: k in m && x in m[k]
    decreases |m|
  {
    if m != map[] {
      var k :| k in m;
      FlattenRemove(m, k);
      assert |(m - {k}).Keys| == |m.Keys - {k}|;
      FlattenMember(m - {k}, x);
      if exists j :: j in m && x in m[j] {
        var j :| j in m && x in m[j];
        if j != k {
          assert j in m - {k} && x in (m - {k})[j];
        }
      }
    }
  }

  // ---------------------------------------------------------------------------
  // Record logs and the shared ID counter
  // ---------------------------------------------------------------------------

  /** `id` was printed by the counter under `prefix` at some value in 1..bound. */
  ghost predicate Issued(prefix: string, id: string, bound: nat) {
    exists n: nat :: 0 < n <= bound && id == FormatSerial(prefix, n)
  }

  function MaintenanceId(r: MaintenanceRecord): string { r.ID }
  function MaintenanceOwner(r: MaintenanceRecord): string { r.AssetID }
  function AuditId(e: AuditEntry): string { e.ID }
  function AuditOwner(e: AuditEntry): string { e.AssetID }

  /** A per-asset log is well formed when every list holds only its own
      asset's records, every record's ID was issued by the counter (not
      beyond `bound`), and no two records anywhere share an ID. */
  ghost predicate LogValid<T>(log: map<string, seq<T>>, idOf: T -> string, ownerOf: T -> string,
                              prefix: string, bound: nat)
  {
    && (forall k, i :: k in log && 0 <= i < |log[k]| ==> ownerOf(log[k][i]) == k)
    && (forall k, i :: k in log && 0 <= i < |log[k]| ==> Issued(prefix, idOf(log[k][i]), bound))
    && (forall k1, i, k2, j ::
          k1 in log && k2 in log && 0 <= i < |log[k1]| && 0 <= j < |log[k2]| && (k1 != k2 || i != j)
          ==> idOf(log[k1][i]) != idOf(log[k2][j]))
  }

  /** Advancing the counter keeps a log well formed. */
  lemma LogValidGrow<T>(log: map<string, seq<T>>, idOf: T -> string, ownerOf: T -> string,
                        prefix: string, bound: nat)
    requires LogValid(log, idOf, ownerOf, prefix, bound)
    ensures LogValid(log, idOf, ownerOf, prefix, bound + 1)
  {
    forall k, i | k in log && 0 <= i < |log[k]|
      ensures Issued(prefix, idOf(log[k][i]), bound + 1)
    {
      assert Issued(prefix, idOf(log[k][i]), bound);
      var n: nat :| 0 < n <= bound && idOf(log[k][i]) == FormatSerial(prefix, n);
    }
  }

  /** A freshly numbered ID is not the ID of any record already logged. */
  lemma FreshSerial<T>(log: map<string, seq<T>>, idOf: T -> string, ownerOf: T -> string,
                       prefix: string, bound: nat)
    requires LogValid(log, idOf, ownerOf, prefix, bound)
    ensures forall k, i :: k in log && 0 <= i < |log[k]| ==> idOf(log[k][i]) != FormatSerial(prefix, bound + 1)
  {
    forall k, i | k in log && 0 <= i < |log[k]|
      ensures idOf(log[k][i]) != FormatSerial(prefix, bound + 1)
    {
      assert Issued(prefix, idOf(log[k][i]), bound);
      var n: nat :| 0 < n <= bound && idOf(log[k][i]) == FormatSerial(prefix, n);
      if idOf(log[k][i]) == FormatSerial(prefix, bound + 1) {
        FormatSerialInjective(prefix, n, bound + 1);
      }
    }
  }

  /** Appending a record numbered with the next counter value to its own
      asset's list keeps the log well formed under the advanced counter. */
  lemma LogValidAppend<T>(log: map<string, seq<T>>, idOf: T -> string, ownerOf: T -> string,
                          prefix: string, bound: nat, r: T)
    requires LogValid(log, idOf, ownerOf, prefix, bound)
    requires idOf(r) == FormatSerial(prefix, bound + 1)
    ensures LogValid(log[ownerOf(r) := ListOf(log, ownerOf(r)) + [r]], idOf, ownerOf, prefix, bound + 1)
  {
    FreshSerial(log, idOf, ownerOf, prefix, bound);
    LogValidGrow(log, idOf, ownerOf, prefix, bound);
    var a := ownerOf(r);
    var log' := log[a := ListOf(log, a) + [r]];
    assert forall k, i :: k in log' && 0 <= i < |log'[k]| ==>
      (if k == a && i == |ListOf(log, a)| then log'[k][i] == r else k in log && i < |log[k]| && log'[k][i] == log[k][i]);
    assert Issued(prefix, idOf(r), bound + 1);
  }

  /** Loop state of a listing: `result` holds, each once, the matching
      assets of the table whose keys are no longer in `rest`. */
  ghost predicate Listed(assets: map<string, Asset>, rest: map<string, Asset>, f: AssetFilter, result: seq<Asset>) {
    && (forall k :: k in assets ==> assets[k].ID == k)
    && (forall k :: k in rest ==> k in assets && rest[k] == assets[k])
    && (forall i :: 0 <= i < |result| ==>
          result[i].ID in assets && result[i].ID !in rest && assets[result[i].ID] == result[i] && Matches(f, result[i]))
    && (forall k :: k in assets && k !in rest && Matches(f, assets[k]) ==> assets[k] in result)
    && (forall i, j :: 0 <= i < j < |result| ==> result[i].ID != result[j].ID)
    && |result| + |MatchingKeys(rest, f)| == |MatchingKeys(assets, f)|
  }

  /** Once no key remains, the listing holds exactly the matching assets,
      and every asset when the filter sets no criterion. */
  lemma ListedDone(assets: map<string, Asset>, f: AssetFilter, result: seq<Asset>)
    requires Listed(assets, map[], f, result)
    ensures forall i :: 0 <= i < |result| ==>
      result[i].ID in assets && assets[result[i].ID] == result[i] && Matches(f, result[i])
    ensures forall k :: k in assets && Matches(f, assets[k]) ==> assets[k] in result
    ensures forall i, j :: 0 <= i < j < |result| ==> result[i].ID != result[j].ID
    ensures |result| == |MatchingKeys(assets, f)|
    ensures f.Status == "" && f.Category == "" && f.Department == "" && f.Search == "" ==> |result| == |assets|
  {
    assert MatchingKeys(map[], f) == {};
    if f.Status == "" && f.Category == "" && f.Department == "" && f.Search == "" {
      assert MatchingKeys(assets, f) == assets.Keys;
    }
  }

  /** Taking one more key out of `rest` and keeping its asset when it matches. */
  lemma ListedStep(assets: map<string, Asset>, rest: map<string, Asset>, f: AssetFilter, result: seq<Asset>, k: string)
    requires Listed(assets, rest, f, result) && k in rest
    ensures Listed(assets, rest - {k}, f, if Matches(f, rest[k]) then result + [rest[k]] else result)
  {
    if Matches(f, rest[k]) {
      ListedAdd(assets, rest, f, result, k);
    } else {
      ListedSkip(assets, rest, f, result, k);
    }
  }

  /** The other case: the result stays as it is. */
  lemma ListedSkip(assets: map<string, Asset>, rest: map<string, Asset>, f: AssetFilter, result: seq<Asset>, k: string)
    requires Listed(assets, rest, f, result) && k in rest && !Matches(f, rest[k])
    ensures Listed(assets, rest - {k}, f, result)
  {
    MatchingKeysRemove(rest, k, f);
    forall j | j in assets && j !in rest - {k} && Matches(f, assets[j])
      ensures assets[j] in result
    {
      assert j != k;
    }
  }

  /** The matching case of `ListedStep`: the asset joins the result. */
  lemma ListedAdd(assets: map<string, Asset>, rest: map<string, Asset>, f: AssetFilter, result: seq<Asset>, k: string)
    requires Listed(assets, rest, f, result) && k in rest && Matches(f, rest[k])
    ensures Listed(assets, rest - {k}, f, result + [rest[k]])
  {
    MatchingKeysRemove(rest, k, f);
    var a := rest[k];
    var result' := result + [a];
    assert result'[|result|] == a && a.ID == k;
    forall i | 0 <= i < |result'|
      ensures result'[i].ID in assets && result'[i].ID !in rest - {k}
      ensures assets[result'[i].ID] == result'[i] && Matches(f, result'[i])
    {
      if i < |result| {
        assert result'[i] == result[i];
      }
    }
    forall i, j | 0 <= i < j < |result'| ensures result'[i].ID != result'[j].ID {
      if j == |result| {
        assert result'[i] == result[i];
      }
    }
  }

  /** One record appended to a log by the shared counter: the record's log
      stays well formed, the other log survives the counter's advance, and
      the new ID was never used before. */
  lemma CounterAppend<T, U>(log: map<string, seq<T>>, idOf: T -> string, ownerOf: T -> string, prefix: string,
                            other: map<string, seq<U>>, otherId: U -> string, otherOwner: U -> string, otherPrefix: string,
                            bound: nat, r: T)
    requires LogValid(log, idOf, ownerOf, prefix, bound)
    requires LogValid(other, otherId, otherOwner, otherPrefix, bound)
    requires idOf(r) == FormatSerial(prefix, bound + 1)
    ensures LogValid(log[ownerOf(r) := ListOf(log, ownerOf(r)) + [r]], idOf, ownerOf, prefix, bound + 1)
    ensures LogValid(other, otherId, otherOwner, otherPrefix, bound + 1)
    ensures forall k, i :: k in log && 0 <= i < |log[k]| ==> idOf(log[k][i]) != idOf(r)
  {
    FreshSerial(log, idOf, ownerOf, prefix, bound);
    LogValidAppend(log, idOf, ownerOf, prefix, bound, r);
    LogValidGrow(other, otherId, otherOwner, otherPrefix, bound);
  }

  // ---------------------------------------------------------------------------
  // The store
  // ---------------------------------------------------------------------------

  class MemoryStore {
    var assets: map<string, Asset>
    var maintenance: map<string, seq<MaintenanceRecord>>
    var audit: map<string, seq<AuditEntry>>
    var nextID: nat

    /** Every asset is stored under its own ID, and both logs are well
        formed with respect to the shared counter. */
    ghost predicate Valid()
      reads this
    {
      && (forall k :: k in assets ==> assets[k].ID == k)
      && LogValid(maintenance, MaintenanceId, MaintenanceOwner, MaintenancePrefix, nextID)
      && LogValid(audit, AuditId, AuditOwner, AuditPrefix, nextID)
    }

    /** An empty store whose counter starts at 100. */
    constructor ()
      ensures Valid()
      ensures assets == map[] && maintenance == map[] && audit == map[]
      ensures nextID == 100
    {
      assets := map[];
      maintenance := map[];
      audit := map[];
      nextID := 100;
    }

    /** The stored assets that pass every non-empty criterion of `filter`,
        each once, in no particular order. */
    method ListAssets(filter: AssetFilter) returns (result: seq<Asset>)
      requires Valid()
      ensures forall i :: 0 <= i < |result| ==>
        result[i].ID in assets && assets[result[i].ID] == result[i] && Matches(filter, result[i])
      ensures forall k :: k in assets && Matches(filter, assets[k]) ==> assets[k] in result
      ensures forall i, j :: 0 <= i < j < |result| ==> result[i].ID != result[j].ID
      ensures |result| == |MatchingKeys(assets, filter)|
      ensures filter.Status == "" && filter.Category == "" && filter.Department == "" && filter.Search == "" ==>
        |result| == |assets|
    {
      result := [];
      var rest := assets;
      while rest != map[]
        invariant Listed(assets, rest, filter, result)
        decreases rest.Keys
      {
        var k :| k in rest;
        var a := rest[k];
        ListedStep(assets, rest, filter, result, k);
        rest := rest - {k};
        if Matches(filter, a) {
          result := result + [a];
        }
      }
      ListedDone(assets, filter, result);
    }

    /** The asset stored under `id`, or "asset not found". */
    method GetAsset(id: string) returns (r: Result<Asset>)
      requires Valid()
      ensures r.Ok? <==> id in assets
      ensures r.Ok? ==> r.value == assets[id] && r.value.ID == id
      ensures r.Err? ==> r.error == AssetNotFound(id)
    {
      if id !in assets {
        return Err(AssetNotFound(id));
      }
      return Ok(assets[id]);
    }

    /** Stores `asset`. An empty ID is replaced by the next counter value
        printed as "A%03d"; a given ID is kept, and whatever was stored
        under it is overwritten. Both timestamps are set to `now`. */
    method CreateAsset(asset: Asset, now: Timestamp) returns (created: Asset)
      requires Valid()
      modifies this
      ensures Valid()
      ensures asset.ID == "" ==> nextID == old(nextID) + 1 && created.ID == FormatSerial(AssetPrefix, nextID)
      ensures asset.ID != "" ==> nextID == old(nextID) && created.ID == asset.ID
      ensures created == asset.(ID := created.ID, CreatedAt := now, UpdatedAt := now)
      ensures assets == old(assets)[created.ID := created]
      ensures maintenance == old(maintenance) && audit == old(audit)
    {
      var a := asset;
      if a.ID == "" {
        LogValidGrow(maintenance, MaintenanceId, MaintenanceOwner, MaintenancePrefix, nextID);
        LogValidGrow(audit, AuditId, AuditOwner, AuditPrefix, nextID);
        nextID := nextID + 1;
        a := a.(ID := FormatSerial(AssetPrefix, nextID));
      }
      a := a.(CreatedAt := now, UpdatedAt := now);
      assets := assets[a.ID := a];
      created := a;
    }

    /** Replaces the whole record stored under `asset.ID` (nothing is kept
        from the old record, not even its creation time) and stamps it with
        `now`; an ID not in the table is an error and changes nothing. */
    method UpdateAsset(asset: Asset, now: Timestamp) returns (r: Result<Asset>)
      requires Valid()
      modifies this
      ensures Valid()
      ensures asset.ID !in old(assets) ==> r == Err(AssetNotFound(asset.ID)) && assets == old(assets)
      ensures asset.ID in old(assets) ==>
        r == Ok(asset.(UpdatedAt := now)) && assets == old(assets)[asset.ID := r.value]
      ensures maintenance == old(maintenance) && audit == old(audit) && nextID == old(nextID)
    {
      if asset.ID !in assets {
        return Err(AssetNotFound(asset.ID));
      }
      var a := asset.(UpdatedAt := now);
      assets := assets[a.ID := a];
      return Ok(a);
    }

    /** Removes exactly the asset stored under `id`; an ID not in the table
        is an error and changes nothing. Maintenance and audit logs are kept. */
    method DeleteAsset(id: string) returns (r: Result<()>)
      requires Valid()
      modifies this
      ensures Valid()
      ensures id !in old(assets) ==> r == Err(AssetNotFound(id)) && assets == old(assets)
      ensures id in old(assets) ==> r == Ok(()) && assets == old(assets) - {id}
      ensures maintenance == old(maintenance) && audit == old(audit) && nextID == old(nextID)
    {
      if id !in assets {
        return Err(AssetNotFound(id));
      }
      assets := assets - {id};
      return Ok(());
    }

    /** Counts of all assets, of each known status, and per category and
        department. */
    method GetAssetStats() returns (stats: AssetStats)
      ensures stats.Total == |assets|
      ensures stats.Active == |KeysWith(assets, StatusOf, "active")|
      ensures stats.Maintenance == |KeysWith(assets, StatusOf, "maintenance")|
      ensures stats.Retired == |KeysWith(assets, StatusOf, "retired")|
      ensures stats.Active + stats.Maintenance + stats.Retired <= stats.Total
      ensures forall c :: c in stats.ByCategory <==> |KeysWith(assets, CategoryOf, c)| > 0
      ensures forall c :: c in stats.ByCategory ==> stats.ByCategory[c] == |KeysWith(assets, CategoryOf, c)|
      ensures forall d :: d in stats.ByDepartment <==> |KeysWith(assets, DepartmentOf, d)| > 0
      ensures forall d :: d in stats.ByDepartment ==> stats.ByDepartment[d] == |KeysWith(assets, DepartmentOf, d)|
      ensures SumValues(stats.ByCategory) == stats.Total
      ensures SumValues(stats.ByDepartment) == stats.Total
    {
      stats := AssetStats(0, 0, 0, 0, map[], map[]);
      var rest := assets;
      while rest != map[]
        invariant StatusSoFar(stats, rest, assets) && GroupsSoFar(stats, rest, assets)
        decreases |rest|
      {
        var k :| k in rest;
        var a := rest[k];
        ghost var before := stats;
        stats := stats.(Total := stats.Total + 1);
        stats := stats.(ByCategory := stats.ByCategory[a.Category := Count(stats.ByCategory, a.Category) + 1]);
        stats := stats.(ByDepartment := stats.ByDepartment[a.Department := Count(stats.ByDepartment, a.Department) + 1]);
        if a.Status == "active" {
          stats := stats.(Active := stats.Active + 1);
        } else if a.Status == "maintenance" {
          stats := stats.(Maintenance := stats.Maintenance + 1);
        } else if a.Status == "retired" {
          stats := stats.(Retired := stats.Retired + 1);
        }
        StatusStep(before, stats, rest, assets, k);
        GroupsStep(before, stats, rest, assets, k);
        assert |(rest - {k}).Keys| == |rest.Keys - {k}|;
        rest := rest - {k};
      }
      StatsDone(stats, assets);
    }

    /** The maintenance records of one asset, in insertion order; none
        for an unknown ID. */
    method ListMaintenance(assetID: string) returns (records: seq<MaintenanceRecord>)
      requires Valid()
      ensures records == ListOf(maintenance, assetID)
      ensures forall i :: 0 <= i < |records| ==> records[i].AssetID == assetID
      ensures forall i, j :: 0 <= i < j < |records| ==> records[i].ID != records[j].ID
    {
      records := ListOf(maintenance, assetID);
    }

    /** Every maintenance record of every asset, each once, in no particular
        order. */
    method ListAllMaintenance() returns (result: seq<MaintenanceRecord>)
      requires Valid()
      ensures multiset(result) == Flatten(maintenance)
      ensures forall r :: r in result <==> r.AssetID in maintenance && r in maintenance[r.AssetID]
    {
      result := [];
      var rest := maintenance;
      while rest != map[]
        invariant multiset(result) + Flatten(rest) == Flatten(maintenance)
        decreases |rest|
      {
        var k :| k in rest;
        FlattenRemove(rest, k);
        assert |(rest - {k}).Keys| == |rest.Keys - {k}|;
        result := result + rest[k];
        rest := rest - {k};
      }
      forall r
        ensures r in result <==> r.AssetID in maintenance && r in maintenance[r.AssetID]
      {
        assert r in result <==> r in multiset(result);
        FlattenMember(maintenance, r);
        if r in result {
          var k :| k in maintenance && r in maintenance[k];
          var i :| 0 <= i < |maintenance[k]| && maintenance[k][i] == r;
          assert MaintenanceOwner(maintenance[k][i]) == k;
        }
      }
    }

    /** Numbers `record` with the next counter value as "M%03d", stamps it
        with `now`, and appends it to its asset's list. The asset is not
        required to exist. */
    method CreateMaintenance(record: MaintenanceRecord, now: Timestamp) returns (created: MaintenanceRecord)
      requires Valid()
      modifies this
      ensures Valid()
      ensures nextID == old(nextID) + 1
      ensures created == record.(ID := FormatSerial(MaintenancePrefix, nextID), CreatedAt := now)
      ensures maintenance == old(maintenance)[record.AssetID := ListOf(old(maintenance), record.AssetID) + [created]]
      ensures forall k, i :: k in old(maintenance) && 0 <= i < |old(maintenance)[k]| ==>
        old(maintenance)[k][i].ID != created.ID
      ensures assets == old(assets) && audit == old(audit)
    {
      var r := record.(ID := FormatSerial(MaintenancePrefix, nextID + 1), CreatedAt := now);
      assert MaintenanceId(r) == r.ID && MaintenanceOwner(r) == r.AssetID;
      CounterAppend(maintenance, MaintenanceId, MaintenanceOwner, MaintenancePrefix,
                    audit, AuditId, AuditOwner, AuditPrefix, nextID, r);
      nextID := nextID + 1;
      maintenance := maintenance[r.AssetID := ListOf(maintenance, r.AssetID) + [r]];
      created := r;
    }

    /** The audit entries of one asset, in insertion order; none for an
        unknown ID. */
    method ListAuditEntries(assetID: string) returns (entries: seq<AuditEntry>)
      requires Valid()
      ensures entries == ListOf(audit, assetID)
      ensures forall i :: 0 <= i < |entries| ==> entries[i].AssetID == assetID
      ensures forall i, j :: 0 <= i < j < |entries| ==> entries[i].ID != entries[j].ID
    {
      entries := ListOf(audit, assetID);
    }

    /** Numbers `entry` with the next counter value as "AU%03d", stamps it
        with `now`, and appends it to its asset's list. */
    method CreateAuditEntry(entry: AuditEntry, now: Timestamp) returns (created: AuditEntry)
      requires Valid()
      modifies this
      ensures Valid()
      ensures nextID == old(nextID) + 1
      ensures created == entry.(ID := FormatSerial(AuditPrefix, nextID), Timestamp := now)
      ensures audit == old(audit)[entry.AssetID := ListOf(old(audit), entry.AssetID) + [created]]
      ensures forall k, i :: k in old(audit) && 0 <= i < |old(audit)[k]| ==> old(audit)[k][i].ID != created.ID
      ensures assets == old(assets) && maintenance == old(maintenance)
    {
      var e := entry.(ID := FormatSerial(AuditPrefix, nextID + 1), Timestamp := now);
      assert AuditId(e) == e.ID && AuditOwner(e) == e.AssetID;
      CounterAppend(audit, AuditId, AuditOwner, AuditPrefix,
                    maintenance, MaintenanceId, MaintenanceOwner, MaintenancePrefix, nextID, e);
      nextID := nextID + 1;
      audit := audit[e.AssetID := ListOf(audit, e.AssetID) + [e]];
      created := e;
    }
  }
}
