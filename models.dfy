/** The AssetTrack domain records. Clock readings (`time.Time`) are opaque
    integers supplied by the caller; the floating-point money fields
    (purchase cost, current value, maintenance cost, total value) are not
    part of this model. */
module Models {

  /** An opaque clock reading; the zero value stands for Go's zero `time.Time`. */
  type Timestamp = int

  datatype Asset = Asset(
    ID: string,
    Tag: string,
    Name: string,
    Category: string,
    Status: string,         // "active", "maintenance" or "retired"
    Location: string,
    Department: string,
    AssignedTo: string,
    PurchaseDate: string,
    Vendor: string,
    SerialNumber: string,
    Model: string,
    Warranty: string,
    Notes: string,
    CreatedAt: Timestamp,
    UpdatedAt: Timestamp
  )

  datatype MaintenanceRecord = MaintenanceRecord(
    ID: string,
    AssetID: string,
    Date: string,
    Type: string,           // "Scheduled", "Repair" or "Upgrade"
    Description: string,
    Technician: string,
    Status: string,         // "pending" or "completed"
    CreatedAt: Timestamp
  )

  datatype AuditEntry = AuditEntry(
    ID: string,
    AssetID: string,
    Timestamp: Timestamp,
    User: string,
    Action: string,
    Details: string
  )

  /** Criteria for listing assets; an empty string means "any". Limit and
      Offset are carried but no store operation reads them. */
  datatype AssetFilter = AssetFilter(
    Status: string,
    Category: string,
    Department: string,
    Search: string,
    Limit: int,
    Offset: int
  )

  datatype AssetStats = AssetStats(
    Total: nat,
    Active: nat,
    Maintenance: nat,
    Retired: nat,
    ByCategory: map<string, nat>,
    ByDepartment: map<string, nat>
  )

  /** The error a store operation reports for an ID it does not hold
      ("asset not found: <id>"). */
  datatype StoreError = AssetNotFound(id: string)

  datatype Result<T> = Ok(value: T) | Err(error: StoreError)
}
