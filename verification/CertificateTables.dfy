/** Certificate metadata of one SNI: the rows that the repository writes and the
    versioned store beside them (internal/repository/postgres/certificates.go,
    internal/certmanager/filestore.go). */
module CertificateTables {
  import opened Wrappers

  /** A certificate with its key, as far as certificates.Validate looks at it. `sound`
      stands for the key match and the host name match. */
  datatype Material = Material(fingerprint: string, issuedAt: int, expiresAt: int, sound: bool)

  predicate ValidAt(m: Material, now: int) {
    m.sound && m.issuedAt <= now < m.expiresAt
  }

  datatype VersionStatus = Pending | Active | Superseded | DistributionFailed

  datatype Version = Version(fingerprint: string, issuedAt: int, expiresAt: int, status: VersionStatus)

  /** A certificate_records row whose active_version is set. */
  datatype Record = Record(active: string, fingerprint: string, expiresAt: int)

  type Versions = map<string, Version>
  type Staged = map<string, Material>

  // ---- The statements ----

  function Saved(versions: Versions, version: string, m: Material): Versions {
    versions[version := Version(m.fingerprint, m.issuedAt, m.expiresAt, Pending)]
  }

  /** The chosen version becomes the active one and replaces whatever was. */
  function Activated(versions: Versions, version: string): Versions {
    map v | v in versions ::
      if v == version then versions[v].(status := Active)
      else if versions[v].status == Active then versions[v].(status := Superseded)
      else versions[v]
  }

  function ActiveRecord(versions: Versions, version: string): Record
    requires version in versions
  {
    Record(version, versions[version].fingerprint, versions[version].expiresAt)
  }

  function Marked(versions: Versions, version: string, status: VersionStatus): Versions
    requires version in versions
  {
    versions[version := versions[version].(status := status)]
  }

  // ---- Consistency ----

  /** The metadata of a version describes the material staged under that name. */
  ghost predicate Describes(v: Version, m: Material) {
    v.fingerprint == m.fingerprint && v.issuedAt == m.issuedAt && v.expiresAt == m.expiresAt
  }

  /** The active version, if any, is saved, is the only one marked ACTIVE, and is
      staged with the recorded fingerprint; the marker names a staged version. */
  ghost predicate Consistent(versions: Versions, record: Option<Record>, staged: Staged, marker: Option<string>) {
    && (forall v :: v in versions ==> v in staged && Describes(versions[v], staged[v]))
    && (record.Some? ==> record.value.active in versions && record.value == ActiveRecord(versions, record.value.active))
    && (forall v :: v in versions ==> (versions[v].status == Active <==> record.Some? && record.value.active == v))
    && (marker.Some? ==> marker.value in staged)
  }

  lemma StagingKeeps(versions: Versions, record: Option<Record>, staged: Staged, marker: Option<string>,
                     version: string, m: Material)
    requires Consistent(versions, record, staged, marker) && version !in staged
    ensures Consistent(versions, record, staged[version := m], marker)
  {
  }

  lemma SavingKeeps(versions: Versions, record: Option<Record>, staged: Staged, marker: Option<string>,
                    version: string, m: Material)
    requires Consistent(versions, record, staged, marker)
    requires version !in versions && version in staged && staged[version] == m
    ensures Consistent(Saved(versions, version, m), record, staged, marker)
    ensures Saved(versions, version, m).Keys == versions.Keys + {version} && Saved(versions, version, m)[version].status == Pending
    ensures forall v :: v in versions ==> Saved(versions, version, m)[v] == versions[v]
  {
  }

  lemma ActivatingKeeps(versions: Versions, record: Option<Record>, staged: Staged, marker: Option<string>, version: string)
    requires Consistent(versions, record, staged, marker) && version in versions
    ensures Consistent(Activated(versions, version), Some(ActiveRecord(versions, version)), staged, marker)
    ensures var after := Activated(versions, version);
            && after.Keys == versions.Keys
            && (forall v :: v in versions ==> (after[v].status == Active <==> v == version))
            && (forall v :: v in versions && v != version ==>
                  after[v].status == if record.Some? && record.value.active == v then Superseded else versions[v].status)
            && (forall v :: v in versions ==>
                  after[v].fingerprint == versions[v].fingerprint && after[v].issuedAt == versions[v].issuedAt
                  && after[v].expiresAt == versions[v].expiresAt)
  {
    var after := Activated(versions, version);
    forall v | v in versions && v != version ensures after[v].status != Active {
    }
  }

  /** The record carries the fingerprint and the expiry of the material that is active. */
  lemma RecordIsOfMaterial(versions: Versions, record: Option<Record>, staged: Staged, marker: Option<string>)
    requires Consistent(versions, record, staged, marker) && record.Some?
    ensures record.value.active in staged
    ensures record.value.fingerprint == staged[record.value.active].fingerprint
    ensures record.value.expiresAt == staged[record.value.active].expiresAt
  {
    assert record.value.active in versions;
  }

  /** Marking a version that is not the active one, with a status other than ACTIVE. */
  lemma MarkingKeeps(versions: Versions, record: Option<Record>, staged: Staged, marker: Option<string>,
                     version: string, status: VersionStatus)
    requires Consistent(versions, record, staged, marker) && version in versions && status != Active
    requires record.Some? ==> record.value.active != version
    ensures Consistent(Marked(versions, version, status), record, staged, marker)
    ensures Marked(versions, version, status).Keys == versions.Keys && Marked(versions, version, status)[version].status == status
    ensures forall v :: v in versions && v != version ==> Marked(versions, version, status)[v] == versions[v]
  {
  }
}
