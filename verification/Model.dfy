/** The values that the address engine passes between its stages. */
module Model {
  import opened Wrappers
  import opened Decimal

  /** Administrative levels, and any other text that stands where a level is expected. */
  datatype Level = Province | City | District | SubDistrict | OtherLevel(name: string)

  datatype Entity = Entity(id: Int64, name: string, level: Level, postalCode: string)

  datatype EvidenceKind = RoadName | PlaceName | PostalCode

  datatype Evidence = Evidence(kind: EvidenceKind, value: string)

  datatype ResolvedEvidence = ResolvedEvidence(evidence: Evidence, candidates: seq<Entity>)

  datatype MatchedEvidence = MatchedEvidence(evidence: Evidence, resolved: Option<Entity>)

  /** A filled level of a location. */
  datatype Region = Region(id: Int64, name: string, normalizedName: string, postalCode: string)

  datatype PostalRef = PostalRef(id: Int64, code: string)

  datatype ConflictKind =
    | HierarchyConflict
    | PostalCodeMismatch
    | OrphanCity
    | MultipleCity
    | DuplicateLevel

  datatype AdminLocation = AdminLocation(
    province: Option<Region>,
    city: Option<Region>,
    district: Option<Region>,
    subDistrict: Option<Region>,
    postal: Option<PostalRef>,
    conflicts: seq<ConflictKind>)

  datatype Strategy = TopDown | AnyLevel | Alias | Postal

  datatype AdminCandidate = AdminCandidate(
    origin: Level,
    location: AdminLocation,
    evidence: seq<MatchedEvidence>,
    strategies: seq<Strategy>)

  const EMPTY_LOCATION: AdminLocation := AdminLocation(None, None, None, None, None, [])

  /** Child-to-parent ids, one map per level. */
  datatype HierarchyMap = HierarchyMap(
    cityToProvince: map<Int64, Int64>,
    districtToCity: map<Int64, Int64>,
    subDistrictToDistrict: map<Int64, Int64>)

  /** The service's caches: the hierarchy, when it is loaded, and the entries of every level by id. */
  datatype Atlas = Atlas(
    hierarchy: Option<HierarchyMap>,
    provinceById: map<Int64, Region>,
    cityById: map<Int64, Region>,
    districtById: map<Int64, Region>,
    subDistrictById: map<Int64, Region>)

  /** The entity that stands for a cached region at a level; only cities and sub-districts carry
      a postal code. */
  function EntityOf(level: Level, r: Region): Entity {
    Entity(r.id, r.name, level, if level == City || level == SubDistrict then r.postalCode else "")
  }

  /** Reading a missing key gives zero. */
  function Lookup(m: map<Int64, Int64>, k: Int64): Int64 {
    if k in m then m[k] else 0
  }

  function IdOf(r: Option<Region>): Int64 {
    match r
    case None => 0
    case Some(x) => x.id
  }

  ghost function Ids(es: seq<Entity>): set<Int64> {
    set e | e in es :: e.id
  }

  /** No id occurs twice. */
  ghost predicate NoRepeats(es: seq<Entity>) {
    forall i, j :: 0 <= i < j < |es| ==> es[i].id != es[j].id
  }
}
