/**
 * The incident record of server/models/Incident.js: its three enumerations,
 * its location sub-document and the defaults a new record takes.
 */
module IncidentSchema {
  import opened Wrappers
  import opened Seqs

  datatype IncidentType = Accident | Pothole | Breakdown | Obstruction | Fire | Flood | Other

  function TypeName(t: IncidentType): string
  {
    match t
    case Accident => "Accident"
    case Pothole => "Pothole"
    case Breakdown => "Breakdown"
    case Obstruction => "Obstruction"
    case Fire => "Fire"
    case Flood => "Flood"
    case Other => "Other"
  }

  /** `VALID_TYPES`, in the order of the schema. */
  const AllTypes: seq<IncidentType> := [Accident, Pothole, Breakdown, Obstruction, Fire, Flood, Other]

  lemma AllTypesListed()
    ensures forall t: IncidentType :: t in AllTypes
  {
    forall t: IncidentType ensures t in AllTypes {
      match t
      case Accident => assert AllTypes[0] == t;
      case _ =>
    }
  }

  /** The type a request names; only the seven exact names are types. */
  function ParseType(s: string): (r: Option<IncidentType>)
    ensures r.Some? ==> TypeName(r.value) == s
    ensures r.None? <==> forall t: IncidentType :: TypeName(t) != s
  {
    AllTypesListed();
    var i := FindIndex(AllTypes, (t: IncidentType) => TypeName(t) == s);
    if i.Some? then Some(AllTypes[i.value]) else None
  }

  lemma ParseTypeName(t: IncidentType)
    ensures ParseType(TypeName(t)) == Some(t)
  {
  }

  datatype Severity = Low | Medium | High | Critical

  function SeverityName(s: Severity): string
  {
    match s
    case Low => "Low"
    case Medium => "Medium"
    case High => "High"
    case Critical => "Critical"
  }

  /** `VALID_SEVERITY`, in the order of the schema. */
  const AllSeverities: seq<Severity> := [Low, Medium, High, Critical]

  lemma AllSeveritiesListed()
    ensures forall v: Severity :: v in AllSeverities
  {
    forall v: Severity ensures v in AllSeverities {
      match v
      case Low => assert AllSeverities[0] == v;
      case _ =>
    }
  }

  /** The severity a request names; only the four exact names are severities. */
  function ParseSeverity(s: string): (r: Option<Severity>)
    ensures r.Some? ==> SeverityName(r.value) == s
    ensures r.None? <==> forall v: Severity :: SeverityName(v) != s
  {
    AllSeveritiesListed();
    var i := FindIndex(AllSeverities, (v: Severity) => SeverityName(v) == s);
    if i.Some? then Some(AllSeverities[i.value]) else None
  }

  lemma ParseSeverityName(s: Severity)
    ensures ParseSeverity(SeverityName(s)) == Some(s)
  {
  }

  datatype Status = Pending | Assigned | InProgress | Resolved

  function StatusName(s: Status): string
  {
    match s
    case Pending => "Pending"
    case Assigned => "Assigned"
    case InProgress => "In Progress"
    case Resolved => "Resolved"
  }

  const AllStatuses: seq<Status> := [Pending, Assigned, InProgress, Resolved]

  lemma AllStatusesListed()
    ensures forall v: Status :: v in AllStatuses
  {
    forall v: Status ensures v in AllStatuses {
      match v
      case Pending => assert AllStatuses[0] == v;
      case _ =>
    }
  }

  /** The status a request names; anything else fails the schema's enumeration check. */
  function ParseStatus(s: string): (r: Option<Status>)
    ensures r.Some? ==> StatusName(r.value) == s
    ensures r.None? <==> forall v: Status :: StatusName(v) != s
  {
    AllStatusesListed();
    var i := FindIndex(AllStatuses, (v: Status) => StatusName(v) == s);
    if i.Some? then Some(AllStatuses[i.value]) else None
  }

  lemma ParseStatusName(s: Status)
    ensures ParseStatus(StatusName(s)) == Some(s)
  {
  }

  /** `location`: coordinates, highway, kilometre mark and an optional landmark. */
  datatype Location = Location(lat: real, lng: real, highway: string, km: real, landmark: string)

  /**
   * A stored incident. `reportedBy` is the reporter's user id and `createdAt`
   * the creation time in milliseconds; `resolvedAt` is `None` for null.
   */
  datatype Incident = Incident(
    id: nat,
    reportedBy: nat,
    incidentType: IncidentType,
    severity: Severity,
    description: string,
    location: Location,
    photo: string,
    status: Status,
    assignedTeam: string,
    adminNotes: string,
    resolvedAt: Option<int>,
    createdAt: int)

  /** A schema field with a `default`: the given value, or the default when none is given. */
  function OrDefault(o: Option<string>, default: string): (r: string)
    ensures o.Some? ==> r == o.value
    ensures o.None? ==> r == default
  {
    if o.Some? then o.value else default
  }

  /**
   * `Incident.create` with the schema's defaults: a landmark and a photo
   * default to "", the status to Pending, the team and the notes to "", and
   * the resolution time to null; the creation time is stamped.
   */
  function NewIncident(id: nat, reportedBy: nat, incidentType: IncidentType, severity: Severity,
                       description: string, lat: real, lng: real, highway: string, km: real,
                       landmark: Option<string>, photo: Option<string>, now: int): (r: Incident)
    ensures r.id == id && r.reportedBy == reportedBy && r.createdAt == now
    ensures r.location.landmark == (if landmark.Some? then landmark.value else "")
    ensures r.photo == (if photo.Some? then photo.value else "")
    ensures r.status == Pending && r.assignedTeam == "" && r.adminNotes == "" && r.resolvedAt.None?
  {
    Incident(id, reportedBy, incidentType, severity, description,
             Location(lat, lng, highway, km, OrDefault(landmark, "")),
             OrDefault(photo, ""), Pending, "", "", None, now)
  }
}
