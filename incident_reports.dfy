/**
 * Input validation and record construction of `reportIncident`
 * (server/controllers/incidentController.js). Every field is checked on its
 * own and all messages are collected into one field-keyed map.
 */
module IncidentReports {
  import opened Wrappers
  import opened Text
  import opened IncidentSchema

  /**
   * A numeric form field: absent or empty (`!x || x === ""`), present but not
   * a number (`isNaN(x)`), or a number. Turning the submitted text into a
   * number is not modelled.
   */
  datatype NumInput = Missing | NotANumber | Number(value: real)

  /** The request body of a report; a text field that is absent is `None`. */
  datatype ReportInput = ReportInput(
    incidentType: Option<string>,
    severity: Option<string>,
    description: Option<string>,
    lat: NumInput,
    lng: NumInput,
    highway: Option<string>,
    km: NumInput,
    landmark: Option<string>)

  datatype ReportField =
    | TypeField | SeverityField | DescriptionField | LatField | LngField | HighwayField | KmField

  const InvalidTypeMessage := "Invalid type. Must be one of: Accident, Pothole, Breakdown, Obstruction, Fire, Flood, Other"
  const InvalidSeverityMessage := "Invalid severity. Must be one of: Low, Medium, High, Critical"

  /** The type is compared with the seven names as given, without trimming. */
  function TypeError(t: Option<string>): Option<string>
  {
    if Blank(t) then Some("Incident type is required")
    else if ParseType(t.value).None? then Some(InvalidTypeMessage)
    else None
  }

  function SeverityError(s: Option<string>): Option<string>
  {
    if Blank(s) then Some("Severity level is required")
    else if ParseSeverity(s.value).None? then Some(InvalidSeverityMessage)
    else None
  }

  function DescriptionError(d: Option<string>): Option<string>
  {
    if Blank(d) then Some("Incident description is required")
    else if |Trim(d.value)| < 10 then Some("Description must be at least 10 characters")
    else if |Trim(d.value)| > 500 then Some("Description must not exceed 500 characters")
    else None
  }

  function LatError(lat: NumInput): Option<string>
  {
    match lat
    case Missing => Some("Latitude is required. Use Auto GPS or enter manually.")
    case NotANumber => Some("Invalid latitude value")
    case Number(v) => if v < -90.0 || v > 90.0 then Some("Invalid latitude value") else None
  }

  function LngError(lng: NumInput): Option<string>
  {
    match lng
    case Missing => Some("Longitude is required. Use Auto GPS or enter manually.")
    case NotANumber => Some("Invalid longitude value")
    case Number(v) => if v < -180.0 || v > 180.0 then Some("Invalid longitude value") else None
  }

  /** The highway of a report is only required, not checked against a list. */
  function HighwayError(h: Option<string>): Option<string>
  {
    if Blank(h) then Some("Highway name is required") else None
  }

  function KmError(km: NumInput): Option<string>
  {
    match km
    case Missing => Some("KM mark is required")
    case NotANumber => Some("Enter a valid KM mark (e.g. 342)")
    case Number(v) => if v < 0.0 then Some("Enter a valid KM mark (e.g. 342)") else None
  }

  function ReportFieldError(input: ReportInput, f: ReportField): Option<string>
  {
    match f
    case TypeField => TypeError(input.incidentType)
    case SeverityField => SeverityError(input.severity)
    case DescriptionField => DescriptionError(input.description)
    case LatField => LatError(input.lat)
    case LngField => LngError(input.lng)
    case HighwayField => HighwayError(input.highway)
    case KmField => KmError(input.km)
  }

  /** The fields in the order the source checks them. */
  const ReportOrder: seq<ReportField> :=
    [TypeField, SeverityField, DescriptionField, LatField, LngField, HighwayField, KmField]

  lemma OrderCoversFields(f: ReportField)
    ensures f in ReportOrder
  {
  }

  /**
   * Fills the error map field by field, in the order of the source. Every
   * field gets exactly the message of its first failing rule and a field
   * with no failing rule gets none.
   */
  method ValidateReport(input: ReportInput) returns (errors: map<ReportField, string>)
    ensures forall f :: f in errors <==> ReportFieldError(input, f).Some?
    ensures forall f :: f in errors ==> errors[f] == ReportFieldError(input, f).value
  {
    errors := map[];
    for i := 0 to |ReportOrder|
      invariant forall f :: f in errors <==> f in ReportOrder[..i] && ReportFieldError(input, f).Some?
      invariant forall f :: f in errors ==> errors[f] == ReportFieldError(input, f).value
    {
      var e := ReportFieldError(input, ReportOrder[i]);
      if e.Some? {
        errors := errors[ReportOrder[i] := e.value];
      }
    }
    forall f ensures f in ReportOrder {
      OrderCoversFields(f);
    }
    assert ReportOrder[..|ReportOrder|] == ReportOrder;
  }

  // The rules each field must satisfy, stated without the order in which they are tried.

  predicate TypeRule(t: Option<string>)
  {
    t.Some? && ParseType(t.value).Some?
  }

  predicate SeverityRule(s: Option<string>)
  {
    s.Some? && ParseSeverity(s.value).Some?
  }

  predicate DescriptionRule(d: Option<string>)
  {
    d.Some? && 10 <= |Trim(d.value)| <= 500
  }

  predicate LatRule(lat: NumInput)
  {
    lat.Number? && -90.0 <= lat.value <= 90.0
  }

  predicate LngRule(lng: NumInput)
  {
    lng.Number? && -180.0 <= lng.value <= 180.0
  }

  predicate HighwayRule(h: Option<string>)
  {
    !Blank(h)
  }

  predicate KmRule(km: NumInput)
  {
    km.Number? && km.value >= 0.0
  }

  /** What a report must satisfy: every field's rules. */
  predicate ReportAcceptable(input: ReportInput)
  {
    && TypeRule(input.incidentType) && SeverityRule(input.severity)
    && DescriptionRule(input.description) && LatRule(input.lat) && LngRule(input.lng)
    && HighwayRule(input.highway) && KmRule(input.km)
  }

  /** The rules of one field. */
  predicate ReportFieldRule(input: ReportInput, f: ReportField)
  {
    match f
    case TypeField => TypeRule(input.incidentType)
    case SeverityField => SeverityRule(input.severity)
    case DescriptionField => DescriptionRule(input.description)
    case LatField => LatRule(input.lat)
    case LngField => LngRule(input.lng)
    case HighwayField => HighwayRule(input.highway)
    case KmField => KmRule(input.km)
  }

  // A field has no message exactly when all of its rules hold.

  lemma TypeErrorNone(t: Option<string>)
    ensures TypeError(t).None? <==> TypeRule(t)
  {
    if TypeRule(t) {
      NamedNotBlank(t, ParseType(t.value).value, Low);
    }
  }

  lemma SeverityErrorNone(s: Option<string>)
    ensures SeverityError(s).None? <==> SeverityRule(s)
  {
    if SeverityRule(s) {
      NamedNotBlank(s, Other, ParseSeverity(s.value).value);
    }
  }

  /** A field holding the name of a type or a severity is not blank. */
  lemma NamedNotBlank(o: Option<string>, t: IncidentType, s: Severity)
    requires o == Some(TypeName(t)) || o == Some(SeverityName(s))
    ensures !Blank(o)
  {
    NamesTrimmed(t, s);
  }

  lemma DescriptionErrorNone(d: Option<string>)
    ensures DescriptionError(d).None? <==> DescriptionRule(d)
  {
  }

  lemma ReportFieldErrorNone(input: ReportInput, f: ReportField)
    ensures ReportFieldError(input, f).None? <==> ReportFieldRule(input, f)
  {
    match f
    case TypeField => TypeErrorNone(input.incidentType);
    case SeverityField => SeverityErrorNone(input.severity);
    case DescriptionField => DescriptionErrorNone(input.description);
    case _ =>
  }

  lemma AcceptableReportField(input: ReportInput, f: ReportField)
    requires ReportAcceptable(input)
    ensures ReportFieldRule(input, f)
  {
  }

  lemma ReportFieldsAcceptable(input: ReportInput)
    requires forall f :: ReportFieldRule(input, f)
    ensures ReportAcceptable(input)
  {
    assert ReportFieldRule(input, TypeField);
    assert ReportFieldRule(input, SeverityField);
    assert ReportFieldRule(input, DescriptionField);
    assert ReportFieldRule(input, LatField);
    assert ReportFieldRule(input, LngField);
    assert ReportFieldRule(input, HighwayField);
    assert ReportFieldRule(input, KmField);
  }

  /** The error map comes back empty exactly when every rule of every field holds. */
  lemma ReportAccepted(input: ReportInput)
    ensures (forall f :: ReportFieldError(input, f).None?) <==> ReportAcceptable(input)
  {
    forall f ensures ReportFieldError(input, f).None? <==> ReportFieldRule(input, f) {
      ReportFieldErrorNone(input, f);
    }
    if ReportAcceptable(input) {
      forall f ensures ReportFieldRule(input, f) {
        AcceptableReportField(input, f);
      }
    } else if forall f :: ReportFieldRule(input, f) {
      ReportFieldsAcceptable(input);
    }
  }

  /** No name of a type or a severity has white space at either end. */
  lemma NamesTrimmed(t: IncidentType, s: Severity)
    ensures Trim(TypeName(t)) == TypeName(t)
    ensures Trim(SeverityName(s)) == SeverityName(s)
  {
    TrimLetterEnds(TypeName(t));
    TrimLetterEnds(SeverityName(s));
  }

  /**
   * The record `Incident.create` receives for an accepted report: the caller
   * as reporter, the named type and severity, description and highway
   * trimmed, the landmark trimmed or "", the uploaded photo's location or "".
   */
  function BuildIncident(input: ReportInput, caller: nat, photo: Option<string>, id: nat, now: int): (r: Incident)
    requires ReportAcceptable(input)
    ensures r.reportedBy == caller && r.id == id && r.createdAt == now
    ensures r.location.landmark == (if input.landmark.Some? then Trim(input.landmark.value) else "")
    ensures r.photo == (if photo.Some? then photo.value else "")
    ensures r.status == Pending && r.resolvedAt.None?
  {
    NewIncident(id, caller,
                ParseType(input.incidentType.value).value,
                ParseSeverity(input.severity.value).value,
                Trim(input.description.value),
                input.lat.value, input.lng.value, Trim(input.highway.value), input.km.value,
                Some(if input.landmark.Some? then Trim(input.landmark.value) else ""),
                photo, now)
  }

  /** A stored description: within the length bounds and already trimmed. */
  ghost predicate DescriptionStored(s: string)
  {
    10 <= |s| <= 500 && Trim(s) == s
  }

  /** A stored highway name: not empty and already trimmed. */
  ghost predicate HighwayStored(s: string)
  {
    s != "" && Trim(s) == s
  }

  /** Stored coordinates and kilometre mark within the accepted ranges. */
  ghost predicate PlaceStored(l: Location)
  {
    -90.0 <= l.lat <= 90.0 && -180.0 <= l.lng <= 180.0 && l.km >= 0.0
  }

  /** A stored incident that meets every report rule in its stored (trimmed) form. */
  ghost predicate WellFormedIncident(r: Incident)
  {
    DescriptionStored(r.description) && HighwayStored(r.location.highway) && PlaceStored(r.location)
  }

  /** An accepted report becomes an incident that meets the report rules in its stored form. */
  lemma BuildIncidentWellFormed(input: ReportInput, caller: nat, photo: Option<string>, id: nat, now: int)
    requires ReportAcceptable(input)
    ensures WellFormedIncident(BuildIncident(input, caller, photo, id, now))
  {
    StoredDescription(input, caller, photo, id, now);
    StoredHighway(input, caller, photo, id, now);
    StoredPlace(input, caller, photo, id, now);
  }

  lemma StoredDescription(input: ReportInput, caller: nat, photo: Option<string>, id: nat, now: int)
    requires ReportAcceptable(input)
    ensures DescriptionStored(BuildIncident(input, caller, photo, id, now).description)
  {
    TrimIdempotent(input.description.value);
  }

  lemma StoredHighway(input: ReportInput, caller: nat, photo: Option<string>, id: nat, now: int)
    requires ReportAcceptable(input)
    ensures HighwayStored(BuildIncident(input, caller, photo, id, now).location.highway)
  {
    TrimIdempotent(input.highway.value);
  }

  lemma StoredPlace(input: ReportInput, caller: nat, photo: Option<string>, id: nat, now: int)
    requires ReportAcceptable(input)
    ensures PlaceStored(BuildIncident(input, caller, photo, id, now).location)
  {
  }

  /** The stored type and severity are the submitted ones trimmed (trimming an accepted name changes nothing). */
  lemma BuildIncidentNames(input: ReportInput, caller: nat, photo: Option<string>, id: nat, now: int)
    requires ReportAcceptable(input)
    ensures var r := BuildIncident(input, caller, photo, id, now);
      TypeName(r.incidentType) == Trim(input.incidentType.value)
      && SeverityName(r.severity) == Trim(input.severity.value)
  {
    var r := BuildIncident(input, caller, photo, id, now);
    NamesTrimmed(r.incidentType, r.severity);
  }
}
