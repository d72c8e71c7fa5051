/**
 * `getIncidents` (server/controllers/incidentController.js): the incidents a
 * caller may see that match every supplied filter, newest first.
 */
module Queries {
  import opened Wrappers
  import opened Seqs
  import opened Users
  import opened IncidentSchema

  /** The authenticated caller: user id and role. */
  datatype Caller = Caller(id: nat, role: Role)

  /**
   * The query string. A text filter that is absent is `None`; a date bound is
   * the time it names in milliseconds (turning the text into a time is not modelled).
   */
  datatype IncidentQuery = IncidentQuery(
    status: Option<string>,
    incidentType: Option<string>,
    severity: Option<string>,
    highway: Option<string>,
    startDate: Option<int>,
    endDate: Option<int>)

  /** The query with no filter at all. */
  const NoFilters := IncidentQuery(None, None, None, None, None, None)

  /** A staff caller sees only what they reported; an admin sees everything. */
  predicate InScope(caller: Caller, inc: Incident)
  {
    caller.role == Staff ==> inc.reportedBy == caller.id
  }

  /** A truthy text filter must equal the field exactly; an absent or empty one matches anything. */
  predicate FieldMatches(filter: Option<string>, value: string)
  {
    Truthy(filter) ==> value == filter.value
  }

  /** The creation time lies within the given bounds, both inclusive. */
  predicate InRange(q: IncidentQuery, t: int)
  {
    (q.startDate.Some? ==> q.startDate.value <= t) && (q.endDate.Some? ==> t <= q.endDate.value)
  }

  /** The MongoDB filter `getIncidents` builds, as a predicate on one record. */
  predicate Matches(caller: Caller, q: IncidentQuery, inc: Incident)
  {
    && InScope(caller, inc)
    && FieldMatches(q.status, StatusName(inc.status))
    && FieldMatches(q.incidentType, TypeName(inc.incidentType))
    && FieldMatches(q.severity, SeverityName(inc.severity))
    && FieldMatches(q.highway, inc.location.highway)
    && InRange(q, inc.createdAt)
  }

  function CreatedAt(inc: Incident): int
  {
    inc.createdAt
  }

  /** `Incident.find(filter).sort({ createdAt: -1 })`. */
  function GetIncidents(caller: Caller, q: IncidentQuery, incidents: seq<Incident>): (r: seq<Incident>)
    ensures SortedDesc(r, CreatedAt)
    ensures forall x :: x in r <==> x in incidents && Matches(caller, q, x)
    ensures multiset(r) == multiset(Filter(incidents, (x: Incident) => Matches(caller, q, x)))
  {
    var kept := Filter(incidents, (x: Incident) => Matches(caller, q, x));
    SortDescMembers(kept, CreatedAt);
    SortDesc(kept, CreatedAt)
  }

  /** Every incident a staff caller gets back was reported by that caller. */
  lemma StaffSeesOwn(caller: Caller, q: IncidentQuery, incidents: seq<Incident>)
    requires caller.role == Staff
    ensures forall x :: x in GetIncidents(caller, q, incidents) ==> x.reportedBy == caller.id
  {
  }

  /** An admin with no filter gets back every incident, each as often as it is stored. */
  lemma {:induction false} AdminSeesAll(caller: Caller, incidents: seq<Incident>)
    requires caller.role == Admin
    ensures multiset(GetIncidents(caller, NoFilters, incidents)) == multiset(incidents)
  {
    var p := (x: Incident) => Matches(caller, NoFilters, x);
    FilterAll(incidents, p);
  }

  /**
   * The filters are conjunctive: a query with one more text filter returns
   * exactly the results of the smaller query whose field equals that filter.
   */
  lemma StatusFilterNarrows(caller: Caller, q: IncidentQuery, status: string, incidents: seq<Incident>)
    requires !Truthy(q.status) && status != ""
    ensures forall x :: x in GetIncidents(caller, q.(status := Some(status)), incidents) <==>
      x in GetIncidents(caller, q, incidents) && StatusName(x.status) == status
  {
  }
}
