/**
 * The incident collection and the operations that change it: `reportIncident`
 * and `getIncidentById` (server/controllers/incidentController.js) and
 * `updateIncident` and `deleteIncident` (server/controllers/adminController.js).
 * The database is a sequence of records held by a `Store` object.
 */
module IncidentStore {
  import opened Wrappers
  import opened Seqs
  import opened IncidentSchema
  import opened IncidentReports

  /** The body of an update request; an absent field is `None`. */
  datatype UpdateRequest = UpdateRequest(status: Option<string>, assignedTeam: Option<string>, adminNotes: Option<string>)

  /** The answer to a report. */
  datatype ReportOutcome =
    | ReportRejected(errors: map<ReportField, string>)   // 400, every field's message
    | Reported(incident: Incident)                       // 201

  /** The answer to an update. */
  datatype UpdateOutcome =
    | IncidentNotFound                                   // 404 "Incident not found"
    | UpdateFailed                                       // 500, the record did not pass the schema at save
    | Updated(incident: Incident)                        // 200

  /** The answer to a delete. */
  datatype DeleteOutcome =
    | DeleteNotFound                                     // 404 "Incident not found"
    | Deleted                                            // 200

  const NotFoundMessage := "Incident not found"

  /** A resolved incident carries its resolution time. */
  ghost predicate Stamped(inc: Incident)
  {
    inc.status == Resolved ==> inc.resolvedAt.Some?
  }

  /**
   * What `updateIncident` saves for the loaded record `inc`: a truthy status,
   * team or note overwrites the stored one, and the resolution time is stamped
   * with `now` when the request says "Resolved" and none is stored yet. A status
   * outside the enumeration makes the save fail, so nothing is saved.
   */
  function ApplyUpdate(inc: Incident, req: UpdateRequest, now: int): (r: Option<Incident>)
    ensures r.None? <==> Truthy(req.status) && forall s: Status :: StatusName(s) != req.status.value
  {
    var status := if Truthy(req.status) then ParseStatus(req.status.value) else Some(inc.status);
    if status.None? then None
    else
      Some(inc.(status := status.value,
                assignedTeam := if Truthy(req.assignedTeam) then req.assignedTeam.value else inc.assignedTeam,
                adminNotes := if Truthy(req.adminNotes) then req.adminNotes.value else inc.adminNotes,
                resolvedAt := if req.status == Some("Resolved") && inc.resolvedAt.None? then Some(now)
                              else inc.resolvedAt))
  }

  /** An update changes no field but the status, the team, the notes and the resolution time. */
  lemma UpdateFrame(inc: Incident, req: UpdateRequest, now: int)
    requires ApplyUpdate(inc, req, now).Some?
    ensures var r := ApplyUpdate(inc, req, now).value;
      r.(status := inc.status, assignedTeam := inc.assignedTeam, adminNotes := inc.adminNotes,
         resolvedAt := inc.resolvedAt) == inc
  {
  }

  /**
   * A truthy status, team or note is what gets stored; an absent or empty one
   * leaves the stored value, so a team or a note once set can never be cleared.
   */
  lemma UpdateOverwrites(inc: Incident, req: UpdateRequest, now: int)
    requires ApplyUpdate(inc, req, now).Some?
    ensures var r := ApplyUpdate(inc, req, now).value;
      && (if Truthy(req.status) then StatusName(r.status) == req.status.value else r.status == inc.status)
      && (if Truthy(req.assignedTeam) then r.assignedTeam == req.assignedTeam.value else r.assignedTeam == inc.assignedTeam)
      && (if Truthy(req.adminNotes) then r.adminNotes == req.adminNotes.value else r.adminNotes == inc.adminNotes)
      && (inc.assignedTeam != "" ==> r.assignedTeam != "")
      && (inc.adminNotes != "" ==> r.adminNotes != "")
  {
  }

  /**
   * The resolution time is stamped, with `now`, exactly when the request says
   * "Resolved" and none is stored; a stored one is never changed or cleared.
   */
  lemma UpdateStampsOnce(inc: Incident, req: UpdateRequest, now: int)
    requires ApplyUpdate(inc, req, now).Some?
    ensures var r := ApplyUpdate(inc, req, now).value;
      && (r.resolvedAt != inc.resolvedAt <==> req.status == Some("Resolved") && inc.resolvedAt.None?)
      && (r.resolvedAt != inc.resolvedAt ==> r.resolvedAt == Some(now))
      && (inc.resolvedAt.Some? ==> r.resolvedAt == inc.resolvedAt)
      && (Stamped(inc) ==> Stamped(r))
  {
  }

  /** An update keeps a record that meets the report rules meeting them. */
  lemma UpdateKeepsWellFormed(inc: Incident, req: UpdateRequest, now: int)
    requires WellFormedIncident(inc) && ApplyUpdate(inc, req, now).Some?
    ensures WellFormedIncident(ApplyUpdate(inc, req, now).value)
  {
    UpdateFrame(inc, req, now);
  }

  /** An update request and the time it arrives. */
  datatype TimedUpdate = TimedUpdate(req: UpdateRequest, at: int)

  /** A record after a series of updates, in order; a failed update leaves it as it was. */
  function ApplyAll(inc: Incident, updates: seq<TimedUpdate>): Incident
    decreases |updates|
  {
    if updates == [] then inc
    else
      var next := ApplyUpdate(inc, updates[0].req, updates[0].at);
      ApplyAll(if next.Some? then next.value else inc, updates[1..])
  }

  /**
   * Over any series of updates the reporter and the creation time stay, a
   * stored resolution time stays, and a resolved record stays stamped.
   */
  lemma {:induction false} ApplyAllSettled(inc: Incident, updates: seq<TimedUpdate>)
    ensures var r := ApplyAll(inc, updates);
      && r.id == inc.id && r.reportedBy == inc.reportedBy && r.createdAt == inc.createdAt
      && (inc.resolvedAt.Some? ==> r.resolvedAt == inc.resolvedAt)
      && (Stamped(inc) ==> Stamped(r))
    decreases |updates|
  {
    if updates != [] {
      var next := ApplyUpdate(inc, updates[0].req, updates[0].at);
      if next.Some? {
        UpdateFrame(inc, updates[0].req, updates[0].at);
        UpdateStampsOnce(inc, updates[0].req, updates[0].at);
      }
      ApplyAllSettled(if next.Some? then next.value else inc, updates[1..]);
    }
  }

  /**
   * The body of `updateIncident` on the loaded record: the truthy fields are
   * assigned one by one, then the resolution time is stamped; the result is
   * what `save` stores, or `None` when the status fails the schema's enumeration.
   */
  method Edit(loaded: Incident, req: UpdateRequest, now: int) returns (saved: Option<Incident>)
    ensures saved == ApplyUpdate(loaded, req, now)
  {
    var inc := loaded;
    var statusValid := true;
    if Truthy(req.status) {
      var s := ParseStatus(req.status.value);
      if s.Some? {
        inc := inc.(status := s.value);
      } else {
        statusValid := false;
      }
    }
    if Truthy(req.assignedTeam) {
      inc := inc.(assignedTeam := req.assignedTeam.value);
    }
    if Truthy(req.adminNotes) {
      inc := inc.(adminNotes := req.adminNotes.value);
    }
    if req.status == Some("Resolved") && inc.resolvedAt.None? {
      inc := inc.(resolvedAt := Some(now));
    }
    saved := if statusValid then Some(inc) else None;
  }

  /** The position of the incident with the given id. */
  function IndexOfIncident(incidents: seq<Incident>, id: nat): (r: Option<nat>)
    ensures r.Some? ==> r.value < |incidents| && incidents[r.value].id == id
    ensures r.None? <==> forall x :: x in incidents ==> x.id != id
  {
    FindIndex(incidents, (x: Incident) => x.id == id)
  }

  /** The stored incidents: ids below the next id, no id twice, every resolved one stamped. */
  ghost predicate StoreInvariant(incidents: seq<Incident>, nextId: nat)
  {
    && (forall i :: 0 <= i < |incidents| ==> incidents[i].id < nextId && Stamped(incidents[i]))
    && (forall i, j :: 0 <= i < j < |incidents| ==> incidents[i].id != incidents[j].id)
  }

  /** The collection without the record at position `k`. */
  function RemoveAt(incidents: seq<Incident>, k: nat): (r: seq<Incident>)
    requires k < |incidents|
    ensures |r| == |incidents| - 1
    ensures forall x :: x in r ==> x in incidents
  {
    incidents[..k] + incidents[k + 1..]
  }

  /**
   * Removing the record with a given id from a valid collection leaves a valid
   * collection in which no record has that id and every other record remains.
   */
  lemma {:induction false} RemoveAtGone(incidents: seq<Incident>, nextId: nat, k: nat)
    requires StoreInvariant(incidents, nextId) && k < |incidents|
    ensures StoreInvariant(RemoveAt(incidents, k), nextId)
    ensures forall x :: x in RemoveAt(incidents, k) ==> x.id != incidents[k].id
    ensures forall x :: x in incidents && x.id != incidents[k].id ==> x in RemoveAt(incidents, k)
  {
    var r := RemoveAt(incidents, k);
    assert forall i :: 0 <= i < |r| ==> r[i] == incidents[if i < k then i else i + 1];
    forall x | x in r
      ensures x.id != incidents[k].id
    {
      var i :| 0 <= i < |r| && r[i] == x;
    }
    forall x | x in incidents && x.id != incidents[k].id
      ensures x in r
    {
      var i :| 0 <= i < |incidents| && incidents[i] == x;
      assert i != k;
      assert r[if i < k then i else i - 1] == x;
    }
  }

  class Store {
    var incidents: seq<Incident>
    var nextId: nat

    ghost predicate Valid()
      reads this
    {
      StoreInvariant(incidents, nextId)
    }

    constructor()
      ensures Valid() && incidents == [] && nextId == 0
    {
      incidents := [];
      nextId := 0;
    }

    /**
     * `reportIncident`: all field errors together, or else a new pending record
     * built from the report, reported by `caller`, with the uploaded photo's
     * location if any.
     */
    method Report(input: ReportInput, caller: nat, photo: Option<string>, now: int) returns (out: ReportOutcome)
      requires Valid()
      modifies this
      ensures Valid()
      ensures out.ReportRejected? <==> !ReportAcceptable(input)
      ensures out.ReportRejected? ==> forall f :: f in out.errors <==> ReportFieldError(input, f).Some?
      ensures out.ReportRejected? ==> forall f :: f in out.errors ==> out.errors[f] == ReportFieldError(input, f).value
      ensures out.ReportRejected? ==> incidents == old(incidents) && nextId == old(nextId)
      ensures out.Reported? ==>
        && ReportAcceptable(input)
        && out.incident == BuildIncident(input, caller, photo, old(nextId), now)
        && incidents == old(incidents) + [out.incident] && nextId == old(nextId) + 1
    {
      var errors := ValidateReport(input);
      ReportAccepted(input);
      if errors != map[] {
        var f :| f in errors;
        return ReportRejected(errors);
      }
      assert forall f :: f !in errors;
      out := Record(BuildIncident(input, caller, photo, nextId, now));
    }

    /** `Incident.create` for a new pending record that takes the next id. */
    method Record(incident: Incident) returns (out: ReportOutcome)
      requires Valid() && incident.id == nextId && incident.status == Pending
      modifies this
      ensures Valid()
      ensures out == Reported(incident)
      ensures incidents == old(incidents) + [incident] && nextId == old(nextId) + 1
    {
      incidents := incidents + [incident];
      nextId := nextId + 1;
      out := Reported(incident);
    }

    /** `Incident.findById`: the record with that id, for any authenticated caller. */
    function GetById(id: nat): (r: Option<Incident>)
      reads this
      ensures r.Some? ==> r.value in incidents && r.value.id == id
      ensures r.None? <==> forall x :: x in incidents ==> x.id != id
    {
      var k := IndexOfIncident(incidents, id);
      if k.Some? then Some(incidents[k.value]) else None
    }

    /**
     * `updateIncident`: loads the record, applies the request to it and saves
     * it in place; a status outside the enumeration fails the save and nothing
     * changes.
     */
    method Update(id: nat, req: UpdateRequest, now: int) returns (out: UpdateOutcome)
      requires Valid()
      modifies this
      ensures Valid()
      ensures nextId == old(nextId)
      ensures out.IncidentNotFound? <==> forall x :: x in old(incidents) ==> x.id != id
      ensures !out.Updated? ==> incidents == old(incidents)
      ensures !out.IncidentNotFound? ==>
        var k := IndexOfIncident(old(incidents), id).value;
        var saved := ApplyUpdate(old(incidents)[k], req, now);
        && (out.UpdateFailed? <==> saved.None?)
        && (out.Updated? ==> out == Updated(saved.value) && incidents == old(incidents)[k := saved.value])
    {
      var k := IndexOfIncident(incidents, id);
      if k.None? {
        return IncidentNotFound;
      }
      var saved := Edit(incidents[k.value], req, now);
      if saved.None? {
        return UpdateFailed;
      }
      UpdateStampsOnce(incidents[k.value], req, now);
      incidents := incidents[k.value := saved.value];
      out := Updated(saved.value);
    }

    /** `deleteIncident`: removes the record with that id; afterwards no record has it. */
    method Delete(id: nat) returns (out: DeleteOutcome)
      requires Valid()
      modifies this
      ensures Valid()
      ensures nextId == old(nextId)
      ensures out.DeleteNotFound? <==> forall x :: x in old(incidents) ==> x.id != id
      ensures out.DeleteNotFound? ==> incidents == old(incidents)
      ensures out.Deleted? ==> incidents == RemoveAt(old(incidents), IndexOfIncident(old(incidents), id).value)
      ensures forall x :: x in incidents ==> x.id != id
      ensures forall x :: x in old(incidents) && x.id != id ==> x in incidents
    {
      var k := IndexOfIncident(incidents, id);
      if k.None? {
        return DeleteNotFound;
      }
      RemoveAtGone(incidents, nextId, k.value);
      incidents := RemoveAt(incidents, k.value);
      out := Deleted;
    }
  }

  /** Deleting the same id twice: the second delete finds nothing. */
  method DeleteTwice(store: Store, id: nat) returns (first: DeleteOutcome, second: DeleteOutcome)
    requires store.Valid()
    modifies store
    ensures second == DeleteNotFound
    ensures first == Deleted <==> exists x :: x in old(store.incidents) && x.id == id
  {
    first := store.Delete(id);
    second := store.Delete(id);
  }
}
