/**
 * `getStats` (server/controllers/incidentController.js): counts and groupings
 * over the whole incident collection. The current time is a parameter.
 */
module Stats {
  import opened Seqs
  import opened IncidentSchema

  const DayMs: int := 24 * 60 * 60 * 1000
  const WeekMs: int := 7 * DayMs

  /**
   * The calendar day (UTC) of a time in milliseconds, as a day number. Day
   * numbers and `%Y-%m-%d` strings order days the same way.
   */
  function DayOf(t: int): int
  {
    t / DayMs
  }

  /** The dashboard statistics. */
  datatype Stats = Stats(
    totalIncidents: nat,
    pendingIncidents: nat,
    resolvedIncidents: nat,
    criticalIncidents: nat,
    byType: seq<(IncidentType, nat)>,
    byHighway: seq<(string, nat)>,
    last7Days: seq<(int, nat)>)

  function TypeOf(inc: Incident): IncidentType
  {
    inc.incidentType
  }

  function HighwayOf(inc: Incident): string
  {
    inc.location.highway
  }

  function DayKey(inc: Incident): int
  {
    DayOf(inc.createdAt)
  }

  function EntryCount<K>(e: (K, nat)): int
  {
    e.1
  }

  /** Sorting by this key largest first puts the earliest day first. */
  function EarlierFirst(e: (int, nat)): int
  {
    -e.0
  }

  /** Created at or after `now` minus seven days. */
  predicate Recent(now: int, inc: Incident)
  {
    inc.createdAt >= now - WeekMs
  }

  /** `byType`: one entry per type that occurs, with its number of incidents. */
  function TypeCounts(incidents: seq<Incident>): (r: seq<(IncidentType, nat)>)
    ensures Grouping(r, Map(incidents, TypeOf))
    ensures SumCounts(r) == |incidents|
  {
    GroupCountGrouping(Map(incidents, TypeOf));
    GroupCount(Map(incidents, TypeOf))
  }

  /** `byHighway`: one entry per highway that occurs, with its number of incidents, largest count first. */
  function HighwayCounts(incidents: seq<Incident>): (r: seq<(string, nat)>)
    ensures Grouping(r, Map(incidents, HighwayOf))
    ensures SumCounts(r) == |incidents|
    ensures SortedDesc(r, EntryCount)
  {
    var g := GroupCount(Map(incidents, HighwayOf));
    GroupCountGrouping(Map(incidents, HighwayOf));
    SortGrouping(g, Map(incidents, HighwayOf), EntryCount);
    SortDesc(g, EntryCount)
  }

  /** The day keys of the incidents of the last seven days. */
  function RecentDays(incidents: seq<Incident>, now: int): (r: seq<int>)
    ensures forall d :: d in r <==> exists x :: x in incidents && Recent(now, x) && DayKey(x) == d
  {
    var recent := Filter(incidents, (x: Incident) => Recent(now, x));
    var r := Map(recent, DayKey);
    assert forall d :: d in r ==> exists x :: x in recent && DayKey(x) == d;
    assert forall x :: x in recent ==> DayKey(x) in r by {
      forall x | x in recent ensures DayKey(x) in r {
        var i :| 0 <= i < |recent| && recent[i] == x;
        assert r[i] == DayKey(x);
      }
    }
    r
  }

  /**
   * `last7Days`: one entry per day on which an incident of the last seven days
   * was created, with its number of such incidents, days in increasing order.
   */
  function DailyCounts(incidents: seq<Incident>, now: int): (r: seq<(int, nat)>)
    ensures Grouping(r, RecentDays(incidents, now))
    ensures forall i, j :: 0 <= i < j < |r| ==> r[i].0 < r[j].0
  {
    var days := RecentDays(incidents, now);
    var g := GroupCount(days);
    GroupCountGrouping(days);
    SortGrouping(g, days, EarlierFirst);
    IncreasingDays(SortDesc(g, EarlierFirst));
    SortDesc(g, EarlierFirst)
  }

  /** Earliest first with no day twice is strictly increasing. */
  lemma IncreasingDays(r: seq<(int, nat)>)
    requires SortedDesc(r, EarlierFirst) && DistinctKeys(r)
    ensures forall i, j :: 0 <= i < j < |r| ==> r[i].0 < r[j].0
  {
    forall i, j | 0 <= i < j < |r|
      ensures r[i].0 < r[j].0
    {
      assert EarlierFirst(r[i]) >= EarlierFirst(r[j]);
    }
  }

  /** Only days of incidents created in the last seven days appear in `last7Days`. */
  lemma DailyCountsRecent(incidents: seq<Incident>, now: int, i: int)
    requires 0 <= i < |DailyCounts(incidents, now)|
    ensures exists x :: x in incidents && x.createdAt >= now - WeekMs && DayOf(x.createdAt) == DailyCounts(incidents, now)[i].0
  {
    var r := DailyCounts(incidents, now);
    assert r[i].0 in KeySet(r);
  }

  predicate IsPending(inc: Incident)
  {
    inc.status == Pending
  }

  predicate IsResolved(inc: Incident)
  {
    inc.status == Resolved
  }

  predicate IsCritical(inc: Incident)
  {
    inc.severity == Critical
  }

  /** `getStats`. */
  function GetStats(incidents: seq<Incident>, now: int): (r: Stats)
    ensures r.totalIncidents == |incidents|
    ensures r.pendingIncidents <= r.totalIncidents && r.resolvedIncidents <= r.totalIncidents
    ensures r.criticalIncidents <= r.totalIncidents
    ensures r.pendingIncidents == |Positions(incidents, IsPending)|
    ensures r.resolvedIncidents == |Positions(incidents, IsResolved)|
    ensures r.criticalIncidents == |Positions(incidents, IsCritical)|
    ensures SumCounts(r.byType) == r.totalIncidents && SumCounts(r.byHighway) == r.totalIncidents
    ensures SortedDesc(r.byHighway, EntryCount)
    ensures forall i, j :: 0 <= i < j < |r.last7Days| ==> r.last7Days[i].0 < r.last7Days[j].0
  {
    Stats(|incidents|, Count(incidents, IsPending), Count(incidents, IsResolved), Count(incidents, IsCritical),
          TypeCounts(incidents), HighwayCounts(incidents), DailyCounts(incidents, now))
  }

  /** No incident is both pending and resolved, so the two counts together stay within the total. */
  lemma PendingAndResolved(incidents: seq<Incident>, now: int)
    ensures var r := GetStats(incidents, now);
      r.pendingIncidents + r.resolvedIncidents <= r.totalIncidents
  {
    CountDisjoint(incidents, IsPending, IsResolved);
  }
}
