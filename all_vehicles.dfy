/**
 * The read-only vehicle list: its own status rule, its five filters and
 * the choices of its drop-downs.
 */
module AllVehicles {
  import opened Wrappers
  import opened Strings
  import opened Records
  import Lists
  import PauseVehicle

  /** `isCurrentlyPaused`: both bounds present and `now` inside them, both ends included. */
  predicate IsCurrentlyPaused(start: Option<int>, end: Option<int>, now: int) {
    start.Some? && end.Some? && start.value <= now && now <= end.value
  }

  /** `isFuturePause`: a start after `now` (the end is not consulted). */
  predicate IsFuturePause(start: Option<int>, now: int) {
    start.Some? && start.value > now
  }

  /** `getStatus`: Paused wins over Upcoming Pause, which wins over Active. */
  function GetStatus(v: Vehicle, now: int): (s: VehicleStatus)
    ensures s == Paused <==> IsCurrentlyPaused(v.pauseStart, v.pauseEnd, now)
    ensures s == UpcomingPause <==> !IsCurrentlyPaused(v.pauseStart, v.pauseEnd, now) && IsFuturePause(v.pauseStart, now)
  {
    if IsCurrentlyPaused(v.pauseStart, v.pauseEnd, now) then Paused
    else if IsFuturePause(v.pauseStart, now) then UpcomingPause
    else Active
  }

  /**
   * The two pages disagree exactly on a vehicle whose pause has a start in
   * the future and no end: this page shows it as upcoming, the pause page
   * as active.
   */
  lemma StatusAgreement(v: Vehicle, now: int)
    ensures GetStatus(v, now) != PauseVehicle.GetStatus(v, now)
       <==> v.pauseStart.Some? && v.pauseEnd.None? && now < v.pauseStart.value
    ensures GetStatus(v, now) != PauseVehicle.GetStatus(v, now) ==>
      GetStatus(v, now) == UpcomingPause && PauseVehicle.GetStatus(v, now) == Active
  {
  }

  /** A released vehicle is active on this page too, at every instant. */
  lemma ReleasedIsActive(vs: seq<Vehicle>, id: int, i: nat, now: int)
    requires i < |vs| && vs[i].id == id
    ensures GetStatus(PauseVehicle.ReleaseWhere(vs, id)[i], now) == Active
  {
  }

  /** The filter state ("" when unset). */
  datatype Filters = Filters(model: string, location: string, status: string, pausedBy: string, search: string)

  const NoFilters := Filters("", "", "", "", "")

  /** The search box: matched, case-insensitively, within the vehicle number or the Rentelo id. */
  predicate SearchMatches(v: Vehicle, search: string) {
    || search == ""
    || (v.vehicleNumber.Some? && ContainsIgnoringCase(v.vehicleNumber.value, search))
    || (v.renteloId.Some? && ContainsIgnoringCase(v.renteloId.value, search))
  }

  predicate Matches(v: Vehicle, f: Filters, now: int) {
    && (f.model == "" || v.vehicleModel == Some(f.model))
    && (f.location == "" || v.vehicleLocation == Some(f.location))
    && (f.status == "" || GetStatus(v, now).Label() == f.status)
    && (f.pausedBy == "" || v.pauseDoneBy == Some(f.pausedBy))
    && SearchMatches(v, f.search)
  }

  function MatchesFn(f: Filters, now: int): Vehicle -> bool {
    v => Matches(v, f, now)
  }

  /** The list the filter effect shows. */
  function Filtered(vs: seq<Vehicle>, f: Filters, now: int): seq<Vehicle> {
    Lists.Filter(vs, MatchesFn(f, now))
  }

  /** The shown list keeps the fetched order and holds exactly the matching vehicles. */
  lemma FilteredSpec(vs: seq<Vehicle>, f: Filters, now: int)
    ensures Lists.IsSubsequence(Filtered(vs, f, now), vs)
    ensures forall v :: v in Filtered(vs, f, now) <==> v in vs && Matches(v, f, now)
    ensures forall v :: multiset(Filtered(vs, f, now))[v] == if Matches(v, f, now) then multiset(vs)[v] else 0
  {
    Lists.FilterIsSubsequence(vs, MatchesFn(f, now));
    forall v ensures multiset(Filtered(vs, f, now))[v] == if Matches(v, f, now) then multiset(vs)[v] else 0 {
      Lists.FilterCount(vs, MatchesFn(f, now), v);
    }
    forall v ensures v in Filtered(vs, f, now) <==> v in vs && Matches(v, f, now) {
      Lists.FilterMembership(vs, MatchesFn(f, now), v);
    }
  }

  /** With no filter set every fetched vehicle shows, as right after loading. */
  lemma NoFiltersKeepAll(vs: seq<Vehicle>, now: int)
    ensures Filtered(vs, NoFilters, now) == vs
  {
    Lists.FilterKeepsAll(vs, MatchesFn(NoFilters, now));
  }

  /** A non-empty search never shows a vehicle that has neither a number nor a Rentelo id. */
  lemma SearchNeedsAField(vs: seq<Vehicle>, f: Filters, now: int, v: Vehicle)
    requires f.search != "" && v.vehicleNumber.None? && v.renteloId.None?
    ensures v !in Filtered(vs, f, now)
  {
    Lists.FilterMembership(vs, MatchesFn(f, now), v);
  }
}
