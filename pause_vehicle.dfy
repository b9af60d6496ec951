/**
 * The pause page: the half-hour time list of its form, the combination of a
 * date and a 12-hour time into an instant, the status a vehicle shows, the
 * saving and the release of a pause, and the filter over the vehicle list.
 */
module PauseVehicle {
  import opened Wrappers
  import opened Strings
  import opened Clock
  import opened Records
  import Lists

  // ---------------------------------------------------------------- time options

  /** One option of the time list: `h:mm AM` with a 12-hour `h`. */
  function TimeOptionText(hour: nat, minute: nat): string {
    NatToString(Hour12(hour)) + ":" + Pad2(minute) + " " + Meridiem(hour)
  }

  /** The option for `hour:min` is option `2 * hour + min / 30` of the list. */
  lemma HalfHourIndex(hour: nat, min: nat)
    requires min == 0 || min == 30
    ensures (2 * hour + min / 30) / 2 == hour && (2 * hour + min / 30) % 2 * 30 == min
  {
  }

  /** `generateTimeOptions`: the 48 half hours of a day, 12:00 AM first. */
  method GenerateTimeOptions() returns (times: seq<string>)
    ensures |times| == 48
    ensures forall i :: 0 <= i < 48 ==> times[i] == TimeOptionText(i / 2, i % 2 * 30)
  {
    times := [];
    var hour := 0;
    while hour < 24
      invariant 0 <= hour <= 24 && |times| == 2 * hour
      invariant forall i :: 0 <= i < |times| ==> times[i] == TimeOptionText(i / 2, i % 2 * 30)
    {
      var min := 0;
      while min < 60
        invariant min == 0 || min == 30 || min == 60
        invariant |times| == 2 * hour + min / 30
        invariant forall i :: 0 <= i < |times| ==> times[i] == TimeOptionText(i / 2, i % 2 * 30)
      {
        var hour12 := if hour % 12 == 0 then 12 else hour % 12;
        var ampm := if hour < 12 then "AM" else "PM";
        var text := NatToString(hour12) + ":" + Pad2(min) + " " + ampm;
        assert text == TimeOptionText(hour, min);
        HalfHourIndex(hour, min);
        times := times + [text];
        min := min + 30;
      }
      hour := hour + 1;
    }
  }

  // ---------------------------------------------------------------- combining date and time

  /**
   * The clock part of `combineDateTime`: the text before the first space is
   * split at ':' into hour and minute, the text after it is the AM/PM
   * suffix. The result is the 24-hour hour and the minute, or None when
   * either number is missing or not a number.
   */
  function ClockOf(timeStr: string): Option<(int, int)> {
    var parts := Split(timeStr, ' ');
    var ampm := if |parts| > 1 then Some(parts[1]) else None;
    var hm := Split(parts[0], ':');
    var hour := ParseNumber(hm[0]);
    var minute := if |hm| > 1 then ParseNumber(hm[1]) else None;
    if hour.Some? && minute.Some? then Some((To24Hour(hour.value, ampm), minute.value)) else None
  }

  /** The date part: `year-month-day`, each a number. */
  function CalendarOf(dateStr: string): Option<(int, int, int)> {
    var ymd := Split(dateStr, '-');
    var year := ParseNumber(ymd[0]);
    var month := if |ymd| > 1 then ParseNumber(ymd[1]) else None;
    var day := if |ymd| > 2 then ParseNumber(ymd[2]) else None;
    if year.Some? && month.Some? && day.Some? then Some((year.value, month.value, day.value)) else None
  }

  /**
   * What `combineDateTime` yields: nothing (null) when either input is
   * empty, an invalid date (on which `toISOString` throws) when a number is
   * missing or the instant is out of range, and otherwise the instant.
   */
  datatype Combined = NoInstant | InvalidDate | Instant(ms: int)

  function CombineDateTime(dateStr: string, timeStr: string): (r: Combined)
    ensures r.NoInstant? <==> dateStr == "" || timeStr == ""
    ensures r.Instant? ==> -MaxTimeValue <= r.ms <= MaxTimeValue
  {
    if dateStr == "" || timeStr == "" then NoInstant
    else
      var date := CalendarOf(dateStr);
      var clock := ClockOf(timeStr);
      if date.None? || clock.None? then InvalidDate
      else
        var (year, month, day) := date.value;
        var (hour, minute) := clock.value;
        InstantOf(DateValue(year, month - 1, day, hour, minute))
  }

  /** `toISOString` of a date: the instant, or a throw for an invalid date. */
  function InstantOf(t: Option<int>): Combined {
    match t
    case Some(ms) => Instant(ms)
    case None => InvalidDate
  }

  lemma NoSpaceInDigits(s: string)
    requires forall k :: 0 <= k < |s| ==> IsDigit(s[k])
    ensures ' ' !in s && ':' !in s && '-' !in s
  {
  }

  /** Every option of the time list reads back as the hour and minute it was made from. */
  lemma {:induction false} ClockRoundTrip(hour: nat, minute: nat)
    requires hour < 24 && minute < 60
    ensures ClockOf(TimeOptionText(hour, minute)) == Some((hour, minute))
  {
    var h := NatToString(Hour12(hour));
    var m := Pad2(minute);
    var a := Meridiem(hour);
    var time := h + ":" + m;
    NatToStringRoundTrip(Hour12(hour));
    Pad2RoundTrip(minute);
    NoSpaceInDigits(h);
    NoSpaceInDigits(m);
    assert ' ' !in time;
    assert ' ' !in a;
    assert Join([a], " ") == a;
    assert TimeOptionText(hour, minute) == Join([time, a], " ");
    SplitJoin([time, a], ' ');
    assert Join([m], ":") == m;
    assert time == Join([h, m], ":");
    SplitJoin([h, m], ':');
    TwelveHourRoundTrip(hour);
  }

  /** A `yyyy-mm-dd` date reads back as its three numbers. */
  lemma {:induction false} CalendarRoundTrip(y: string, m: string, d: string)
    requires AllDigits(y) && AllDigits(m) && AllDigits(d)
    ensures CalendarOf(y + "-" + m + "-" + d) == Some((DigitsValue(y), DigitsValue(m), DigitsValue(d)))
  {
    NoSpaceInDigits(y);
    NoSpaceInDigits(m);
    NoSpaceInDigits(d);
    assert Join([d], "-") == d;
    assert Join([m, d], "-") == m + "-" + d;
    assert y + "-" + m + "-" + d == Join([y, m, d], "-");
    SplitJoin([y, m, d], '-');
  }

  /** Option `i` of the time list starts `i` half hours after midnight. */
  lemma OptionOffset(year: int, monthIndex: int, day: int, i: nat)
    requires i < 48
    ensures DateValue(year, monthIndex, day, i / 2, i % 2 * 30) == TimeClip(TimeValue(year, monthIndex, day, 0, 0) + i * 1800000)
  {
    assert i / 2 * 3600000 + i % 2 * 30 * 60000 == i * 1800000;
  }

  /** Both texts present and parsed: the instant of that calendar day at that hour and minute. */
  lemma CombineOfParts(ds: string, ts: string, year: int, month: int, day: int, hour: int, minute: int, t: Option<int>)
    requires ds != "" && CalendarOf(ds) == Some((year, month, day))
    requires ts != "" && ClockOf(ts) == Some((hour, minute))
    requires DateValue(year, month - 1, day, hour, minute) == t
    ensures CombineDateTime(ds, ts) == InstantOf(t)
  {
  }

  /** Option `i` of the time list is a non-empty text reading as hour `i / 2` and minute 0 or 30. */
  lemma OptionClock(i: nat)
    requires i < 48
    ensures TimeOptionText(i / 2, i % 2 * 30) != ""
    ensures ClockOf(TimeOptionText(i / 2, i % 2 * 30)) == Some((i / 2, i % 2 * 30))
  {
    assert TimeOptionText(i / 2, i % 2 * 30)[|NatToString(Hour12(i / 2))|] == ':';
    ClockRoundTrip(i / 2, i % 2 * 30);
  }

  /**
   * A date text that reads as `year-month-day` (by `CalendarRoundTrip`, any
   * `yyyy-mm-dd` typed in digits) and a time text that reads as the clock of
   * option `i` of the time list (by `OptionClock`, option `i` itself) give
   * the instant `i` half hours after midnight of that calendar day, month
   * `month` being month index `month - 1`; beyond the representable range
   * it is an invalid date.
   */
  lemma CombineChoiceAt(ds: string, ts: string, year: int, month: int, day: int, i: nat)
    requires ds != "" && CalendarOf(ds) == Some((year, month, day))
    requires ts != "" && i < 48 && ClockOf(ts) == Some((i / 2, i % 2 * 30))
    ensures CombineDateTime(ds, ts) == InstantOf(TimeClip(TimeValue(year, month - 1, day, 0, 0) + i * 1800000))
  {
    OptionOffset(year, month - 1, day, i);
    CombineOfParts(ds, ts, year, month, day, i / 2, i % 2 * 30, TimeClip(TimeValue(year, month - 1, day, 0, 0) + i * 1800000));
  }

  /** The date text with option `i` of the list itself. */
  lemma CombineOption(ds: string, year: int, month: int, day: int, i: nat)
    requires ds != "" && CalendarOf(ds) == Some((year, month, day)) && i < 48
    ensures CombineDateTime(ds, TimeOptionText(i / 2, i % 2 * 30))
         == InstantOf(TimeClip(TimeValue(year, month - 1, day, 0, 0) + i * 1800000))
  {
    OptionClock(i);
    CombineChoiceAt(ds, TimeOptionText(i / 2, i % 2 * 30), year, month, day, i);
  }

  // ---------------------------------------------------------------- status

  /**
   * `getStatus`: with both pause bounds present, Paused from the start to
   * the end inclusive and Upcoming Pause before the start; Active otherwise.
   */
  function GetStatus(v: Vehicle, now: int): (s: VehicleStatus)
    ensures s == Paused <==> v.pauseStart.Some? && v.pauseEnd.Some? && v.pauseStart.value <= now <= v.pauseEnd.value
    ensures s == UpcomingPause <==> v.pauseStart.Some? && v.pauseEnd.Some? && now < v.pauseStart.value
  {
    if v.pauseStart.Some? && v.pauseEnd.Some? then
      if v.pauseStart.value <= now && now <= v.pauseEnd.value then Paused
      else if now < v.pauseStart.value then UpcomingPause
      else Active
    else Active
  }

  // ---------------------------------------------------------------- saving and releasing

  /** The pause form's inputs. */
  datatype PauseForm = PauseForm(
    renteloId: string,
    startDate: string,
    startTime: string,
    endDate: string,
    endTime: string,
    pauseDoneBy: string)

  const EmptyForm := PauseForm("", "", "", "", "", "")

  /** How a submission of the pause form ends. */
  datatype PauseOutcome =
    | NoVehicleSelected
    | InvalidDateTime   // `toISOString` threw while combining a bound
    | MissingBounds     // "Please select both start and end date/time."
    | EndNotAfterStart  // "End date/time must be after start date/time."
    | Saved(start: int, end: int)

  /**
   * The checks of `addPause`, in its order: a vehicle must be selected; both
   * bounds are combined (either may throw); both must be present; the end
   * must come after the start.
   */
  function Submit(selected: Option<int>, form: PauseForm): (r: PauseOutcome)
    ensures r == NoVehicleSelected <==> selected.None?
    ensures r == InvalidDateTime <==>
      selected.Some? &&
      (CombineDateTime(form.startDate, form.startTime).InvalidDate? || CombineDateTime(form.endDate, form.endTime).InvalidDate?)
    ensures r.Saved? ==>
      && selected.Some?
      && CombineDateTime(form.startDate, form.startTime) == Instant(r.start)
      && CombineDateTime(form.endDate, form.endTime) == Instant(r.end)
      && r.start < r.end
    ensures r == MissingBounds <==>
      var start := CombineDateTime(form.startDate, form.startTime);
      var end := CombineDateTime(form.endDate, form.endTime);
      selected.Some? && !start.InvalidDate? && !end.InvalidDate? && (start.NoInstant? || end.NoInstant?)
    ensures r == EndNotAfterStart <==>
      var start := CombineDateTime(form.startDate, form.startTime);
      var end := CombineDateTime(form.endDate, form.endTime);
      selected.Some? && start.Instant? && end.Instant? && end.ms <= start.ms
    ensures selected.Some? && CombineDateTime(form.startDate, form.startTime).Instant?
      && CombineDateTime(form.endDate, form.endTime).Instant?
      && CombineDateTime(form.startDate, form.startTime).ms < CombineDateTime(form.endDate, form.endTime).ms
      ==> r.Saved?
  {
    if selected.None? then NoVehicleSelected
    else
      var start := CombineDateTime(form.startDate, form.startTime);
      var end := CombineDateTime(form.endDate, form.endTime);
      if start.InvalidDate? || end.InvalidDate? then InvalidDateTime
      else if start.NoInstant? || end.NoInstant? then MissingBounds
      else if end.ms <= start.ms then EndNotAfterStart
      else Saved(start.ms, end.ms)
  }

  /** The fields a saved pause writes on its vehicle. */
  function Pause(v: Vehicle, form: PauseForm, start: int, end: int): Vehicle {
    v.(renteloId := NullIfEmpty(form.renteloId),
       pauseStart := Some(start),
       pauseEnd := Some(end),
       pauseDoneBy := NullIfEmpty(form.pauseDoneBy),
       blockStatus := Some("Block"))
  }

  /** The fields a release writes: unblocked, with every pause field cleared. */
  function Release(v: Vehicle): Vehicle {
    v.(blockStatus := Some("Active"), pauseStart := None, pauseEnd := None, renteloId := None, pauseDoneBy := None)
  }

  /** The vehicles table after a pause is saved for vehicle `id`. */
  function PauseWhere(vs: seq<Vehicle>, id: int, form: PauseForm, start: int, end: int): (r: seq<Vehicle>)
    ensures |r| == |vs|
    ensures forall i :: 0 <= i < |vs| ==> r[i] == if vs[i].id == id then Pause(vs[i], form, start, end) else vs[i]
  {
    Lists.UpdateWhere(vs, (v: Vehicle) => v.id == id, (v: Vehicle) => Pause(v, form, start, end))
  }

  /** The vehicles table after vehicle `id` is released. */
  function ReleaseWhere(vs: seq<Vehicle>, id: int): (r: seq<Vehicle>)
    ensures |r| == |vs|
    ensures forall i :: 0 <= i < |vs| ==> r[i] == if vs[i].id == id then Release(vs[i]) else vs[i]
  {
    Lists.UpdateWhere(vs, (v: Vehicle) => v.id == id, Release)
  }

  /**
   * A saved pause shows its vehicle as upcoming before the start, paused
   * from the start to the end, and active after it; the vehicle is blocked.
   */
  lemma SavedPauseStatus(vs: seq<Vehicle>, id: int, form: PauseForm, start: int, end: int, i: nat, now: int)
    requires start < end && i < |vs| && vs[i].id == id
    ensures var v := PauseWhere(vs, id, form, start, end)[i];
            && v.blockStatus == Some("Block")
            && GetStatus(v, now) == (if now < start then UpcomingPause else if now <= end then Paused else Active)
  {
  }

  /** A released vehicle shows as active at every instant. */
  lemma ReleasedIsActive(vs: seq<Vehicle>, id: int, i: nat, now: int)
    requires i < |vs| && vs[i].id == id
    ensures ReleaseWhere(vs, id)[i].blockStatus == Some("Active")
    ensures GetStatus(ReleaseWhere(vs, id)[i], now) == Active
  {
  }

  /**
   * The page with the backend tables it writes: `vehicles` is the
   * `zoomcar_vehicles` table as last fetched, `history` the `pause_history`
   * table.
   */
  class PausePage {
    var vehicles: seq<Vehicle>
    var history: seq<PauseEntry>
    var selected: Option<int>
    var form: PauseForm
    var showForm: bool

    constructor (vehicles: seq<Vehicle>, history: seq<PauseEntry>)
      ensures this.vehicles == vehicles && this.history == history
      ensures selected == None && form == EmptyForm && !showForm
    {
      this.vehicles := vehicles;
      this.history := history;
      selected := None;
      form := EmptyForm;
      showForm := false;
    }

    /** Opening the form for a vehicle. */
    method OpenForm(id: int)
      modifies this
      ensures selected == Some(id) && showForm
      ensures vehicles == old(vehicles) && history == old(history) && form == old(form)
    {
      selected := Some(id);
      showForm := true;
    }

    /**
     * `addPause`: a saved outcome writes the vehicle's new window (when
     * that update succeeds, `updated`) and one history entry (when that
     * insert succeeds, `inserted`); the page ignores both errors and clears
     * and closes the form in any case. On any other outcome nothing changes.
     */
    method AddPause(updated: bool, inserted: bool) returns (outcome: PauseOutcome)
      modifies this
      ensures outcome == Submit(old(selected), old(form))
      ensures !outcome.Saved? ==>
        vehicles == old(vehicles) && history == old(history) && form == old(form) && showForm == old(showForm)
      ensures outcome.Saved? ==>
        && vehicles == (if updated then PauseWhere(old(vehicles), old(selected).value, old(form), outcome.start, outcome.end)
                        else old(vehicles))
        && history == old(history) + (if inserted then [PauseEntry(old(selected).value, NullIfEmpty(old(form).renteloId),
                                                                   outcome.start, outcome.end, NullIfEmpty(old(form).pauseDoneBy))]
                                      else [])
        && form == EmptyForm && !showForm
      ensures selected == old(selected)
    {
      outcome := Submit(selected, form);
      if outcome.Saved? {
        var id := selected.value;
        if updated {
          vehicles := PauseWhere(vehicles, id, form, outcome.start, outcome.end);
        }
        if inserted {
          history := history + [PauseEntry(id, NullIfEmpty(form.renteloId), outcome.start, outcome.end, NullIfEmpty(form.pauseDoneBy))];
        }
        showForm := false;
        form := EmptyForm;
      }
    }

    /** `releasePause(id)`: the vehicle is released when the update succeeds; an error is ignored. */
    method ReleasePause(id: int, ok: bool)
      modifies this
      ensures vehicles == if ok then ReleaseWhere(old(vehicles), id) else old(vehicles)
      ensures history == old(history) && selected == old(selected) && form == old(form) && showForm == old(showForm)
    {
      if ok {
        vehicles := ReleaseWhere(vehicles, id);
      }
    }
  }

  // ---------------------------------------------------------------- the vehicle list

  /** The values of the search box and the three drop-downs ("" when unset). */
  datatype VehicleFilter = VehicleFilter(search: string, model: string, location: string, status: string)

  const NoFilter := VehicleFilter("", "", "", "")

  /** One vehicle passes the page's filter. */
  predicate Matches(v: Vehicle, f: VehicleFilter, now: int) {
    && ContainsIgnoringCase(Text(v.vehicleNumber), f.search)
    && (f.model == "" || v.vehicleModel == Some(f.model))
    && (f.location == "" || v.vehicleLocation == Some(f.location))
    && (f.status == "" || GetStatus(v, now).Label() == f.status)
  }

  function MatchesFn(f: VehicleFilter, now: int): Vehicle -> bool {
    v => Matches(v, f, now)
  }

  /**
   * `filteredVehicles`. Lower-casing a missing vehicle number throws, so a
   * list with such a vehicle has no filtered view (None).
   */
  function FilteredVehicles(vs: seq<Vehicle>, f: VehicleFilter, now: int): (r: Option<seq<Vehicle>>)
    ensures r.None? <==> exists i :: 0 <= i < |vs| && vs[i].vehicleNumber.None?
    ensures r.Some? ==> |r.value| <= |vs|
  {
    if exists i :: 0 <= i < |vs| && vs[i].vehicleNumber.None? then None
    else Some(Lists.Filter(vs, MatchesFn(f, now)))
  }

  /** The filtered list keeps the list's order and holds exactly the vehicles that match. */
  lemma FilteredVehiclesSpec(vs: seq<Vehicle>, f: VehicleFilter, now: int)
    requires forall i :: 0 <= i < |vs| ==> vs[i].vehicleNumber.Some?
    ensures FilteredVehicles(vs, f, now).Some?
    ensures Lists.IsSubsequence(FilteredVehicles(vs, f, now).value, vs)
    ensures forall v :: v in FilteredVehicles(vs, f, now).value <==> v in vs && Matches(v, f, now)
    ensures forall v :: multiset(FilteredVehicles(vs, f, now).value)[v] == if Matches(v, f, now) then multiset(vs)[v] else 0
  {
    Lists.FilterIsSubsequence(vs, MatchesFn(f, now));
    forall v ensures multiset(FilteredVehicles(vs, f, now).value)[v] == if Matches(v, f, now) then multiset(vs)[v] else 0 {
      Lists.FilterCount(vs, MatchesFn(f, now), v);
    }
    forall v ensures v in FilteredVehicles(vs, f, now).value <==> v in vs && Matches(v, f, now) {
      Lists.FilterMembership(vs, MatchesFn(f, now), v);
    }
  }

  /** With every criterion unset the whole list shows. */
  lemma NoFilterKeepsAll(vs: seq<Vehicle>, now: int)
    requires forall i :: 0 <= i < |vs| ==> vs[i].vehicleNumber.Some?
    ensures FilteredVehicles(vs, NoFilter, now) == Some(vs)
  {
    assert Lower("") == "";
    Lists.FilterKeepsAll(vs, MatchesFn(NoFilter, now));
  }

  /** `[...new Set(vehicles.map(key))]`: the model and location drop-downs, null included. */
  function Choices(vs: seq<Vehicle>, key: Vehicle -> Option<string>): seq<Option<string>> {
    Lists.Distinct(Column(vs, key))
  }

  /**
   * Each value of the column appears once among the choices, nothing else
   * does, and the choices come in the order of their first appearance.
   */
  lemma ChoicesSpec(vs: seq<Vehicle>, key: Vehicle -> Option<string>)
    ensures Lists.NoDuplicates(Choices(vs, key))
    ensures forall x :: x in Choices(vs, key) <==> exists i :: 0 <= i < |vs| && key(vs[i]) == x
    ensures forall a, b :: 0 <= a < b < |Choices(vs, key)| ==>
      && Choices(vs, key)[a] in Column(vs, key)
      && Choices(vs, key)[b] in Column(vs, key)
      && Lists.FirstIndex(Column(vs, key), Choices(vs, key)[a]) < Lists.FirstIndex(Column(vs, key), Choices(vs, key)[b])
  {
    var column := Column(vs, key);
    Lists.DistinctSpec(column);
    forall x ensures x in column <==> exists i :: 0 <= i < |vs| && key(vs[i]) == x {
      if x in column {
        var i :| 0 <= i < |column| && column[i] == x;
        assert key(vs[i]) == x;
      }
      if exists i :: 0 <= i < |vs| && key(vs[i]) == x {
        var i :| 0 <= i < |vs| && key(vs[i]) == x;
        assert column[i] == x;
      }
    }
  }
}
