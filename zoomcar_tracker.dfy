/**
 * The Zoomcar booking tracker: the half-hour time choices of the booking
 * form, the record a filled form becomes, the filters over the fetched
 * bookings, the earnings total and the per-booking status changes.
 */
module ZoomcarTracker {
  import opened Wrappers
  import opened Strings
  import opened Records
  import Lists

  // ---------------------------------------------------------------- time choices

  function TimeOption(i: nat): string {
    Pad2(i / 2) + ":" + (if i % 2 == 0 then "00" else "30")
  }

  /** `timeOptions`: "00:00", "00:30", ..., "23:30". */
  function TimeOptions(): (r: seq<string>)
    ensures |r| == 48
  {
    seq(48, i requires 0 <= i < 48 => TimeOption(i))
  }

  /** An "HH:MM" text read back as minutes after midnight. */
  function MinutesOf(t: string): Option<int> {
    if |t| == 5 && t[2] == ':' && AllDigits(t[..2]) && AllDigits(t[3..]) then
      Some(DigitsValue(t[..2]) * 60 + DigitsValue(t[3..]))
    else None
  }

  /** Each choice, character by character. */
  lemma TimeOptionChars(i: nat)
    requires i < 48
    ensures TimeOption(i) == [DigitChar(i / 2 / 10), DigitChar(i / 2 % 10), ':', if i % 2 == 0 then '0' else '3', '0']
  {
    var h := i / 2;
    if h < 10 {
      assert Pad2(h) == [DigitChar(0), DigitChar(h)];
    } else {
      assert NatToString(h) == NatToString(h / 10) + [DigitChar(h % 10)];
      assert Pad2(h) == [DigitChar(h / 10), DigitChar(h % 10)];
    }
  }

  /** Two strings of one length first differing at `k`, where the first is smaller, are in order. */
  lemma {:induction false} LexLessAt(a: string, b: string, k: nat)
    requires |a| == |b| && k < |a|
    requires a[..k] == b[..k] && a[k] < b[k]
    ensures LexLess(a, b)
    decreases k
  {
    if k > 0 {
      assert a[0] == a[..k][0] == b[..k][0] == b[0];
      assert a[1..][..k - 1] == a[..k][1..] == b[..k][1..] == b[1..][..k - 1];
      LexLessAt(a[1..], b[1..], k - 1);
    }
    assert a[k] != b[k];
  }

  /** An earlier choice is smaller as text than a later one. */
  lemma TimeOptionLess(i: nat, j: nat)
    requires i < j < 48
    ensures LexLess(TimeOption(i), TimeOption(j))
  {
    TimeOptionChars(i);
    TimeOptionChars(j);
    var a, b := TimeOption(i), TimeOption(j);
    var hi, hj := i / 2, j / 2;
    assert hi <= hj;
    if hi / 10 < hj / 10 {
      LexLessAt(a, b, 0);
    } else if hi % 10 < hj % 10 {
      assert a[..1] == b[..1];
      LexLessAt(a, b, 1);
    } else {
      assert hi == hj && i % 2 == 0 && j % 2 == 1;
      assert a[..3] == b[..3];
      LexLessAt(a, b, 3);
    }
  }

  /** Choice `i` reads back as `30 * i` minutes. */
  lemma TimeOptionMinutes(i: nat)
    requires i < 48
    ensures MinutesOf(TimeOption(i)) == Some(30 * i)
  {
    var t := TimeOption(i);
    var h := i / 2;
    var mm := if i % 2 == 0 then "00" else "30";
    Pad2RoundTrip(h);
    assert t == Pad2(h) + ":" + mm;
    assert t[..2] == Pad2(h) && t[2] == ':' && t[3..] == mm;
    assert DigitsValue(mm) == DigitsValue(mm[..1]) * 10;
    assert DigitsValue(mm[..1]) == if i % 2 == 0 then 0 else 3;
  }

  /**
   * The choices are strictly increasing as text, so the drop-down is in
   * time order, and choice `i` reads back as `30 * i` minutes.
   */
  lemma TimeOptionsSpec()
    ensures forall i, j :: 0 <= i < j < 48 ==> LexLess(TimeOptions()[i], TimeOptions()[j])
    ensures forall i :: 0 <= i < 48 ==> MinutesOf(TimeOptions()[i]) == Some(30 * i)
  {
    var r := TimeOptions();
    forall i, j | 0 <= i < j < 48 ensures LexLess(r[i], r[j]) {
      TimeOptionLess(i, j);
    }
    forall i | 0 <= i < 48 ensures MinutesOf(r[i]) == Some(30 * i) {
      TimeOptionMinutes(i);
    }
  }

  // ---------------------------------------------------------------- OTP visibility

  /** `showOTP[id]`: hidden until toggled. */
  predicate OtpShown(showOtp: map<int, bool>, id: int) {
    id in showOtp && showOtp[id]
  }

  /** `toggleOTP(id)`. */
  function ToggleOtp(showOtp: map<int, bool>, id: int): (r: map<int, bool>)
    ensures OtpShown(r, id) == !OtpShown(showOtp, id)
    ensures forall k :: k != id ==> OtpShown(r, k) == OtpShown(showOtp, k)
  {
    showOtp[id := !OtpShown(showOtp, id)]
  }

  /** Toggling twice shows every OTP as before. */
  lemma ToggleTwice(showOtp: map<int, bool>, id: int)
    ensures forall k :: OtpShown(ToggleOtp(ToggleOtp(showOtp, id), id), k) == OtpShown(showOtp, k)
  {
    var once := ToggleOtp(showOtp, id);
    var twice := ToggleOtp(once, id);
    forall k ensures OtpShown(twice, k) == OtpShown(showOtp, k) {
      if k != id {
        assert OtpShown(twice, k) == OtpShown(once, k);
      }
    }
  }

  // ---------------------------------------------------------------- new booking

  /** The booking form's fields as typed. */
  datatype BookingForm = BookingForm(
    mailDate: string,
    zoomcarBookingId: string,
    customerName: string,
    renteloBookingId: string,
    vehicleNumber: string,
    vehicleModel: string,
    startDate: string,
    startTime: string,
    endDate: string,
    endTime: string,
    startOtp: string,
    bookingStatus: string,
    earnings: string,
    rideStatus: string,
    remarks: string)

  /** `Number(text) || 0`. */
  function EarningsOfText(text: string): real {
    ParseNumber(text).GetOr(0) as real
  }

  /** `bookingData`, with `id` the one the table assigns on insert. */
  function BookingData(f: BookingForm, id: int): Booking {
    Booking(
      id,
      Some(ReplaceFirst(f.mailDate, 'T', ' ')),
      Some(f.zoomcarBookingId),
      Some(f.customerName),
      Some(f.renteloBookingId),
      Some(f.vehicleNumber),
      Some(f.vehicleModel),
      Some(f.startDate + " " + f.startTime),
      Some(f.endDate + " " + f.endTime),
      Some(f.startOtp),
      Some(f.bookingStatus),
      Some(EarningsOfText(f.earnings)),
      Some(f.rideStatus),
      Some(f.remarks))
  }

  /**
   * The saved start and end read back, at the space, as the date and time
   * typed; the first "T" of the mail date is the only character changed;
   * earnings are 0 for text that is not a plain digit string, and so, with
   * numbers read as plain digits only, never negative; and the booking
   * passes the date filter for its own start date.
   */
  lemma BookingDataSpec(f: BookingForm, id: int)
    ensures var b := BookingData(f, id);
      && (' ' !in f.startDate && ' ' !in f.startTime ==> Split(b.startTime.value, ' ') == [f.startDate, f.startTime])
      && (' ' !in f.endDate && ' ' !in f.endTime ==> Split(b.endTime.value, ' ') == [f.endDate, f.endTime])
      && |b.mailDate.value| == |f.mailDate|
      && (forall k :: 0 <= k < |f.mailDate| && b.mailDate.value[k] != f.mailDate[k] ==> f.mailDate[k] == 'T' && b.mailDate.value[k] == ' ')
      && b.earnings.value >= 0.0
      && (ParseNumber(f.earnings).None? ==> b.earnings == Some(0.0))
      && DateMatches(b, f.startDate)
  {
    var b := BookingData(f, id);
    if ' ' !in f.startDate && ' ' !in f.startTime {
      SplitJoin([f.startDate, f.startTime], ' ');
    }
    if ' ' !in f.endDate && ' ' !in f.endTime {
      SplitJoin([f.endDate, f.endTime], ' ');
    }
    assert b.startTime.value[..|f.startDate|] == f.startDate;
  }

  // ---------------------------------------------------------------- filters

  /** The filter bar ("" when unset). */
  datatype BookingFilters = BookingFilters(bookingDate: string, model: string, bookingStatus: string, rideStatus: string, search: string)

  /** What the reset button sets. */
  const ResetFilters := BookingFilters("", "", "", "", "")

  /** `b.start_time?.startsWith(date)`. */
  predicate DateMatches(b: Booking, date: string) {
    b.startTime.Some? && StartsWith(b.startTime.value, date)
  }

  predicate FieldContains(field: Option<string>, search: string) {
    field.Some? && ContainsIgnoringCase(field.value, search)
  }

  /** The search box looks in the two booking ids, the customer name and the vehicle number. */
  predicate SearchMatches(b: Booking, search: string) {
    || search == ""
    || FieldContains(b.zoomcarBookingId, search)
    || FieldContains(b.customerName, search)
    || FieldContains(b.renteloBookingId, search)
    || FieldContains(b.vehicleNumber, search)
  }

  predicate Matches(b: Booking, f: BookingFilters) {
    && (f.bookingDate == "" || DateMatches(b, f.bookingDate))
    && (f.model == "" || b.vehicleModel == Some(f.model))
    && (f.bookingStatus == "" || b.bookingStatus == Some(f.bookingStatus))
    && (f.rideStatus == "" || b.rideStatus == Some(f.rideStatus))
    && SearchMatches(b, f.search)
  }

  function MatchesFn(f: BookingFilters): Booking -> bool {
    b => Matches(b, f)
  }

  function RejectsFn(f: BookingFilters): Booking -> bool {
    b => !Matches(b, f)
  }

  /** `filteredBookings`. */
  function FilteredBookings(bs: seq<Booking>, f: BookingFilters): seq<Booking> {
    Lists.Filter(bs, MatchesFn(f))
  }

  /** The shown bookings keep the fetched order and are exactly the matching ones. */
  lemma FilteredBookingsSpec(bs: seq<Booking>, f: BookingFilters)
    ensures Lists.IsSubsequence(FilteredBookings(bs, f), bs)
    ensures forall b :: b in FilteredBookings(bs, f) <==> b in bs && Matches(b, f)
    ensures forall b :: multiset(FilteredBookings(bs, f))[b] == if Matches(b, f) then multiset(bs)[b] else 0
  {
    Lists.FilterIsSubsequence(bs, MatchesFn(f));
    forall b ensures multiset(FilteredBookings(bs, f))[b] == if Matches(b, f) then multiset(bs)[b] else 0 {
      Lists.FilterCount(bs, MatchesFn(f), b);
    }
    forall b ensures b in FilteredBookings(bs, f) <==> b in bs && Matches(b, f) {
      Lists.FilterMembership(bs, MatchesFn(f), b);
    }
  }

  /** After a reset every booking shows, in order. */
  lemma ResetKeepsAll(bs: seq<Booking>)
    ensures FilteredBookings(bs, ResetFilters) == bs
  {
    Lists.FilterKeepsAll(bs, MatchesFn(ResetFilters));
  }

  // ---------------------------------------------------------------- earnings

  /** `b.earnings || 0`. */
  function EarningsOf(b: Booking): real {
    Numeric(b.earnings)
  }

  /** `totalEarnings`: over the shown bookings only. */
  function TotalEarnings(bs: seq<Booking>, f: BookingFilters): real {
    Lists.Sum(FilteredBookings(bs, f), EarningsOf)
  }

  /**
   * The shown total and the total of the hidden bookings make up the total
   * of all fetched bookings; after a reset the shown total is that total.
   */
  lemma EarningsPartition(bs: seq<Booking>, f: BookingFilters)
    ensures Lists.Sum(bs, EarningsOf) == TotalEarnings(bs, f) + Lists.Sum(Lists.Filter(bs, RejectsFn(f)), EarningsOf)
    ensures TotalEarnings(bs, ResetFilters) == Lists.Sum(bs, EarningsOf)
  {
    Lists.SumPartition(bs, MatchesFn(f), RejectsFn(f), EarningsOf);
    ResetKeepsAll(bs);
  }

  // ---------------------------------------------------------------- status changes

  /** The two drop-downs on a booking row. */
  datatype StatusField = BookingStatusField | RideStatusField

  function SetField(field: StatusField, value: string): Booking -> Booking {
    (b: Booking) => match field
      case BookingStatusField => b.(bookingStatus := Some(value))
      case RideStatusField => b.(rideStatus := Some(value))
  }

  function IdIs(id: int): Booking -> bool {
    (b: Booking) => b.id == id
  }

  /**
   * A status change on booking `id`: the list is unchanged when the update
   * fails, and otherwise only that booking's edited field changes.
   */
  function SetStatus(bs: seq<Booking>, id: int, field: StatusField, value: string, ok: bool): (r: seq<Booking>)
    ensures !ok ==> r == bs
    ensures |r| == |bs|
    ensures forall i :: 0 <= i < |bs| && (!ok || bs[i].id != id) ==> r[i] == bs[i]
    ensures ok ==> forall i :: 0 <= i < |bs| && bs[i].id == id ==>
      r[i] == (match field
               case BookingStatusField => bs[i].(bookingStatus := Some(value))
               case RideStatusField => bs[i].(rideStatus := Some(value)))
  {
    if ok then Lists.UpdateWhere(bs, IdIs(id), SetField(field, value)) else bs
  }

  /**
   * A status change keeps the total earnings, and afterwards the changed
   * booking passes the filter on that status.
   */
  lemma SetStatusSpec(bs: seq<Booking>, id: int, field: StatusField, value: string, i: nat)
    requires i < |bs| && bs[i].id == id && value != ""
    ensures Lists.Sum(SetStatus(bs, id, field, value, true), EarningsOf) == Lists.Sum(bs, EarningsOf)
    ensures var b := SetStatus(bs, id, field, value, true)[i];
      match field
      case BookingStatusField => Matches(b, ResetFilters.(bookingStatus := value))
      case RideStatusField => Matches(b, ResetFilters.(rideStatus := value))
  {
    var r := SetStatus(bs, id, field, value, true);
    Lists.SumPointwise(r, bs, EarningsOf);
  }

  // ---------------------------------------------------------------- drop-down choices

  function ModelOf(b: Booking): Option<string> { b.vehicleModel }
  function BookingStatusOf(b: Booking): Option<string> { b.bookingStatus }
  function RideStatusOf(b: Booking): Option<string> { b.rideStatus }

  /**
   * `unique("vehicle_model")`, `unique("booking_status")` and
   * `unique("ride_status")`: a non-empty value is offered by a drop-down
   * exactly when choosing it alone leaves at least one booking shown.
   */
  lemma ChoicesSelect(bs: seq<Booking>, s: string)
    requires s != ""
    ensures s in UniqueOf(bs, ModelOf) <==> FilteredBookings(bs, ResetFilters.(model := s)) != []
    ensures s in UniqueOf(bs, BookingStatusOf) <==> FilteredBookings(bs, ResetFilters.(bookingStatus := s)) != []
    ensures s in UniqueOf(bs, RideStatusOf) <==> FilteredBookings(bs, ResetFilters.(rideStatus := s)) != []
  {
    ChoiceSelects(bs, s, ModelOf, ResetFilters.(model := s));
    ChoiceSelects(bs, s, BookingStatusOf, ResetFilters.(bookingStatus := s));
    ChoiceSelects(bs, s, RideStatusOf, ResetFilters.(rideStatus := s));
  }

  /** One drop-down: `f` selects exactly the bookings whose `key` is `s`. */
  lemma ChoiceSelects(bs: seq<Booking>, s: string, key: Booking -> Option<string>, f: BookingFilters)
    requires s != ""
    requires forall b :: Matches(b, f) <==> key(b) == Some(s)
    ensures s in UniqueOf(bs, key) <==> FilteredBookings(bs, f) != []
  {
    UniqueOfSpec(bs, key);
    FilteredBookingsSpec(bs, f);
    if s in UniqueOf(bs, key) {
      var i :| 0 <= i < |bs| && key(bs[i]) == Some(s);
      assert bs[i] in FilteredBookings(bs, f);
    }
    if FilteredBookings(bs, f) != [] {
      var b := FilteredBookings(bs, f)[0];
      assert b in bs && key(b) == Some(s);
      var i :| 0 <= i < |bs| && bs[i] == b;
    }
  }
}
