/**
 * The collections page: the duration and time texts of a ride extension,
 * the grand total still pending, the searched first page of records, and
 * the three writes (save a record, mark it paid, add a follow-up).
 */
module PayPending {
  import opened Wrappers
  import opened Strings
  import opened Clock
  import opened Records
  import Lists
  import PauseVehicle
  import Dashboard

  // ---------------------------------------------------------------- duration

  /** Whole seconds from `start` to `end`, and 0 when the end is not later. */
  function ElapsedSeconds(start: int, end: int): nat {
    var s := (end - start) / 1000;
    if s < 0 then 0 else s
  }

  datatype Dhm = Dhm(days: nat, hours: nat, minutes: nat)

  /** Whole days, then the hours and minutes left over. */
  function Breakdown(secs: nat): Dhm {
    Dhm(secs / 86400, secs % 86400 / 3600, secs % 3600 / 60)
  }

  function DurationText(d: Dhm): string {
    NatToString(d.days) + "d " + NatToString(d.hours) + "h " + NatToString(d.minutes) + "m"
  }

  /** Dividing by a day, an hour or a minute of seconds recovers the quotient and the remainder. */
  lemma DivDay(q: nat, r: nat)
    requires r < 86400
    ensures (q * 86400 + r) / 86400 == q && (q * 86400 + r) % 86400 == r
  {
  }

  lemma DivHour(q: nat, r: nat)
    requires r < 3600
    ensures (q * 3600 + r) / 3600 == q && (q * 3600 + r) % 3600 == r
  {
  }

  lemma DivMinute(q: nat, r: nat)
    requires r < 60
    ensures (q * 60 + r) / 60 == q && (q * 60 + r) % 60 == r
  {
  }

  /**
   * The breakdown is the one decomposition with fewer than 24 hours and 60
   * minutes: whatever days, hours, minutes and leftover seconds add up to
   * `secs` under those bounds are the ones it finds.
   */
  lemma BreakdownUnique(secs: nat, d: nat, h: nat, m: nat, s: nat)
    requires h < 24 && m < 60 && s < 60
    requires secs == d * 86400 + h * 3600 + m * 60 + s
    ensures Breakdown(secs) == Dhm(d, h, m)
  {
    var q := m * 60 + s;
    var r := h * 3600 + q;
    DivDay(d, r);
    DivHour(h, q);
    assert secs == (d * 24 + h) * 3600 + q;
    DivHour(d * 24 + h, q);
    DivMinute(m, s);
  }

  /** `diffDuration`: "—" without both instants, otherwise `Xd Yh Zm`. */
  method DiffDuration(start: Option<int>, end: Option<int>) returns (text: string)
    ensures start.None? || end.None? ==> text == "—"
    ensures start.Some? && end.Some? ==> text == DurationText(Breakdown(ElapsedSeconds(start.value, end.value)))
  {
    if start.None? || end.None? {
      return "—";
    }
    var diff := (end.value - start.value) / 1000;
    if diff < 0 {
      diff := 0;
    }
    ghost var secs := diff;
    var days := diff / (3600 * 24);
    diff := diff - days * 3600 * 24;
    var hours := diff / 3600;
    diff := diff - hours * 3600;
    var minutes := diff / 60;
    BreakdownUnique(secs, days, hours, minutes, diff % 60);
    text := NatToString(days) + "d " + NatToString(hours) + "h " + NatToString(minutes) + "m";
  }

  // ---------------------------------------------------------------- 12-hour time

  /** The calendar fields `getFullYear`, `getMonth` (0-based), `getDate`, `getHours`, `getMinutes` read. */
  datatype DateFields = DateFields(year: nat, month: nat, day: nat, hours: nat, minutes: nat)

  predicate ValidFields(f: DateFields) {
    f.month < 12 && 1 <= f.day <= 31 && f.hours < 24 && f.minutes < 60
  }

  /** `format12Hour`: "—" without an instant, otherwise `dd-mm-yyyy h:mm AM`. */
  function Format12Hour(d: Option<DateFields>): (r: string)
    ensures d.None? <==> r == "—"
  {
    if d.None? then "—"
    else
      var f := d.value;
      var date := Pad2(f.day) + "-" + Pad2(f.month + 1) + "-" + NatToString(f.year);
      var time := NatToString(Hour12(f.hours)) + ":" + Pad2(f.minutes) + " " + Meridiem(f.hours);
      assert time[|time| - 1] == 'M';
      date + " " + time
  }

  /** The text is the day-month-year part, a space, and a time of the pause form's 12-hour kind. */
  lemma Format12HourShape(f: DateFields)
    ensures Format12Hour(Some(f))
         == (Pad2(f.day) + "-" + Pad2(f.month + 1) + "-" + NatToString(f.year)) + [' ']
            + PauseVehicle.TimeOptionText(f.hours, f.minutes)
  {
    assert " " == [' '];
  }

  /**
   * The text reads back as the date and the 24-hour time it shows: the part
   * before the first space is day-month-year, the rest is a time of the
   * pause form's 12-hour kind.
   */
  lemma {:induction false} Format12HourReadsBack(f: DateFields)
    requires ValidFields(f)
    ensures var r := Format12Hour(Some(f));
            ' ' in r &&
            var i := IndexOfChar(r, ' ');
            && PauseVehicle.CalendarOf(r[..i]) == Some((f.day, f.month + 1, f.year))
            && PauseVehicle.ClockOf(r[i + 1..]) == Some((f.hours, f.minutes))
  {
    var dd, mm, yy := Pad2(f.day), Pad2(f.month + 1), NatToString(f.year);
    Pad2RoundTrip(f.day);
    Pad2RoundTrip(f.month + 1);
    NatToStringRoundTrip(f.year);
    var date := dd + "-" + mm + "-" + yy;
    var time := PauseVehicle.TimeOptionText(f.hours, f.minutes);
    Format12HourShape(f);
    assert ' ' !in date by {
      PauseVehicle.NoSpaceInDigits(dd);
      PauseVehicle.NoSpaceInDigits(mm);
      PauseVehicle.NoSpaceInDigits(yy);
    }
    IndexOfCharAfter(date, ' ', time);
    var r := date + [' '] + time;
    assert r[..|date|] == date && r[|date| + 1..] == time;
    PauseVehicle.CalendarRoundTrip(dd, mm, yy);
    PauseVehicle.ClockRoundTrip(f.hours, f.minutes);
  }

  // ---------------------------------------------------------------- totals and paging

  /** Pending on this page: the status is not exactly "paid" (case matters). */
  predicate NotPaid(p: PayPending) {
    p.status != Some("paid")
  }

  function NotPaidFn(): PayPending -> bool { p => NotPaid(p) }

  /** `grandTotalPending`: what the not-paid records owe. */
  function GrandTotalPending(items: seq<PayPending>): real {
    Lists.Sum(Lists.Filter(items, NotPaidFn()), Dashboard.PendingAmount)
  }

  /** The grand total of a list is its first record's share plus the rest's. */
  lemma GrandTotalCons(items: seq<PayPending>)
    requires |items| > 0
    ensures GrandTotalPending(items)
         == (if NotPaid(items[0]) then Dashboard.PendingAmount(items[0]) else 0.0) + GrandTotalPending(items[1..])
  {
    var kept := Lists.Filter(items, NotPaidFn());
    assert NotPaidFn()(items[0]) == NotPaid(items[0]);
    if NotPaid(items[0]) {
      assert kept == [items[0]] + Lists.Filter(items[1..], NotPaidFn());
      assert kept[1..] == Lists.Filter(items[1..], NotPaidFn());
    } else {
      assert kept == Lists.Filter(items[1..], NotPaidFn());
    }
  }

  /**
   * Where no status differs from "paid" only in letter case, this page's
   * grand total and the dashboard's pending total agree.
   */
  lemma {:induction false} GrandTotalMatchesDashboard(items: seq<PayPending>)
    requires forall k :: 0 <= k < |items| ==> Dashboard.IsPaid(items[k]) ==> items[k].status == Some("paid")
    ensures GrandTotalPending(items) == Dashboard.TotalPendingAmount(items)
    decreases |items|
  {
    if |items| > 0 {
      var p := items[0];
      GrandTotalMatchesDashboard(items[1..]);
      GrandTotalCons(items);
      assert NotPaid(p) == Dashboard.IsPending(p) by {
        if p.status == Some("paid") {
          assert Lower(Text(p.status)) == "paid";
        }
      }
      var kept := Lists.Filter(items, Dashboard.IsPendingFn());
      assert Dashboard.IsPendingFn()(p) == Dashboard.IsPending(p);
      if Dashboard.IsPending(p) {
        assert kept == [p] + Lists.Filter(items[1..], Dashboard.IsPendingFn());
        assert kept[1..] == Lists.Filter(items[1..], Dashboard.IsPendingFn());
      } else {
        assert kept == Lists.Filter(items[1..], Dashboard.IsPendingFn());
      }
    }
  }

  /** A record whose status is "Paid" still counts here, while the dashboard counts it as paid. */
  lemma CapitalisedPaidDisagrees(p: PayPending)
    requires p.status == Some("Paid") && Dashboard.PendingAmount(p) != 0.0
    ensures GrandTotalPending([p]) != Dashboard.TotalPendingAmount([p])
  {
    assert Lower("Paid") == "paid";
    assert Lists.Filter([p], Dashboard.IsPendingFn()) == [];
    assert Lists.Filter([p], NotPaidFn()) == [p];
    assert Lists.Sum([p], Dashboard.PendingAmount) == Dashboard.PendingAmount(p) + Lists.Sum([], Dashboard.PendingAmount);
  }

  const PageSize: int := 12

  /** The search box: within the booking id or the customer name, case-insensitively. */
  predicate SearchMatches(p: PayPending, filterText: string) {
    || filterText == ""
    || (p.bookingId.Some? && ContainsIgnoringCase(p.bookingId.value, filterText))
    || (p.customerName.Some? && ContainsIgnoringCase(p.customerName.value, filterText))
  }

  function SearchFn(filterText: string): PayPending -> bool { p => SearchMatches(p, filterText) }

  function Searched(items: seq<PayPending>, filterText: string): seq<PayPending> {
    Lists.Filter(items, SearchFn(filterText))
  }

  /** `paged`: the page-th run of twelve searched records. */
  function Paged(items: seq<PayPending>, filterText: string, page: int): seq<PayPending> {
    var start := (page - 1) * PageSize;
    Lists.Slice(Searched(items, filterText), start, start + PageSize)
  }

  /**
   * The page only ever stands at 1, so the table shows the first twelve
   * matching records, in the fetched order, and nothing that does not match.
   */
  lemma FirstPage(items: seq<PayPending>, filterText: string)
    ensures var shown := Paged(items, filterText, 1);
            var searched := Searched(items, filterText);
            && |shown| == (if |searched| < 12 then |searched| else 12)
            && shown == searched[..|shown|]
            && forall p :: p in shown ==> p in items && SearchMatches(p, filterText)
  {
    var searched := Searched(items, filterText);
    forall p | p in Paged(items, filterText, 1)
      ensures p in items && SearchMatches(p, filterText)
    {
      Lists.FilterMembership(items, SearchFn(filterText), p);
    }
  }

  /** With an empty search box every record is searched. */
  lemma EmptySearchKeepsAll(items: seq<PayPending>)
    ensures Searched(items, "") == items
  {
    Lists.FilterKeepsAll(items, SearchFn(""));
  }

  // ---------------------------------------------------------------- writes

  /** `record.id ? update : insert`: an id of 0 is falsy too. */
  predicate HasId(p: PayPending) {
    p.id.Some? && p.id.value != 0
  }

  /** `Math.round(x / 60000)` for a whole number of milliseconds. */
  function RoundMinutes(ms: int): int {
    (ms + 30000) / 60000
  }

  lemma RoundMinutesNearest(ms: int)
    ensures RoundMinutes(ms) * 60000 - 30000 <= ms < RoundMinutes(ms) * 60000 + 30000
  {
  }

  /**
   * The record `save` writes: with both ride bounds the duration becomes
   * the non-negative number of whole minutes between them, and the total
   * becomes the sum of the three amounts.
   */
  function Prepared(editing: PayPending): (r: PayPending)
    ensures r.totalAmount == Some(Dashboard.PendingAmount(editing))
    ensures editing.rideExtFrom.Some? && editing.rideExtUpto.Some? ==>
      && r.durationMinutes.Some? && r.durationMinutes.value >= 0
      && var ms := editing.rideExtUpto.value - editing.rideExtFrom.value;
         && (ms >= 0 ==> r.durationMinutes.value * 60000 - 30000 <= ms < r.durationMinutes.value * 60000 + 30000)
         && (ms < 0 ==> r.durationMinutes == Some(0))
    ensures editing.rideExtFrom.None? || editing.rideExtUpto.None? ==> r.durationMinutes == editing.durationMinutes
    ensures r.(totalAmount := editing.totalAmount, durationMinutes := editing.durationMinutes) == editing
  {
    var withDuration :=
      if editing.rideExtFrom.Some? && editing.rideExtUpto.Some? then
        var m := RoundMinutes(editing.rideExtUpto.value - editing.rideExtFrom.value);
        editing.(durationMinutes := Some(if m < 0 then 0 else m))
      else editing;
    withDuration.(totalAmount := Some(Numeric(editing.pendingCurrent) + Numeric(editing.pendingPrevious) + Numeric(editing.extraCharges)))
  }

  /** The records with id `id` become paid; nothing else changes. */
  function MarkPaidWhere(items: seq<PayPending>, id: int): (r: seq<PayPending>)
    ensures |r| == |items|
    ensures forall i :: 0 <= i < |items| ==> r[i] == if items[i].id == Some(id) then items[i].(status := Some("paid")) else items[i]
  {
    Lists.UpdateWhere(items, (p: PayPending) => p.id == Some(id), (p: PayPending) => p.(status := Some("paid")))
  }

  /** Marking the same id paid twice is marking it once. */
  lemma MarkPaidTwice(items: seq<PayPending>, id: int)
    ensures MarkPaidWhere(MarkPaidWhere(items, id), id) == MarkPaidWhere(items, id)
  {
    var once := MarkPaidWhere(items, id);
    var twice := MarkPaidWhere(once, id);
    assert forall i :: 0 <= i < |items| ==> twice[i] == once[i];
  }

  function OtherIdFn(id: int): PayPending -> bool { (p: PayPending) => p.id != Some(id) }

  /** Marking records paid removes exactly them from the grand total. */
  lemma {:induction false} MarkPaidTotal(items: seq<PayPending>, id: int)
    ensures GrandTotalPending(MarkPaidWhere(items, id)) == GrandTotalPending(Lists.Filter(items, OtherIdFn(id)))
    decreases |items|
  {
    if |items| > 0 {
      var after := MarkPaidWhere(items, id);
      assert after[1..] == MarkPaidWhere(items[1..], id);
      MarkPaidTotal(items[1..], id);
      GrandTotalCons(after);
      var others := Lists.Filter(items, OtherIdFn(id));
      assert OtherIdFn(id)(items[0]) == (items[0].id != Some(id));
      if items[0].id != Some(id) {
        assert others == [items[0]] + Lists.Filter(items[1..], OtherIdFn(id));
        assert others[1..] == Lists.Filter(items[1..], OtherIdFn(id));
        assert after[0] == items[0];
        GrandTotalCons(others);
      } else {
        assert others == Lists.Filter(items[1..], OtherIdFn(id));
        assert !NotPaid(after[0]);
      }
    }
  }

  /** One follow-up entry in the making. */
  datatype FollowDraft = FollowDraft(executiveName: string, remarks: string)

  const EmptyDraft := FollowDraft("", "")

  /** The follow-ups of one record, in the order they were added. */
  function FollowUpsOf(followUps: seq<FollowUp>, payId: int): seq<FollowUp> {
    Lists.Filter(followUps, (f: FollowUp) => f.payPendingId == payId)
  }

  /**
   * `fetchFollowups(payId)`: the record's follow-ups newest first
   * (`order("created_at", { ascending: false })`); the table holds them in
   * the order they were added.
   */
  function FetchFollowups(followUps: seq<FollowUp>, payId: int): seq<FollowUp> {
    Lists.Reverse(FollowUpsOf(followUps, payId))
  }

  /**
   * The page with its tables: `items` is the `pay_pending` table in the
   * order fetched (newest first), `followUps` the `follow_up_history` table.
   * The `ok` parameters say whether the backend accepted a write.
   */
  class PayPendingPage {
    var items: seq<PayPending>
    var followUps: seq<FollowUp>
    var followList: seq<FollowUp>
    var editing: Option<PayPending>
    var showForm: bool
    var draft: FollowDraft

    constructor (items: seq<PayPending>, followUps: seq<FollowUp>)
      ensures this.items == items && this.followUps == followUps
      ensures followList == [] && editing == None && !showForm && draft == EmptyDraft
    {
      this.items := items;
      this.followUps := followUps;
      followList := [];
      editing := None;
      showForm := false;
      draft := EmptyDraft;
    }

    /**
     * `save`: nothing without a record being edited; otherwise the prepared
     * record replaces the rows with its id, or is inserted (newest first,
     * with the id the backend gives it) when it has none; the form closes
     * whether or not the write succeeded.
     */
    method Save(ok: bool, newId: int)
      modifies this
      ensures old(editing).None? ==> items == old(items) && editing == old(editing) && showForm == old(showForm)
      ensures old(editing).Some? ==>
        && editing.None? && !showForm
        && var record := Prepared(old(editing).value);
           items == (if !ok then old(items)
                     else if HasId(record) then Lists.UpdateWhere(old(items), (p: PayPending) => p.id == record.id, (p: PayPending) => record)
                     else [record.(id := Some(newId))] + old(items))
      ensures followUps == old(followUps) && followList == old(followList) && draft == old(draft)
    {
      if editing.None? {
        return;
      }
      var record := Prepared(editing.value);
      if ok {
        if HasId(record) {
          items := Lists.UpdateWhere(items, (p: PayPending) => p.id == record.id, (p: PayPending) => record);
        } else {
          items := [record.(id := Some(newId))] + items;
        }
      }
      showForm := false;
      editing := None;
    }

    /** `markPaid(id)`: on a failed write nothing changes. */
    method MarkPaid(id: int, ok: bool)
      modifies this
      ensures items == (if ok then MarkPaidWhere(old(items), id) else old(items))
      ensures followUps == old(followUps) && followList == old(followList)
      ensures editing == old(editing) && showForm == old(showForm) && draft == old(draft)
    {
      if !ok {
        return;
      }
      items := MarkPaidWhere(items, id);
    }

    /**
     * A Mark Paid button: it starts `markPaid(id)` without waiting for it and
     * marks the record paid in the list at once; when the write returns, a
     * success marks it again. The list ends marked whatever the write did.
     */
    method PressMarkPaid(id: int, ok: bool)
      modifies this
      ensures items == MarkPaidWhere(old(items), id)
      ensures followUps == old(followUps) && followList == old(followList)
      ensures editing == old(editing) && showForm == old(showForm) && draft == old(draft)
    {
      items := MarkPaidWhere(items, id);
      MarkPaid(id, ok);
      MarkPaidTwice(old(items), id);
    }

    /**
     * `addFollow(payId)`: both fields are required; otherwise the entry is
     * added (when the write succeeds), the record's follow-ups are listed
     * again, and the draft is cleared.
     */
    method AddFollow(payId: int, ok: bool)
      modifies this
      ensures old(draft).executiveName == "" || old(draft).remarks == "" ==>
        followUps == old(followUps) && followList == old(followList) && draft == old(draft)
      ensures old(draft).executiveName != "" && old(draft).remarks != "" ==>
        && followUps == old(followUps) + (if ok then [FollowUp(payId, old(draft).executiveName, old(draft).remarks)] else [])
        && followList == FetchFollowups(followUps, payId)
        && draft == EmptyDraft
      ensures items == old(items) && editing == old(editing) && showForm == old(showForm)
    {
      if draft.executiveName == "" || draft.remarks == "" {
        return;
      }
      if ok {
        followUps := followUps + [FollowUp(payId, draft.executiveName, draft.remarks)];
      }
      followList := FetchFollowups(followUps, payId);
      draft := EmptyDraft;
    }
  }

  /**
   * A follow-up that is added shows in its record's list, and only there:
   * it heads that list, above the entries listed before, and leaves every
   * other record's list as it was.
   */
  lemma FollowUpListed(followUps: seq<FollowUp>, f: FollowUp, payId: int)
    ensures f in FetchFollowups(followUps + [f], payId) <==> f.payPendingId == payId
    ensures f.payPendingId == payId ==>
      FetchFollowups(followUps + [f], payId) == [f] + FetchFollowups(followUps, payId)
    ensures f.payPendingId != payId ==>
      FetchFollowups(followUps + [f], payId) == FetchFollowups(followUps, payId)
  {
    var p := (g: FollowUp) => g.payPendingId == payId;
    Lists.FilterMembership(followUps + [f], p, f);
    Lists.FilterSnoc(followUps, f, p);
    var before := FollowUpsOf(followUps, payId);
    Lists.ReverseSnoc(before, f);
  }
}
