/**
 * The report of one uploaded drop sheet: which columns hold the drop date
 * and the pickup place, the dates on offer, the rows of the chosen date,
 * and the three histograms (by status, by agent, by location) with their
 * colours.
 */
module TodayDropsReport {
  import opened Wrappers
  import opened Strings
  import opened Records
  import Lists
  import Tally
  import UploadSheet

  // ---------------------------------------------------------------- colours

  /** `STATUS_COLOR_MAP`, whose keys in insertion order are `StatusColorKeys`. */
  const StatusColors: map<string, string> := map[
    "Completed" := "#1D4ED8",
    "Extended" := "#15803D",
    "Drop off" := "#3F3F46",
    "Not Answered" := "#B91C1C",
    "Call Back" := "#A21CAF",
    "Other" := "#EA580C"]

  const StatusColorKeys: seq<string> := ["Completed", "Extended", "Drop off", "Not Answered", "Call Back", "Other"]

  const LocationPalette: seq<string> := [
    "#3B82F6", "#10B981", "#EF4444", "#8B5CF6", "#F97316",
    "#06B6D4", "#7C3AED", "#0EA5E9", "#14B8A6", "#665d5eff"]

  /** `STATUS_COLOR_MAP[k]`: undefined (None) for a key the map lacks. */
  function ColorOf(k: string): Option<string> {
    if k in StatusColors then Some(StatusColors[k]) else None
  }

  /**
   * `pickStatusColor(status, idx)` as written: the exact key, then the
   * substring rules in order, then the colour of key `idx mod 6`. The
   * "pause" and "pend" rules read keys the map does not have.
   */
  function PickStatusColor(status: string, idx: nat): (c: Option<string>)
    ensures status == "" ==> c == Some(StatusColors["Other"])
    ensures status in StatusColors ==> c == Some(StatusColors[status])
    ensures c.None? <==> (status != "" && status !in StatusColors && !Contains(Lower(status), "complete")
      && !Contains(Lower(status), "drop") && (Contains(Lower(status), "pause")
        || (!Contains(Lower(status), "extend") && Contains(Lower(status), "pend"))))
  {
    if status == "" then ColorOf("Other")
    else if status in StatusColors then ColorOf(status)
    else
      var s := Lower(status);
      if Contains(s, "complete") then ColorOf("Completed")
      else if Contains(s, "drop") then ColorOf("Drop off")
      else if Contains(s, "pause") then ColorOf("Paused")
      else if Contains(s, "extend") then ColorOf("Extended")
      else if Contains(s, "pend") then ColorOf("Pending")
      else
        var fallback := ColorOf(StatusColorKeys[idx % |StatusColorKeys|]);
        if fallback.Some? then fallback else ColorOf("Other")
  }

  /** A sheet status "Paused" is drawn with no colour at all. */
  lemma PausedHasNoColor(idx: nat)
    ensures PickStatusColor("Paused", idx) == None
  {
    var s := Lower("Paused");
    assert s == "paused";
    assert "Paused" !in StatusColors;
    ContainsAt(s, "complete");
    assert !Contains(s, "complete");
    MissingChar(s, "drop", 1);
    assert OccursAt(s, "pause", 0);
    ContainsAt(s, "pause");
    assert Contains(s, "pause");
    assert ColorOf("Paused") == None;
  }

  /**
   * The colour choice with the two absent keys skipped, so that those
   * statuses fall through to the later rules: every status gets a colour,
   * and every other status keeps the colour it had.
   */
  function PickStatusColorCorrected(status: string, idx: nat): (c: string)
    ensures PickStatusColor(status, idx).Some? ==> c == PickStatusColor(status, idx).value
  {
    if status == "" then StatusColors["Other"]
    else if status in StatusColors then StatusColors[status]
    else
      var s := Lower(status);
      if Contains(s, "complete") then StatusColors["Completed"]
      else if Contains(s, "drop") then StatusColors["Drop off"]
      else if Contains(s, "extend") then StatusColors["Extended"]
      else StatusColors[StatusColorKeys[idx % |StatusColorKeys|]]
  }

  /** The corrected choice always draws with one of the six status colours. */
  lemma CorrectedColorIsAStatusColor(status: string, idx: nat)
    ensures exists k :: k in StatusColors && StatusColors[k] == PickStatusColorCorrected(status, idx)
  {
    var c := PickStatusColorCorrected(status, idx);
    if status == "" {
      assert StatusColors["Other"] == c;
    } else if status in StatusColors {
      assert StatusColors[status] == c;
    } else {
      var s := Lower(status);
      var k := if Contains(s, "complete") then "Completed"
        else if Contains(s, "drop") then "Drop off"
        else if Contains(s, "extend") then "Extended"
        else StatusColorKeys[idx % |StatusColorKeys|];
      assert k in StatusColors && StatusColors[k] == c;
    }
  }

  // ---------------------------------------------------------------- columns

  /** `dropIndex`: the first header containing "drop", -1 without headers. */
  function DropIndex(headers: seq<Option<string>>): (r: int)
    ensures -1 <= r < |headers|
    ensures r >= 0 ==> Contains(Lower(Text(headers[r])), "drop")
    ensures r >= 0 ==> forall k :: 0 <= k < r ==> !Contains(Lower(Text(headers[k])), "drop")
    ensures r == -1 <==> forall k :: 0 <= k < |headers| ==> !Contains(Lower(Text(headers[k])), "drop")
  {
    if |headers| == 0 then -1 else UploadSheet.HeaderIndex(headers, "drop")
  }

  /** The header words `pickupIndex` tries, in priority order. */
  const PickupKeys: seq<string> := ["pickup", "pick up", "location", "drop location", "drop_loc", "pickup_location"]

  /** The first key, in order, that some header contains decides the column. */
  function FirstKeyIndex(headers: seq<Option<string>>, keys: seq<string>): (r: int)
    ensures -1 <= r < |headers|
    ensures r == -1 <==> forall j, k :: 0 <= j < |keys| && 0 <= k < |headers| ==> !Contains(Lower(Text(headers[k])), keys[j])
    decreases |keys|
  {
    if |keys| == 0 then -1
    else
      var idx := UploadSheet.HeaderIndex(headers, keys[0]);
      if idx != -1 then idx
      else
        var r := FirstKeyIndex(headers, keys[1..]);
        assert forall j :: 1 <= j < |keys| ==> keys[j] == keys[1..][j - 1];
        r
  }

  /** `pickupIndex`: the keys tried one by one, the first match returned at once. */
  method PickupIndex(headers: seq<Option<string>>) returns (idx: int)
    ensures idx == FirstKeyIndex(headers, PickupKeys)
  {
    if |headers| == 0 {
      return -1;
    }
    var i := 0;
    while i < |PickupKeys|
      invariant 0 <= i <= |PickupKeys|
      invariant FirstKeyIndex(headers, PickupKeys) == FirstKeyIndex(headers, PickupKeys[i..])
    {
      var found := UploadSheet.HeaderIndex(headers, PickupKeys[i]);
      if found != -1 {
        return found;
      }
      assert PickupKeys[i..][1..] == PickupKeys[i + 1..];
      i := i + 1;
    }
    return -1;
  }

  /** The first match among per-key results, -1 for a key that matched nothing. */
  function FirstFound(found: seq<int>): int
    decreases |found|
  {
    if |found| == 0 then -1
    else if found[0] != -1 then found[0]
    else FirstFound(found[1..])
  }

  /** Each key's own match. */
  function Found(headers: seq<Option<string>>, keys: seq<string>): (found: seq<int>)
    ensures |found| == |keys|
  {
    seq(|keys|, i requires 0 <= i < |keys| => UploadSheet.HeaderIndex(headers, keys[i]))
  }

  /** Trying the keys in order is taking the first of their own matches. */
  lemma {:induction false} FirstKeyIndexFound(headers: seq<Option<string>>, keys: seq<string>)
    ensures FirstKeyIndex(headers, keys) == FirstFound(Found(headers, keys))
    decreases |keys|
  {
    if |keys| > 0 {
      var found := Found(headers, keys);
      assert found[0] == UploadSheet.HeaderIndex(headers, keys[0]);
      assert found[1..] == Found(headers, keys[1..]);
      FirstKeyIndexFound(headers, keys[1..]);
    }
  }

  /** A result that can be a match only after an earlier match may be left out. */
  lemma {:induction false} DropShadowedFound(found: seq<int>, j: nat)
    requires j < |found|
    requires (forall i :: 0 <= i < j ==> found[i] == -1) ==> found[j] == -1
    ensures FirstFound(found) == FirstFound(found[..j] + found[j + 1..])
    decreases j
  {
    var rest := found[..j] + found[j + 1..];
    if j == 0 {
      assert rest == found[1..];
    } else {
      assert rest[0] == found[0];
      assert rest[1..] == found[1..][..j - 1] + found[1..][j..];
      if found[0] == -1 {
        DropShadowedFound(found[1..], j - 1);
      }
    }
  }

  /**
   * A key that can match only when an earlier key already matched never
   * decides, and may be left out.
   */
  lemma DropShadowedKey(headers: seq<Option<string>>, keys: seq<string>, j: nat)
    requires j < |keys|
    requires (forall i :: 0 <= i < j ==> UploadSheet.HeaderIndex(headers, keys[i]) == -1) ==>
      UploadSheet.HeaderIndex(headers, keys[j]) == -1
    ensures FirstKeyIndex(headers, keys) == FirstKeyIndex(headers, keys[..j] + keys[j + 1..])
  {
    var found := Found(headers, keys);
    var rest := keys[..j] + keys[j + 1..];
    assert Found(headers, rest) == found[..j] + found[j + 1..];
    assert forall i :: 0 <= i < |keys| ==> found[i] == UploadSheet.HeaderIndex(headers, keys[i]);
    DropShadowedFound(found, j);
    FirstKeyIndexFound(headers, keys);
    FirstKeyIndexFound(headers, rest);
  }

  /** A header that contains no `a` contains no text built around `a`. */
  lemma NoMatchAround(headers: seq<Option<string>>, a: string, x: string, y: string)
    requires UploadSheet.HeaderIndex(headers, a) == -1
    ensures UploadSheet.HeaderIndex(headers, x + a + y) == -1
  {
    forall k | 0 <= k < |headers| ensures !Contains(Lower(Text(headers[k])), x + a + y) {
      if Contains(Lower(Text(headers[k])), x + a + y) {
        assert x + a + y == x + (a + y);
        ContainsParts(Lower(Text(headers[k])), x, a + y);
        ContainsParts(Lower(Text(headers[k])), a, y);
      }
    }
  }

  /** The keys that can decide the pickup column. */
  const LivePickupKeys: seq<string> := ["pickup", "pick up", "location", "drop_loc"]

  /**
   * Two of the six keys never decide: "drop location" holds "location" and
   * "pickup_location" holds "pickup", both tried before them.
   */
  lemma PickupKeysShadowed(headers: seq<Option<string>>)
    ensures FirstKeyIndex(headers, PickupKeys) == FirstKeyIndex(headers, LivePickupKeys)
  {
    var fewer := PickupKeys[..5] + PickupKeys[6..];
    WithoutPickupLocation(headers);
    WithoutDropLocation(headers, fewer);
  }

  lemma WithoutPickupLocation(headers: seq<Option<string>>)
    ensures FirstKeyIndex(headers, PickupKeys) == FirstKeyIndex(headers, PickupKeys[..5] + PickupKeys[6..])
  {
    if UploadSheet.HeaderIndex(headers, PickupKeys[0]) == -1 {
      NoMatchAround(headers, "pickup", "", "_location");
      assert "" + "pickup" + "_location" == PickupKeys[5];
    }
    DropShadowedKey(headers, PickupKeys, 5);
  }

  lemma WithoutDropLocation(headers: seq<Option<string>>, fewer: seq<string>)
    requires fewer == PickupKeys[..5] + PickupKeys[6..]
    ensures FirstKeyIndex(headers, fewer) == FirstKeyIndex(headers, LivePickupKeys)
  {
    assert |fewer| == 5 && fewer[2] == PickupKeys[2] && fewer[3] == PickupKeys[3];
    if UploadSheet.HeaderIndex(headers, fewer[2]) == -1 {
      NoMatchAround(headers, "location", "drop ", "");
      assert "drop " + "location" + "" == fewer[3];
    }
    DropShadowedKey(headers, fewer, 3);
    LiveKeysRemain(fewer);
  }

  /** Striking "pickup_location" and then "drop location" leaves the live keys. */
  lemma LiveKeysRemain(fewer: seq<string>)
    requires fewer == PickupKeys[..5] + PickupKeys[6..]
    ensures fewer[..3] + fewer[4..] == LivePickupKeys
  {
    assert fewer[..3] + fewer[4..] == [PickupKeys[0], PickupKeys[1], PickupKeys[2], PickupKeys[4]];
  }

  // ---------------------------------------------------------------- dates

  /** `r.cells?.[dropIndex]?.toString().split("T")[0] || ""`. */
  function DropDate(r: Upload, dropIndex: int): string {
    var cell := UploadSheet.CellAt(r.cells, dropIndex);
    if cell.Some? then BeforeFirst(cell.value, 'T') else ""
  }

  /** The non-empty drop dates of `rows`, once each, in the order first met. */
  function DatesMet(rows: seq<Upload>, dropIndex: int): seq<string>
    decreases |rows|
  {
    if |rows| == 0 then []
    else
      var prev := DatesMet(rows[..|rows| - 1], dropIndex);
      var d := DropDate(rows[|rows| - 1], dropIndex);
      if d != "" && d !in prev then prev + [d] else prev
  }

  /** Some row of `rows` was dropped on `d`. */
  predicate HasDropDate(rows: seq<Upload>, dropIndex: int, d: string) {
    exists i :: 0 <= i < |rows| && DropDate(rows[i], dropIndex) == d
  }

  lemma HasDropDateSnoc(rows: seq<Upload>, dropIndex: int, d: string)
    requires |rows| > 0
    ensures HasDropDate(rows, dropIndex, d) <==>
      HasDropDate(rows[..|rows| - 1], dropIndex, d) || DropDate(rows[|rows| - 1], dropIndex) == d
  {
    var n := |rows| - 1;
    if HasDropDate(rows, dropIndex, d) {
      var i :| 0 <= i < |rows| && DropDate(rows[i], dropIndex) == d;
      if i < n {
        assert rows[..n][i] == rows[i];
      }
    }
    if HasDropDate(rows[..n], dropIndex, d) {
      var i :| 0 <= i < n && DropDate(rows[..n][i], dropIndex) == d;
      assert rows[i] == rows[..n][i];
    }
  }

  /** The dates met are the non-empty drop dates, each once. */
  lemma DatesMetSpec(rows: seq<Upload>, dropIndex: int)
    ensures Lists.NoDuplicates(DatesMet(rows, dropIndex))
    ensures forall d :: d in DatesMet(rows, dropIndex) <==> d != "" && HasDropDate(rows, dropIndex, d)
  {
    DatesMetDistinct(rows, dropIndex);
    forall d ensures d in DatesMet(rows, dropIndex) <==> d != "" && HasDropDate(rows, dropIndex, d) {
      DatesMetHas(rows, dropIndex, d);
    }
  }

  lemma {:induction false} DatesMetHas(rows: seq<Upload>, dropIndex: int, d: string)
    ensures d in DatesMet(rows, dropIndex) <==> d != "" && HasDropDate(rows, dropIndex, d)
    decreases |rows|
  {
    if |rows| > 0 {
      DatesMetHas(rows[..|rows| - 1], dropIndex, d);
      HasDropDateSnoc(rows, dropIndex, d);
    }
  }

  lemma {:induction false} DatesMetDistinct(rows: seq<Upload>, dropIndex: int)
    ensures Lists.NoDuplicates(DatesMet(rows, dropIndex))
    decreases |rows|
  {
    if |rows| > 0 {
      DatesMetDistinct(rows[..|rows| - 1], dropIndex);
    }
  }

  /** The dates put in the set; none without a drop column. */
  function DateChoices(rows: seq<Upload>, dropIndex: int): seq<string> {
    if dropIndex == -1 then [] else DatesMet(rows, dropIndex)
  }

  /** `availableDates`: the distinct non-empty drop dates, sorted and reversed. */
  method AvailableDates(rows: seq<Upload>, dropIndex: int) returns (dates: seq<string>)
    ensures dates == SortedDescending(DateChoices(rows, dropIndex))
  {
    var dateSet: seq<string> := [];
    if dropIndex != -1 {
      var i := 0;
      while i < |rows|
        invariant 0 <= i <= |rows|
        invariant dateSet == DatesMet(rows[..i], dropIndex)
      {
        var d := DropDate(rows[i], dropIndex);
        assert rows[..i + 1][..i] == rows[..i];
        if d != "" && d !in dateSet {
          dateSet := dateSet + [d];
        }
        i := i + 1;
      }
      assert rows[..i] == rows;
    }
    dates := SortedDescending(dateSet);
  }

  /**
   * The offered dates are each a drop date of some row, none empty, none
   * twice, every such date is offered, and they run from latest to
   * earliest as text.
   */
  lemma AvailableDatesSpec(rows: seq<Upload>, dropIndex: int)
    ensures Lists.NoDuplicates(SortedDescending(DateChoices(rows, dropIndex)))
    ensures forall i, j :: 0 <= i < j < |SortedDescending(DateChoices(rows, dropIndex))| ==>
      LexLe(SortedDescending(DateChoices(rows, dropIndex))[j], SortedDescending(DateChoices(rows, dropIndex))[i])
    ensures forall d :: d in SortedDescending(DateChoices(rows, dropIndex)) <==>
      dropIndex != -1 && d != "" && HasDropDate(rows, dropIndex, d)
  {
    var choices := DateChoices(rows, dropIndex);
    var dates := SortedDescending(choices);
    SortedDescendingSpec(choices);
    DatesMetSpec(rows, dropIndex);
    Lists.PermutationNoDuplicates(choices, dates);
    forall d ensures d in dates <==> d in choices {
      assert d in dates <==> d in multiset(dates);
    }
  }

  // ---------------------------------------------------------------- rows

  function DateIsFn(selectedDate: string, dropIndex: int): Upload -> bool {
    r => DropDate(r, dropIndex) == selectedDate
  }

  /** `filteredRows`: the rows of the chosen date, or all of them. */
  function FilteredRows(rows: seq<Upload>, selectedDate: string, dropIndex: int): seq<Upload> {
    if |rows| == 0 then []
    else if selectedDate == "all" then rows
    else if dropIndex == -1 then rows
    else Lists.Filter(rows, DateIsFn(selectedDate, dropIndex))
  }

  /**
   * "all" or a sheet without a drop column shows every row; otherwise the
   * rows shown, in order, are exactly those whose drop date is the chosen one.
   */
  lemma FilteredRowsSpec(rows: seq<Upload>, selectedDate: string, dropIndex: int)
    ensures Lists.IsSubsequence(FilteredRows(rows, selectedDate, dropIndex), rows)
    ensures selectedDate == "all" || dropIndex == -1 ==> FilteredRows(rows, selectedDate, dropIndex) == rows
    ensures selectedDate != "all" && dropIndex != -1 ==>
      forall r :: r in FilteredRows(rows, selectedDate, dropIndex) <==> r in rows && DropDate(r, dropIndex) == selectedDate
    ensures selectedDate != "all" && dropIndex != -1 ==>
      forall r :: multiset(FilteredRows(rows, selectedDate, dropIndex))[r]
               == if DropDate(r, dropIndex) == selectedDate then multiset(rows)[r] else 0
  {
    var p := DateIsFn(selectedDate, dropIndex);
    Lists.FilterIsSubsequence(rows, p);
    Lists.SliceIsSubsequence(rows, 0, |rows|);
    assert rows[0..|rows|] == rows;
    if |rows| == 0 {
      Lists.SliceIsSubsequence(rows, 0, 0);
      assert rows[0..0] == [];
    }
    forall r ensures r in Lists.Filter(rows, p) <==> r in rows && DropDate(r, dropIndex) == selectedDate {
      Lists.FilterMembership(rows, p, r);
    }
    forall r ensures multiset(Lists.Filter(rows, p))[r] == if DropDate(r, dropIndex) == selectedDate then multiset(rows)[r] else 0 {
      Lists.FilterCount(rows, p, r);
    }
  }

  // ---------------------------------------------------------------- status histogram

  /** `(r.status || "Other")`. */
  function StatusKey(r: Upload): string {
    if Truthy(r.status) then r.status.value else "Other"
  }

  function StatusKeys(rows: seq<Upload>): seq<string> {
    seq(|rows|, i requires 0 <= i < |rows| => StatusKey(rows[i]))
  }

  /** The statuses the chart always lists. */
  const CommonStatuses: seq<string> := ["Completed", "Drop off", "Extended", "Not Answered", "Call Back", "Other"]

  /** `if (!map[s]) map[s] = 0`. */
  function Ensure(t: Tally.Counter, s: string): Tally.Counter {
    if Tally.Get(t, s) == 0 then Tally.Put(t, s, 0) else t
  }

  function EnsureAll(t: Tally.Counter, ks: seq<string>): Tally.Counter
    decreases |ks|
  {
    if |ks| == 0 then t else Ensure(EnsureAll(t, ks[..|ks| - 1]), ks[|ks| - 1])
  }

  /** One key listed at zero: no count changes, and the key is listed. */
  lemma EnsureGet(t: Tally.Counter, s: string, k: string)
    ensures Tally.Get(Ensure(t, s), k) == Tally.Get(t, k)
  {
    if Tally.Get(t, s) == 0 {
      Tally.PutGet(t, s, 0, k);
    }
  }

  lemma EnsureTotal(t: Tally.Counter, s: string)
    ensures Tally.Total(Ensure(t, s)) == Tally.Total(t)
  {
    if Tally.Get(t, s) == 0 {
      Tally.PutTotal(t, s, 0);
    }
  }

  lemma EnsureHas(t: Tally.Counter, s: string, k: string)
    ensures k in Tally.Keys(Ensure(t, s)) <==> k in Tally.Keys(t) || k == s
  {
    if Tally.Get(t, s) == 0 {
      Tally.PutKeys(t, s, 0);
    } else {
      GetPositive(t, s);
    }
  }

  lemma EnsureDistinct(t: Tally.Counter, s: string)
    requires Tally.KeysDistinct(t)
    ensures Tally.KeysDistinct(Ensure(t, s))
  {
    if Tally.Get(t, s) == 0 {
      Tally.PutDistinct(t, s, 0);
    }
  }

  lemma {:induction false} EnsureAllGet(t: Tally.Counter, ks: seq<string>, k: string)
    ensures Tally.Get(EnsureAll(t, ks), k) == Tally.Get(t, k)
    decreases |ks|
  {
    if |ks| > 0 {
      var n := |ks| - 1;
      EnsureAllGet(t, ks[..n], k);
      EnsureGet(EnsureAll(t, ks[..n]), ks[n], k);
    }
  }

  lemma {:induction false} EnsureAllTotal(t: Tally.Counter, ks: seq<string>)
    ensures Tally.Total(EnsureAll(t, ks)) == Tally.Total(t)
    decreases |ks|
  {
    if |ks| > 0 {
      var n := |ks| - 1;
      EnsureAllTotal(t, ks[..n]);
      EnsureTotal(EnsureAll(t, ks[..n]), ks[n]);
    }
  }

  lemma {:induction false} EnsureAllHas(t: Tally.Counter, ks: seq<string>, k: string)
    ensures k in Tally.Keys(EnsureAll(t, ks)) <==> k in Tally.Keys(t) || k in ks
    decreases |ks|
  {
    if |ks| > 0 {
      var n := |ks| - 1;
      EnsureAllHas(t, ks[..n], k);
      EnsureHas(EnsureAll(t, ks[..n]), ks[n], k);
      assert ks == ks[..n] + [ks[n]];
    }
  }

  lemma {:induction false} EnsureAllDistinct(t: Tally.Counter, ks: seq<string>)
    requires Tally.KeysDistinct(t)
    ensures Tally.KeysDistinct(EnsureAll(t, ks))
    decreases |ks|
  {
    if |ks| > 0 {
      var n := |ks| - 1;
      EnsureAllDistinct(t, ks[..n]);
      EnsureDistinct(EnsureAll(t, ks[..n]), ks[n]);
    }
  }

  /** Listing keys at zero changes no count and drops no key. */
  lemma EnsureAllSpec(t: Tally.Counter, ks: seq<string>)
    ensures forall k :: Tally.Get(EnsureAll(t, ks), k) == Tally.Get(t, k)
    ensures Tally.Total(EnsureAll(t, ks)) == Tally.Total(t)
    ensures forall k :: k in Tally.Keys(EnsureAll(t, ks)) <==> k in Tally.Keys(t) || k in ks
    ensures Tally.KeysDistinct(t) ==> Tally.KeysDistinct(EnsureAll(t, ks))
  {
    forall k ensures Tally.Get(EnsureAll(t, ks), k) == Tally.Get(t, k) {
      EnsureAllGet(t, ks, k);
    }
    EnsureAllTotal(t, ks);
    forall k ensures k in Tally.Keys(EnsureAll(t, ks)) <==> k in Tally.Keys(t) || k in ks {
      EnsureAllHas(t, ks, k);
    }
    if Tally.KeysDistinct(t) {
      EnsureAllDistinct(t, ks);
    }
  }

  /** A key with a count is listed. */
  lemma {:induction false} GetPositive(t: Tally.Counter, k: string)
    requires Tally.Get(t, k) > 0
    ensures k in Tally.Keys(t)
    decreases |t|
  {
    if t[0].key != k {
      GetPositive(t[1..], k);
      assert Tally.Keys(t) == [t[0].key] + Tally.Keys(t[1..]);
    } else {
      assert Tally.Keys(t)[0] == k;
    }
  }

  /** The counts by status, with the common statuses listed. */
  function StatusTally(rows: seq<Upload>): Tally.Counter {
    EnsureAll(Tally.Tabulate([], StatusKeys(rows)), CommonStatuses)
  }

  /**
   * Every row is counted once, under its status or "Other"; the common
   * statuses are all listed; no status is listed twice.
   */
  lemma StatusTallySpec(rows: seq<Upload>)
    ensures Tally.Total(StatusTally(rows)) == |rows|
    ensures forall k :: Tally.Get(StatusTally(rows), k) == multiset(StatusKeys(rows))[k]
    ensures forall s :: s in CommonStatuses ==> s in Tally.Keys(StatusTally(rows))
    ensures Tally.KeysDistinct(StatusTally(rows))
  {
    Tally.TabulateSpec([], StatusKeys(rows));
    EnsureAllSpec(Tally.Tabulate([], StatusKeys(rows)), CommonStatuses);
  }

  /** `statusCounts`: rows counted by status, then the common statuses listed at zero. */
  method StatusCounts(rows: seq<Upload>) returns (counts: Tally.Counter)
    ensures counts == StatusTally(rows)
  {
    counts := CountStatuses(rows);
    counts := ListCommon(counts);
  }

  /** The first loop of `statusCounts`: `map[r.status || "Other"]++` for every row. */
  method CountStatuses(rows: seq<Upload>) returns (counts: Tally.Counter)
    ensures counts == Tally.Tabulate([], StatusKeys(rows))
  {
    ghost var keys := StatusKeys(rows);
    counts := [];
    var i := 0;
    while i < |rows|
      invariant 0 <= i <= |rows|
      invariant counts == Tally.Tabulate([], keys[..i])
    {
      var key := if Truthy(rows[i].status) then rows[i].status.value else "Other";
      assert key == keys[i];
      assert keys[..i + 1][..i] == keys[..i];
      counts := Tally.Put(counts, key, Tally.Get(counts, key) + 1);
      i := i + 1;
    }
    assert keys[..i] == keys;
  }

  /** The second loop of `statusCounts`: each common status missing from the counts is set to 0. */
  method ListCommon(tallied: Tally.Counter) returns (counts: Tally.Counter)
    ensures counts == EnsureAll(tallied, CommonStatuses)
  {
    counts := tallied;
    var j := 0;
    while j < |CommonStatuses|
      invariant 0 <= j <= |CommonStatuses|
      invariant counts == EnsureAll(tallied, CommonStatuses[..j])
    {
      var s := CommonStatuses[j];
      if Tally.Get(counts, s) == 0 {
        counts := Tally.Put(counts, s, 0);
      }
      assert CommonStatuses[..j + 1][..j] == CommonStatuses[..j];
      j := j + 1;
    }
    assert CommonStatuses[..j] == CommonStatuses;
  }

  // ---------------------------------------------------------------- agent histogram

  /** `r.name || "Unassigned"`. */
  function AgentName(name: Option<string>): string {
    if Truthy(name) then name.value else "Unassigned"
  }

  function NameKeys(rows: seq<Upload>): seq<string> {
    seq(|rows|, i requires 0 <= i < |rows| => AgentName(rows[i].name))
  }

  /** `master.forEach((a) => { map[a] = 0; })`. */
  function Zeroes(master: seq<string>): Tally.Counter
    decreases |master|
  {
    if |master| == 0 then [] else Tally.Put(Zeroes(master[..|master| - 1]), master[|master| - 1], 0)
  }

  /** Every agent of the master list is listed once, at zero, in master order. */
  lemma {:induction false} ZeroesSpec(master: seq<string>)
    ensures forall k :: Tally.Get(Zeroes(master), k) == 0
    ensures Tally.Total(Zeroes(master)) == 0
    ensures Tally.Keys(Zeroes(master)) == Lists.Distinct(master)
    ensures Tally.KeysDistinct(Zeroes(master))
    decreases |master|
  {
    if |master| > 0 {
      var n := |master| - 1;
      var before := Zeroes(master[..n]);
      ZeroesSpec(master[..n]);
      assert Zeroes(master) == Tally.Put(before, master[n], 0);
      assert Lists.Distinct(master)
          == if master[n] in Lists.Distinct(master[..n]) then Lists.Distinct(master[..n])
             else Lists.Distinct(master[..n]) + [master[n]];
      forall k ensures Tally.Get(Tally.Put(before, master[n], 0), k) == 0 {
        Tally.PutGet(before, master[n], 0, k);
      }
      Tally.PutTotal(before, master[n], 0);
      Tally.PutKeys(before, master[n], 0);
      Tally.PutDistinct(before, master[n], 0);
    }
  }

  /** The counts by agent, starting from the master list at zero. */
  function AgentTally(rows: seq<Upload>, master: seq<string>): Tally.Counter {
    Tally.Tabulate(Zeroes(master), NameKeys(rows))
  }

  /**
   * Every row is counted once, under its agent or "Unassigned"; every agent
   * of the master list is listed, first and in master order, even with no
   * row; no agent is listed twice.
   */
  lemma AgentTallySpec(rows: seq<Upload>, master: seq<string>)
    ensures Tally.Total(AgentTally(rows, master)) == |rows|
    ensures forall k :: Tally.Get(AgentTally(rows, master), k) == multiset(NameKeys(rows))[k]
    ensures forall k :: k in Tally.Keys(AgentTally(rows, master)) <==> k in master || k in NameKeys(rows)
    ensures |Lists.Distinct(master)| <= |Tally.Keys(AgentTally(rows, master))|
      && Tally.Keys(AgentTally(rows, master))[..|Lists.Distinct(master)|] == Lists.Distinct(master)
    ensures Tally.KeysDistinct(AgentTally(rows, master))
  {
    ZeroesSpec(master);
    Lists.DistinctSpec(master);
    Tally.TabulateSpec(Zeroes(master), NameKeys(rows));
    Tally.TabulateKeepsPrefix(Zeroes(master), NameKeys(rows));
  }

  /** `agentCounts`: the master list at zero, then the rows counted by agent. */
  method AgentCounts(rows: seq<Upload>, master: seq<string>) returns (counts: Tally.Counter)
    ensures counts == AgentTally(rows, master)
  {
    counts := ZeroAgents(master);
    counts := CountAgents(rows, counts);
  }

  /** The first loop of `agentCounts`: `map[a] = 0` for every agent of the master list. */
  method ZeroAgents(master: seq<string>) returns (counts: Tally.Counter)
    ensures counts == Zeroes(master)
  {
    counts := [];
    var j := 0;
    while j < |master|
      invariant 0 <= j <= |master|
      invariant counts == Zeroes(master[..j])
    {
      assert master[..j + 1][..j] == master[..j];
      counts := Tally.Put(counts, master[j], 0);
      j := j + 1;
    }
    assert master[..j] == master;
  }

  /** The second loop of `agentCounts`: `map[r.name || "Unassigned"]++` for every row. */
  method CountAgents(rows: seq<Upload>, start: Tally.Counter) returns (counts: Tally.Counter)
    ensures counts == Tally.Tabulate(start, NameKeys(rows))
  {
    ghost var keys := NameKeys(rows);
    counts := start;
    var i := 0;
    while i < |rows|
      invariant 0 <= i <= |rows|
      invariant counts == Tally.Tabulate(start, keys[..i])
    {
      var n := if Truthy(rows[i].name) then rows[i].name.value else "Unassigned";
      assert n == keys[i];
      assert keys[..i + 1][..i] == keys[..i];
      counts := Tally.Put(counts, n, Tally.Get(counts, n) + 1);
      i := i + 1;
    }
    assert keys[..i] == keys;
  }

  /** `(r.name || "Unassigned")` for every name read. */
  function AgentNames(names: seq<Option<string>>): seq<string> {
    seq(|names|, i requires 0 <= i < |names| => AgentName(names[i]))
  }

  /** Some name read stands for agent `a`. */
  predicate Named(names: seq<Option<string>>, a: string) {
    exists i :: 0 <= i < |names| && AgentName(names[i]) == a
  }

  lemma AgentNamesMembership(names: seq<Option<string>>, a: string)
    ensures a in AgentNames(names) <==> Named(names, a)
  {
    if Named(names, a) {
      var i :| 0 <= i < |names| && AgentName(names[i]) == a;
      assert AgentNames(names)[i] == a;
    }
  }

  /**
   * `agentMaster`: every name read, "Unassigned" for none, once each,
   * ordered by `le`, which stands for `localeCompare(a, b) <= 0`.
   */
  function AgentMaster(names: seq<Option<string>>, le: (string, string) -> bool): seq<string> {
    Lists.SortBy(Lists.Distinct(AgentNames(names)), le)
  }

  /** The master list is ordered, repeats no agent, and holds exactly the agents named. */
  lemma AgentMasterSpec(names: seq<Option<string>>, le: (string, string) -> bool)
    requires Lists.Total(le) && Lists.Transitive(le)
    ensures Lists.SortedBy(AgentMaster(names, le), le)
    ensures Lists.NoDuplicates(AgentMaster(names, le))
    ensures forall a :: a in AgentMaster(names, le) <==> Named(names, a)
  {
    var d := Lists.Distinct(AgentNames(names));
    var r := AgentMaster(names, le);
    Lists.DistinctSpec(AgentNames(names));
    Lists.SortBySorted(d, le);
    Lists.PermutationNoDuplicates(d, r);
    forall a ensures a in r <==> Named(names, a) {
      assert a in r <==> a in multiset(r);
      AgentNamesMembership(names, a);
    }
  }

  // ---------------------------------------------------------------- location histogram

  /** `r.cells?.[pickupIndex] || "Unknown"`. */
  function LocationKey(r: Upload, pickupIndex: int): string {
    var cell := UploadSheet.CellAt(r.cells, pickupIndex);
    if Truthy(cell) then cell.value else "Unknown"
  }

  function LocationKeys(rows: seq<Upload>, pickupIndex: int): seq<string> {
    seq(|rows|, i requires 0 <= i < |rows| => LocationKey(rows[i], pickupIndex))
  }

  datatype LocationCount = LocationCount(location: string, count: nat, color: string)

  /** The counts without their colours. */
  function Counts(entries: seq<LocationCount>): Tally.Counter {
    seq(|entries|, i requires 0 <= i < |entries| => Tally.Entry(entries[i].location, entries[i].count))
  }

  /** `Object.entries(map).map(..., idx)`: each entry coloured by its position. */
  function Colored(counts: Tally.Counter): (entries: seq<LocationCount>)
    ensures Counts(entries) == counts
    ensures forall i :: 0 <= i < |entries| ==> entries[i].color == LocationPalette[i % |LocationPalette|]
  {
    seq(|counts|, k requires 0 <= k < |counts| =>
      LocationCount(counts[k].key, counts[k].count, LocationPalette[k % |LocationPalette|]))
  }

  /** `locationCounts`: rows counted by pickup place, each entry coloured by its position. */
  method LocationCounts(rows: seq<Upload>, pickupIndex: int) returns (entries: seq<LocationCount>)
    ensures entries == Colored(Tally.Tabulate([], LocationKeys(rows, pickupIndex)))
  {
    var counts := CountLocations(rows, pickupIndex);
    entries := Colored(counts);
  }

  /** The counting loop of `locationCounts`, before the colours. */
  method CountLocations(rows: seq<Upload>, pickupIndex: int) returns (counts: Tally.Counter)
    ensures counts == Tally.Tabulate([], LocationKeys(rows, pickupIndex))
  {
    ghost var keys := LocationKeys(rows, pickupIndex);
    counts := [];
    var i := 0;
    while i < |rows|
      invariant 0 <= i <= |rows|
      invariant counts == Tally.Tabulate([], keys[..i])
    {
      var cell := UploadSheet.CellAt(rows[i].cells, pickupIndex);
      var loc := if Truthy(cell) then cell.value else "Unknown";
      assert loc == keys[i];
      assert keys[..i + 1][..i] == keys[..i];
      counts := Tally.Put(counts, loc, Tally.Get(counts, loc) + 1);
      i := i + 1;
    }
    assert keys[..i] == keys;
  }

  /**
   * Every row is counted once, under its pickup cell or "Unknown"; no place
   * is listed twice; the places are listed in the order first met.
   */
  lemma LocationTallySpec(rows: seq<Upload>, pickupIndex: int)
    ensures Tally.Total(Counts(Colored(Tally.Tabulate([], LocationKeys(rows, pickupIndex))))) == |rows|
    ensures forall k ::
      Tally.Get(Counts(Colored(Tally.Tabulate([], LocationKeys(rows, pickupIndex)))), k) == multiset(LocationKeys(rows, pickupIndex))[k]
    ensures Tally.Keys(Counts(Colored(Tally.Tabulate([], LocationKeys(rows, pickupIndex)))))
      == Lists.Distinct(LocationKeys(rows, pickupIndex))
  {
    Tally.TabulateSpec([], LocationKeys(rows, pickupIndex));
    Tally.TabulateKeysOrder(LocationKeys(rows, pickupIndex));
  }

  /** Without a pickup column every row is counted under "Unknown". */
  lemma NoPickupColumn(rows: seq<Upload>)
    ensures Tally.Get(Tally.Tabulate([], LocationKeys(rows, -1)), "Unknown") == |rows|
    ensures forall k :: k != "Unknown" ==> Tally.Get(Tally.Tabulate([], LocationKeys(rows, -1)), k) == 0
  {
    Lists.ConstantCount(LocationKeys(rows, -1), "Unknown");
    Tally.TabulateSpec([], LocationKeys(rows, -1));
  }
}
