/**
 * The dashboard's summary of the three tables: fleet size, blocked
 * vehicles, pending and paid collection records, amounts, follow-ups, the
 * count of vehicles per location and the completion percentage.
 */
module Dashboard {
  import opened Wrappers
  import opened Strings
  import opened Records
  import Lists
  import Tally

  /** A vehicle counts as paused when its block status, lower-cased, is paused, block or blocked. */
  predicate IsBlocked(v: Vehicle) {
    Lower(Text(v.blockStatus)) in {"paused", "block", "blocked"}
  }

  /** A collection record is pending unless its status, lower-cased, is "paid". */
  predicate IsPending(p: PayPending) {
    Lower(Text(p.status)) != "paid"
  }

  predicate IsPaid(p: PayPending) {
    Lower(Text(p.status)) == "paid"
  }

  function IsBlockedFn(): Vehicle -> bool { v => IsBlocked(v) }
  function IsPendingFn(): PayPending -> bool { p => IsPending(p) }
  function IsPaidFn(): PayPending -> bool { p => IsPaid(p) }

  /** The amount a record still owes: current plus previous pending plus extra charges. */
  function PendingAmount(p: PayPending): real {
    Numeric(p.pendingCurrent) + Numeric(p.pendingPrevious) + Numeric(p.extraCharges)
  }

  function TotalOf(p: PayPending): real {
    Numeric(p.totalAmount)
  }

  function PendingRecords(ps: seq<PayPending>): seq<PayPending> {
    Lists.Filter(ps, IsPendingFn())
  }

  function TotalPendingAmount(ps: seq<PayPending>): real {
    Lists.Sum(PendingRecords(ps), PendingAmount)
  }

  function TotalAmount(ps: seq<PayPending>): real {
    Lists.Sum(ps, TotalOf)
  }

  /** The key a vehicle is counted under: its location, or "Unknown" when it has none. */
  function LocationKey(v: Vehicle): string {
    if Truthy(v.vehicleLocation) then v.vehicleLocation.value else "Unknown"
  }

  function LocationKeys(vs: seq<Vehicle>): seq<string> {
    seq(|vs|, i requires 0 <= i < |vs| => LocationKey(vs[i]))
  }

  /** The records not pending are exactly the paid ones. */
  lemma PaidCount(ps: seq<PayPending>)
    ensures |ps| - |PendingRecords(ps)| == |Lists.Filter(ps, IsPaidFn())|
  {
    Lists.FilterCountPartition(ps, IsPendingFn(), IsPaidFn());
  }

  /** The pending total is the all-record total of owed amounts less what paid records owe. */
  lemma PendingAmountPartition(ps: seq<PayPending>)
    ensures TotalPendingAmount(ps) == Lists.Sum(ps, PendingAmount) - Lists.Sum(Lists.Filter(ps, IsPaidFn()), PendingAmount)
  {
    Lists.SumPartition(ps, IsPendingFn(), IsPaidFn(), PendingAmount);
  }

  datatype Totals = Totals(
    totalVehicles: nat,
    pausedVehicles: nat,
    totalPendingAmount: real,
    totalAmount: real,
    pendingCount: nat,
    paidCount: nat,
    totalPayPendingRecords: nat,
    totalFollowUps: nat,
    vehiclesByLocation: Tally.Counter)

  /**
   * `vehiclesByLocation`: one `forEach` over the vehicles, bumping the
   * counter of each vehicle's location key.
   */
  method VehiclesByLocation(vs: seq<Vehicle>) returns (byLocation: Tally.Counter)
    ensures byLocation == Tally.Tabulate([], LocationKeys(vs))
    ensures Tally.KeysDistinct(byLocation)
    ensures Tally.Total(byLocation) == |vs|
    ensures forall k :: Tally.Get(byLocation, k) == multiset(LocationKeys(vs))[k]
    ensures Tally.Keys(byLocation) == Lists.Distinct(LocationKeys(vs))
  {
    ghost var keys := LocationKeys(vs);
    byLocation := [];
    var i := 0;
    while i < |vs|
      invariant 0 <= i <= |vs|
      invariant byLocation == Tally.Tabulate([], keys[..i])
    {
      var loc := if Truthy(vs[i].vehicleLocation) then vs[i].vehicleLocation.value else "Unknown";
      assert loc == keys[i];
      assert keys[..i + 1][..i] == keys[..i];
      byLocation := Tally.Put(byLocation, loc, Tally.Get(byLocation, loc) + 1);
      i := i + 1;
    }
    assert keys[..i] == keys;
    Tally.TabulateSpec([], LocationKeys(vs));
    Tally.TabulateKeysOrder(LocationKeys(vs));
  }

  /** The `totals` memo. */
  method ComputeTotals(vs: seq<Vehicle>, ps: seq<PayPending>, followUps: seq<FollowUp>) returns (r: Totals)
    ensures r.totalVehicles == |vs| && r.totalPayPendingRecords == |ps| && r.totalFollowUps == |followUps|
    ensures r.pausedVehicles == |Lists.Filter(vs, IsBlockedFn())| <= |vs|
    ensures r.pendingCount == |PendingRecords(ps)|
    ensures r.paidCount == |Lists.Filter(ps, IsPaidFn())|
    ensures r.pendingCount + r.paidCount == r.totalPayPendingRecords
    ensures r.totalPendingAmount == TotalPendingAmount(ps) && r.totalAmount == TotalAmount(ps)
    ensures Tally.Total(r.vehiclesByLocation) == r.totalVehicles
    ensures forall k :: Tally.Get(r.vehiclesByLocation, k) == multiset(LocationKeys(vs))[k]
  {
    var byLocation := VehiclesByLocation(vs);
    var pending := PendingRecords(ps);
    PaidCount(ps);
    r := Totals(
      |vs|,
      |Lists.Filter(vs, IsBlockedFn())|,
      TotalPendingAmount(ps),
      TotalAmount(ps),
      |pending|,
      |ps| - |pending|,
      |ps|,
      |followUps|,
      byLocation);
  }

  /** `Math.round(x)`: the nearest integer, halves rounded up. */
  function Round(x: real): (n: int)
    ensures n as real - 0.5 <= x < n as real + 0.5
  {
    (x + 0.5).Floor
  }

  /**
   * `completionPercent`: the share of paid records as a whole percentage,
   * 0 when there are no records.
   */
  function CompletionPercent(paidCount: nat, totalRecords: nat): (percent: int)
    ensures totalRecords == 0 ==> percent == 0
    ensures paidCount <= totalRecords ==> 0 <= percent <= 100
    ensures 0 < totalRecords && paidCount == totalRecords ==> percent == 100
    ensures paidCount == 0 ==> percent == 0
    ensures totalRecords > 0 ==>
      percent as real - 0.5 <= 100.0 * paidCount as real / totalRecords as real < percent as real + 0.5
  {
    if totalRecords > 0 then
      var share := paidCount as real / totalRecords as real;
      ShareBounds(paidCount as real, totalRecords as real);
      assert share * 100.0 == 100.0 * paidCount as real / totalRecords as real;
      Round(share * 100.0)
    else 0
  }

  /** A share of a positive whole is never negative, at most 1 when the part is at most the whole, and 1 for the whole. */
  lemma ShareBounds(part: real, whole: real)
    requires 0.0 <= part && 0.0 < whole
    ensures 0.0 <= part / whole
    ensures part <= whole ==> part / whole <= 1.0
    ensures part == whole ==> part / whole == 1.0
    ensures part == 0.0 ==> part / whole == 0.0
  {
    var q := part / whole;
    assert q * whole == part;
    assert (1.0 - q) * whole == whole - part;
  }
}
