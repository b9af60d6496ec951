/**
 * The records the pages fetch and write. A field the backend may hold as
 * null is an Option; an instant is an integer number of milliseconds; an
 * amount is the number the stored value denotes, or None when it is null or
 * not a number.
 */
module Records {
  import opened Wrappers

  /** A row of the `zoomcar_vehicles` table. */
  datatype Vehicle = Vehicle(
    id: int,
    vehicleNumber: Option<string>,
    vehicleModel: Option<string>,
    vehicleLocation: Option<string>,
    pauseStart: Option<int>,
    pauseEnd: Option<int>,
    pauseDoneBy: Option<string>,
    blockStatus: Option<string>,
    renteloId: Option<string>)

  /** The status a vehicle list shows, derived from the pause window. */
  datatype VehicleStatus = Active | Paused | UpcomingPause {
    function Label(): string {
      match this
      case Active => "Active"
      case Paused => "Paused"
      case UpcomingPause => "Upcoming Pause"
    }
  }

  /** A row of the `pause_history` table (its id and creation time come from the backend). */
  datatype PauseEntry = PauseEntry(
    vehicleId: int,
    renteloId: Option<string>,
    pauseStart: int,
    pauseEnd: int,
    pauseDoneBy: Option<string>)

  type Amount = Option<real>

  /** `numeric(v)`: the number, or 0 for null and NaN. */
  function Numeric(a: Amount): real {
    a.GetOr(0.0)
  }

  /** A row of the `pay_pending` table, or the edit form holding one. */
  datatype PayPending = PayPending(
    id: Option<int>,
    bookingId: Option<string>,
    customerName: Option<string>,
    rideExtFrom: Option<int>,
    rideExtUpto: Option<int>,
    pendingCurrent: Amount,
    pendingPrevious: Amount,
    extraCharges: Amount,
    totalAmount: Amount,
    durationMinutes: Option<int>,
    status: Option<string>,
    priority: string,
    assignedTo: string,
    remarks: string)

  /** A row of the `follow_up_history` table. */
  datatype FollowUp = FollowUp(payPendingId: int, executiveName: string, remarks: string)

  /** A row of the `zoomcar_bookings` table. */
  datatype Booking = Booking(
    id: int,
    mailDate: Option<string>,
    zoomcarBookingId: Option<string>,
    customerName: Option<string>,
    renteloBookingId: Option<string>,
    vehicleNumber: Option<string>,
    vehicleModel: Option<string>,
    startTime: Option<string>,
    endTime: Option<string>,
    startOtp: Option<string>,
    bookingStatus: Option<string>,
    earnings: Amount,
    rideStatus: Option<string>,
    remarks: Option<string>)

  /**
   * One uploaded spreadsheet row: its cells aligned to the version's headers
   * (an empty cell is None), and the status and assignee set on it.
   */
  datatype Upload = Upload(
    id: string,
    cells: seq<Option<string>>,
    status: Option<string>,
    name: Option<string>)
}
