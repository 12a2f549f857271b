/** Record shapes of the duty scheduler: the three stored tables and the
    transient values the engine computes from them. */
module Schema {

  datatype Option<T> = None | Some(value: T)

  /** A row of the team-members table. `name` and `accessKey` are unique;
      a lower `priority` wins conflicts. */
  datatype TeamMember = TeamMember(
    id: int,
    name: string,
    priority: int,
    color: string,
    isActive: bool,
    accessKey: string)

  /** A team member before it is given an id; `isActive` may be omitted. */
  datatype InsertTeamMember = InsertTeamMember(
    name: string,
    priority: int,
    color: string,
    isActive: Option<bool>,
    accessKey: string)

  /** A request by `userId` for the duty day `date` (YYYY-MM-DD); `month` is
      YYYY-MM. The two flags are set by conflict resolution. */
  datatype Booking = Booking(
    id: int,
    userId: string,
    date: string,
    month: string,
    isConfirmed: bool,
    isConflicted: bool)

  /** A booking before it is given an id; omitted flags default to false. */
  datatype InsertBooking = InsertBooking(
    userId: string,
    date: string,
    month: string,
    isConfirmed: Option<bool>,
    isConflicted: Option<bool>)

  /** A row of the final schedule: who holds duty on `date`. */
  datatype FinalSchedule = FinalSchedule(
    id: int,
    date: string,
    assignedTo: string,
    month: string)

  datatype InsertFinalSchedule = InsertFinalSchedule(
    date: string,
    assignedTo: string,
    month: string)

  datatype BookingRequest = BookingRequest(userId: string, date: string)

  /** Emitted for a date that two or more members requested. */
  datatype ConflictResolution = ConflictResolution(
    date: string,
    winner: string,
    losers: seq<string>)

  datatype UserBookingStatus = UserBookingStatus(
    userId: string,
    confirmedDays: nat,
    conflictedDays: nat,
    remainingDays: nat,
    bookings: seq<Booking>)

  datatype MonthlySchedule = MonthlySchedule(
    month: string,
    assignments: map<string, string>,
    conflicts: seq<ConflictResolution>,
    userStatuses: seq<UserBookingStatus>)
}
