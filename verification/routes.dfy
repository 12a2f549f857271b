/** The two protected booking endpoints of the HTTP layer: the access-key
    check that guards them, the shape check of a booking request, and what
    `POST /api/bookings` and `DELETE /api/bookings/:userId/:date` do to the
    store and answer. A response is reduced to its status and message. */
module Routes {
  import opened Schema
  import opened Calendar
  import opened Directory
  import opened Ledger
  import opened Invariants
  import opened Limits
  import opened Engine
  import opened Storage

  const AccessKeyRequired := "Access key required"
  const InvalidAccessKey := "Invalid access key"
  const InvalidRequestData := "Invalid request data"
  const BookOnlyForYourself := "You can only book for yourself"
  const CancelOnlyYourOwn := "You can only cancel your own bookings"

  /** What an endpoint answers: `{ success: true, conflicts }` after a
      booking, `{ success: true }` after a cancellation, or an error status
      with its message. */
  datatype Response =
    | Booked(conflicts: seq<ConflictResolution>)
    | Deleted
    | Refused(status: int, message: string)

  /** The result of `authenticateAccessKey`: the member the request acts as,
      or the 401 message. */
  datatype Auth = Authorized(user: TeamMember) | Unauthorized(message: string)

  /** `authenticateAccessKey`: a missing or empty `x-access-key` header is
      refused as required, a key no member holds as invalid; otherwise the
      request acts as the first member, in directory order, holding it. */
  function Authenticate(members: seq<TeamMember>, accessKey: Option<string>): (r: Auth)
    ensures (accessKey.None? || accessKey.value == "") ==> r == Unauthorized(AccessKeyRequired)
    ensures r.Authorized? <==>
              accessKey.Some? && accessKey.value != "" && exists m :: m in members && m.accessKey == accessKey.value
    ensures r.Authorized? ==>
              exists k :: 0 <= k < |members| && members[k] == r.user && r.user.accessKey == accessKey.value
                          && forall j :: 0 <= j < k ==> members[j].accessKey != accessKey.value
    ensures r.Unauthorized? && accessKey.Some? && accessKey.value != "" ==> r.message == InvalidAccessKey
  {
    if accessKey.None? || accessKey.value == "" then Unauthorized(AccessKeyRequired)
    else
      match FindByAccessKey(members, accessKey.value)
      case None => Unauthorized(InvalidAccessKey)
      case Some(user) => Authorized(user)
  }

  /** A request body as far as `bookingRequestSchema` looks at it: each field
      is its string value, or none when it is absent or not a string. */
  datatype Body = Body(userId: Option<string>, date: Option<string>)

  /** `bookingRequestSchema.parse`: a non-empty `userId` and a `date` of the
      shape `dddd-dd-dd`; other fields are dropped. */
  function ParseRequest(body: Body): (r: Option<BookingRequest>)
    ensures r.Some? <==> body.userId.Some? && |body.userId.value| >= 1 && body.date.Some? && IsDateShape(body.date.value)
    ensures r.Some? ==> r.value.userId == body.userId.value && r.value.date == body.date.value
  {
    if body.userId.Some? && |body.userId.value| >= 1 && body.date.Some? && IsDateShape(body.date.value)
    then Some(BookingRequest(body.userId.value, body.date.value))
    else None
  }

  /** Every well-shaped request survives the schema unchanged. */
  lemma ParseRequestRoundTrip(request: BookingRequest)
    requires |request.userId| >= 1 && IsDateShape(request.date)
    ensures ParseRequest(Body(Some(request.userId), Some(request.date))) == Some(request)
  {
  }

  /** `POST /api/bookings` on a store: authentication, the schema, the
      identity check, then `processBookingRequest`, whose error is answered
      with status 400 and its message. */
  function AfterPost(st: Store, accessKey: Option<string>, body: Body): (r: (Store, Response))
    ensures r.1.Refused? ==> r.0 == st
    ensures r.1.Refused? ==> r.1.status in {400, 401, 403}
    ensures r.1.Booked? <==>
              && Authenticate(st.members, accessKey).Authorized?
              && ParseRequest(body).Some?
              && ParseRequest(body).value.userId == Authenticate(st.members, accessKey).user.name
              && IsWeekend(ParseRequest(body).value.date)
              && RequestAllowed(st.bookings, ParseRequest(body).value.userId, ParseRequest(body).value.date)
    ensures Authenticate(st.members, accessKey).Unauthorized? ==>
              r.1 == Refused(401, Authenticate(st.members, accessKey).message)
    ensures Authenticate(st.members, accessKey).Authorized? && ParseRequest(body).None? ==>
              r.1 == Refused(400, InvalidRequestData)
    ensures Authenticate(st.members, accessKey).Authorized? && ParseRequest(body).Some?
              && ParseRequest(body).value.userId != Authenticate(st.members, accessKey).user.name ==>
              r.1 == Refused(403, BookOnlyForYourself)
    ensures Authenticate(st.members, accessKey).Authorized? && ParseRequest(body).Some?
              && ParseRequest(body).value.userId == Authenticate(st.members, accessKey).user.name ==>
              var outcome := AfterRequest(st, ParseRequest(body).value).1;
              && (outcome.Failure? ==> r.1 == Refused(400, outcome.message))
              && (outcome.Success? ==> r == (AfterRequest(st, ParseRequest(body).value).0, Booked(outcome.conflicts)))
  {
    var auth := Authenticate(st.members, accessKey);
    if auth.Unauthorized? then (st, Refused(401, auth.message))
    else
      var request := ParseRequest(body);
      if request.None? then (st, Refused(400, InvalidRequestData))
      else if request.value.userId != auth.user.name then (st, Refused(403, BookOnlyForYourself))
      else
        var (st1, outcome) := AfterRequest(st, request.value);
        match outcome
        case Success(conflicts) => (st1, Booked(conflicts))
        case Failure(message) => (st, Refused(400, message))
  }

  /** `DELETE /api/bookings/:userId/:date` on a store: authentication, the
      identity check, the lookup among the user's bookings of the date's
      month, then the deletion (of the row too, when the booking was
      confirmed) and the re-resolution of the month. */
  function AfterDelete(st: Store, accessKey: Option<string>, userId: string, date: string): (r: (Store, Response))
    ensures r.1.Refused? ==> r.0 == st
    ensures r.1.Refused? ==> r.1.status in {401, 403, 404}
    ensures r.1 == Deleted <==>
              && Authenticate(st.members, accessKey).Authorized?
              && Authenticate(st.members, accessKey).user.name == userId
              && exists b :: b in st.bookings && b.userId == userId && b.month == MonthOf(date) && b.date == date
    ensures Authenticate(st.members, accessKey).Unauthorized? ==>
              r.1 == Refused(401, Authenticate(st.members, accessKey).message)
    ensures Authenticate(st.members, accessKey).Authorized? && Authenticate(st.members, accessKey).user.name != userId ==>
              r.1 == Refused(403, CancelOnlyYourOwn)
    ensures Authenticate(st.members, accessKey).Authorized? && Authenticate(st.members, accessKey).user.name == userId ==>
              && (AfterCancel(st, userId, date).1 == NotFound ==> r.1 == Refused(404, BookingNotFoundMessage))
              && (AfterCancel(st, userId, date).1 == Cancelled ==> r == (AfterCancel(st, userId, date).0, Deleted))
  {
    var auth := Authenticate(st.members, accessKey);
    if auth.Unauthorized? then (st, Refused(401, auth.message))
    else if userId != auth.user.name then (st, Refused(403, CancelOnlyYourOwn))
    else
      var (st1, outcome) := AfterCancel(st, userId, date);
      if outcome == NotFound then (st, Refused(404, BookingNotFoundMessage))
      else (st1, Deleted)
  }

  /** Neither endpoint lets a request act for another member: a booking is
      only ever added under the name of the member whose key was presented. */
  lemma PostBooksOnlyForCaller(st: Store, accessKey: Option<string>, body: Body)
    requires AfterPost(st, accessKey, body).1.Booked?
    ensures accessKey.Some?
    ensures var caller := Authenticate(st.members, accessKey).user;
            && caller in st.members && caller.accessKey == accessKey.value
            && ParseRequest(body).value.userId == caller.name
            && |AfterPost(st, accessKey, body).0.bookings| == |st.bookings| + 1
            && AfterPost(st, accessKey, body).0.bookings[|st.bookings|].userId == caller.name
  {
    var request := ParseRequest(body).value;
    var x := NewBooking(st, request);
    var bs1 := AfterPost(st, accessKey, body).0.bookings;
    assert SameKeys(bs1, st.bookings + [x]);
    assert SameKey(bs1[|st.bookings|], (st.bookings + [x])[|st.bookings|]);
  }

  /** A cancellation removes exactly the caller's booking for the date: every
      other booking is still there, under the same id, user and date. */
  lemma DeleteRemovesOnlyCallersBooking(st: Store, accessKey: Option<string>, userId: string, date: string)
    requires WellFormed(st)
    requires AfterDelete(st, accessKey, userId, date).1 == Deleted
    ensures Authenticate(st.members, accessKey).user.name == userId
    ensures var bs1 := AfterDelete(st, accessKey, userId, date).0.bookings;
            && |bs1| == |st.bookings| - 1
            && forall b :: b in st.bookings && !(b.userId == userId && b.date == date) ==>
                 exists c :: c in bs1 && SameKey(c, b)
  {
    DeletedIsCancel(st, accessKey, userId, date);
    CancelRemovesOne(st, userId, date);
  }

  /** A cancellation the handler answers with success is the caller's own
      cancellation, and leaves the store `cancel` leaves. */
  lemma DeletedIsCancel(st: Store, accessKey: Option<string>, userId: string, date: string)
    requires AfterDelete(st, accessKey, userId, date).1 == Deleted
    ensures Authenticate(st.members, accessKey).Authorized? && Authenticate(st.members, accessKey).user.name == userId
    ensures AfterCancel(st, userId, date).1 == Cancelled
    ensures AfterDelete(st, accessKey, userId, date).0 == AfterCancel(st, userId, date).0
  {
  }

  /** Both endpoints keep a sound store sound. */
  lemma PostKeepsSound(st: Store, accessKey: Option<string>, body: Body)
    requires Sound(st)
    ensures Sound(AfterPost(st, accessKey, body).0)
  {
    var auth := Authenticate(st.members, accessKey);
    var request := ParseRequest(body);
    if auth.Authorized? && request.Some? && request.value.userId == auth.user.name {
      RequestKeepsSound(st, request.value);
    }
  }

  lemma DeleteKeepsSound(st: Store, accessKey: Option<string>, userId: string, date: string)
    requires Sound(st)
    ensures Sound(AfterDelete(st, accessKey, userId, date).0)
  {
    var auth := Authenticate(st.members, accessKey);
    if auth.Authorized? && userId == auth.user.name {
      CancelKeepsSound(st, userId, date);
    }
  }

  /** The `POST /api/bookings` handler, on the running store. */
  method PostBooking(store: MemStorage, accessKey: Option<string>, body: Body) returns (r: Response)
    requires store.Valid()
    modifies store
    ensures store.Valid()
    ensures store.Snapshot() == AfterPost(old(store.Snapshot()), accessKey, body).0
    ensures r == AfterPost(old(store.Snapshot()), accessKey, body).1
  {
    var auth := Authenticate(store.members, accessKey);
    if auth.Unauthorized? {
      return Refused(401, auth.message);
    }
    var request := ParseRequest(body);
    if request.None? {
      return Refused(400, InvalidRequestData);
    }
    if request.value.userId != auth.user.name {
      return Refused(403, BookOnlyForYourself);
    }
    var outcome := store.ProcessBookingRequest(request.value);
    match outcome
    case Success(conflicts) => r := Booked(conflicts);
    case Failure(message) => r := Refused(400, message);
  }

  /** The `DELETE /api/bookings/:userId/:date` handler, on the running store. */
  method CancelBooking(store: MemStorage, accessKey: Option<string>, userId: string, date: string) returns (r: Response)
    requires store.Valid()
    modifies store
    ensures store.Valid()
    ensures store.Snapshot() == AfterDelete(old(store.Snapshot()), accessKey, userId, date).0
    ensures r == AfterDelete(old(store.Snapshot()), accessKey, userId, date).1
  {
    ghost var st0 := store.Snapshot();
    var auth := Authenticate(store.members, accessKey);
    if auth.Unauthorized? {
      return Refused(401, auth.message);
    }
    var month := MonthOf(date);
    if userId != auth.user.name {
      return Refused(403, CancelOnlyYourOwn);
    }
    var userBookings := UserBookings(store.bookings, userId, month);
    var booking := FindOnDate(userBookings, date);
    if booking.None? {
      return Refused(404, BookingNotFoundMessage);
    }
    store.DeleteBooking(booking.value.id);
    if booking.value.isConfirmed {
      store.DeleteFinalSchedule(date);
    }
    ghost var st2 := store.Snapshot();
    var _ := store.ResolveConflicts(month);
    CancelAccepted(st0, accessKey, userId, date, booking.value, st2, store.Snapshot());
    r := Deleted;
  }

  /** The store the cancellation handler ends with is the one `AfterDelete` describes. */
  lemma CancelAccepted(st: Store, accessKey: Option<string>, userId: string, date: string, b: Booking, st2: Store, st3: Store)
    requires Authenticate(st.members, accessKey).Authorized? && Authenticate(st.members, accessKey).user.name == userId
    requires FindOnDate(UserBookings(st.bookings, userId, MonthOf(date)), date) == Some(b)
    requires st2 == st.(bookings := Without(st.bookings, b.id),
                        finalSchedule := if b.isConfirmed then st.finalSchedule - {date} else st.finalSchedule)
    requires st3 == AfterResolve(st2, MonthOf(date)).0
    ensures st3 == AfterDelete(st, accessKey, userId, date).0 && AfterDelete(st, accessKey, userId, date).1 == Deleted
  {
  }
}
