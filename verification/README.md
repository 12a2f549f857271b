# Weekend duty scheduler: the booking engine in Dafny

WeekendWorkforce lets a small team claim weekend duty days. Each member
holds an access key and a priority, where a lower number wins. A member
may request at most two weekend days a month and each date only once.
When several members request the same date, the best-ranked one is
confirmed and assigned in the final schedule; the others are marked
conflicted and reported in a conflict record.

This project models that engine:

- The in-memory store `MemStorage` (`server/storage.ts`) is the class
  `Storage.MemStorage`. It has the same four fields: the team directory,
  the booking ledger, the final schedule and the shared id counter.
- The store's methods that change it, and `getMonthlySchedule`, are methods
  of the class. Its read-only queries are functions over the class's
  fields, which the methods call:
  - `getTeamMembers` is `Directory.SortedTeam`;
  - `getTeamMember` is `Directory.FindByName`;
  - `validateAccessKey` is `Directory.FindByAccessKey`;
  - `getBookings` is `Ledger.MonthBookings`;
  - `getUserBookings` is `Ledger.UserBookings`;
  - `getFinalSchedule(month)` is the month filter inside `Storage.MonthAssignments`.
- The loops of `resolveConflicts` and `getMonthlySchedule` are loops here:
  - the grouping of a month's bookings by date;
  - the per-date settling loop and the loop over a contested date's losers;
  - the assignments loop and the status loop of `getMonthlySchedule`.

  So is the seeding loop of the default members. The filters
  (`Array.prototype.filter`, `find`) are recursive functions.
- The two protected handlers of `server/routes.ts` are methods over that
  store, with the caller's access key and request as parameters:
  - `POST /api/bookings`, with the access-key middleware and the request
    schema;
  - `DELETE /api/bookings/:userId/:date`.
- Every method is proved to perform one transition of a pure model of the
  store (`Engine.Store`), and the properties are proved about those
  transitions:
  - the guards of a booking request and the order in which they fire;
  - the winner of a date: least rank, ties to the earlier booking, and an
    unknown member or priority 0 counting as 999;
  - exactly one confirmed booking per booked date;
  - the schedule row naming the winner;
  - conflict records only for contested dates;
  - idempotence of re-resolution, up to the ids of rewritten rows;
  - the two-per-month and one-per-date limits;
  - the "self only" rule of both handlers;
  - the reassignment of a date after a cancellation.

The central invariant is `Engine.Sound`. In a sound store the directory's
names are distinct and ids ascend below the counter. Every booking's flags
say whether it wins its date among the bookings that exist now. The final
schedule has exactly one row per booked date, naming that winner. Both
limits hold. `Storage.MemStorage.constructor` establishes `Sound`, and
every request, accepted or refused, keeps it (`Routes.PostKeepsSound`,
`Routes.DeleteKeepsSound`).

How the source's data is represented:

- **Maps in insertion order.** JavaScript `Map`s iterate in insertion
  order, and that order is observable:
  - the order in which dates are settled;
  - the order of the conflict list;
  - the tie-break between equal priorities;
  - which member a duplicated access key finds.

  So the name-keyed and id-keyed maps are sequences in insertion order.
  Names are distinct, and ids strictly ascend. The date-keyed final
  schedule is a Dafny `map`.
- **Sorting.** `Array.prototype.sort` is stable. It is modelled as a stable
  insertion sort by an integer key (`Sorting`), proved to be a sorted
  permutation that keeps equal keys in order.
- **Weekdays.** The day of the week is computed with Sakamoto's formula on
  the proleptic Gregorian calendar and read in UTC.
- **Errors.** A thrown `Error` is a `Failure` or `Err` value carrying the
  same message.

## Model

| member | source | states |
|---|---|---|
| Calendar.MonthOf | server/storage.ts:158 | the month key is the first seven characters of the date (all of it when shorter), a prefix of the date |
| Calendar.ParseDate | server/storage.ts:151-154 | a string is read as a date only when it has the `YYYY-MM-DD` shape and names a real calendar day; the date read is the decimal value of the year, month and day digits; every such string is read; the year is at most 9999 |
| Calendar.DayOfWeekAdvances | server/storage.ts:151-154 | the weekday formula moves forward by exactly one from every calendar day to the next, across month, February and year boundaries |
| Calendar.KnownDays | server/storage.ts:151-154 | the weekday formula gives Saturday for 2025-06-07 and 2000-01-01, Sunday for 2025-06-08, Wednesday for 2025-06-04 |
| Calendar.IsWeekend | server/storage.ts:151-154 | a bookable date is a real calendar day written `YYYY-MM-DD`; for such a string it is bookable exactly when its weekday is 6 (Saturday) or 0 (Sunday) |
| Calendar.KnownWeekends | server/storage.ts:151-154 | the weekend check accepts 2025-06-07 (a Saturday) and 2025-06-08 (a Sunday) |
| Calendar.KnownWeekdays | server/storage.ts:151-154 | the weekend check refuses 2025-06-04 (a Wednesday) and 2025-02-30 (no such day) |
| Calendar.WeekendHasMonthKey | server/storage.ts:156-163 | a date that passes the weekend check has the `YYYY-MM-DD` shape, so its month key is `YYYY-MM` |
| Sorting.SortPermutes | server/storage.ts:210-214 | sorting a date's bookings only reorders them (same multiset) |
| Sorting.SortSorted | server/storage.ts:210-214 | the sorted sequence is in ascending key order |
| Sorting.SortStable | server/storage.ts:210-214 | for every key value, the elements carrying it keep their original relative order |
| Sorting.SortHead | server/storage.ts:216 | the head of the sorted sequence is the earliest element with the least key |
| Directory.SortedTeam | server/storage.ts:75-77 | `getTeamMembers` returns a permutation of the members in ascending priority |
| Directory.SortedTeamKeepsNamesDistinct | server/storage.ts:75-77 | sorting the directory keeps names unique |
| Directory.FindByName | server/storage.ts:79-81 | the lookup finds a member with the name exactly when one exists |
| Directory.Upsert | server/storage.ts:89 | storing a member under its name makes the name find that member, keeps every member with another name, and appends a member with a new name at the end |
| Directory.UpsertKeepsNamesDistinct | server/storage.ts:89 | storing by name keeps names unique |
| Directory.FindByAccessKey | server/storage.ts:93-97 | `validateAccessKey` gives none exactly when no member holds the key, and otherwise the first member in directory order whose key equals it |
| Directory.Rank | server/storage.ts:211-213 | the rank is 999 for a user who is not a member; for a member it is their priority, or 999 when the priority is 0 |
| Ledger.MonthBookingsMembers | server/storage.ts:103-105 | `getBookings(month)` holds exactly the ledger's bookings of that month |
| Ledger.UserBookingsMembers | server/storage.ts:107-111 | `getUserBookings(userId, month)` holds exactly that user's bookings of that month |
| Ledger.OnDateMembers | server/storage.ts:198-204 | a date's group holds exactly the bookings for that date |
| Ledger.DatesMember | server/storage.ts:198-204 | the grouping map has a key for a date exactly when some booking carries that date |
| Ledger.DatesDistinct | server/storage.ts:198-204 | the grouping map lists no date twice |
| Ledger.FindById | server/storage.ts:125 | the lookup by id finds a booking with that id exactly when one exists |
| Ledger.SetFlags | server/storage.ts:124-131 | updating the flags rewrites both flags of the booking with that id and leaves every other booking, and the order, as it was |
| Ledger.WithoutMembers | server/storage.ts:133-135 | after `deleteBooking(id)` the ledger holds exactly the bookings with other ids |
| Ledger.WithoutOne | server/storage.ts:133-135 | deleting the id of a booking in a ledger with distinct ids removes exactly one booking |
| Ledger.FindOnDate | server/routes.ts:290 | the search finds none exactly when no booking has the date; otherwise it finds the first booking, in ledger order, that has the date |
| Ledger.CountConfirmed | server/storage.ts:271 | the count is the number of positions holding a confirmed booking |
| Ledger.CountConflicted | server/storage.ts:272 | the count is the number of positions holding a conflicted booking |
| Ledger.CountsBound | server/storage.ts:271-272 | with no booking carrying both flags, confirmed plus conflicted is at most the booking count; with exactly one flag each, it equals the count |
| Ledger.StatusOf | server/storage.ts:269-281 | a member's status carries their name and their bookings of the month; confirmed days count the confirmed ones among those bookings and conflicted days the conflicted ones; remaining days are 0 or what is left of two |
| Resolver.SortGroup | server/storage.ts:209-214 | a date's bookings in resolution order: a permutation sorted by rank |
| Resolver.WinnerIsFirstMinimum | server/storage.ts:210-216 | the winner is one of the date's bookings, none outranks it, and every booking inserted before it has a strictly worse rank |
| Resolver.LosersStable | server/storage.ts:210-217 | bookings of equal rank keep their insertion order in the sorted group, so losers are listed in priority order and then in insertion order |
| Resolver.SortGroupIdsDistinct | server/storage.ts:216-223 | the winner and each loser are distinct bookings |
| Resolver.ResolvedBookings | server/storage.ts:207-247 | resolution keeps every booking's id, user, date and month, and leaves bookings of other months untouched |
| Resolver.ResolvedWinsDate | server/storage.ts:207-247 | after resolving its month, a booking keeps its id, user, date and month; it is confirmed exactly when no booking of its date has a better rank and every booking of its date inserted before it has a worse rank; it is conflicted exactly when it is not confirmed |
| Resolver.ScheduleAfter | server/storage.ts:225-230 | after the per-date loop, every processed date has a row for its date and month, assigned to the winner, with an id from the next `|dates|` values of the counter; other rows are kept |
| Resolver.ScheduleIdsInOrder | server/storage.ts:225-230 | with distinct dates, the row of the k-th processed date carries id `nextId + k` |
| Resolver.ConflictsAfter | server/storage.ts:232-236 | no more records than processed dates; every record is for a processed date with two or more bookings and names that date's winner and its losers in sorted order; every such date has a record |
| Resolver.ConflictsInDateOrder | server/storage.ts:207-236 | with distinct dates, the records come in the order of their dates and no date has two records |
| Resolver.SameGroupsSameOutcome | server/storage.ts:207-247 | two groups that differ only in flags have the same winner, assignee and conflict record |
| Resolver.OneWinnerPerDate | server/storage.ts:207-247 | after resolution each booked date of the month has exactly one confirmed booking, and every booking of the month carries exactly one of the two flags |
| Resolver.ConfirmedIsUnique | server/storage.ts:220-222 | two bookings confirmed for the same date are the same booking |
| Resolver.WinnerOf | server/storage.ts:216 | a booked date has a winner, and it is one of the ledger's bookings for that date and month |
| Resolver.ResolveIdempotent | server/storage.ts:192-251 | resolving twice in a row gives the same flags, dates, conflict list, schedule keys and assignments; only the ids of the rewritten rows differ |
| Invariants.ResolveRestoresConsistency | server/storage.ts:192-251 | when a store is consistent except in one month, resolving that month makes all of it consistent |
| Invariants.AddLeavesMonthStale | server/storage.ts:177-184 | inserting a fresh booking leaves the store consistent outside the booking's month |
| Invariants.RemoveLeavesMonthStale | server/routes.ts:297-302 | deleting a booking, and its row when it was confirmed, leaves the store consistent outside the booking's month |
| Invariants.ScheduleAfterCancel | server/routes.ts:300-302 | the cancelled date's row is dropped exactly when the cancelled booking was confirmed; every row that remains is unchanged |
| Invariants.OnDateOfMonth | server/storage.ts:158 | a date's bookings all lie in the month its key names |
| Invariants.DatesOfMonth | server/storage.ts:193-204 | the dates grouped for a month are the booked dates whose key is that month |
| Limits.RequestKeepsLimits | server/storage.ts:165-184 | a booking that passes the two guards keeps both limits: at most two bookings per user per month, and at most one per user per date |
| Limits.ResolveKeepsLimits | server/storage.ts:219-223 | resolution keeps both limits |
| Limits.RemoveKeepsLimits | server/storage.ts:133-135 | deleting a booking keeps both limits |
| Limits.StatusAddsUp | server/storage.ts:271-273 | in a consistent store a member's confirmed and conflicted counts add up to their bookings of the month; within the limit, remaining is two minus confirmed |
| Engine.AfterResolve | server/storage.ts:192-251 | resolution keeps the directory and every booking's keys, advances the counter by one per booked date, and gives the schedule a row for every booked date of the month |
| Engine.AfterRequest | server/storage.ts:156-190 | a request is refused unless the date is a weekend day and the user has fewer than two bookings of the month and none on the date; a refusal changes nothing; the first failing guard's message is returned; an accepted request appends exactly one booking with the next id |
| Engine.AfterCancel | server/routes.ts:281-305 | the cancellation finds nothing exactly when the user has no booking of the date's month on the date, and then changes nothing |
| Engine.ResolveConflictsInOrder | server/storage.ts:192-251 | the conflict list names each contested date once, in the order the month's bookings first mention the dates |
| Engine.ResolveKeepsSound | server/storage.ts:192-251 | resolving any month keeps a sound store sound |
| Engine.RequestKeepsSound | server/storage.ts:156-190 | every booking request, accepted or refused, keeps a sound store sound, so no user ever holds more than two bookings in a month |
| Engine.CancelKeepsSound | server/routes.ts:289-305 | every cancellation keeps a sound store sound |
| Engine.CancelRemovesOne | server/routes.ts:289-297 | a cancellation removes exactly one booking; every booking other than the user's on that date is still there with the same id, user, date and month |
| Engine.ResolveOfSoundIsIdle | server/storage.ts:253-265 | re-resolving a sound store changes no flag and no assignment |
| Engine.StatusMatchesSchedule | server/storage.ts:267-282 | in a sound store a member's confirmed days equal the month's schedule rows assigned to them, and their conflicted days are the rest of their bookings of the month |
| Engine.SoundDate | server/storage.ts:225-246 | in a sound store a date has a row exactly when it is booked; the row names the date's winner, who holds its only confirmed booking |
| Engine.CancelReassigns | server/routes.ts:297-305 | after a cancellation the date keeps a row exactly when bookings for it remain, and the row is assigned to the best-ranked of them, who alone is confirmed |
| Storage.Seeded | server/storage.ts:62-73 | the first k default members, with ids 1 to k |
| Storage.MemStorage.constructor | server/storage.ts:52-73 | the new store holds the four default members with ids 1 to 4 and no bookings or rows; the counter is 5; the store is sound |
| Storage.MemStorage.InitializeTeamMembers | server/storage.ts:62-73 | creates the default members in order, leaving bookings and schedule as they were |
| Storage.MemStorage.CreateTeamMember | server/storage.ts:83-91 | stores the member under its name, with the next id and `isActive` defaulting to true, and advances the counter |
| Storage.MemStorage.CreateBooking | server/storage.ts:113-122 | appends the booking with the next id, with flags defaulting to false, and advances the counter |
| Storage.MemStorage.UpdateBooking | server/storage.ts:124-131 | rewrites the flags of the booking with the id; fails with "Booking not found", changing nothing, exactly when no booking has the id |
| Storage.MemStorage.DeleteBooking | server/storage.ts:133-135 | the ledger loses the bookings with that id and nothing else changes |
| Storage.MemStorage.SetFinalSchedule | server/storage.ts:141-145 | writes the date's row with the next id, replacing any row the date had, and advances the counter |
| Storage.MemStorage.DeleteFinalSchedule | server/storage.ts:147-149 | the schedule loses the date's row and nothing else changes |
| Storage.MemStorage.ProcessBookingRequest | server/storage.ts:156-190 | performs exactly the transition and outcome of `Engine.AfterRequest` |
| Storage.MemStorage.ResolveConflicts | server/storage.ts:192-251 | performs exactly the store change and conflict list of `Engine.AfterResolve` |
| Storage.GroupByDate | server/storage.ts:197-204 | the grouping map has exactly the month's booked dates as keys, in first-appearance order, each holding that date's bookings in ledger order |
| Storage.MemStorage.SettleDates | server/storage.ts:206-248 | settles the dates in order: the ledger, schedule, counter and conflict list become the resolved ones |
| Storage.MemStorage.SettleDate | server/storage.ts:207-247 | settles one date; returns a conflict record exactly when the date has two or more bookings |
| Storage.MemStorage.SettleContested | server/storage.ts:208-236 | confirms the winner, marks the losers, writes the winner's row and returns the date's conflict record |
| Storage.MemStorage.MarkLosers | server/storage.ts:221-223 | marks every loser conflicted, leaving schedule and counter unchanged |
| Storage.MemStorage.SettleSingle | server/storage.ts:237-246 | confirms the single booking and writes its user's row |
| Storage.MemStorage.GetMonthlySchedule | server/storage.ts:253-290 | the month, the assignments read before resolving, the conflicts of a fresh resolution, and one status per member in ascending priority; in a sound store the assignments are those in force afterwards |
| Storage.IdleAssignments | server/storage.ts:258-265 | re-resolving a sound store leaves every month's assignments unchanged |
| Storage.UserStatuses | server/storage.ts:267-282 | one status per team member, in order, computed on the given ledger |
| Storage.CollectAssignments | server/storage.ts:258-262 | the assignments loop builds exactly the month's date-to-user record |
| Storage.MonthAssignments | server/storage.ts:137-139 | the assignments map each of the month's scheduled dates to its assigned user, and holds no other date |
| Routes.Authenticate | server/routes.ts:14-27 | a missing or empty key gives "Access key required"; a key no member holds gives "Invalid access key"; otherwise the request acts as the first member holding the key |
| Routes.ParseRequest | server/routes.ts:8-11 | a body passes exactly when `userId` is a non-empty string and `date` matches `^\d{4}-\d{2}-\d{2}$`, and then both fields are kept unchanged |
| Routes.ParseRequestRoundTrip | server/routes.ts:8-11 | every well-formed request passes the schema unchanged |
| Routes.AfterPost | server/routes.ts:257-275 | a refusal changes nothing; the checks run in order: 401 with the authentication message, 400 "Invalid request data" for a body the schema refuses, 403 "You can only book for yourself" for another user's name, 400 with the booking engine's message when it refuses; otherwise the engine's store and conflict list; a booking is made exactly when all checks pass |
| Routes.AfterDelete | server/routes.ts:278-311 | a refusal changes nothing; the checks run in order: 401 with the authentication message, 403 "You can only cancel your own bookings" for another user's name, 404 "Booking not found" when the user holds no booking on the date in its month; otherwise the cancelled store; it succeeds exactly when all checks pass |
| Routes.PostBooksOnlyForCaller | server/routes.ts:261-266 | a successful booking was made with a presented key held by the caller, and adds exactly one booking, under the caller's name |
| Routes.DeleteRemovesOnlyCallersBooking | server/routes.ts:284-297 | a successful cancellation was by the booking's own user and removes exactly one booking; all others remain |
| Routes.DeletedIsCancel | server/routes.ts:284-305 | a successful cancellation is the caller's own and leaves the store as the cancellation transition does |
| Routes.PostKeepsSound | server/routes.ts:257-275 | the booking endpoint keeps a sound store sound |
| Routes.DeleteKeepsSound | server/routes.ts:278-311 | the cancellation endpoint keeps a sound store sound |
| Routes.PostBooking | server/routes.ts:257-275 | the handler performs exactly the store change and response of `Routes.AfterPost` |
| Routes.CancelBooking | server/routes.ts:278-311 | the handler performs exactly the store change and response of `Routes.AfterDelete` |

## Left out

- **Excluded code:**
  - Express wiring, JSON bodies, the `async`/`Promise` structure and the Zod error details (`errors`) are left out. Each handler is one sequential step that returns a status and a message.
  - The XLSX and JSON export routes and `exportSchedule` are left out: they format a snapshot through an external library and stamp the wall-clock time.
  - The ticket routes, the public access-keys route, and all client code (React pages, hooks, the browser calendar) are left out.
- **Weekday and date reading:**
  - `isWeekend` (server/storage.ts:151-154) parses the date as UTC midnight but reads `getDay()` in the server's local time zone. West of UTC that is the previous day. The model reads the weekday in UTC.
  - A JavaScript engine may roll an impossible day such as `2025-02-30` over into the next month. The model treats any string that is not a real calendar day as not a weekend day, so it refuses it.
- **Error paths:**
  - The 500 answer of the cancel handler (server/routes.ts:308-310) is not modelled. Nothing it calls can throw in the model: `updateBooking` only throws for an id that is absent, and resolution only updates ids taken from the ledger.
  - The generic 400 of the booking handler (server/routes.ts:273) is modelled only for the errors `processBookingRequest` throws, which are the only errors that can reach it.
- **Access key:** an `x-access-key` header given as an array or as a non-string is not modelled. The header is an optional string.
- **Initialisation:** the constructor does not await `initializeTeamMembers`. The model finishes the seeding inside the constructor.
- **updateBooking:** only the two flags are updated, because they are the only updates the engine performs. A general partial update with other fields is not modelled.
- **Row order:** the row order of `getFinalSchedule` is not modelled. Its rows only feed the date-keyed `assignments` record.
- **getUserByAccessKey:** not modelled separately; it is `validateAccessKey` under another name (server/storage.ts:99-101).
- **Past dates:** there is no check against booking a past date, because the source has none.
- Storage.MemStorage.ProcessBookingRequest: the method ensures only the exact transition. That the transition keeps the store sound is proved separately, by `Engine.RequestKeepsSound` and `Routes.PostKeepsSound`.
- Storage.MemStorage.ResolveConflicts: soundness is likewise proved separately, by `Engine.ResolveKeepsSound`.
- Routes.CancelBooking: soundness is proved separately, by `Engine.CancelKeepsSound` and `Routes.DeleteKeepsSound`.
- **Numbers:** integers are unbounded. JavaScript numbers are doubles, so they are exact only up to 2^53. The id counter and all counts stay far below that.
