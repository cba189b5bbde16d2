# Classroom booking: a Dafny model

This project models the core of a school classroom-booking web application.
Teachers book a classroom for one hour on one date, either once or as a
recurring series. Administrators manage classrooms and users, and import a
new school year's configuration. The weekly calendar shows one classroom's
week, Monday to Friday, over nine teaching hours.

The model has two parts.

- **The store** (`store.dfy`, built on `rules.dfy`). This is the
  application's in-memory state: the current user, users, bookings, booking
  series, classrooms, weekly blocked slots and settings. Every operation is
  modelled on it:
  - login and logout;
  - the availability check;
  - single and recurring bookings;
  - deletes, including the cascades over series;
  - classroom and user administration;
  - the import.

  `Store.AppStore` is a class whose fields are the store's lists. Each
  operation is a method that either reports an `Error` and changes nothing,
  or states the whole new state. Every method keeps `Invariant`, which says:
  - every stored id was issued by the store's counter;
  - no two bookings hold the same classroom, date and hour;
  - no booking sits on a weekly blocked slot.
- **The calendar view** (`calendar_view.dfy`). This is the pure logic behind
  the calendar grid:
  - the Monday of the shown week and its five dates;
  - the booking filters;
  - the date-hour booking map, built by a loop in which the last booking
    wins;
  - the blocked-slot test;
  - who may delete a booking;
  - the precedence between a booked, a blocked and a free cell;
  - week navigation, a `Navigator` class whose `ChangeWeek` moves the
    current date.

Shared pieces:
- `seqs.dfy` states JavaScript's `filter`, `some` and `find` over sequences.
- `dates.dfy` holds calendar arithmetic on day numbers. Day 0 is 1970-01-01,
  and dates are read in UTC.
- `domain.dfy` transcribes the records of `types.ts`.

Some of the source's behaviour shows up in the proved statements:
- A weekly series whose start date is a Saturday or Sunday books nothing
  (`Rules.WeeklyOccurrences`).
- A monthly series moves by the length of the current month, so 31 January
  2024 is followed by 2 March 2024 (`Dates.MonthlyStepOverflows`).
- With a teacher filter set, a cell that hides another teacher's booking
  shows as free and clickable, while the store refuses that slot
  (`CalendarView.FilteredFreeCellMayBeTaken`). With no filter set, a free
  cell is always a slot the store accepts (`CalendarView.FreeCellIsAvailable`).

Three behaviours of the import are easy to miss:
- The import rebuilds the settings' teacher list from the users only when
  the import file has a settings section. When it has none, the teacher
  list stays as it was.
- An imported `classGroups` or `subjects` list replaces the old one even
  when it is empty, because an empty array is not falsy in JavaScript. An
  empty `schoolYear`, by contrast, keeps the previous year.
- Imported users are checked only against the emails already registered.
  Two incoming users who share a new email are both added
  (`Rules.MergeUsersCount`).

## Model

| member | source | states |
|---|---|---|
| Seqs.Filter | context/AppContext.tsx:148 | `filter` keeps exactly the elements that satisfy the predicate, and never lengthens the list |
| Seqs.FilterMultiplicity | context/AppContext.tsx:148 | a filter keeps each kept element exactly as often as it occurs |
| Seqs.FilterAppend | context/AppContext.tsx:111-115 | filtering distributes over concatenation, so order is preserved |
| Seqs.FilterPairwise | context/AppContext.tsx:148 | removing elements keeps any pairwise property, such as no double booking |
| Seqs.Any | context/AppContext.tsx:55-57 | `some` holds iff some position satisfies the predicate |
| Seqs.Find | context/AppContext.tsx:42 | `find` is absent iff no element matches; otherwise it is the first match |
| Dates.Weekday | types.ts:24 | the weekday lies in 0..6, with 0 for Sunday (4 January 1970, day 3, gives 0) |
| Dates.WeekdayAfterWeeks | context/AppContext.tsx:101-103 | moving by whole weeks keeps the weekday |
| Dates.DaysInMonth | context/AppContext.tsx:104-105 | months have 28 to 31 days, and February has 29 exactly in leap years |
| Dates.NextMonth | context/AppContext.tsx:104-105 | `setMonth(getMonth() + 1)` moves forward by 28 to 31 days |
| Dates.Step | context/AppContext.tsx:97-107 | every frequency step moves strictly forward, so the expansion loop ends |
| Dates.MonthlyStepOverflows | context/AppContext.tsx:104-105 | 31 January 2024 steps to 2 March 2024 |
| Rules.SlotBlocked | context/AppContext.tsx:53-58 | blocked iff some blocked slot matches the classroom, the date's weekday and the hour |
| Rules.SlotBooked | context/AppContext.tsx:60-63 | booked iff some booking holds the classroom, date and hour |
| Rules.SlotAvailable | context/AppContext.tsx:52-66 | available iff no blocked slot and no booking covers the slot |
| Rules.Occurrences | context/AppContext.tsx:93-108 | generated dates lie within the range and are school days |
| Rules.OccurrencesIncreasing | context/AppContext.tsx:93-108 | generated dates strictly increase, so no date is generated twice |
| Rules.DailyOccurrences | context/AppContext.tsx:94-100 | a daily series visits exactly the school days of the range |
| Rules.WeeklyOccurrences | context/AppContext.tsx:94-103 | a weekly series visits the days a whole number of weeks after a school-day start, and nothing if the start is a weekend |
| Rules.WeeklyExample | context/AppContext.tsx:93-108 | a two-week weekly series from a Monday books the two Mondays |
| Rules.Conflicts | context/AppContext.tsx:110-115 | a date is a conflict iff it was generated and its slot is not available |
| Rules.ConflictsAppend | context/AppContext.tsx:111-115 | checking the dates one at a time gives the conflicts of the whole list |
| Rules.SeriesBookings | context/AppContext.tsx:122-131 | one booking per generated date, with consecutive ids, carrying the series id and fields |
| Rules.SeriesBookingsConsistent | context/AppContext.tsx:121-131 | every series booking is on a school day within the series range, and no two share a slot |
| Rules.FindUser | context/AppContext.tsx:42 | absent iff no user has the id; otherwise a listed user with that id |
| Rules.FindBooking | context/AppContext.tsx:144 | absent iff no booking has the id; otherwise a listed booking with that id |
| Rules.FindSeries | context/AppContext.tsx:161 | absent iff no series has the id; otherwise a listed series with that id |
| Rules.IsInstitutionalEmail | context/AppContext.tsx:201 | holds iff the email is some name followed by `@xtec.cat` |
| Rules.InstitutionalEmailExamples | context/AppContext.tsx:201 | an `@xtec.cat` address passes and a `@gmail.com` address does not |
| Rules.MayDelete | context/AppContext.tsx:147 | allowed iff someone is logged in and is an Admin or the owner |
| Rules.BookingsExceptId | context/AppContext.tsx:148 | keeps exactly the bookings with another id |
| Rules.BookingsOutsideSeries | context/AppContext.tsx:165 | keeps exactly the bookings of no listed series |
| Rules.BookingsOutsideClassroom | context/AppContext.tsx:193 | keeps exactly the bookings of other classrooms |
| Rules.BookingsNotOwnedBy | context/AppContext.tsx:211 | keeps exactly the bookings of other teachers |
| Rules.SeriesIds | context/AppContext.tsx:196 | the ids of the listed series, and nothing else |
| Rules.SeriesExceptIds | context/AppContext.tsx:166 | keeps exactly the series with unlisted ids |
| Rules.SeriesInClassroom | context/AppContext.tsx:195 | keeps exactly the series located in the classroom |
| Rules.SeriesOwnedBy | context/AppContext.tsx:212 | keeps exactly the series owned by the user |
| Rules.ClassroomsExceptId | context/AppContext.tsx:192 | keeps exactly the classrooms with another id |
| Rules.SlotsOutsideClassroom | context/AppContext.tsx:194 | keeps exactly the blocked slots of other classrooms |
| Rules.UsersExceptId | context/AppContext.tsx:210 | keeps exactly the users with another id |
| Rules.ExceptIdKeepsSlotsApart | context/AppContext.tsx:148 | deleting a booking keeps no double booking |
| Rules.OutsideSeriesKeepsSlotsApart | context/AppContext.tsx:165 | deleting series bookings keeps no double booking |
| Rules.OutsideClassroomKeepsSlotsApart | context/AppContext.tsx:193 | deleting a classroom's bookings keeps no double booking |
| Rules.NotOwnedKeepsSlotsApart | context/AppContext.tsx:211 | deleting a teacher's bookings keeps no double booking |
| Rules.RemovingNoSeries | context/AppContext.tsx:196 | a cascade over no series changes nothing |
| Rules.OutsideSeriesTwice | context/AppContext.tsx:196 | deleting series bookings one series at a time equals deleting them all at once |
| Rules.SeriesExceptTwice | context/AppContext.tsx:213 | deleting series one at a time equals deleting them all at once |
| Rules.ReplaceClassroom | context/AppContext.tsx:187 | same length and ids; the matching entry becomes the new room; the others stay; an unknown id changes nothing |
| Rules.NumberClassrooms | context/AppContext.tsx:220-223 | imported classrooms keep their data in order, under fresh consecutive ids |
| Rules.Newcomers | context/AppContext.tsx:228-230 | keeps exactly the incoming users whose email is not yet registered |
| Rules.MergeUsers | context/AppContext.tsx:225-234 | existing users stay first and unchanged; added users have unregistered emails and fresh ids |
| Rules.MergeUsersAddsImported | context/AppContext.tsx:228-232 | each added user is an imported user with an unregistered email, keeping its name, email and role under its fresh id |
| Rules.MergeUsersKeepsImported | context/AppContext.tsx:228-232 | every imported user with an unregistered email is added, keeping its name, email and role under its fresh id |
| Rules.CountNewcomers | context/AppContext.tsx:228-230 | an unregistered email is kept as often as it is imported; a registered one never is |
| Rules.MergeUsersCount | context/AppContext.tsx:225-234 | after the merge, a registered email occurs as often as before, and a new one as often as it was imported |
| Rules.TeacherRefs | context/AppContext.tsx:243 | one teacher entry per user, with the same id and name, in order |
| Rules.MergeSettings | context/AppContext.tsx:237-245 | school year falls back when absent or empty; groups and subjects fall back only when absent; teachers come from the users |
| Store.ExpandDates | context/AppContext.tsx:85-108 | the date-generation loop returns exactly the series' occurrences |
| Store.FindConflicts | context/AppContext.tsx:110-115 | the conflict loop returns exactly the conflicts, in date order |
| Store.SeriesAdded | context/AppContext.tsx:121-134 | storing a series moves the id counter strictly forward |
| Store.SeriesAddedBookings | context/AppContext.tsx:121-134 | storing a series appends it, keeps earlier bookings, and adds one booking per date, each consistent with the series |
| Store.SeriesAddedIdsIssued | context/AppContext.tsx:121-131 | every id in the new state was issued; the series takes the old counter and its bookings the ids above it, so no new id equals a stored one |
| Store.SeriesBookingsAvailable | context/AppContext.tsx:110-119 | with no conflicts, every new series booking holds a free slot |
| Store.SeriesAddedKeepsInvariant | context/AppContext.tsx:110-134 | storing a conflict-free series keeps the store invariant |
| Store.ImportedState | context/AppContext.tsx:216-251 | the import keeps the current user, empties bookings, blocked slots and series, and never moves the id counter back |
| Store.ImportKeepsInvariant | context/AppContext.tsx:216-251 | the imported state satisfies the store invariant |
| Store.AppStore.constructor | context/AppContext.tsx:33-39 | the store starts from the seed lists, with nobody logged in and no series |
| Store.AppStore.Login | context/AppContext.tsx:41-46 | becomes the user with the id; an unknown id changes nothing |
| Store.AppStore.Logout | context/AppContext.tsx:48-50 | clears the current user and nothing else |
| Store.AppStore.AddBooking | context/AppContext.tsx:68-73 | refuses an unavailable slot and changes nothing; otherwise appends the booking under a fresh id |
| Store.AppStore.AddRecurringBooking | context/AppContext.tsx:82-134 | refuses with no user, or an inverted range, or any conflict (listing them all), changing nothing; otherwise stores the series and all its bookings at once |
| Store.AppStore.RemoveSeries | context/AppContext.tsx:165-166 | removes the series and every booking carrying its id |
| Store.AppStore.DeleteBooking | context/AppContext.tsx:143-158 | unknown id: no change; Admin or owner: the booking goes; anyone else: Forbidden with no change |
| Store.AppStore.DeleteBookingSeries | context/AppContext.tsx:160-176 | the same rule checked against the series' owner; on success the series and its bookings go |
| Store.CascadeStep | context/AppContext.tsx:196 | one turn of the cascade deletes the next listed series, or changes nothing if a series with that id is already gone |
| Store.AppStore.DeleteEachSeries | context/AppContext.tsx:195-196 | the cascade loop deletes every listed series and all their bookings |
| Store.AppStore.AddClassroom | context/AppContext.tsx:179-183 | Admin only; appends the classroom under a fresh id |
| Store.AppStore.UpdateClassroom | context/AppContext.tsx:185-188 | Admin only; replaces the classroom with the same id |
| Store.AppStore.DeleteClassroom | context/AppContext.tsx:190-197 | Admin only; afterwards no classroom, booking, blocked slot or series refers to the classroom |
| Store.AppStore.AddUser | context/AppContext.tsx:199-206 | Forbidden for non-Admins, then InvalidEmail for a non-`@xtec.cat` address; otherwise appends the user under a fresh id |
| Store.AppStore.DeleteUser | context/AppContext.tsx:208-214 | Admin only; afterwards no user, booking or series refers to the user; blocked slots stay |
| Store.AppStore.ImportConfiguration | context/AppContext.tsx:216-251 | Admin only; the new state is the imported state |
| CalendarView.StartOfWeek | components/CalendarView.tsx:20-25 | the result is a Monday within the six days up to the date; a Sunday maps to the Monday before |
| CalendarView.StartOfWeekUnique | components/CalendarView.tsx:20-25 | that Monday is the only such Monday |
| CalendarView.StartOfWeekShift | components/CalendarView.tsx:88-94 | moving the date by whole weeks moves the week's Monday the same way |
| CalendarView.WeekDates | components/CalendarView.tsx:27-33 | five consecutive days from the Monday, with weekdays Monday to Friday |
| CalendarView.WeekDatesSchoolDays | components/CalendarView.tsx:27-33 | the week shown holds the date when it is a school day, and only school days |
| CalendarView.DefaultClassroom | components/CalendarView.tsx:12 | the first classroom is selected, or none if there are none; what the empty selection then shows is stated by `NothingSelectedShowsNothing` |
| CalendarView.FilteredBookings | components/CalendarView.tsx:35-43 | shown iff in the selected classroom and equal to every filter that is set |
| CalendarView.NoFiltersShowClassroom | components/CalendarView.tsx:35-43 | with no filter set, every booking of the classroom is shown |
| CalendarView.NothingSelectedShowsNothing | components/CalendarView.tsx:12 | with no classroom selected (`None`), nothing is shown; weaker than the source, see "## Left out" |
| CalendarView.BuildBookingMap | components/CalendarView.tsx:45-52 | the loop builds the map of setting each booking under its date-hour key in order |
| CalendarView.BookingMapLastWins | components/CalendarView.tsx:45-52 | a key is present iff some booking has it, and maps to the last such booking |
| CalendarView.BookingMapValues | components/CalendarView.tsx:45-52 | every value in the map is a listed booking with that key |
| CalendarView.BookingForSlot | components/CalendarView.tsx:104-107 | the lookup is absent iff the key is not in the map; `BookingForSlotShown` proves that a found booking is a shown booking on that date and hour, and that none is found iff no shown booking falls there |
| CalendarView.BookingForSlotShown | components/CalendarView.tsx:104-107 | a cell's booking is absent iff no shown booking falls on that date and hour; otherwise it is a shown booking that does |
| CalendarView.IsSlotBlocked | components/CalendarView.tsx:109-116 | blocked iff some blocked slot of the selected classroom matches the weekday and hour |
| CalendarView.BlockedAgreesWithStore | components/CalendarView.tsx:109-116 | the calendar's blocked test equals the blocked half of the store's availability check |
| CalendarView.BlockInfo | components/CalendarView.tsx:220 | the displayed slot is present iff the cell is blocked, and it matches the cell |
| CalendarView.CanDelete | components/CalendarView.tsx:198 | the delete button shows iff the store's `deleteBooking` would allow the delete |
| CalendarView.ClassifyCell | components/CalendarView.tsx:196-232 | a booking takes precedence over a block; only a cell with neither is free |
| CalendarView.FreeCellIsAvailable | components/CalendarView.tsx:196-232 | with no filter set, a free cell is a slot the store accepts |
| CalendarView.FilteredFreeCellMayBeTaken | components/CalendarView.tsx:35-43 | with a teacher filter, a free cell may hide a booking, and the store then refuses the slot |
| CalendarView.FailingFilterHides | components/CalendarView.tsx:35-43 | a one-element list whose booking fails the filters shows nothing |
| CalendarView.WeekGrid | components/CalendarView.tsx:192-235 | the grid has one row per hour and five cells per row |
| CalendarView.GridBookedCell | components/CalendarView.tsx:192-218 | a booked grid cell shows a booking that passes the filters and falls on that column's date and row's hour |
| CalendarView.Navigator.constructor | components/CalendarView.tsx:11 | the calendar opens on the date passed in as today |
| CalendarView.Navigator.ChangeWeek | components/CalendarView.tsx:88-94 | moves the date by exactly seven days per step, and the shown week's Monday with it |

## Left out

- Ids: the source builds them from the wall clock and random numbers. The model draws them from a counter (`nextId`), so they are always fresh. Two bookings made in the same millisecond could collide in the source; they cannot in the model.
- The wall clock: "today" is a parameter of `CalendarView.Navigator.constructor`. The seed data in `constants.ts`, which is computed from today's date, becomes the store constructor's parameters.
- Time zones: every date and weekday is read in UTC, so the model matches the source only when the browser's zone is UTC with no summer time. In other zones the source differs from the model in several ways, for example:
  - The calendar builds local-time dates (components/CalendarView.tsx:11, 24, 30, 100) and reads their weekday in local time (:110), but builds the booking-map key from the UTC date (:105). East of UTC, a local midnight falls on the previous UTC day, so a column is looked up under the previous day's date (in UTC+2, Monday's column reads Sunday's bookings).
  - West of UTC, a date-only string is parsed as UTC midnight (context/AppContext.tsx:53, 86), which is the previous local day, and its weekday is then read in local time (:53, :94). So `isSlotAvailable` tests the previous weekday's blocked slots, and the series loop keeps the dates that fall on Tuesday to Saturday in UTC: a weekly series that starts on a Monday books nothing.
  - The calendar's first date is `new Date()` (components/CalendarView.tsx:11), which keeps the current time of day, and the week's dates inherit it. In any zone other than UTC, for part of every day that time lies on another UTC date, and the key built at :105 looks the column up under the neighbouring day.
  - The series loop starts at UTC midnight (context/AppContext.tsx:86) but steps with local `setDate`/`setMonth` (:99-105). Across a change to summer time the instant drifts by an hour, and `toISOString()` (:129) then stores the booking one day early; the availability check at :112 tests that earlier day too.
- Date strings: dates are day numbers. The `YYYY-MM-DD` strings, their parsing, invalid dates and the locale formatting of conflict dates and headings are not modelled. `Error.SeriesConflict` carries the day numbers instead.
- Error messages: the source's Catalan messages become the `Error` constructors. `throw` becomes a `Fail` outcome.
- Notifications (`notificationService`) after bookings and cancellations are not modelled; they do not change the store.
- React: state batching, re-rendering, `useMemo` and the stale closures of `forEach(s => deleteBookingSeries(s.id))` are left out. The cascade is modelled as a loop over the series list taken before the loop, in which each call acts on the state the previous call left. The functional `setBookings(prev => …)` updates compose the same way.
- Store.AppStore.IsSlotAvailable: reads the store's lists and has no contract of its own; its meaning is `Rules.SlotAvailable`.
- The calendar's handlers (`handleCellClick`, `handleDeleteBooking` with its `window.confirm` dialogs, `handleDateChange`, `setTimeout`) and all markup are left out. The calendar's filters are plain values: the teacher filter is an optional id, and the empty group or subject string means no filter.
- The selected classroom is an optional id, and `None` stands for the source's empty-string default used when there is no classroom. `None` matches no booking and no blocked slot.
- CalendarView.NothingSelectedShowsNothing: holds for `None`, not for the source's `''`. With no classroom, the calendar still opens with `selectedClassroom === ''` (components/CalendarView.tsx:12). Its free cells open the booking form with that classroom (:243), `addBooking` and `addRecurringBooking` store the booking under classroom `''` without checking that the classroom exists (context/AppContext.tsx:68-73, 82-131), and `filteredBookings` (components/CalendarView.tsx:37) then shows it. Ids in the model are numbers and no booking can carry `''`, so the model does not capture bookings made under the empty selection, nor their being shown.
- The other components (booking modal, admin panels, header, login, dashboard) are not part of this model.
