/** The application's in-memory store: the current user, users, bookings,
    booking series, classrooms, weekly blocked slots and settings, and every
    operation that changes them. Each operation runs to completion on the
    current state and either succeeds or reports an `Error` without changing
    anything. */
module Store {
  import opened Seqs
  import opened Domain
  import opened Dates
  import opened Rules

  /** Everything the store holds, as one value. */
  datatype StoreState = StoreState(
    currentUser: Option<User>,
    users: seq<User>,
    bookings: seq<Booking>,
    bookingSeries: seq<BookingSeries>,
    classrooms: seq<Classroom>,
    blockedSlots: seq<BlockedSlot>,
    settings: AppSettings,
    nextId: Id)

  /** Every stored id was drawn from the counter. */
  ghost predicate IdsIssued(st: StoreState)
  {
    && (forall u :: u in st.users ==> u.id < st.nextId)
    && (forall b :: b in st.bookings ==> b.id < st.nextId)
    && (forall s :: s in st.bookingSeries ==> s.id < st.nextId)
    && (forall c :: c in st.classrooms ==> c.id < st.nextId)
    && (forall s :: s in st.blockedSlots ==> s.id < st.nextId)
  }

  /** No booking sits on a weekly blocked slot of its classroom. */
  ghost predicate NoBookingOnBlockedSlot(bookings: seq<Booking>, slots: seq<BlockedSlot>)
  {
    forall b, s :: b in bookings && s in slots ==> !BlocksSlot(s, b.classroomId, Weekday(b.date), b.hour)
  }

  /** What every operation keeps: fresh ids, and every booking holds a
      slot that no other booking and no blocked slot holds. */
  ghost predicate Invariant(st: StoreState)
  {
    IdsIssued(st) && NoDoubleBooking(st.bookings) && NoBookingOnBlockedSlot(st.bookings, st.blockedSlots)
  }

  /** The loop of `addRecurringBooking` that walks from the start date to the
      end date, one frequency step at a time, collecting Monday to Friday. */
  method ExpandDates(start: Day, end: Day, frequency: Frequency) returns (dates: seq<Day>)
    ensures dates == Occurrences(start, end, frequency)
  {
    dates := [];
    var current := start;
    while current <= end
      invariant dates + Occurrences(current, end, frequency) == Occurrences(start, end, frequency)
      decreases end - current
    {
      var next := Step(current, frequency);
      if IsSchoolDay(current) {
        assert Occurrences(current, end, frequency) == [current] + Occurrences(next, end, frequency);
        assert dates + [current] + Occurrences(next, end, frequency) ==
               dates + ([current] + Occurrences(next, end, frequency));
        dates := dates + [current];
      } else {
        assert Occurrences(current, end, frequency) == Occurrences(next, end, frequency);
      }
      current := next;
    }
  }

  /** The loop of `addRecurringBooking` that collects every generated date
      whose slot is not free. */
  method FindConflicts(slots: seq<BlockedSlot>, bookings: seq<Booking>, dates: seq<Day>,
                       classroomId: Id, hour: int) returns (conflicts: seq<Day>)
    ensures conflicts == Conflicts(slots, bookings, dates, classroomId, hour)
  {
    conflicts := [];
    for i := 0 to |dates|
      invariant conflicts == Conflicts(slots, bookings, dates[..i], classroomId, hour)
    {
      assert dates[..i + 1] == dates[..i] + [dates[i]];
      ConflictsAppend(slots, bookings, dates[..i], [dates[i]], classroomId, hour);
      if !SlotAvailable(slots, bookings, classroomId, dates[i], hour) {
        conflicts := conflicts + [dates[i]];
      }
    }
    assert dates[..|dates|] == dates;
  }

  /** The state once every series with an id in `ids`, and every booking
      of those series, is gone. */
  function WithoutSeries(st: StoreState, ids: set<Id>): (r: StoreState)
  {
    st.(bookings := BookingsOutsideSeries(st.bookings, ids),
        bookingSeries := SeriesExceptIds(st.bookingSeries, ids))
  }

  /** One turn of the cascade loop: deleting the next series of the list
      (or nothing, if an earlier turn already deleted a series with its id)
      takes the state to the one without the series deleted so far. */
  lemma CascadeStep(st: StoreState, doomed: seq<BookingSeries>, i: nat)
    requires i < |doomed|
    requires forall s :: s in doomed ==> s in st.bookingSeries
    ensures var before := WithoutSeries(st, SeriesIds(doomed[..i]));
            var id := doomed[i].id;
            var after := WithoutSeries(st, SeriesIds(doomed[..i + 1]));
            && (FindSeries(before.bookingSeries, id).Some? ==> WithoutSeries(before, {id}) == after)
            && (FindSeries(before.bookingSeries, id).None? ==> before == after)
  {
    var done := SeriesIds(doomed[..i]);
    var id := doomed[i].id;
    assert SeriesIds(doomed[..i + 1]) == done + {id} by {
      assert doomed[..i + 1] == doomed[..i] + [doomed[i]];
    }
    OutsideSeriesTwice(st.bookings, done, id);
    SeriesExceptTwice(st.bookingSeries, done, id);
    if id !in done {
      assert doomed[i] in SeriesExceptIds(st.bookingSeries, done);
    } else {
      assert done + {id} == done;
    }
  }

  /** The state after a conflict-free series is stored: the series under
      the next id, then one booking per generated date under the ids that
      follow it. */
  function SeriesAdded(st: StoreState, req: SeriesRequest, teacherId: Id): (r: StoreState)
    ensures st.nextId < r.nextId
  {
    var dates := Occurrences(req.startDate, req.endDate, req.frequency);
    var series := SeriesFor(req, teacherId, st.nextId);
    st.(bookingSeries := st.bookingSeries + [series],
        bookings := st.bookings + SeriesBookings(series, dates, st.nextId + 1),
        nextId := st.nextId + 1 + |dates|)
  }

  /** Storing a series keeps every earlier booking and series in place and
      adds one booking per generated date, each consistent with the series. */
  lemma SeriesAddedBookings(st: StoreState, req: SeriesRequest, teacherId: Id)
    ensures var r := SeriesAdded(st, req, teacherId);
            var series := SeriesFor(req, teacherId, st.nextId);
            && r.bookingSeries == st.bookingSeries + [series]
            && |r.bookings| == |st.bookings| + |Occurrences(req.startDate, req.endDate, req.frequency)|
            && r.bookings[..|st.bookings|] == st.bookings
            && (forall b :: b in r.bookings[|st.bookings|..] ==> ConsistentWithSeries(b, series))
  {
    var r := SeriesAdded(st, req, teacherId);
    var series := SeriesFor(req, teacherId, st.nextId);
    var added := SeriesBookings(series, Occurrences(req.startDate, req.endDate, req.frequency), st.nextId + 1);
    SeriesBookingsConsistent(req, teacherId, st.nextId, st.nextId + 1);
    assert r.bookings[|st.bookings|..] == added;
  }

  /** The series and its bookings take ids the counter had not yet issued:
      the series takes the old counter, its bookings the ids above it, so
      no new id equals an id already stored, and the counter then covers
      them all. */
  lemma SeriesAddedIdsIssued(st: StoreState, req: SeriesRequest, teacherId: Id)
    requires IdsIssued(st)
    ensures IdsIssued(SeriesAdded(st, req, teacherId))
    ensures var r := SeriesAdded(st, req, teacherId);
            && |r.bookingSeries| == |st.bookingSeries| + 1
            && r.bookingSeries[|st.bookingSeries|].id == st.nextId
            && (forall s :: s in st.bookingSeries ==> s.id != st.nextId)
            && (forall b :: b in r.bookings[|st.bookings|..] ==> st.nextId < b.id < r.nextId)
            && (forall b, o :: b in r.bookings[|st.bookings|..] && o in st.bookings ==> b.id != o.id)
  {
    var dates := Occurrences(req.startDate, req.endDate, req.frequency);
    var added := SeriesBookings(SeriesFor(req, teacherId, st.nextId), dates, st.nextId + 1);
    var r := SeriesAdded(st, req, teacherId);
    assert r.nextId == st.nextId + 1 + |dates|;
    assert r.bookings == st.bookings + added;
    assert r.bookings[|st.bookings|..] == added;
    forall b | b in added ensures st.nextId < b.id < r.nextId {
      var i :| 0 <= i < |added| && added[i] == b;
    }
    forall b, o | b in added && o in st.bookings ensures b.id != o.id {
      assert o.id < st.nextId;
    }
  }

  /** Every booking of a conflict-free series holds a slot that is free in
      the state it is added to. */
  lemma SeriesBookingsAvailable(st: StoreState, req: SeriesRequest, teacherId: Id)
    requires Conflicts(st.blockedSlots, st.bookings, Occurrences(req.startDate, req.endDate, req.frequency),
                       req.classroomId, req.hour) == []
    ensures var added := SeriesBookings(SeriesFor(req, teacherId, st.nextId),
                                        Occurrences(req.startDate, req.endDate, req.frequency), st.nextId + 1);
            forall b :: b in added ==> SlotAvailable(st.blockedSlots, st.bookings, b.classroomId, b.date, b.hour)
  {
    var dates := Occurrences(req.startDate, req.endDate, req.frequency);
    var added := SeriesBookings(SeriesFor(req, teacherId, st.nextId), dates, st.nextId + 1);
    forall b | b in added
      ensures SlotAvailable(st.blockedSlots, st.bookings, b.classroomId, b.date, b.hour)
    {
      var i :| 0 <= i < |added| && added[i] == b;
      assert dates[i] in dates;
    }
  }

  /** Storing a series none of whose dates conflicts keeps the invariant. */
  lemma SeriesAddedKeepsInvariant(st: StoreState, req: SeriesRequest, teacherId: Id)
    requires Invariant(st)
    requires Conflicts(st.blockedSlots, st.bookings, Occurrences(req.startDate, req.endDate, req.frequency),
                       req.classroomId, req.hour) == []
    ensures Invariant(SeriesAdded(st, req, teacherId))
  {
    var dates := Occurrences(req.startDate, req.endDate, req.frequency);
    var added := SeriesBookings(SeriesFor(req, teacherId, st.nextId), dates, st.nextId + 1);
    var r := SeriesAdded(st, req, teacherId);
    assert r.bookings == st.bookings + added;
    assert IdsIssued(r) by { SeriesAddedIdsIssued(st, req, teacherId); }
    SeriesBookingsAvailable(st, req, teacherId);
    SeriesBookingsConsistent(req, teacherId, st.nextId, st.nextId + 1);
    PairwiseAppend(st.bookings, added, DifferentSlots);
  }

  /** The state after an import: classrooms given replace the old ones
      (numbered from the counter), users given join those whose email is not
      yet registered (numbered after the classrooms), settings given are
      merged with the teacher list rebuilt from the users, and bookings,
      blocked slots and series are emptied whatever the file holds. */
  function ImportedState(st: StoreState, data: ImportData): (r: StoreState)
    ensures r.currentUser == st.currentUser
    ensures r.bookings == [] && r.blockedSlots == [] && r.bookingSeries == []
    ensures st.nextId <= r.nextId
  {
    var classrooms := if data.classrooms.Some? then NumberClassrooms(data.classrooms.value, st.nextId)
                      else st.classrooms;
    var usersFrom := st.nextId + (if data.classrooms.Some? then |data.classrooms.value| else 0);
    var users := if data.users.Some? then MergeUsers(st.users, data.users.value, usersFrom) else st.users;
    var settings := if data.settings.Some? then MergeSettings(st.settings, data.settings.value, users)
                    else st.settings;
    StoreState(st.currentUser, users, [], [], classrooms, [], settings, usersFrom + (|users| - |st.users|))
  }

  /** An import keeps the invariant: every id it hands out is above every id
      issued before it, and with no bookings left nothing can clash. */
  lemma ImportKeepsInvariant(st: StoreState, data: ImportData)
    requires Invariant(st)
    ensures Invariant(ImportedState(st, data))
  {
    var r := ImportedState(st, data);
    var usersFrom := st.nextId + (if data.classrooms.Some? then |data.classrooms.value| else 0);
    assert r.nextId == usersFrom + (|r.users| - |st.users|);
    forall c | c in r.classrooms ensures c.id < r.nextId {
    }
    forall u | u in r.users ensures u.id < r.nextId {
    }
  }

  class AppStore {
    var currentUser: Option<User>
    var users: seq<User>
    var bookings: seq<Booking>
    var bookingSeries: seq<BookingSeries>
    var classrooms: seq<Classroom>
    var blockedSlots: seq<BlockedSlot>
    var settings: AppSettings
    var nextId: Id  // the fresh-id counter

    function State(): StoreState
      reads this
    {
      StoreState(currentUser, users, bookings, bookingSeries, classrooms, blockedSlots, settings, nextId)
    }

    ghost predicate Valid()
      reads this
    {
      Invariant(State())
    }

    /** A store holding the seed data, nobody logged in and no series. */
    constructor (seedUsers: seq<User>, seedClassrooms: seq<Classroom>, seedSlots: seq<BlockedSlot>,
                 seedBookings: seq<Booking>, seedSettings: AppSettings, firstFreeId: Id)
      requires Invariant(StoreState(None, seedUsers, seedBookings, [], seedClassrooms, seedSlots,
                                    seedSettings, firstFreeId))
      ensures Valid()
      ensures State() == StoreState(None, seedUsers, seedBookings, [], seedClassrooms, seedSlots,
                                    seedSettings, firstFreeId)
    {
      currentUser := None;
      users := seedUsers;
      bookings := seedBookings;
      bookingSeries := [];
      classrooms := seedClassrooms;
      blockedSlots := seedSlots;
      settings := seedSettings;
      nextId := firstFreeId;
    }

    /** `login`: becomes the user with that id; an unknown id changes nothing. */
    method Login(userId: Id)
      requires Valid()
      modifies this
      ensures Valid()
      ensures var found := FindUser(old(users), userId);
              State() == if found.Some? then old(State()).(currentUser := found) else old(State())
    {
      var user := FindUser(users, userId);
      if user.Some? {
        currentUser := user;
      }
    }

    method Logout()
      requires Valid()
      modifies this
      ensures Valid()
      ensures State() == old(State()).(currentUser := None)
    {
      currentUser := None;
    }

    /** `isSlotAvailable`, read against the store's current lists. */
    function IsSlotAvailable(classroomId: Id, date: Day, hour: int): bool
      reads this
    {
      SlotAvailable(blockedSlots, bookings, classroomId, date, hour)
    }

    /** `addBooking`: re-checks the slot and appends one booking under a
        fresh id. It does not look at the current user. */
    method AddBooking(req: BookingRequest) returns (outcome: Outcome)
      requires Valid()
      modifies this
      ensures Valid()
      ensures !old(IsSlotAvailable(req.classroomId, req.date, req.hour)) ==>
                outcome == Fail(SlotUnavailable) && State() == old(State())
      ensures old(IsSlotAvailable(req.classroomId, req.date, req.hour)) ==>
                outcome == Pass &&
                State() == old(State()).(bookings := old(bookings) + [NewBooking(req, old(nextId))],
                                         nextId := old(nextId) + 1)
      ensures forall b :: b in old(bookings) ==> b.id != old(nextId)
    {
      if !IsSlotAvailable(req.classroomId, req.date, req.hour) {
        return Fail(SlotUnavailable);
      }
      var booking := NewBooking(req, nextId);
      PairwiseAppend(bookings, [booking], DifferentSlots);
      bookings := bookings + [booking];
      nextId := nextId + 1;
      outcome := Pass;
    }

    /** `addRecurringBooking`: expands the series, and only if none of its
        dates conflicts stores the series and one booking per date. */
    method AddRecurringBooking(req: SeriesRequest) returns (outcome: Outcome)
      requires Valid()
      modifies this
      ensures Valid()
      ensures old(currentUser).None? ==> outcome == Fail(NotLoggedIn) && State() == old(State())
      ensures old(currentUser).Some? && req.startDate > req.endDate ==>
                outcome == Fail(InvalidRange) && State() == old(State())
      ensures old(currentUser).Some? && req.startDate <= req.endDate ==>
                var conflicts := Conflicts(old(blockedSlots), old(bookings),
                                           Occurrences(req.startDate, req.endDate, req.frequency),
                                           req.classroomId, req.hour);
                if conflicts != [] then
                  outcome == Fail(SeriesConflict(conflicts)) && State() == old(State())
                else
                  outcome == Pass && State() == SeriesAdded(old(State()), req, old(currentUser).value.id)
    {
      if currentUser.None? {
        return Fail(NotLoggedIn);
      }
      if req.startDate > req.endDate {
        return Fail(InvalidRange);
      }
      var dates := ExpandDates(req.startDate, req.endDate, req.frequency);
      var conflicts := FindConflicts(blockedSlots, bookings, dates, req.classroomId, req.hour);
      if conflicts != [] {
        return Fail(SeriesConflict(conflicts));
      }
      SeriesAddedKeepsInvariant(State(), req, currentUser.value.id);
      var added := SeriesAdded(State(), req, currentUser.value.id);
      bookingSeries := added.bookingSeries;
      bookings := added.bookings;
      nextId := added.nextId;
      outcome := Pass;
    }

    /** The part of `deleteBookingSeries` that runs once the caller is
        allowed: the series and every booking carrying its id go. */
    method RemoveSeries(seriesId: Id)
      requires Valid()
      modifies this
      ensures Valid()
      ensures State() == old(State()).(bookings := BookingsOutsideSeries(old(bookings), {seriesId}),
                                       bookingSeries := SeriesExceptIds(old(bookingSeries), {seriesId}))
    {
      OutsideSeriesKeepsSlotsApart(bookings, {seriesId});
      bookings := BookingsOutsideSeries(bookings, {seriesId});
      bookingSeries := SeriesExceptIds(bookingSeries, {seriesId});
    }

    /** `deleteBooking`: an unknown id is a silent no-op; otherwise only an
        Admin or the Teacher who owns the booking may delete it. */
    method DeleteBooking(bookingId: Id) returns (outcome: Outcome)
      requires Valid()
      modifies this
      ensures Valid()
      ensures var found := FindBooking(old(bookings), bookingId);
              && (found.None? ==> outcome == Pass && State() == old(State()))
              && (found.Some? && MayDelete(old(currentUser), found.value.teacherId) ==>
                    outcome == Pass &&
                    State() == old(State()).(bookings := BookingsExceptId(old(bookings), bookingId)))
              && (found.Some? && !MayDelete(old(currentUser), found.value.teacherId) ==>
                    outcome == Fail(Forbidden) && State() == old(State()))
    {
      var booking := FindBooking(bookings, bookingId);
      if booking.None? {
        return Pass;
      }
      if MayDelete(currentUser, booking.value.teacherId) {
        ExceptIdKeepsSlotsApart(bookings, bookingId);
        bookings := BookingsExceptId(bookings, bookingId);
        outcome := Pass;
      } else {
        outcome := Fail(Forbidden);
      }
    }

    /** `deleteBookingSeries`: the same rule, checked against the series'
        owner; on success the series and all its bookings go. */
    method DeleteBookingSeries(seriesId: Id) returns (outcome: Outcome)
      requires Valid()
      modifies this
      ensures Valid()
      ensures var found := FindSeries(old(bookingSeries), seriesId);
              && (found.None? ==> outcome == Pass && State() == old(State()))
              && (found.Some? && MayDelete(old(currentUser), found.value.teacherId) ==>
                    outcome == Pass &&
                    State() == old(State()).(bookings := BookingsOutsideSeries(old(bookings), {seriesId}),
                                             bookingSeries := SeriesExceptIds(old(bookingSeries), {seriesId})))
              && (found.Some? && !MayDelete(old(currentUser), found.value.teacherId) ==>
                    outcome == Fail(Forbidden) && State() == old(State()))
    {
      var series := FindSeries(bookingSeries, seriesId);
      if series.None? {
        return Pass;
      }
      if MayDelete(currentUser, series.value.teacherId) {
        RemoveSeries(seriesId);
        outcome := Pass;
      } else {
        outcome := Fail(Forbidden);
      }
    }

    /** The cascade of `deleteClassroom` and `deleteUser`: an Admin deletes,
        one after the other, each series of a list taken before the loop. */
    method DeleteEachSeries(doomed: seq<BookingSeries>)
      requires Valid() && IsAdmin(currentUser)
      requires forall s :: s in doomed ==> s in bookingSeries
      modifies this
      ensures Valid()
      ensures State() == old(State()).(bookings := BookingsOutsideSeries(old(bookings), SeriesIds(doomed)),
                                       bookingSeries := SeriesExceptIds(old(bookingSeries), SeriesIds(doomed)))
    {
      RemovingNoSeries(bookings, bookingSeries);
      assert SeriesIds(doomed[..0]) == {} by {
        assert doomed[..0] == [];
      }
      for i := 0 to |doomed|
        invariant Valid() && IsAdmin(currentUser)
        invariant State() == WithoutSeries(old(State()), SeriesIds(doomed[..i]))
      {
        CascadeStep(old(State()), doomed, i);
        var ignored := DeleteBookingSeries(doomed[i].id);
      }
      assert doomed[..|doomed|] == doomed;
    }

    method AddClassroom(data: ClassroomData) returns (outcome: Outcome)
      requires Valid()
      modifies this
      ensures Valid()
      ensures !IsAdmin(old(currentUser)) ==> outcome == Fail(Forbidden) && State() == old(State())
      ensures IsAdmin(old(currentUser)) ==>
                outcome == Pass &&
                State() == old(State()).(
                  classrooms := old(classrooms) + [Classroom(old(nextId), data.name, data.capacity, data.equipment)],
                  nextId := old(nextId) + 1)
    {
      if !IsAdmin(currentUser) {
        return Fail(Forbidden);
      }
      classrooms := classrooms + [Classroom(nextId, data.name, data.capacity, data.equipment)];
      nextId := nextId + 1;
      outcome := Pass;
    }

    /** `updateClassroom`: replaces the classroom with the same id; an
        unknown id leaves the list as it was. */
    method UpdateClassroom(room: Classroom) returns (outcome: Outcome)
      requires Valid()
      modifies this
      ensures Valid()
      ensures !IsAdmin(old(currentUser)) ==> outcome == Fail(Forbidden) && State() == old(State())
      ensures IsAdmin(old(currentUser)) ==>
                outcome == Pass &&
                State() == old(State()).(classrooms := ReplaceClassroom(old(classrooms), room))
    {
      if !IsAdmin(currentUser) {
        return Fail(Forbidden);
      }
      var updated := ReplaceClassroom(classrooms, room);
      forall c | c in updated ensures c.id < nextId {
        var i :| 0 <= i < |updated| && updated[i] == c;
        assert classrooms[i] in classrooms;
      }
      classrooms := updated;
      outcome := Pass;
    }

    /** `deleteClassroom`: the classroom goes, with its bookings, its blocked
        slots and every series located in it (and those series' bookings). */
    method DeleteClassroom(classroomId: Id) returns (outcome: Outcome)
      requires Valid()
      modifies this
      ensures Valid()
      ensures !IsAdmin(old(currentUser)) ==> outcome == Fail(Forbidden) && State() == old(State())
      ensures IsAdmin(old(currentUser)) ==>
                var doomed := SeriesIds(SeriesInClassroom(old(bookingSeries), classroomId));
                outcome == Pass &&
                State() == old(State()).(
                  classrooms := ClassroomsExceptId(old(classrooms), classroomId),
                  bookings := BookingsOutsideSeries(BookingsOutsideClassroom(old(bookings), classroomId), doomed),
                  blockedSlots := SlotsOutsideClassroom(old(blockedSlots), classroomId),
                  bookingSeries := SeriesExceptIds(old(bookingSeries), doomed))
      ensures outcome == Pass ==>
                && (forall c :: c in classrooms ==> c.id != classroomId)
                && (forall b :: b in bookings ==> b.classroomId != classroomId)
                && (forall s :: s in blockedSlots ==> s.classroomId != classroomId)
                && (forall s :: s in bookingSeries ==> s.classroomId != classroomId)
    {
      if !IsAdmin(currentUser) {
        return Fail(Forbidden);
      }
      classrooms := ClassroomsExceptId(classrooms, classroomId);
      OutsideClassroomKeepsSlotsApart(bookings, classroomId);
      bookings := BookingsOutsideClassroom(bookings, classroomId);
      blockedSlots := SlotsOutsideClassroom(blockedSlots, classroomId);
      var inClassroom := SeriesInClassroom(bookingSeries, classroomId);
      DeleteEachSeries(inClassroom);
      outcome := Pass;
    }

    /** `addUser`: Admin only, and only with an `@xtec.cat` address. */
    method AddUser(data: UserData) returns (outcome: Outcome)
      requires Valid()
      modifies this
      ensures Valid()
      ensures !IsAdmin(old(currentUser)) ==> outcome == Fail(Forbidden) && State() == old(State())
      ensures IsAdmin(old(currentUser)) && !IsInstitutionalEmail(data.email) ==>
                outcome == Fail(InvalidEmail) && State() == old(State())
      ensures IsAdmin(old(currentUser)) && IsInstitutionalEmail(data.email) ==>
                outcome == Pass &&
                State() == old(State()).(users := old(users) + [User(old(nextId), data.name, data.email, data.role)],
                                         nextId := old(nextId) + 1)
    {
      if !IsAdmin(currentUser) {
        return Fail(Forbidden);
      }
      if !IsInstitutionalEmail(data.email) {
        return Fail(InvalidEmail);
      }
      users := users + [User(nextId, data.name, data.email, data.role)];
      nextId := nextId + 1;
      outcome := Pass;
    }

    /** `deleteUser`: the user goes, with every booking and every series
        they own (and those series' bookings). Blocked slots stay. */
    method DeleteUser(userId: Id) returns (outcome: Outcome)
      requires Valid()
      modifies this
      ensures Valid()
      ensures !IsAdmin(old(currentUser)) ==> outcome == Fail(Forbidden) && State() == old(State())
      ensures IsAdmin(old(currentUser)) ==>
                var doomed := SeriesIds(SeriesOwnedBy(old(bookingSeries), userId));
                outcome == Pass &&
                State() == old(State()).(
                  users := UsersExceptId(old(users), userId),
                  bookings := BookingsOutsideSeries(BookingsNotOwnedBy(old(bookings), userId), doomed),
                  bookingSeries := SeriesExceptIds(old(bookingSeries), doomed))
      ensures outcome == Pass ==>
                && (forall u :: u in users ==> u.id != userId)
                && (forall b :: b in bookings ==> b.teacherId != userId)
                && (forall s :: s in bookingSeries ==> s.teacherId != userId)
    {
      if !IsAdmin(currentUser) {
        return Fail(Forbidden);
      }
      users := UsersExceptId(users, userId);
      NotOwnedKeepsSlotsApart(bookings, userId);
      bookings := BookingsNotOwnedBy(bookings, userId);
      var owned := SeriesOwnedBy(bookingSeries, userId);
      DeleteEachSeries(owned);
      outcome := Pass;
    }

    /** `importConfiguration`: the start of a new school year, as
        `ImportedState` describes it. Only an Admin may import. */
    method ImportConfiguration(data: ImportData) returns (outcome: Outcome)
      requires Valid()
      modifies this
      ensures Valid()
      ensures !IsAdmin(old(currentUser)) ==> outcome == Fail(Forbidden) && State() == old(State())
      ensures IsAdmin(old(currentUser)) ==> outcome == Pass && State() == ImportedState(old(State()), data)
    {
      if !IsAdmin(currentUser) {
        return Fail(Forbidden);
      }
      ImportKeepsInvariant(State(), data);
      var imported := ImportedState(State(), data);
      classrooms := imported.classrooms;
      users := imported.users;
      settings := imported.settings;
      bookings := [];
      blockedSlots := [];
      bookingSeries := [];
      nextId := imported.nextId;
      outcome := Pass;
    }
  }
}
