/** The booking rules the store enforces, as functions of its lists:
    slot availability, recurrence expansion and conflict detection, the
    bookings a series materialises, authorisation, the list filters behind
    every delete and cascade, and the import merge of users and settings. */
module Rules {
  import opened Seqs
  import opened Domain
  import opened Dates

  // ---------------------------------------------------------------------
  // Availability

  predicate BlocksSlot(s: BlockedSlot, classroomId: Id, day: int, hour: int)
  {
    s.classroomId == classroomId && s.day == day && s.hour == hour
  }

  predicate OccupiesSlot(b: Booking, classroomId: Id, date: Day, hour: int)
  {
    b.classroomId == classroomId && b.date == date && b.hour == hour
  }

  /** Some weekly blocked slot covers the classroom at this date's weekday
      and hour. The store's availability check and the calendar's
      blocked-cell test both use this one predicate. */
  function SlotBlocked(slots: seq<BlockedSlot>, classroomId: Id, date: Day, hour: int): (r: bool)
    ensures r <==> exists s :: s in slots && BlocksSlot(s, classroomId, Weekday(date), hour)
  {
    var day := Weekday(date);
    var r := Any(slots, s => BlocksSlot(s, classroomId, day, hour));
    assert r ==> exists i :: 0 <= i < |slots| && slots[i] in slots && BlocksSlot(slots[i], classroomId, day, hour);
    r
  }

  /** Some booking already holds the classroom at this date and hour. */
  function SlotBooked(bookings: seq<Booking>, classroomId: Id, date: Day, hour: int): (r: bool)
    ensures r <==> exists b :: b in bookings && OccupiesSlot(b, classroomId, date, hour)
  {
    var r := Any(bookings, b => OccupiesSlot(b, classroomId, date, hour));
    assert r ==> exists i :: 0 <= i < |bookings| && bookings[i] in bookings && OccupiesSlot(bookings[i], classroomId, date, hour);
    r
  }

  /** `isSlotAvailable`: free unless blocked or booked. */
  function SlotAvailable(slots: seq<BlockedSlot>, bookings: seq<Booking>,
                         classroomId: Id, date: Day, hour: int): (r: bool)
    ensures r <==> (forall s :: s in slots ==> !BlocksSlot(s, classroomId, Weekday(date), hour)) &&
                   (forall b :: b in bookings ==> !OccupiesSlot(b, classroomId, date, hour))
  {
    if SlotBlocked(slots, classroomId, date, hour) then false
    else if SlotBooked(bookings, classroomId, date, hour) then false
    else true
  }

  /** Two bookings that do not hold the same classroom, date and hour. */
  predicate DifferentSlots(a: Booking, b: Booking)
  {
    !OccupiesSlot(b, a.classroomId, a.date, a.hour)
  }

  /** No two bookings share a classroom, date and hour. */
  ghost predicate NoDoubleBooking(bookings: seq<Booking>)
  {
    Pairwise(bookings, DifferentSlots)
  }

  // ---------------------------------------------------------------------
  // Recurrence expansion

  /** The dates a series visits from `cur` up to and including `end`, one
      frequency step at a time, keeping Monday to Friday only. */
  function Occurrences(cur: Day, end: Day, f: Frequency): (r: seq<Day>)
    ensures forall i :: 0 <= i < |r| ==> cur <= r[i] <= end && IsSchoolDay(r[i])
    decreases end - cur
  {
    if cur > end then []
    else
      var rest := Occurrences(Step(cur, f), end, f);
      if IsSchoolDay(cur) then [cur] + rest else rest
  }

  predicate Increasing(ds: seq<Day>)
  {
    forall i, j :: 0 <= i < j < |ds| ==> ds[i] < ds[j]
  }

  /** The generated dates strictly increase, so no date is generated twice. */
  lemma {:induction false} OccurrencesIncreasing(cur: Day, end: Day, f: Frequency)
    ensures Increasing(Occurrences(cur, end, f))
    decreases end - cur
  {
    if cur <= end {
      var rest := Occurrences(Step(cur, f), end, f);
      OccurrencesIncreasing(Step(cur, f), end, f);
      assert cur < Step(cur, f);
      if IsSchoolDay(cur) {
        var r := [cur] + rest;
        assert Occurrences(cur, end, f) == r;
        forall i, j | 0 <= i < j < |r| ensures r[i] < r[j] {
          assert r[j] == rest[j - 1] && Step(cur, f) <= rest[j - 1];
          if i > 0 {
            assert r[i] == rest[i - 1] && rest[i - 1] < rest[j - 1];
          } else {
            assert r[i] == cur;
          }
        }
      }
    }
  }

  /** Daily series book exactly the school days of the range. */
  lemma {:induction false} DailyOccurrences(start: Day, end: Day, d: Day)
    ensures d in Occurrences(start, end, Daily) <==> start <= d <= end && IsSchoolDay(d)
    decreases end - start
  {
    if start <= end {
      DailyOccurrences(start + 1, end, d);
    }
  }

  /** Weekly series book the days a whole number of weeks after the start,
      and only if the start itself is a school day. */
  lemma {:induction false} WeeklyOccurrences(start: Day, end: Day, d: Day)
    ensures d in Occurrences(start, end, Weekly) <==>
            start <= d <= end && (d - start) % 7 == 0 && IsSchoolDay(start)
    decreases end - start
  {
    if start <= end {
      WeeklyOccurrences(start + 7, end, d);
      WeekdayAfterWeeks(start, 1);
      if start + 7 <= d && (d - start) % 7 == 0 {
        assert (d - (start + 7)) % 7 == 0;
      }
      if start + 7 <= d && (d - (start + 7)) % 7 == 0 {
        assert (d - start) % 7 == 0;
      }
    }
  }

  /** A weekly series from Monday 3 June 2024 (day 19877) to Friday 14 June
      2024 (day 19888) books the two Mondays. */
  lemma WeeklyExample()
    ensures Occurrences(19877, 19888, Weekly) == [19877, 19884]
  {
    assert Weekday(19877) == 1 && Weekday(19884) == 1;
    assert Occurrences(19891, 19888, Weekly) == [];
  }

  /** The generated dates that are not free. */
  function Conflicts(slots: seq<BlockedSlot>, bookings: seq<Booking>, dates: seq<Day>,
                     classroomId: Id, hour: int): (r: seq<Day>)
    ensures forall d :: d in r <==> d in dates && !SlotAvailable(slots, bookings, classroomId, d, hour)
  {
    Filter(dates, d => !SlotAvailable(slots, bookings, classroomId, d, hour))
  }

  /** Checking the dates one by one in order gives the same conflicts. */
  lemma ConflictsAppend(slots: seq<BlockedSlot>, bookings: seq<Booking>, a: seq<Day>, b: seq<Day>,
                        classroomId: Id, hour: int)
    ensures Conflicts(slots, bookings, a + b, classroomId, hour) ==
            Conflicts(slots, bookings, a, classroomId, hour) + Conflicts(slots, bookings, b, classroomId, hour)
  {
    FilterAppend(a, b, d => !SlotAvailable(slots, bookings, classroomId, d, hour));
  }

  /** The booking `addBooking` stores: the request's fields under a new id. */
  function NewBooking(req: BookingRequest, id: Id): (b: Booking)
  {
    Booking(id, req.seriesId, req.classroomId, req.teacherId, req.classGroup, req.subject, req.date, req.hour)
  }

  // ---------------------------------------------------------------------
  // Series and their bookings

  function SeriesFor(req: SeriesRequest, teacherId: Id, id: Id): (s: BookingSeries)
  {
    BookingSeries(id, req.classroomId, teacherId, req.classGroup, req.subject,
                  req.startDate, req.endDate, req.hour, req.frequency)
  }

  /** A booking that belongs to series `s`: it carries the series id and the
      series' classroom, teacher, group, subject and hour. */
  predicate OfSeries(b: Booking, s: BookingSeries)
  {
    b.seriesId == Some(s.id) && b.classroomId == s.classroomId && b.teacherId == s.teacherId &&
    b.classGroup == s.classGroup && b.subject == s.subject && b.hour == s.hour
  }

  /** The series invariant: a series booking also falls on a school day
      within the series' date range. */
  predicate ConsistentWithSeries(b: Booking, s: BookingSeries)
  {
    OfSeries(b, s) && s.startDate <= b.date <= s.endDate && IsSchoolDay(b.date)
  }

  /** One booking per date, numbered from `firstId`. */
  function SeriesBookings(s: BookingSeries, dates: seq<Day>, firstId: Id): (r: seq<Booking>)
    ensures |r| == |dates|
    ensures forall i :: 0 <= i < |r| ==> r[i].id == firstId + i && r[i].date == dates[i] && OfSeries(r[i], s)
  {
    seq(|dates|, i requires 0 <= i < |dates| =>
      Booking(firstId + i, Some(s.id), s.classroomId, s.teacherId, s.classGroup, s.subject, dates[i], s.hour))
  }

  /** The bookings materialised for a series are consistent with it, and no
      two of them hold the same slot. */
  lemma SeriesBookingsConsistent(req: SeriesRequest, teacherId: Id, id: Id, firstId: Id)
    ensures var s := SeriesFor(req, teacherId, id);
            var bs := SeriesBookings(s, Occurrences(req.startDate, req.endDate, req.frequency), firstId);
            (forall b :: b in bs ==> ConsistentWithSeries(b, s)) && NoDoubleBooking(bs)
  {
    var s := SeriesFor(req, teacherId, id);
    var dates := Occurrences(req.startDate, req.endDate, req.frequency);
    var bs := SeriesBookings(s, dates, firstId);
    OccurrencesIncreasing(req.startDate, req.endDate, req.frequency);
    forall i, j | 0 <= i < j < |bs| ensures DifferentSlots(bs[i], bs[j]) {
      assert bs[i].date == dates[i] < dates[j] == bs[j].date;
    }
  }

  // ---------------------------------------------------------------------
  // Lookups by id (`find`)

  function FindUser(us: seq<User>, id: Id): (r: Option<User>)
    ensures r.None? <==> forall u :: u in us ==> u.id != id
    ensures r.Some? ==> r.value in us && r.value.id == id
  {
    var r := Find(us, (u: User) => u.id == id);
    assert r.None? ==> forall i :: 0 <= i < |us| ==> us[i].id != id;
    r
  }

  function FindBooking(bs: seq<Booking>, id: Id): (r: Option<Booking>)
    ensures r.None? <==> forall b :: b in bs ==> b.id != id
    ensures r.Some? ==> r.value in bs && r.value.id == id
  {
    var r := Find(bs, (b: Booking) => b.id == id);
    assert r.None? ==> forall i :: 0 <= i < |bs| ==> bs[i].id != id;
    r
  }

  function FindSeries(ss: seq<BookingSeries>, id: Id): (r: Option<BookingSeries>)
    ensures r.None? <==> forall s :: s in ss ==> s.id != id
    ensures r.Some? ==> r.value in ss && r.value.id == id
  {
    var r := Find(ss, (s: BookingSeries) => s.id == id);
    assert r.None? ==> forall i :: 0 <= i < |ss| ==> ss[i].id != id;
    r
  }

  // ---------------------------------------------------------------------
  // Institutional email

  const InstitutionalDomain: string := "@xtec.cat"

  /** `email.endsWith('@xtec.cat')`. */
  function IsInstitutionalEmail(email: string): (r: bool)
    ensures r <==> exists name: string :: email == name + InstitutionalDomain
  {
    var n := |InstitutionalDomain|;
    var r := n <= |email| && email[|email| - n..] == InstitutionalDomain;
    if r then
      assert email == email[..|email| - n] + InstitutionalDomain;
      r
    else
      assert forall name: string :: (name + InstitutionalDomain)[|name|..] == InstitutionalDomain;
      r
  }

  lemma InstitutionalEmailExamples()
    ensures IsInstitutionalEmail("foo@xtec.cat")
    ensures !IsInstitutionalEmail("foo@gmail.com")
  {
    assert "foo@xtec.cat" == "foo" + InstitutionalDomain;
  }

  // ---------------------------------------------------------------------
  // Authorisation

  function IsAdmin(currentUser: Option<User>): (r: bool)
  {
    currentUser.Some? && currentUser.value.role == Admin
  }

  /** May the current user delete an item owned by `ownerId`? An Admin may
      delete anything, a Teacher only what they own, nobody when logged out. */
  function MayDelete(currentUser: Option<User>, ownerId: Id): (r: bool)
    ensures r <==> currentUser.Some? && (currentUser.value.role == Admin || currentUser.value.id == ownerId)
  {
    IsAdmin(currentUser) ||
    (currentUser.Some? && currentUser.value.role == Teacher && ownerId == currentUser.value.id)
  }

  // ---------------------------------------------------------------------
  // The filters behind deletes and cascades

  function BookingsExceptId(bs: seq<Booking>, id: Id): (r: seq<Booking>)
    ensures forall b :: b in r <==> b in bs && b.id != id
  {
    Filter(bs, (b: Booking) => b.id != id)
  }

  /** Does `b` belong to one of the series in `ids`? */
  predicate InSeries(b: Booking, ids: set<Id>)
  {
    b.seriesId.Some? && b.seriesId.value in ids
  }

  function BookingsOutsideSeries(bs: seq<Booking>, ids: set<Id>): (r: seq<Booking>)
    ensures forall b :: b in r <==> b in bs && !InSeries(b, ids)
  {
    Filter(bs, (b: Booking) => !InSeries(b, ids))
  }

  function BookingsOutsideClassroom(bs: seq<Booking>, classroomId: Id): (r: seq<Booking>)
    ensures forall b :: b in r <==> b in bs && b.classroomId != classroomId
  {
    Filter(bs, (b: Booking) => b.classroomId != classroomId)
  }

  function BookingsNotOwnedBy(bs: seq<Booking>, userId: Id): (r: seq<Booking>)
    ensures forall b :: b in r <==> b in bs && b.teacherId != userId
  {
    Filter(bs, (b: Booking) => b.teacherId != userId)
  }

  function SeriesIds(ss: seq<BookingSeries>): (ids: set<Id>)
    ensures forall s :: s in ss ==> s.id in ids
    ensures forall id :: id in ids ==> exists s :: s in ss && s.id == id
  {
    set s | s in ss :: s.id
  }

  function SeriesExceptIds(ss: seq<BookingSeries>, ids: set<Id>): (r: seq<BookingSeries>)
    ensures forall s :: s in r <==> s in ss && s.id !in ids
  {
    Filter(ss, (s: BookingSeries) => s.id !in ids)
  }

  function SeriesInClassroom(ss: seq<BookingSeries>, classroomId: Id): (r: seq<BookingSeries>)
    ensures forall s :: s in r <==> s in ss && s.classroomId == classroomId
  {
    Filter(ss, (s: BookingSeries) => s.classroomId == classroomId)
  }

  function SeriesOwnedBy(ss: seq<BookingSeries>, userId: Id): (r: seq<BookingSeries>)
    ensures forall s :: s in r <==> s in ss && s.teacherId == userId
  {
    Filter(ss, (s: BookingSeries) => s.teacherId == userId)
  }

  function ClassroomsExceptId(cs: seq<Classroom>, id: Id): (r: seq<Classroom>)
    ensures forall c :: c in r <==> c in cs && c.id != id
  {
    Filter(cs, (c: Classroom) => c.id != id)
  }

  function SlotsOutsideClassroom(slots: seq<BlockedSlot>, classroomId: Id): (r: seq<BlockedSlot>)
    ensures forall s :: s in r <==> s in slots && s.classroomId != classroomId
  {
    Filter(slots, (s: BlockedSlot) => s.classroomId != classroomId)
  }

  function UsersExceptId(us: seq<User>, id: Id): (r: seq<User>)
    ensures forall u :: u in r <==> u in us && u.id != id
  {
    Filter(us, (u: User) => u.id != id)
  }

  /** Every delete keeps the no-double-booking invariant. */
  lemma ExceptIdKeepsSlotsApart(bs: seq<Booking>, id: Id)
    requires NoDoubleBooking(bs)
    ensures NoDoubleBooking(BookingsExceptId(bs, id))
  {
    FilterPairwise(bs, (b: Booking) => b.id != id, DifferentSlots);
  }

  lemma OutsideSeriesKeepsSlotsApart(bs: seq<Booking>, ids: set<Id>)
    requires NoDoubleBooking(bs)
    ensures NoDoubleBooking(BookingsOutsideSeries(bs, ids))
  {
    FilterPairwise(bs, (b: Booking) => !InSeries(b, ids), DifferentSlots);
  }

  lemma OutsideClassroomKeepsSlotsApart(bs: seq<Booking>, classroomId: Id)
    requires NoDoubleBooking(bs)
    ensures NoDoubleBooking(BookingsOutsideClassroom(bs, classroomId))
  {
    FilterPairwise(bs, (b: Booking) => b.classroomId != classroomId, DifferentSlots);
  }

  lemma NotOwnedKeepsSlotsApart(bs: seq<Booking>, userId: Id)
    requires NoDoubleBooking(bs)
    ensures NoDoubleBooking(BookingsNotOwnedBy(bs, userId))
  {
    FilterPairwise(bs, (b: Booking) => b.teacherId != userId, DifferentSlots);
  }

  /** Removing no series removes nothing. */
  lemma RemovingNoSeries(bs: seq<Booking>, ss: seq<BookingSeries>)
    ensures BookingsOutsideSeries(bs, {}) == bs
    ensures SeriesExceptIds(ss, {}) == ss
  {
    var none: set<Id> := {};
    FilterAll(bs, (b: Booking) => !InSeries(b, none));
    FilterAll(ss, (s: BookingSeries) => s.id !in none);
  }

  /** Removing series ids one at a time is removing them all at once. */
  lemma OutsideSeriesTwice(bs: seq<Booking>, ids: set<Id>, id: Id)
    ensures BookingsOutsideSeries(BookingsOutsideSeries(bs, ids), {id}) == BookingsOutsideSeries(bs, ids + {id})
  {
    var single, all := {id}, ids + {id};
    FilterTwice(bs, (b: Booking) => !InSeries(b, ids), (b: Booking) => !InSeries(b, single),
                (b: Booking) => !InSeries(b, all));
  }

  lemma SeriesExceptTwice(ss: seq<BookingSeries>, ids: set<Id>, id: Id)
    ensures SeriesExceptIds(SeriesExceptIds(ss, ids), {id}) == SeriesExceptIds(ss, ids + {id})
  {
    var single, all := {id}, ids + {id};
    FilterTwice(ss, (s: BookingSeries) => s.id !in ids, (s: BookingSeries) => s.id !in single,
                (s: BookingSeries) => s.id !in all);
  }

  // ---------------------------------------------------------------------
  // Classroom updates and import

  /** `updateClassroom`: the classroom with the same id is replaced, every
      other entry and every position's id stay. */
  function ReplaceClassroom(cs: seq<Classroom>, room: Classroom): (r: seq<Classroom>)
    ensures |r| == |cs|
    ensures forall i :: 0 <= i < |cs| ==> r[i].id == cs[i].id
    ensures forall i :: 0 <= i < |cs| && cs[i].id != room.id ==> r[i] == cs[i]
    ensures forall c :: c in r ==> c == room || (c in cs && c.id != room.id)
    ensures (exists c :: c in cs && c.id == room.id) ==> room in r
    ensures (forall c :: c in cs ==> c.id != room.id) ==> r == cs
  {
    seq(|cs|, i requires 0 <= i < |cs| => if cs[i].id == room.id then room else cs[i])
  }

  /** Imported classrooms, numbered from `firstId`. */
  function NumberClassrooms(ds: seq<ClassroomData>, firstId: Id): (r: seq<Classroom>)
    ensures |r| == |ds|
    ensures forall i :: 0 <= i < |ds| ==>
      r[i] == Classroom(firstId + i, ds[i].name, ds[i].capacity, ds[i].equipment)
    ensures forall c :: c in r ==> firstId <= c.id < firstId + |ds|
  {
    var r := seq(|ds|, i requires 0 <= i < |ds| => Classroom(firstId + i, ds[i].name, ds[i].capacity, ds[i].equipment));
    assert forall c :: c in r ==> exists i :: 0 <= i < |ds| && r[i] == c;
    r
  }

  /** Imported users, numbered from `firstId`. */
  function NumberUsers(ds: seq<UserData>, firstId: Id): (r: seq<User>)
    ensures |r| == |ds|
    ensures forall i :: 0 <= i < |ds| ==> r[i] == User(firstId + i, ds[i].name, ds[i].email, ds[i].role)
  {
    seq(|ds|, i requires 0 <= i < |ds| => User(firstId + i, ds[i].name, ds[i].email, ds[i].role))
  }

  function Emails(us: seq<User>): (es: set<string>)
    ensures forall u :: u in us ==> u.email in es
    ensures forall e :: e in es ==> exists u :: u in us && u.email == e
  {
    set u | u in us :: u.email
  }

  /** The incoming users whose email no existing user has. */
  function Newcomers(incoming: seq<UserData>, existing: seq<User>): (r: seq<UserData>)
    ensures forall d :: d in r <==> d in incoming && d.email !in Emails(existing)
  {
    Filter(incoming, (d: UserData) => d.email !in Emails(existing))
  }

  /** The import's user merge: the existing users, then the newcomers. */
  function MergeUsers(existing: seq<User>, incoming: seq<UserData>, firstId: Id): (r: seq<User>)
    ensures |existing| <= |r| && r[..|existing|] == existing
    ensures forall u :: u in r[|existing|..] ==>
              u.email !in Emails(existing) && firstId <= u.id < firstId + |r| - |existing|
    ensures forall u :: u in r ==> u in existing || firstId <= u.id < firstId + |r| - |existing|
  {
    var added := NumberUsers(Newcomers(incoming, existing), firstId);
    assert (existing + added)[|existing|..] == added;
    forall u | u in added ensures u.email !in Emails(existing) && firstId <= u.id < firstId + |added| {
      var i :| 0 <= i < |added| && added[i] == u;
    }
    existing + added
  }

  /** Each user the merge appends is an imported user with an unregistered
      email, keeping its name, email and role under its fresh id. */
  lemma MergeUsersAddsImported(existing: seq<User>, incoming: seq<UserData>, firstId: Id, i: int)
    requires |existing| <= i < |MergeUsers(existing, incoming, firstId)|
    ensures exists d :: d in incoming && d.email !in Emails(existing) &&
                        MergeUsers(existing, incoming, firstId)[i] ==
                          User(firstId + i - |existing|, d.name, d.email, d.role)
  {
    var newcomers := Newcomers(incoming, existing);
    var added := NumberUsers(newcomers, firstId);
    assert MergeUsers(existing, incoming, firstId) == existing + added;
    var d := newcomers[i - |existing|];
    assert d in newcomers;
    assert added[i - |existing|] == User(firstId + i - |existing|, d.name, d.email, d.role);
  }

  /** Every imported user with an unregistered email is appended, keeping
      its name, email and role under its fresh id. */
  lemma MergeUsersKeepsImported(existing: seq<User>, incoming: seq<UserData>, firstId: Id, d: UserData)
    requires d in incoming && d.email !in Emails(existing)
    ensures exists i :: |existing| <= i < |MergeUsers(existing, incoming, firstId)| &&
                        MergeUsers(existing, incoming, firstId)[i] ==
                          User(firstId + i - |existing|, d.name, d.email, d.role)
  {
    var newcomers := Newcomers(incoming, existing);
    var added := NumberUsers(newcomers, firstId);
    var r := MergeUsers(existing, incoming, firstId);
    assert r == existing + added;
    assert d in newcomers;
    var k :| 0 <= k < |newcomers| && newcomers[k] == d;
    assert r[|existing| + k] == added[k];
  }

  function CountEmail(us: seq<User>, e: string): nat
  {
    if us == [] then 0 else (if us[0].email == e then 1 else 0) + CountEmail(us[1..], e)
  }

  function CountDataEmail(ds: seq<UserData>, e: string): nat
  {
    if ds == [] then 0 else (if ds[0].email == e then 1 else 0) + CountDataEmail(ds[1..], e)
  }

  lemma {:induction false} CountEmailAppend(a: seq<User>, b: seq<User>, e: string)
    ensures CountEmail(a + b, e) == CountEmail(a, e) + CountEmail(b, e)
  {
    if a == [] {
      assert a + b == b;
    } else {
      assert (a + b)[1..] == a[1..] + b;
      CountEmailAppend(a[1..], b, e);
    }
  }

  lemma {:induction false} CountNumbered(ds: seq<UserData>, firstId: Id, e: string)
    ensures CountEmail(NumberUsers(ds, firstId), e) == CountDataEmail(ds, e)
  {
    if ds != [] {
      assert NumberUsers(ds, firstId)[1..] == NumberUsers(ds[1..], firstId + 1);
      CountNumbered(ds[1..], firstId + 1, e);
    }
  }

  lemma {:induction false} CountNewcomers(ds: seq<UserData>, known: set<string>, e: string)
    ensures CountDataEmail(Filter(ds, (d: UserData) => d.email !in known), e) == if e in known then 0 else CountDataEmail(ds, e)
  {
    if ds != [] {
      CountNewcomers(ds[1..], known, e);
    }
  }

  /** After the merge an email occurs as often as before if some existing
      user had it, and otherwise as often as in the import: a known address
      is never duplicated, a new one is added. */
  lemma MergeUsersCount(existing: seq<User>, incoming: seq<UserData>, firstId: Id, e: string)
    ensures CountEmail(MergeUsers(existing, incoming, firstId), e) ==
            CountEmail(existing, e) + (if e in Emails(existing) then 0 else CountDataEmail(incoming, e))
  {
    var newcomers := Newcomers(incoming, existing);
    CountEmailAppend(existing, NumberUsers(newcomers, firstId), e);
    CountNumbered(newcomers, firstId, e);
    CountNewcomers(incoming, Emails(existing), e);
  }

  /** The settings' teacher list, projected from the users. */
  function TeacherRefs(us: seq<User>): (r: seq<TeacherRef>)
    ensures |r| == |us|
    ensures forall i :: 0 <= i < |us| ==> r[i].id == us[i].id && r[i].name == us[i].name
  {
    seq(|us|, i requires 0 <= i < |us| => TeacherRef(us[i].id, us[i].name))
  }

  /** The import's settings update. A school year that is absent or empty
      keeps the previous one; group and subject lists are taken whenever
      present, even empty; the teachers are recomputed from `users`. */
  function MergeSettings(prev: AppSettings, given: SettingsData, users: seq<User>): (r: AppSettings)
    ensures given.schoolYear.None? || given.schoolYear == Some("") ==> r.schoolYear == prev.schoolYear
    ensures given.schoolYear.Some? && given.schoolYear.value != "" ==> r.schoolYear == given.schoolYear.value
    ensures r.classGroups == if given.classGroups.Some? then given.classGroups.value else prev.classGroups
    ensures r.subjects == if given.subjects.Some? then given.subjects.value else prev.subjects
    ensures r.teachers == TeacherRefs(users)
  {
    AppSettings(
      if given.schoolYear.Some? && given.schoolYear.value != "" then given.schoolYear.value else prev.schoolYear,
      TeacherRefs(users),
      if given.classGroups.Some? then given.classGroups.value else prev.classGroups,
      if given.subjects.Some? then given.subjects.value else prev.subjects)
  }
}
