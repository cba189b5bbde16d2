/** The logic behind the weekly calendar: which week is shown, which
    bookings of the selected classroom pass the filters, which booking and
    which blocked slot fall in each cell, who may delete a booking, and the
    week navigation. */
module CalendarView {
  import opened Seqs
  import opened Domain
  import opened Dates
  import opened Rules

  /** The column headings: Monday to Friday. */
  const WeekdayCount: nat := 5

  /** The rows: the school day's hours, with no 14:00 row. */
  const Hours: seq<int> := [8, 9, 10, 11, 12, 13, 15, 16, 17]

  // ---------------------------------------------------------------------
  // The week shown

  /** `startOfWeek`: the Monday of the week holding `d`, where the week runs
      Monday to Sunday, so a Sunday belongs to the Monday six days before. */
  function StartOfWeek(d: Day): (r: Day)
    ensures Weekday(r) == 1
    ensures r <= d < r + 7
    ensures Weekday(d) == 0 ==> r == d - 6
  {
    var day := Weekday(d);
    var r := d - day + (if day == 0 then -6 else 1);
    assert d + 4 == 7 * ((d + 4) / 7) + day;
    assert r + 4 == 7 * ((d + 4) / 7 + (if day == 0 then -1 else 0)) + 1;
    r
  }

  /** The Monday of a week is the only Monday within six days before `d`. */
  lemma {:induction false} StartOfWeekUnique(d: Day, monday: Day)
    requires Weekday(monday) == 1 && monday <= d < monday + 7
    ensures monday == StartOfWeek(d)
  {
    var r := StartOfWeek(d);
    var q, p := (monday + 4) / 7, (r + 4) / 7;
    assert monday + 4 == 7 * q + 1;
    assert r + 4 == 7 * p + 1;
    assert -7 < monday - r < 7;
  }

  /** Shifting a date by whole weeks shifts its week's Monday the same way. */
  lemma {:induction false} StartOfWeekShift(d: Day, k: int)
    ensures StartOfWeek(d + 7 * k) == StartOfWeek(d) + 7 * k
  {
    var m := StartOfWeek(d) + 7 * k;
    WeekdayAfterWeeks(StartOfWeek(d), k);
    StartOfWeekUnique(d + 7 * k, m);
  }

  /** The days after a Monday run through the weekdays in order. */
  lemma {:induction false} WeekdayAfterMonday(monday: Day, i: int)
    requires Weekday(monday) == 1 && 0 <= i < 6
    ensures Weekday(monday + i) == i + 1
  {
    assert monday + 4 == 7 * ((monday + 4) / 7) + 1;
    assert monday + i + 4 == 7 * ((monday + 4) / 7) + 1 + i;
  }

  /** `weekDates`: the five days from that Monday, Monday to Friday. */
  function WeekDates(d: Day): (r: seq<Day>)
    ensures |r| == WeekdayCount
    ensures forall i :: 0 <= i < |r| ==> r[i] == StartOfWeek(d) + i && Weekday(r[i]) == i + 1
  {
    var monday := StartOfWeek(d);
    var r := seq(WeekdayCount, i requires 0 <= i < WeekdayCount => monday + i);
    assert forall i :: 0 <= i < |r| ==> Weekday(r[i]) == i + 1 by {
      forall i | 0 <= i < |r| ensures Weekday(r[i]) == i + 1 {
        WeekdayAfterMonday(monday, i);
      }
    }
    r
  }

  /** The week shown holds the current date whenever it is a school day,
      and only school days. */
  lemma {:induction false} WeekDatesSchoolDays(d: Day)
    ensures IsSchoolDay(d) ==> d in WeekDates(d)
    ensures forall x :: x in WeekDates(d) ==> IsSchoolDay(x)
  {
    var monday := StartOfWeek(d);
    var r := WeekDates(d);
    if IsSchoolDay(d) {
      var i := d - monday;
      if i >= WeekdayCount {
        WeekdayAfterMonday(monday, i);
        assert false;
      }
      assert r[i] == d;
    }
  }

  // ---------------------------------------------------------------------
  // Filters

  /** The calendar's selections: the classroom shown (none while there is
      no classroom at all) and three filters, where no teacher and the
      empty group or subject mean "all". */
  datatype ViewFilter = ViewFilter(selectedClassroom: Option<Id>, filterTeacher: Option<Id>,
                                   filterGroup: string, filterSubject: string)

  /** The initial selection: the first classroom, if there is one. */
  function DefaultClassroom(classrooms: seq<Classroom>): (r: Option<Id>)
    ensures r.None? <==> classrooms == []
    ensures r.Some? ==> r.value == classrooms[0].id
  {
    if classrooms == [] then None else Some(classrooms[0].id)
  }

  /** The predicate `filteredBookings` passes to `filter`, with its early
      returns. */
  predicate PassesFilter(view: ViewFilter, b: Booking)
  {
    if view.selectedClassroom != Some(b.classroomId) then false
    else if view.filterTeacher.Some? && b.teacherId != view.filterTeacher.value then false
    else if view.filterGroup != "" && b.classGroup != view.filterGroup then false
    else if view.filterSubject != "" && b.subject != view.filterSubject then false
    else true
  }

  /** `filteredBookings`: a booking is shown iff it is in the selected
      classroom and agrees with every filter that is set. */
  function FilteredBookings(bookings: seq<Booking>, view: ViewFilter): (r: seq<Booking>)
    ensures forall b :: b in r <==>
              && b in bookings
              && view.selectedClassroom == Some(b.classroomId)
              && (view.filterTeacher.None? || view.filterTeacher.value == b.teacherId)
              && (view.filterGroup == "" || view.filterGroup == b.classGroup)
              && (view.filterSubject == "" || view.filterSubject == b.subject)
  {
    Filter(bookings, (b: Booking) => PassesFilter(view, b))
  }

  /** With no filter set, the calendar shows every booking of the selected
      classroom. */
  lemma NoFiltersShowClassroom(bookings: seq<Booking>, classroomId: Id)
    ensures var view := ViewFilter(Some(classroomId), None, "", "");
            forall b :: b in FilteredBookings(bookings, view) <==> b in bookings && b.classroomId == classroomId
  {
  }

  /** With no classroom selected (`None`), nothing is shown. */
  lemma NothingSelectedShowsNothing(bookings: seq<Booking>, view: ViewFilter)
    requires view.selectedClassroom.None?
    ensures FilteredBookings(bookings, view) == []
  {
    FilterNone(bookings, (b: Booking) => PassesFilter(view, b));
  }

  // ---------------------------------------------------------------------
  // The date-hour booking map

  /** The key `date-hour` of the map. Dates are written in one fixed format,
      so two keys are equal exactly when date and hour both are. */
  type SlotKey = (Day, int)

  function KeyOf(b: Booking): SlotKey
  {
    (b.date, b.hour)
  }

  /** The map the loop of `bookingMap` leaves behind: each booking is set
      under its key in list order, overwriting what was there. */
  ghost function BookingMapOf(bs: seq<Booking>): map<SlotKey, Booking>
  {
    if bs == [] then map[]
    else BookingMapOf(bs[..|bs| - 1])[KeyOf(bs[|bs| - 1]) := bs[|bs| - 1]]
  }

  /** `bookingMap`: the loop over the filtered bookings. */
  method BuildBookingMap(bs: seq<Booking>) returns (m: map<SlotKey, Booking>)
    ensures m == BookingMapOf(bs)
  {
    m := map[];
    for i := 0 to |bs|
      invariant m == BookingMapOf(bs[..i])
    {
      assert bs[..i + 1][..i] == bs[..i];
      m := m[KeyOf(bs[i]) := bs[i]];
    }
    assert bs[..|bs|] == bs;
  }

  /** A key is in the map iff some booking has it, and its value is the last
      booking in the list with that key. */
  lemma {:induction false} BookingMapLastWins(bs: seq<Booking>, key: SlotKey)
    ensures key in BookingMapOf(bs) <==> exists i :: 0 <= i < |bs| && KeyOf(bs[i]) == key
    ensures key in BookingMapOf(bs) ==>
              exists i :: 0 <= i < |bs| && bs[i] == BookingMapOf(bs)[key] && KeyOf(bs[i]) == key &&
                          forall j :: i < j < |bs| ==> KeyOf(bs[j]) != key
  {
    if bs != [] {
      var n := |bs| - 1;
      var init := bs[..n];
      BookingMapLastWins(init, key);
      if KeyOf(bs[n]) != key && key in BookingMapOf(bs) {
        var i :| 0 <= i < |init| && init[i] == BookingMapOf(init)[key] && KeyOf(init[i]) == key &&
                 forall j :: i < j < |init| ==> KeyOf(init[j]) != key;
        assert bs[i] == init[i];
        forall j | i < j < |bs| ensures KeyOf(bs[j]) != key {
          if j < n {
            assert bs[j] == init[j];
          }
        }
      }
      if exists i :: 0 <= i < |bs| && KeyOf(bs[i]) == key {
        var i :| 0 <= i < |bs| && KeyOf(bs[i]) == key;
        if i < n {
          assert init[i] == bs[i];
        }
      }
      if key in BookingMapOf(init) {
        var i :| 0 <= i < |init| && KeyOf(init[i]) == key;
        assert bs[i] == init[i];
      }
    }
  }

  /** Every value of the map is one of the listed bookings. */
  lemma BookingMapValues(bs: seq<Booking>, key: SlotKey)
    requires key in BookingMapOf(bs)
    ensures BookingMapOf(bs)[key] in bs && KeyOf(BookingMapOf(bs)[key]) == key
  {
    BookingMapLastWins(bs, key);
  }

  /** `getBookingForSlot`: the lookup in the map. */
  function BookingForSlot(m: map<SlotKey, Booking>, date: Day, hour: int): (r: Option<Booking>)
    ensures r.None? <==> (date, hour) !in m
    ensures r.Some? ==> r.value == m[(date, hour)]
  {
    if (date, hour) in m then Some(m[(date, hour)]) else None
  }

  /** What a cell shows as its booking: nothing iff no filtered booking
      falls on that date and hour, and otherwise a filtered booking that
      does. */
  lemma BookingForSlotShown(bookings: seq<Booking>, view: ViewFilter, date: Day, hour: int)
    ensures var shown := FilteredBookings(bookings, view);
            var r := BookingForSlot(BookingMapOf(shown), date, hour);
            && (r.None? <==> forall b :: b in shown ==> !(b.date == date && b.hour == hour))
            && (r.Some? ==> r.value in shown && r.value.date == date && r.value.hour == hour)
  {
    var shown := FilteredBookings(bookings, view);
    BookingMapLastWins(shown, (date, hour));
    if (date, hour) in BookingMapOf(shown) {
      BookingMapValues(shown, (date, hour));
    } else {
      forall b | b in shown ensures !(b.date == date && b.hour == hour) {
        var i :| 0 <= i < |shown| && shown[i] == b;
      }
    }
  }

  // ---------------------------------------------------------------------
  // Blocked slots

  /** A blocked slot of the selected classroom at that weekday and hour. */
  predicate BlocksSelected(s: BlockedSlot, selected: Option<Id>, day: int, hour: int)
  {
    selected == Some(s.classroomId) && s.day == day && s.hour == hour
  }

  /** `isSlotBlocked`: some blocked slot of the selected classroom covers
      the date's weekday at that hour. */
  function IsSlotBlocked(slots: seq<BlockedSlot>, selected: Option<Id>, date: Day, hour: int): (r: bool)
    ensures r <==> selected.Some? && exists s :: s in slots && BlocksSlot(s, selected.value, Weekday(date), hour)
  {
    var day := Weekday(date);
    var r := Any(slots, (s: BlockedSlot) => BlocksSelected(s, selected, day, hour));
    assert r ==> exists i :: 0 <= i < |slots| && slots[i] in slots && BlocksSelected(slots[i], selected, day, hour);
    r
  }

  /** The calendar and the store agree on what is blocked. */
  lemma BlockedAgreesWithStore(slots: seq<BlockedSlot>, classroomId: Id, date: Day, hour: int)
    ensures IsSlotBlocked(slots, Some(classroomId), date, hour) == SlotBlocked(slots, classroomId, date, hour)
  {
  }

  /** The blocked slot whose subject and group a blocked cell displays:
      the first one in the list. */
  function BlockInfo(slots: seq<BlockedSlot>, selected: Option<Id>, date: Day, hour: int): (r: Option<BlockedSlot>)
    ensures r.None? <==> !IsSlotBlocked(slots, selected, date, hour)
    ensures r.Some? ==> r.value in slots && BlocksSelected(r.value, selected, Weekday(date), hour)
  {
    var day := Weekday(date);
    var r := Find(slots, (s: BlockedSlot) => BlocksSelected(s, selected, day, hour));
    assert r.None? ==> forall i :: 0 <= i < |slots| ==> !BlocksSelected(slots[i], selected, day, hour);
    r
  }

  // ---------------------------------------------------------------------
  // Deleting from the calendar

  /** `canDelete`: an Admin, or the current user when they own the
      booking. */
  function CanDelete(currentUser: Option<User>, b: Booking): (r: bool)
    ensures r <==> MayDelete(currentUser, b.teacherId)
  {
    (currentUser.Some? && currentUser.value.role == Admin) ||
    (currentUser.Some? && b.teacherId == currentUser.value.id)
  }

  // ---------------------------------------------------------------------
  // Cells

  /** What a cell of the grid shows: a booking (with or without the delete
      button), a blocked slot, or an empty cell that opens the booking
      form. */
  datatype Cell =
    | Booked(booking: Booking, deletable: bool)
    | Blocked(slot: BlockedSlot)
    | Free

  /** The rendering of one cell: a booking takes precedence over a block,
      and only a cell with neither is clickable. */
  function ClassifyCell(m: map<SlotKey, Booking>, slots: seq<BlockedSlot>, selected: Option<Id>,
                        currentUser: Option<User>, date: Day, hour: int): (c: Cell)
    ensures c.Booked? <==> (date, hour) in m
    ensures c.Booked? ==> c.booking == m[(date, hour)] &&
                          (c.deletable <==> MayDelete(currentUser, c.booking.teacherId))
    ensures c.Blocked? <==> (date, hour) !in m && IsSlotBlocked(slots, selected, date, hour)
    ensures c.Blocked? ==> c.slot in slots && BlocksSelected(c.slot, selected, Weekday(date), hour)
    ensures c.Free? <==> (date, hour) !in m && !IsSlotBlocked(slots, selected, date, hour)
  {
    var booking := BookingForSlot(m, date, hour);
    var blocked := IsSlotBlocked(slots, selected, date, hour);
    if booking.Some? then
      Booked(booking.value, CanDelete(currentUser, booking.value))
    else if blocked then
      var info := BlockInfo(slots, selected, date, hour);
      Blocked(info.value)
    else
      Free
  }

  /** With no filter set, an empty cell of a classroom is a slot the store
      would accept a booking for. */
  lemma FreeCellIsAvailable(bookings: seq<Booking>, slots: seq<BlockedSlot>, classroomId: Id,
                            currentUser: Option<User>, date: Day, hour: int)
    requires var view := ViewFilter(Some(classroomId), None, "", "");
             ClassifyCell(BookingMapOf(FilteredBookings(bookings, view)), slots, Some(classroomId),
                          currentUser, date, hour).Free?
    ensures SlotAvailable(slots, bookings, classroomId, date, hour)
  {
    var view := ViewFilter(Some(classroomId), None, "", "");
    BookingForSlotShown(bookings, view, date, hour);
  }

  /** With a teacher filter set, an empty cell need not be free: another
      teacher's booking is hidden, and the store then refuses the slot. */
  lemma FilteredFreeCellMayBeTaken()
    ensures var b := Booking(1, None, 7, 2, "1A", "Maths", 19877, 9);
            var view := ViewFilter(Some(7), Some(3), "", "");
            && ClassifyCell(BookingMapOf(FilteredBookings([b], view)), [], Some(7), None, 19877, 9).Free?
            && !SlotAvailable([], [b], 7, 19877, 9)
  {
    var b := Booking(1, None, 7, 2, "1A", "Maths", 19877, 9);
    var view := ViewFilter(Some(7), Some(3), "", "");
    FailingFilterHides(b, view);
  }

  /** The hidden booking of the example above: it fails the teacher filter. */
  lemma FailingFilterHides(b: Booking, view: ViewFilter)
    requires !PassesFilter(view, b)
    ensures FilteredBookings([b], view) == []
  {
    FilterNone([b], (x: Booking) => PassesFilter(view, x));
  }

  /** The grid: one row per hour, one cell per weekday of the shown week,
      read from the booking map. */
  function WeekGrid(m: map<SlotKey, Booking>, slots: seq<BlockedSlot>, view: ViewFilter,
                    currentUser: Option<User>, currentDate: Day): (r: seq<seq<Cell>>)
    ensures |r| == |Hours|
    ensures forall h :: 0 <= h < |r| ==> |r[h]| == WeekdayCount
  {
    var days := WeekDates(currentDate);
    seq(|Hours|, h requires 0 <= h < |Hours| =>
      seq(WeekdayCount, i requires 0 <= i < WeekdayCount =>
        ClassifyCell(m, slots, view.selectedClassroom, currentUser, days[i], Hours[h])))
  }

  /** A booked cell of the grid shows a booking that passes the filters and
      falls on that column's date and that row's hour. */
  lemma GridBookedCell(bookings: seq<Booking>, slots: seq<BlockedSlot>, view: ViewFilter,
                       currentUser: Option<User>, currentDate: Day, h: nat, i: nat)
    requires h < |Hours| && i < WeekdayCount
    requires WeekGrid(BookingMapOf(FilteredBookings(bookings, view)), slots, view, currentUser, currentDate)[h][i].Booked?
    ensures var b := WeekGrid(BookingMapOf(FilteredBookings(bookings, view)), slots, view,
                              currentUser, currentDate)[h][i].booking;
            b in bookings && PassesFilter(view, b) &&
            b.date == WeekDates(currentDate)[i] && b.hour == Hours[h]
  {
    BookingForSlotShown(bookings, view, WeekDates(currentDate)[i], Hours[h]);
  }

  // ---------------------------------------------------------------------
  // Week navigation

  /** The calendar's current date, which the arrows move week by week. */
  class Navigator {
    var currentDate: Day

    /** The calendar opens on today's date, passed in by the caller. */
    constructor (today: Day)
      ensures currentDate == today
    {
      currentDate := today;
    }

    /** `changeWeek`: moves by whole weeks, so the week shown moves by the
        same number of weeks and the weekday stays. */
    method ChangeWeek(offset: int)
      modifies this
      ensures currentDate == old(currentDate) + 7 * offset
      ensures StartOfWeek(currentDate) == StartOfWeek(old(currentDate)) + 7 * offset
      ensures Weekday(currentDate) == Weekday(old(currentDate))
    {
      StartOfWeekShift(currentDate, offset);
      WeekdayAfterWeeks(currentDate, offset);
      currentDate := currentDate + 7 * offset;
    }
  }
}
