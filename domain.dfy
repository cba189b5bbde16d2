/** The records and enumerations of the booking application: users,
    classrooms, weekly blocked slots, bookings, booking series, the settings
    and the shape of an import file. They carry no behaviour of their own. */
module Domain {
  import opened Seqs

  /** Entity ids. The application builds them from the wall clock and a
      random number; here they are drawn from the store's counter. */
  type Id = nat

  /** A calendar day, counted in days from 1970-01-01 (day 0, a Thursday). */
  type Day = int

  datatype Role = Admin | Teacher

  datatype User = User(id: Id, name: string, email: string, role: Role)

  datatype Classroom = Classroom(id: Id, name: string, capacity: int, equipment: seq<string>)

  /** A permanent weekly reservation: `day` is the weekday, 0 for Sunday. */
  datatype BlockedSlot = BlockedSlot(id: Id, classroomId: Id, day: int, hour: int,
                                     subject: string, classGroup: string)

  datatype Frequency = Daily | Weekly | Monthly

  datatype Booking = Booking(id: Id, seriesId: Option<Id>, classroomId: Id, teacherId: Id,
                             classGroup: string, subject: string, date: Day, hour: int)

  datatype BookingSeries = BookingSeries(id: Id, classroomId: Id, teacherId: Id,
                                         classGroup: string, subject: string,
                                         startDate: Day, endDate: Day, hour: int,
                                         frequency: Frequency)

  datatype TeacherRef = TeacherRef(id: Id, name: string)

  datatype AppSettings = AppSettings(schoolYear: string, teachers: seq<TeacherRef>,
                                     classGroups: seq<string>, subjects: seq<string>)

  /** A booking without its id, as the booking form submits it. */
  datatype BookingRequest = BookingRequest(seriesId: Option<Id>, classroomId: Id, teacherId: Id,
                                           classGroup: string, subject: string, date: Day, hour: int)

  /** A series without its id and owner, as the booking form submits it. */
  datatype SeriesRequest = SeriesRequest(classroomId: Id, classGroup: string, subject: string,
                                         startDate: Day, endDate: Day, hour: int,
                                         frequency: Frequency)

  datatype ClassroomData = ClassroomData(name: string, capacity: int, equipment: seq<string>)

  datatype UserData = UserData(name: string, email: string, role: Role)

  datatype SettingsData = SettingsData(schoolYear: Option<string>,
                                       classGroups: Option<seq<string>>,
                                       subjects: Option<seq<string>>)

  /** The import file: each key is optional. */
  datatype ImportData = ImportData(classrooms: Option<seq<ClassroomData>>,
                                   users: Option<seq<UserData>>,
                                   settings: Option<SettingsData>)

  /** The failures the store reports to its caller. */
  datatype Error =
    | Forbidden                       // caller lacks the role or does not own the item
    | SlotUnavailable                 // the slot is blocked or already booked
    | SeriesConflict(dates: seq<Day>) // every generated date that is not free
    | InvalidRange                    // series start after its end
    | InvalidEmail                    // new user without an institutional address
    | NotLoggedIn                     // a series needs a current user

  datatype Outcome = Pass | Fail(error: Error)
}
