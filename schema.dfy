/** The documents the back end reads and writes, as typed records. */
module Schema {
  import opened Wrappers

  /** One entry of a weekly schedule. `category` is the session's `type` field
      (the user category it is reserved for); None stands for a missing or null field. */
  datatype Session = Session(
    day: string,
    name: string,
    startTime: string,
    endTime: string,
    category: Option<string>)

  /** The `schedule` field of a calendar document: day key to sessions in order. */
  type Schedule = map<string, seq<Session>>

  /** A document of the `Calendars` collection; its `schedule` field may be missing. */
  datatype CalendarDoc = CalendarDoc(schedule: Option<Schedule>)

  /** `doc.data().schedule || {}`. */
  function ScheduleOf(doc: CalendarDoc): Schedule {
    doc.schedule.GetOr(map[])
  }
}
