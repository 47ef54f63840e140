/** The JSON records stored in the `schedules` channel aggregate. Epoch
    seconds and hours are fractional on the wire, so they are `real`. */
module Wire {
  import opened Common

  /** `{start_time, end_time, duration, mode, edited}`. */
  datatype WireTimeslot = WireTimeslot(
    startTime: real,   // start_time, epoch seconds
    endTime: real,     // end_time, epoch seconds
    duration: real,    // duration, hours
    mode: Mode,        // mode
    edited: int)       // edited, 0 or 1

  /** `{schedule_name, frequency, start_time, end_time, duration, mode, edited,
      timeslots}`; `mode` is absent when the stored schedule's mode is
      `undefined`. */
  datatype WireSchedule = WireSchedule(
    scheduleName: string,
    frequency: string,
    startTime: real,
    endTime: real,
    duration: real,
    mode: Option<Mode>,
    edited: int,
    timeslots: seq<WireTimeslot>)
}
