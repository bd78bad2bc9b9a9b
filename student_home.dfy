/** The student's home page: today's timetable, the overall attendance figures
    and the name of the current weekday. */
module StudentHome {
  import opened Entities
  import opened StudentAttendance

  /** One timetable row as the backend returns it; the room is optional. */
  datatype TimetableEntry = TimetableEntry(
    id: string, subject: Subject, startTime: string, endTime: string, room: Option<string>)

  class StudentDashboard {
    var timetable: seq<TimetableEntry>
    var stats: Option<Stats>
    var loading: bool

    constructor ()
      ensures timetable == [] && stats == None && loading
    {
      timetable := [];
      stats := None;
      loading := true;
    }

    /** `fetchData`: the timetable and the attendance figures are set only when
        both answers arrive with a success status and parse; in any other case
        both stay as they were (so `stats` stays null on a fresh page). Loading
        ends in every case. */
    method FetchData(timetableReply: Reply<seq<TimetableEntry>>, attendanceReply: Reply<seq<AttendanceRecord>>)
      modifies this
      ensures timetableReply.Ok? && attendanceReply.Ok? ==>
        timetable == timetableReply.data && stats == Some(OverallStats(attendanceReply.data))
      ensures !(timetableReply.Ok? && attendanceReply.Ok?) ==>
        timetable == old(timetable) && stats == old(stats)
      ensures !loading
    {
      if timetableReply.Ok? && attendanceReply.Ok? {
        timetable := timetableReply.data;
        var records := attendanceReply.data;
        stats := Some(OverallStats(records));
      }
      loading := false;
    }
  }

  /** A stats snapshot as `fetchData` leaves it: at most as many classes
      attended as held, and a percentage in [0, 100] that is 0 for no classes. */
  lemma FetchedStatsBounded(records: seq<AttendanceRecord>)
    ensures var s := OverallStats(records);
      && s.present <= s.total == |records|
      && 0 <= s.percentage <= 100
      && (|records| == 0 <==> s.total == 0)
      && (|records| == 0 ==> s.percentage == 0)
  {
  }

  const Days: seq<string> := ["Sunday", "Monday", "Tuesday", "Wednesday", "Thursday", "Friday", "Saturday"]

  /** `getDayName` for the index `Date.getDay()` returns (0 is Sunday). */
  function DayName(day: int): (name: string)
    requires 0 <= day < 7
    ensures |name| >= 6 && name[|name| - 3..] == "day"
  {
    Days[day]
  }

  /** The table, index by index: Sunday at 0 through Saturday at 6. */
  lemma DayNameTable()
    ensures DayName(0) == "Sunday" && DayName(1) == "Monday" && DayName(2) == "Tuesday"
    ensures DayName(3) == "Wednesday" && DayName(4) == "Thursday"
    ensures DayName(5) == "Friday" && DayName(6) == "Saturday"
  {
  }

  /** Different indices give different names. */
  lemma DayNameInjective(d: int, e: int)
    requires 0 <= d < 7 && 0 <= e < 7 && d != e
    ensures DayName(d) != DayName(e)
  {
    DayNameTable();
  }
}
