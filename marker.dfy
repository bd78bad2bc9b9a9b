/** The mark-attendance form that both admin dashboards embed: the form data,
    the submit handler and the success or error banner. */
module Marker {
  import opened Entities
  import opened AdminViews

  /** The banner under the form: none, success or error. */
  datatype Banner = NoBanner | SuccessBanner | ErrorBanner

  /** What the form's selects, date input and radio buttons set. */
  datatype FormEdit =
    | PickStudent(studentId: string)
    | PickSubject(subjectId: string)
    | PickDate(date: string)
    | PickStatus(status: Status)

  class AttendanceMarker {
    var formData: AttendanceBody
    var loading: bool
    var message: Banner

    /** The initial form: no student or subject chosen, today's calendar day
        (the part before 'T' of the current ISO timestamp `nowIso`) and
        PRESENT. */
    constructor (nowIso: string)
      ensures formData == AttendanceBody("", "", DatePart(nowIso), Present)
      ensures !loading && message == NoBanner
    {
      formData := AttendanceBody("", "", DatePart(nowIso), Present);
      loading := false;
      message := NoBanner;
    }

    /** `{ ...formData, field: value }`: one field changes, the others stay. */
    method Edit(edit: FormEdit)
      modifies this`formData
      ensures formData == match edit
        case PickStudent(id) => old(formData).(studentId := id)
        case PickSubject(id) => old(formData).(subjectId := id)
        case PickDate(d) => old(formData).(date := d)
        case PickStatus(s) => old(formData).(status := s)
    {
      match edit
      case PickStudent(id) => formData := formData.(studentId := id);
      case PickSubject(id) => formData := formData.(subjectId := id);
      case PickDate(d) => formData := formData.(date := d);
      case PickStatus(s) => formData := formData.(status := s);
    }

    /** `handleSubmit`: posts the form as it is; a success status shows the
        success banner, anything else the error banner. The form is not
        cleared either way. */
    method HandleSubmit(post: Reply<()>) returns (sent: Request)
      modifies this`loading, this`message
      ensures sent == PostAttendance(formData)
      ensures message == if post.Ok? then SuccessBanner else ErrorBanner
      ensures !loading
    {
      loading := true;
      message := NoBanner;
      sent := PostAttendance(formData);
      if post.Ok? {
        message := SuccessBanner;
      } else {
        message := ErrorBanner;
      }
      loading := false;
    }

    /** The timer callback three seconds after a submit. */
    method ClearMessage()
      modifies this`message
      ensures message == NoBanner
    {
      message := NoBanner;
    }
  }

  /** The form opens on a calendar day: its date carries no time part. */
  lemma InitialDateIsDay(nowIso: string)
    ensures 'T' !in DatePart(nowIso)
    ensures DatePart(DatePart(nowIso)) == DatePart(nowIso)
  {
    DatePartIdempotent(nowIso);
  }
}
