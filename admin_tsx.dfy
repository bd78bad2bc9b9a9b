/** The admin dashboard of `page.tsx`: the same state as the `.js` version,
    with the backend reached through an axios client, which rejects every
    answer without a success status. */
module AdminTsx {
  import opened Entities
  import opened AdminViews

  /** `err.response?.data?.error || err.message`: the server's error text when
      it sent a non-empty one, the exception's message when there was no
      answer; None stands for axios' own status message. */
  function ErrorDetail<T>(reply: Reply<T>): (d: Option<string>)
    requires !reply.Ok?
    ensures reply.Thrown? ==> d == Some(reply.message)
    ensures reply.Err? ==> d == OrElse(Some(reply.error))
  {
    if reply.Thrown? then Some(reply.message) else OrElse(Some(reply.error))
  }

  class AdminDashboard {
    var students: seq<Student>
    var subjects: seq<Subject>
    var attendanceRecords: seq<AttendanceRecord>
    var loading: bool
    var searchTerm: string
    var newStudent: StudentForm
    var editStudentModal: Option<Student>
    var deleteStudentId: Option<string>
    var editAttendanceModal: Option<AttendanceRecord>
    var deleteAttendanceId: Option<string>
    var selectedStudentFilter: string

    /** The initial component state: empty snapshots and form, no modal open. */
    constructor ()
      ensures students == [] && subjects == [] && attendanceRecords == []
      ensures !loading && searchTerm == "" && newStudent == EmptyStudentForm
      ensures editStudentModal == None && deleteStudentId == None
      ensures editAttendanceModal == None && deleteAttendanceId == None
      ensures selectedStudentFilter == ""
    {
      students, subjects, attendanceRecords := [], [], [];
      loading, searchTerm, newStudent := false, "", EmptyStudentForm;
      editStudentModal, deleteStudentId := None, None;
      editAttendanceModal, deleteAttendanceId := None, None;
      selectedStudentFilter := "";
    }

    // --- Snapshot loads: a success replaces the snapshot wholesale, any
    //     other outcome keeps the previous one ---

    method FetchStudents(reply: Reply<seq<Student>>)
      modifies this`students
      ensures students == if reply.Ok? then reply.data else old(students)
    {
      if reply.Ok? {
        students := reply.data;
      }
    }

    method FetchSubjects(reply: Reply<seq<Subject>>)
      modifies this`subjects
      ensures subjects == if reply.Ok? then reply.data else old(subjects)
    {
      if reply.Ok? {
        subjects := reply.data;
      }
    }

    method FetchAttendanceRecords(reply: Reply<seq<AttendanceRecord>>)
      modifies this`attendanceRecords
      ensures attendanceRecords == if reply.Ok? then reply.data else old(attendanceRecords)
    {
      if reply.Ok? {
        attendanceRecords := reply.data;
      }
    }

    // --- Handlers. `create`/`update`/`remove` is the backend's answer to the
    //     call the handler sends; `reload` the answer to the reload that
    //     follows a success. ---

    /** `handleCreateStudent`: posts the form; on success shows the returned
        password as it is (None: it was missing), clears the form and reloads
        the roster; any failure raises the same generic alert and leaves the
        form and roster as they were. */
    method HandleCreateStudent(create: Reply<Option<string>>, reload: Reply<seq<Student>>)
      returns (sent: Request, notice: Notice)
      modifies this`loading, this`students, this`newStudent
      ensures sent == PostStudent(old(newStudent))
      ensures create.Ok? ==>
        && notice == PasswordShown(create.data)
        && newStudent == EmptyStudentForm
        && students == (if reload.Ok? then reload.data else old(students))
      ensures !create.Ok? ==>
        && notice == Failed(None)
        && students == old(students) && newStudent == old(newStudent)
      ensures !loading
    {
      loading := true;
      sent := PostStudent(newStudent);
      if create.Ok? {
        notice := PasswordShown(create.data);
        newStudent := EmptyStudentForm;
        FetchStudents(reload);
      } else {
        notice := Failed(None);
      }
      loading := false;
    }

    /** `handleUpdateStudent`: without an open modal nothing happens; otherwise
        the whole modal object is sent to the modal's id, and a success closes
        the modal and reloads the roster. */
    method HandleUpdateStudent(update: Reply<()>, reload: Reply<seq<Student>>)
      returns (sent: Option<Request>, notice: Notice)
      modifies this`loading, this`students, this`editStudentModal
      ensures old(editStudentModal).None? ==>
        && sent == None && notice == Silent
        && loading == old(loading) && students == old(students) && editStudentModal == None
      ensures old(editStudentModal).Some? ==>
        && sent == Some(PutStudent(old(editStudentModal).value.id, old(editStudentModal).value))
        && !loading
        && (update.Ok? ==>
              && notice == Succeeded && editStudentModal == None
              && students == (if reload.Ok? then reload.data else old(students)))
        && (!update.Ok? ==>
              && notice == Failed(ErrorDetail(update))
              && editStudentModal == old(editStudentModal) && students == old(students))
    {
      if editStudentModal.None? {
        return None, Silent;
      }
      loading := true;
      var modal := editStudentModal.value;
      sent := Some(PutStudent(modal.id, modal));
      if update.Ok? {
        notice := Succeeded;
        editStudentModal := None;
        FetchStudents(reload);
      } else {
        notice := Failed(ErrorDetail(update));
      }
      loading := false;
    }

    /** `handleDeleteStudent`: without a selected id (null or empty) nothing
        happens; otherwise a success reloads the roster, and only the roster,
        and clears the selection. */
    method HandleDeleteStudent(remove: Reply<()>, reload: Reply<seq<Student>>)
      returns (sent: Option<Request>, notice: Notice)
      modifies this`loading, this`students, this`deleteStudentId
      ensures attendanceRecords == old(attendanceRecords)
      ensures !IsSelected(old(deleteStudentId)) ==>
        && sent == None && notice == Silent
        && loading == old(loading) && students == old(students) && deleteStudentId == old(deleteStudentId)
      ensures IsSelected(old(deleteStudentId)) ==>
        && sent == Some(DeleteStudent(old(deleteStudentId).value))
        && !loading
        && (remove.Ok? ==>
              && notice == Succeeded && deleteStudentId == None
              && students == (if reload.Ok? then reload.data else old(students)))
        && (!remove.Ok? ==>
              && notice == Failed(ErrorDetail(remove))
              && deleteStudentId == old(deleteStudentId) && students == old(students))
    {
      if !IsSelected(deleteStudentId) {
        return None, Silent;
      }
      loading := true;
      sent := Some(DeleteStudent(deleteStudentId.value));
      if remove.Ok? {
        notice := Succeeded;
        deleteStudentId := None;
        FetchStudents(reload);
      } else {
        notice := Failed(ErrorDetail(remove));
      }
      loading := false;
    }

    /** `handleUpdateAttendance`: without an open modal nothing happens;
        otherwise the payload built from the modal is sent to the record's id,
        and a success reloads the records and closes the modal. */
    method HandleUpdateAttendance(update: Reply<()>, reload: Reply<seq<AttendanceRecord>>)
      returns (sent: Option<Request>, notice: Notice)
      modifies this`loading, this`attendanceRecords, this`editAttendanceModal
      ensures old(editAttendanceModal).None? ==>
        && sent == None && notice == Silent
        && loading == old(loading) && attendanceRecords == old(attendanceRecords) && editAttendanceModal == None
      ensures old(editAttendanceModal).Some? ==>
        && sent == Some(PutAttendance(old(editAttendanceModal).value.id, UpdatePayload(old(editAttendanceModal).value)))
        && !loading
        && (update.Ok? ==>
              && notice == Succeeded && editAttendanceModal == None
              && attendanceRecords == (if reload.Ok? then reload.data else old(attendanceRecords)))
        && (!update.Ok? ==>
              && notice == Failed(ErrorDetail(update))
              && editAttendanceModal == old(editAttendanceModal) && attendanceRecords == old(attendanceRecords))
    {
      if editAttendanceModal.None? {
        return None, Silent;
      }
      loading := true;
      var modal := editAttendanceModal.value;
      sent := Some(PutAttendance(modal.id, UpdatePayload(modal)));
      if update.Ok? {
        notice := Succeeded;
        editAttendanceModal := None;
        FetchAttendanceRecords(reload);
      } else {
        notice := Failed(ErrorDetail(update));
      }
      loading := false;
    }

    /** `handleDeleteAttendance`: without a selected id nothing happens;
        otherwise a success reloads the records and clears the selection. */
    method HandleDeleteAttendance(remove: Reply<()>, reload: Reply<seq<AttendanceRecord>>)
      returns (sent: Option<Request>, notice: Notice)
      modifies this`loading, this`attendanceRecords, this`deleteAttendanceId
      ensures !IsSelected(old(deleteAttendanceId)) ==>
        && sent == None && notice == Silent
        && loading == old(loading) && attendanceRecords == old(attendanceRecords)
        && deleteAttendanceId == old(deleteAttendanceId)
      ensures IsSelected(old(deleteAttendanceId)) ==>
        && sent == Some(DeleteAttendance(old(deleteAttendanceId).value))
        && !loading
        && (remove.Ok? ==>
              && notice == Succeeded && deleteAttendanceId == None
              && attendanceRecords == (if reload.Ok? then reload.data else old(attendanceRecords)))
        && (!remove.Ok? ==>
              && notice == Failed(ErrorDetail(remove))
              && deleteAttendanceId == old(deleteAttendanceId) && attendanceRecords == old(attendanceRecords))
    {
      if !IsSelected(deleteAttendanceId) {
        return None, Silent;
      }
      loading := true;
      sent := Some(DeleteAttendance(deleteAttendanceId.value));
      if remove.Ok? {
        notice := Succeeded;
        deleteAttendanceId := None;
        FetchAttendanceRecords(reload);
      } else {
        notice := Failed(ErrorDetail(remove));
      }
      loading := false;
    }

    // --- What the buttons and inputs set ---

    method OpenStudentEditor(s: Student)
      modifies this`editStudentModal
      ensures editStudentModal == Some(s)
    {
      editStudentModal := Some(s);
    }

    /** Typing into the edit-student modal; the modal's id never changes. */
    method EditStudentModal(edit: StudentEdit)
      modifies this`editStudentModal
      ensures old(editStudentModal).None? ==> editStudentModal == None
      ensures old(editStudentModal).Some? ==>
        && editStudentModal == Some(ApplyStudentEdits(old(editStudentModal).value, [edit]))
        && editStudentModal.value.id == old(editStudentModal).value.id
    {
      if editStudentModal.Some? {
        StudentEditsKeepId(editStudentModal.value, [edit]);
        editStudentModal := Some(ApplyStudentEdits(editStudentModal.value, [edit]));
      }
    }

    method CloseStudentEditor()
      modifies this`editStudentModal
      ensures editStudentModal == None
    {
      editStudentModal := None;
    }

    method AskDeleteStudent(id: string)
      modifies this`deleteStudentId
      ensures deleteStudentId == Some(id)
    {
      deleteStudentId := Some(id);
    }

    method CancelDeleteStudent()
      modifies this`deleteStudentId
      ensures deleteStudentId == None
    {
      deleteStudentId := None;
    }

    method OpenAttendanceEditor(r: AttendanceRecord)
      modifies this`editAttendanceModal
      ensures editAttendanceModal == Some(r)
    {
      editAttendanceModal := Some(r);
    }

    /** Changing the date or the status in the edit-attendance modal; the
        record id and its student and subject stay those of the record. */
    method EditAttendanceModal(edit: RecordEdit)
      modifies this`editAttendanceModal
      ensures old(editAttendanceModal).None? ==> editAttendanceModal == None
      ensures old(editAttendanceModal).Some? ==>
        && editAttendanceModal == Some(ApplyRecordEdits(old(editAttendanceModal).value, [edit]))
        && editAttendanceModal.value.id == old(editAttendanceModal).value.id
        && editAttendanceModal.value.student == old(editAttendanceModal).value.student
        && editAttendanceModal.value.subject == old(editAttendanceModal).value.subject
    {
      if editAttendanceModal.Some? {
        editAttendanceModal := Some(ApplyRecordEdits(editAttendanceModal.value, [edit]));
      }
    }

    method CloseAttendanceEditor()
      modifies this`editAttendanceModal
      ensures editAttendanceModal == None
    {
      editAttendanceModal := None;
    }

    method AskDeleteAttendance(id: string)
      modifies this`deleteAttendanceId
      ensures deleteAttendanceId == Some(id)
    {
      deleteAttendanceId := Some(id);
    }

    method CancelDeleteAttendance()
      modifies this`deleteAttendanceId
      ensures deleteAttendanceId == None
    {
      deleteAttendanceId := None;
    }

    /** Typing into the create form: `{ ...newStudent, field: value }`. */
    method EditNewStudent(edit: StudentEdit)
      modifies this`newStudent
      ensures newStudent == match edit
        case EditName(v) => old(newStudent).(name := v)
        case EditEmail(v) => old(newStudent).(email := v)
        case EditRoll(v) => old(newStudent).(rollNumber := v)
    {
      match edit
      case EditName(v) => newStudent := newStudent.(name := v);
      case EditEmail(v) => newStudent := newStudent.(email := v);
      case EditRoll(v) => newStudent := newStudent.(rollNumber := v);
    }

    method Search(term: string)
      modifies this`searchTerm
      ensures searchTerm == term
    {
      searchTerm := term;
    }

    method SelectStudentFilter(id: string)
      modifies this`selectedStudentFilter
      ensures selectedStudentFilter == id
    {
      selectedStudentFilter := id;
    }

    // --- What the tables show ---

    /** The roster table: name, email or roll number contains the search
        term. */
    function ShownStudents(): (r: seq<Student>)
      reads this
      ensures forall s :: s in r <==> s in students && Matches(s, searchTerm, NameEmailRoll)
    {
      FilteredStudentsMembers(students, searchTerm, NameEmailRoll);
      FilteredStudents(students, searchTerm, NameEmailRoll)
    }

    /** The view-attendance table. */
    function ShownRecords(): (r: seq<AttendanceRecord>)
      reads this
      ensures selectedStudentFilter == "" ==> r == attendanceRecords
      ensures selectedStudentFilter != "" ==>
        forall x :: x in r <==> x in attendanceRecords && x.student.id == selectedStudentFilter
    {
      FilterRecordsSpec(attendanceRecords, [], selectedStudentFilter);
      FilterRecords(attendanceRecords, selectedStudentFilter)
    }
  }
}
