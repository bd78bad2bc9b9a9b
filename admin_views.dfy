/** The pure helpers of the admin dashboard, shared by its `.js` and `.tsx`
    versions: the student search, the record filter, the date normaliser of the
    edit form, the modal edits and the update-attendance payload. */
module AdminViews {
  import opened Entities

  // --- Case-insensitive substring search ---

  /** `toLowerCase` on one character, for the ASCII letters. */
  function LowerChar(c: char): (l: char)
    ensures !('A' <= l <= 'Z')
    ensures !('A' <= c <= 'Z') ==> l == c
    ensures 'A' <= c <= 'Z' ==> l as int - c as int == 'a' as int - 'A' as int
  {
    if 'A' <= c <= 'Z' then (c as int - 'A' as int + 'a' as int) as char else c
  }

  /** `toLowerCase` on a string, character by character. */
  function Lower(s: string): (l: string)
    ensures |l| == |s|
    ensures forall i :: 0 <= i < |s| ==> l[i] == LowerChar(s[i])
  {
    seq(|s|, i requires 0 <= i < |s| => LowerChar(s[i]))
  }

  /** Lowering twice is lowering once. */
  lemma LowerIdempotent(s: string)
    ensures Lower(Lower(s)) == Lower(s)
  {
    assert forall i :: 0 <= i < |s| ==> Lower(Lower(s))[i] == Lower(s)[i];
  }

  /** Lowering leaves a string without upper-case letters unchanged. */
  lemma LowerOfLower(s: string)
    requires forall i :: 0 <= i < |s| ==> !('A' <= s[i] <= 'Z')
    ensures Lower(s) == s
  {
  }

  function StartsWith(s: string, prefix: string): bool
  {
    |prefix| <= |s| && s[..|prefix|] == prefix
  }

  /** `hay.includes(needle)`, scanning the start positions from the left. */
  function Includes(hay: string, needle: string): bool
    decreases |hay|
  {
    if StartsWith(hay, needle) then true
    else if hay == [] then false
    else Includes(hay[1..], needle)
  }

  /** needle occurs in hay starting at position i. */
  predicate OccursAt(hay: string, needle: string, i: int)
  {
    0 <= i <= |hay| - |needle| && hay[i..i + |needle|] == needle
  }

  /** Includes holds exactly when needle occurs in hay at some position. */
  lemma {:induction false} IncludesIff(hay: string, needle: string)
    ensures Includes(hay, needle) <==> exists i :: OccursAt(hay, needle, i)
    decreases |hay|
  {
    if StartsWith(hay, needle) {
      assert OccursAt(hay, needle, 0);
    } else if hay == [] {
    } else {
      IncludesIff(hay[1..], needle);
      var n := |needle|;
      if exists i :: OccursAt(hay, needle, i) {
        var i :| OccursAt(hay, needle, i);
        assert i != 0;
        assert hay[1..][i - 1..i - 1 + n] == needle;
        assert OccursAt(hay[1..], needle, i - 1);
      }
      if Includes(hay, needle) {
        var i :| OccursAt(hay[1..], needle, i);
        assert hay[i + 1..i + 1 + n] == needle;
        assert OccursAt(hay, needle, i + 1);
      }
    }
  }

  /** The empty term is found in every string. */
  lemma IncludesEmpty(hay: string)
    ensures Includes(hay, "")
  {
  }

  /** The fields the search looks at: name and roll number in the `.js`
      version, name, email and roll number in the `.tsx` version. */
  datatype SearchFields = NameRoll | NameEmailRoll

  /** Whether the lowered field contains the lowered search term. */
  predicate FieldMatches(field: string, term: string)
  {
    Includes(Lower(field), Lower(term))
  }

  predicate Matches(s: Student, term: string, fields: SearchFields)
  {
    || FieldMatches(s.name, term)
    || (fields == NameEmailRoll && FieldMatches(s.email, term))
    || FieldMatches(s.rollNumber, term)
  }

  /** `filteredStudents`: the students the search keeps, in roster order. */
  function FilteredStudents(students: seq<Student>, term: string, fields: SearchFields): (r: seq<Student>)
    ensures |r| <= |students|
    decreases |students|
  {
    if students == [] then []
    else
      var rest := FilteredStudents(students[..|students| - 1], term, fields);
      var s := students[|students| - 1];
      if Matches(s, term, fields) then rest + [s] else rest
  }

  /** Searching a roster made of two parts searches each part in turn, so the
      result keeps the roster's order. */
  lemma {:induction false} FilteredStudentsAppend(a: seq<Student>, b: seq<Student>, term: string, fields: SearchFields)
    ensures FilteredStudents(a + b, term, fields) ==
      FilteredStudents(a, term, fields) + FilteredStudents(b, term, fields)
    decreases |b|
  {
    if b == [] {
      assert a + b == a;
    } else {
      var b' := b[..|b| - 1];
      assert (a + b)[..|a + b| - 1] == a + b';
      FilteredStudentsAppend(a, b', term, fields);
    }
  }

  /** A student is kept exactly when one of the searched fields contains the
      term, ignoring ASCII case. */
  lemma {:induction false} FilteredStudentsMembers(students: seq<Student>, term: string, fields: SearchFields)
    ensures forall s :: s in FilteredStudents(students, term, fields) <==>
      s in students && Matches(s, term, fields)
    decreases |students|
  {
    if students != [] {
      var p := students[..|students| - 1];
      FilteredStudentsMembers(p, term, fields);
      assert students == p + [students[|students| - 1]];
    }
  }

  /** The search does not depend on the case of the term. */
  lemma SearchIgnoresCase(s: Student, term: string, fields: SearchFields)
    ensures Matches(s, term, fields) == Matches(s, Lower(term), fields)
  {
    LowerIdempotent(term);
  }

  /** An empty search term keeps the whole roster. */
  lemma {:induction false} EmptyTermKeepsAll(students: seq<Student>, fields: SearchFields)
    ensures FilteredStudents(students, "", fields) == students
    decreases |students|
  {
    if students != [] {
      var p := students[..|students| - 1];
      EmptyTermKeepsAll(p, fields);
      IncludesEmpty(Lower(students[|students| - 1].name));
      assert Lower("") == "";
      assert students == p + [students[|students| - 1]];
    }
  }

  /** The `.tsx` search keeps every student the `.js` search keeps. */
  lemma {:induction false} WiderSearch(students: seq<Student>, term: string)
    ensures forall s :: s in FilteredStudents(students, term, NameRoll) ==>
      s in FilteredStudents(students, term, NameEmailRoll)
  {
    FilteredStudentsMembers(students, term, NameRoll);
    FilteredStudentsMembers(students, term, NameEmailRoll);
  }

  // --- The view-attendance filter ---

  function RecordsOf(records: seq<AttendanceRecord>, studentId: string): (r: seq<AttendanceRecord>)
    ensures |r| <= |records|
    decreases |records|
  {
    if records == [] then []
    else
      var rest := RecordsOf(records[..|records| - 1], studentId);
      var x := records[|records| - 1];
      if x.student.id == studentId then rest + [x] else rest
  }

  /** `filteredRecords`: the empty selection (falsy) shows every record,
      otherwise only the records of the selected student. */
  function FilterRecords(records: seq<AttendanceRecord>, selected: string): seq<AttendanceRecord>
  {
    if selected == "" then records else RecordsOf(records, selected)
  }

  lemma {:induction false} RecordsOfAppend(a: seq<AttendanceRecord>, b: seq<AttendanceRecord>, studentId: string)
    ensures RecordsOf(a + b, studentId) == RecordsOf(a, studentId) + RecordsOf(b, studentId)
    decreases |b|
  {
    if b == [] {
      assert a + b == a;
    } else {
      var b' := b[..|b| - 1];
      assert (a + b)[..|a + b| - 1] == a + b';
      RecordsOfAppend(a, b', studentId);
    }
  }

  lemma {:induction false} RecordsOfMembers(records: seq<AttendanceRecord>, studentId: string)
    ensures forall x :: x in RecordsOf(records, studentId) <==> x in records && x.student.id == studentId
    decreases |records|
  {
    if records != [] {
      var p := records[..|records| - 1];
      RecordsOfMembers(p, studentId);
      assert records == p + [records[|records| - 1]];
    }
  }

  /** The empty selection is the identity; any other keeps exactly the
      selected student's records, and the filter distributes over
      concatenation, so the records keep their order. */
  lemma FilterRecordsSpec(records: seq<AttendanceRecord>, more: seq<AttendanceRecord>, selected: string)
    ensures selected == "" ==> FilterRecords(records, selected) == records
    ensures selected != "" ==> forall x :: x in FilterRecords(records, selected) <==>
      x in records && x.student.id == selected
    ensures FilterRecords(records + more, selected) == FilterRecords(records, selected) + FilterRecords(more, selected)
  {
    RecordsOfMembers(records, selected);
    RecordsOfAppend(records, more, selected);
  }

  // --- Dates ---

  /** `date.split('T')[0]`: everything before the first 'T'. */
  function DatePart(date: string): (d: string)
    ensures |d| <= |date| && d == date[..|d|]
    ensures 'T' !in d
    ensures |d| < |date| ==> date[|d|] == 'T'
  {
    if date == [] then []
    else if date[0] == 'T' then []
    else [date[0]] + DatePart(date[1..])
  }

  /** The characterisation above fixes the result: any prefix without 'T'
      that ends the string or is followed by 'T' is the date part. */
  lemma DatePartUnique(date: string, d: string)
    requires |d| <= |date| && d == date[..|d|] && 'T' !in d
    requires |d| < |date| ==> date[|d|] == 'T'
    ensures d == DatePart(date)
  {
  }

  /** Normalising twice is normalising once. */
  lemma DatePartIdempotent(date: string)
    ensures DatePart(DatePart(date)) == DatePart(date)
  {
    DatePartOfDay(DatePart(date));
  }

  /** A string without 'T' is its own date part. */
  lemma DatePartOfDay(day: string)
    requires 'T' !in day
    ensures DatePart(day) == day
  {
    DatePartUnique(day, day);
  }

  /** An ISO timestamp is cut to the calendar day before its 'T'. */
  lemma DatePartOfTimestamp(day: string, time: string)
    requires 'T' !in day
    ensures DatePart(day + "T" + time) == day
  {
    var s := day + "T" + time;
    assert s[..|day|] == day && s[|day|] == 'T';
    DatePartUnique(s, day);
  }

  // --- The edit modals ---

  /** What the edit-attendance form lets the user change. */
  datatype RecordEdit = EditDate(date: string) | EditStatus(status: Status)

  /** The `{ ...editAttendanceModal, field: value }` updates, in order. */
  function ApplyRecordEdits(r: AttendanceRecord, edits: seq<RecordEdit>): AttendanceRecord
    decreases |edits|
  {
    if edits == [] then r
    else
      var r' := ApplyRecordEdits(r, edits[..|edits| - 1]);
      match edits[|edits| - 1]
      case EditDate(d) => r'.(date := d)
      case EditStatus(s) => r'.(status := s)
  }

  /** The body of the update-attendance call: the ids come from the record's
      embedded student and subject; only date and status are the user's. */
  function UpdatePayload(r: AttendanceRecord): (b: AttendanceBody)
    ensures b.studentId == r.student.id && b.subjectId == r.subject.id
    ensures b.date == r.date && b.status == r.status
  {
    AttendanceBody(r.student.id, r.subject.id, r.date, r.status)
  }

  /** Whatever the user does in the form, the call goes to the same record id
      and names the original student and subject; the date sent is the last
      date entered, or the record's own (full, un-normalised) date. */
  lemma {:induction false} EditsKeepReferences(r: AttendanceRecord, edits: seq<RecordEdit>)
    ensures ApplyRecordEdits(r, edits).id == r.id
    ensures UpdatePayload(ApplyRecordEdits(r, edits)).studentId == r.student.id
    ensures UpdatePayload(ApplyRecordEdits(r, edits)).subjectId == r.subject.id
    ensures (forall i :: 0 <= i < |edits| ==> edits[i].EditStatus?) ==>
      UpdatePayload(ApplyRecordEdits(r, edits)).date == r.date
    decreases |edits|
  {
    if edits != [] {
      var p := edits[..|edits| - 1];
      EditsKeepReferences(r, p);
      assert forall i :: 0 <= i < |p| ==> p[i] == edits[i];
    }
  }

  /** What the edit-student form lets the user change. */
  datatype StudentEdit = EditName(name: string) | EditEmail(email: string) | EditRoll(rollNumber: string)

  function ApplyStudentEdits(s: Student, edits: seq<StudentEdit>): Student
    decreases |edits|
  {
    if edits == [] then s
    else
      var s' := ApplyStudentEdits(s, edits[..|edits| - 1]);
      match edits[|edits| - 1]
      case EditName(v) => s'.(name := v)
      case EditEmail(v) => s'.(email := v)
      case EditRoll(v) => s'.(rollNumber := v)
  }

  /** Editing the modal never changes the id the update is sent to. */
  lemma {:induction false} StudentEditsKeepId(s: Student, edits: seq<StudentEdit>)
    ensures ApplyStudentEdits(s, edits).id == s.id
    decreases |edits|
  {
    if edits != [] {
      StudentEditsKeepId(s, edits[..|edits| - 1]);
    }
  }

  /** The three editable fields of a student, as the `.js` update sends them. */
  function FormOf(s: Student): (f: StudentForm)
    ensures f.name == s.name && f.email == s.email && f.rollNumber == s.rollNumber
  {
    StudentForm(s.name, s.email, s.rollNumber)
  }
}
