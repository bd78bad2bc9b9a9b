/** The records the dashboard receives from its backend, the requests it sends
    back, and the abstract outcome of a backend call. */
module Entities {

  datatype Option<+T> = None | Some(value: T)

  /** What a student may be marked as for one class. */
  datatype Status = Present | Absent

  datatype Student = Student(id: string, name: string, rollNumber: string, email: string)

  datatype Subject = Subject(id: string, name: string, code: string)

  /** An attendance row as the backend returns it: the student and the subject
      are embedded objects, not bare ids. */
  datatype AttendanceRecord = AttendanceRecord(
    id: string, date: string, status: Status, student: Student, subject: Subject)

  /** The create-student form and the body of the plain update call. */
  datatype StudentForm = StudentForm(name: string, email: string, rollNumber: string)

  const EmptyStudentForm := StudentForm("", "", "")

  /** Body of both the mark-attendance and the update-attendance calls. */
  datatype AttendanceBody = AttendanceBody(
    studentId: string, subjectId: string, date: string, status: Status)

  /** One call to the backend, as the dashboard issues it. */
  datatype Request =
    | PostStudent(form: StudentForm)
    | PutStudentFields(studentId: string, fields: StudentForm)
    | PutStudent(studentId: string, student: Student)
    | DeleteStudent(studentId: string)
    | PostAttendance(body: AttendanceBody)
    | PutAttendance(recordId: string, body: AttendanceBody)
    | DeleteAttendance(recordId: string)

  /** The backend seen as an oracle: a successful JSON answer, an answer with a
      non-success status carrying the server's error text, or an exception
      (network failure, or a body that is not JSON) with its message. */
  datatype Reply<+T> = Ok(data: T) | Err(error: string) | Thrown(message: string)

  /** The alert a handler raises once it is done. */
  datatype Notice =
    | Silent
    | PasswordShown(password: Option<string>)
    | Succeeded
    | Failed(detail: Option<string>)

  /** JavaScript truthiness of an optional id: null and "" are both falsy. */
  predicate IsSelected(id: Option<string>)
  {
    id.Some? && id.value != ""
  }

  /** `v || fallback` on an optional string: a falsy value (missing or empty)
      gives way to the fallback, shown here as None. */
  function OrElse(v: Option<string>): (t: Option<string>)
    ensures t.Some? <==> IsSelected(v)
    ensures t.Some? ==> t == v
  {
    if IsSelected(v) then v else None
  }
}

/** `Math.round` of a quotient, in exact integers. */
module Rounding {

  /** Math.round(n / d) for d > 0: the integer nearest to n / d, halves rounded
      up (Math.round(x) is floor(x + 1/2)). */
  function RoundDiv(n: int, d: int): (r: int)
    requires d > 0
    ensures 2 * d * r <= 2 * n + d < 2 * d * (r + 1)
  {
    var q := (2 * n + d) / (2 * d);
    assert (2 * d) * q <= 2 * n + d < (2 * d) * (q + 1) by {
      var m := (2 * n + d) % (2 * d);
      assert (2 * d) * q + m == 2 * n + d && 0 <= m < 2 * d;
    }
    q
  }

  /** The rounding bracket determines the result: RoundDiv is the only
      integer within one half of n / d (ties going up). */
  lemma RoundDivUnique(n: int, d: int, r: int)
    requires d > 0
    requires 2 * d * r <= 2 * n + d < 2 * d * (r + 1)
    ensures r == RoundDiv(n, d)
  {
    var q := RoundDiv(n, d);
    if r < q {
      MulMonotone(2 * d, r + 1, q);
    } else if r > q {
      MulMonotone(2 * d, q + 1, r);
    }
  }

  /** RoundDiv never decreases when the numerator grows. */
  lemma RoundDivMonotone(n: int, n': int, d: int)
    requires d > 0 && n <= n'
    ensures RoundDiv(n, d) <= RoundDiv(n', d)
  {
    var r, r' := RoundDiv(n, d), RoundDiv(n', d);
    if r > r' {
      MulMonotone(2 * d, r' + 1, r);
    }
  }

  lemma MulMonotone(k: int, a: int, b: int)
    requires k > 0 && a <= b
    ensures k * a <= k * b
  {
  }

  /** Math.round(present / total * 100) for total > 0. */
  function Percent(present: int, total: int): (p: int)
    requires total > 0
    ensures 0 <= present <= total ==> 0 <= p <= 100
    ensures present == total ==> p == 100
    ensures present == 0 ==> p == 0
  {
    PercentFacts(present, total);
    RoundDiv(100 * present, total)
  }

  lemma PercentFacts(present: int, total: int)
    requires total > 0
    ensures var p := RoundDiv(100 * present, total);
      && (0 <= present <= total ==> 0 <= p <= 100)
      && (present == total ==> p == 100)
      && (present == 0 ==> p == 0)
  {
    var p := RoundDiv(100 * present, total);
    if 0 <= present <= total {
      if p < 0 { MulMonotone(2 * total, p + 1, 0); }
      if p > 100 { MulMonotone(2 * total, 101, p); }
    }
    if present == total {
      RoundDivUnique(100 * present, total, 100);
    }
    if present == 0 {
      RoundDivUnique(0, total, 0);
    }
  }
}
