/** The request handlers of `routes.py` that carry the application's rules:
    recording a scan, the take-attendance gate, adding and editing students,
    the cascading deletes, and the attendance report's filters. A request is
    a function from the store and the request's inputs to the new store and
    the answer. A failure of the database during a request is the `fault`
    parameter: the message of the exception it raised. */
module Routes {
  import opened Wrappers
  import opened Json
  import opened Feedback
  import opened JsText
  import opened Models
  import opened Forms
  import opened Utils

  /** A primary key written as text, as a URL segment or a form field gives
      it: decimal digits only. */
  function ParseKey(s: string): (r: Option<int>)
    ensures r.Some? ==> r.value >= 0
    ensures r.Some? <==> |s| > 0 && AllDigits(s)
  {
    if |s| > 0 && AllDigits(s) then Some(DecimalValue(s)) else None
  }

  /** A written key reads back as itself. */
  lemma ParseKeyRoundTrip(k: nat)
    ensures ParseKey(NatToString(k)) == Some(k)
  {
    DecimalRoundTrip(k);
  }

  // ---------------------------------------------------------------- scan

  /** The `student` object of a successful reply. */
  datatype StudentBrief = StudentBrief(id: int, name: string, studentId: string)

  /** A JSON reply, or the 404 page of `get_or_404`. */
  datatype Answer = Reply(success: bool, message: string, student: Option<StudentBrief>) | NotFound

  /** The key a payload's `id` entry names: an integer, or digits in a
      string; any other JSON value names no student. */
  function JsonKey(v: Json): Option<int> {
    match v
    case JInt(i) => Some(i)
    case JStr(s) => ParseKey(s)
    case _ => None
  }

  function Failure(message: string): Answer {
    Reply(false, message, None)
  }

  /** The form is valid and names a stored activity: the scan gets past the
      404. */
  predicate Admitted(db: Db, activityField: string, scannedData: string) {
    ScanFormValid(activityField, scannedData) &&
    ParseKey(activityField).Some? && ParseKey(activityField).value in db.activities
  }

  /** The `id` entry of a parsed payload, when the payload is a JSON object
      that has one. */
  function IdEntry(data: Option<Json>): Option<Json> {
    if data.Some? && data.value.JObject? && "id" in data.value.fields then Some(data.value.fields["id"])
    else None
  }

  /** `scan_attendance()`: `activityField` and `scannedData` are the posted
      hidden fields, `loads` parses JSON text (None for a decode error), `uid`
      is the scanning user and `now` the time of the request. */
  function ScanAttendance(db: Db, activityField: string, scannedData: string, loads: string -> Option<Json>,
                          uid: int, now: int, fault: Option<string>): (r: (Db, Answer))
    ensures !ScanFormValid(activityField, scannedData) ==> r == (db, Failure("Invalid form submission"))
    ensures (ScanFormValid(activityField, scannedData) &&
             (ParseKey(activityField).None? || ParseKey(activityField).value !in db.activities)) ==> r == (db, NotFound)
    ensures Admitted(db, activityField, scannedData) && loads(scannedData).None? ==>
              r == (db, Failure("Invalid QR code data"))
    ensures Admitted(db, activityField, scannedData) && loads(scannedData).Some? &&
            IdEntry(loads(scannedData)).None? ==>
              r == (db, Failure("Invalid QR code format"))
    ensures Admitted(db, activityField, scannedData) && IdEntry(loads(scannedData)) == Some(JNull) ==>
              r == (db, Failure("Student ID missing in QR code"))
    ensures Admitted(db, activityField, scannedData) && IdEntry(loads(scannedData)).Some? &&
            IdEntry(loads(scannedData)) != Some(JNull) && fault.Some? ==>
              r == (db, Failure("Error: " + fault.value))
    ensures Admitted(db, activityField, scannedData) && IdEntry(loads(scannedData)).Some? &&
            IdEntry(loads(scannedData)) != Some(JNull) && fault.None? &&
            (JsonKey(IdEntry(loads(scannedData)).value).None? ||
             JsonKey(IdEntry(loads(scannedData)).value).value !in db.students) ==>
              r == (db, Failure("Student not found"))
    ensures Admitted(db, activityField, scannedData) && IdEntry(loads(scannedData)).Some? &&
            IdEntry(loads(scannedData)) != Some(JNull) && fault.None? &&
            JsonKey(IdEntry(loads(scannedData)).value).Some? &&
            JsonKey(IdEntry(loads(scannedData)).value).value in db.students &&
            Recorded(db.attendance, JsonKey(IdEntry(loads(scannedData)).value).value, ParseKey(activityField).value) ==>
              r == (db, Failure("Attendance already recorded for " +
                                FullName(db.students[JsonKey(IdEntry(loads(scannedData)).value).value])))
    ensures r.0 != db ==> r.1.Reply? && r.1.success
    ensures r.1.Reply? && r.1.success ==>
              r.1.student.Some? && r.1.student.value.id in db.students &&
              ParseKey(activityField).Some? && ParseKey(activityField).value in db.activities &&
              !Recorded(db.attendance, r.1.student.value.id, ParseKey(activityField).value) &&
              r.0 == RecordAttendance(db, r.1.student.value.id, ParseKey(activityField).value, uid, now).0 &&
              r.1.student.value.name == FullName(db.students[r.1.student.value.id]) &&
              r.1.student.value.studentId == db.students[r.1.student.value.id].studentId
  {
    if !ScanFormValid(activityField, scannedData) then (db, Failure("Invalid form submission"))
    else
      var aid := ParseKey(activityField);
      if aid.None? || aid.value !in db.activities then (db, NotFound)
      else
        match loads(scannedData)
        case None => (db, Failure("Invalid QR code data"))
        case Some(data) =>
          if !data.JObject? || "id" !in data.fields then (db, Failure("Invalid QR code format"))
          else if data.fields["id"] == JNull then (db, Failure("Student ID missing in QR code"))
          else if fault.Some? then (db, Failure("Error: " + fault.value))
          else
            var key := JsonKey(data.fields["id"]);
            if key.None? || key.value !in db.students then (db, Failure("Student not found"))
            else
              var s := db.students[key.value];
              var (db', recorded) := RecordAttendance(db, key.value, aid.value, uid, now);
              if recorded then
                (db', Reply(true, "Attendance recorded for " + FullName(s), Some(StudentBrief(key.value, FullName(s), s.studentId))))
              else (db', Failure("Attendance already recorded for " + FullName(s)))
  }

  /** Every attendance row refers to a stored student and activity. */
  predicate RefIntegrity(db: Db) {
    forall i :: 0 <= i < |db.attendance| ==>
      db.attendance[i].studentId in db.students && db.attendance[i].activityId in db.activities
  }

  /** A scan keeps at most one row per student and activity, and keeps every
      row pointing at stored records. */
  lemma ScanKeepsInvariants(db: Db, activityField: string, scannedData: string, loads: string -> Option<Json>,
                            uid: int, now: int, fault: Option<string>)
    requires UniquePairs(db.attendance) && RefIntegrity(db)
    ensures var db' := ScanAttendance(db, activityField, scannedData, loads, uid, now, fault).0;
            UniquePairs(db'.attendance) && RefIntegrity(db')
  {
    var (db', a) := ScanAttendance(db, activityField, scannedData, loads, uid, now, fault);
    if db' != db {
      var sid := a.student.value.id;
      var aid := ParseKey(activityField).value;
      RecordKeepsPairsUnique(db, sid, aid, uid, now, uid, now);
      assert db'.attendance == db.attendance + [Attendance(sid, aid, uid, now)];
    }
  }

  /** The same payload scanned twice for the same activity: the second
      answer says it is already recorded and the store stays as the first
      scan left it. */
  lemma ScanTwice(db: Db, activityField: string, scannedData: string, loads: string -> Option<Json>,
                  uid: int, now: int, uid2: int, later: int)
    requires ScanAttendance(db, activityField, scannedData, loads, uid, now, None).1.Reply?
    requires ScanAttendance(db, activityField, scannedData, loads, uid, now, None).1.success
    ensures var (db1, a) := ScanAttendance(db, activityField, scannedData, loads, uid, now, None);
            ScanAttendance(db1, activityField, scannedData, loads, uid2, later, None) ==
              (db1, Failure("Attendance already recorded for " + a.student.value.name))
  {
  }

  /** The converse of the success clause of `ScanAttendance`: a valid form
      naming a stored activity, a JSON object whose `id` names a stored
      student, no database error and no earlier row for the pair give a
      success reply that names the student and records the row. */
  lemma ScanSucceeds(db: Db, activityField: string, scannedData: string, loads: string -> Option<Json>,
                     uid: int, now: int, aid: int, sid: int)
    requires ScanFormValid(activityField, scannedData)
    requires ParseKey(activityField) == Some(aid) && aid in db.activities
    requires loads(scannedData).Some? && loads(scannedData).value.JObject?
    requires "id" in loads(scannedData).value.fields
    requires loads(scannedData).value.fields["id"] != JNull
    requires JsonKey(loads(scannedData).value.fields["id"]) == Some(sid)
    requires sid in db.students && !Recorded(db.attendance, sid, aid)
    ensures var s := db.students[sid];
            ScanAttendance(db, activityField, scannedData, loads, uid, now, None) ==
              (db.(attendance := db.attendance + [Attendance(sid, aid, uid, now)]),
               Reply(true, "Attendance recorded for " + FullName(s), Some(StudentBrief(sid, FullName(s), s.studentId))))
  {
  }

  /** Scanning only checks that the activity exists: an inactive activity
      still accepts a scan. */
  lemma ScanIgnoresOngoing()
    ensures var db := Db(map[], map[1 := Student("STU1001", "Ada", "Lovelace", "ada@example.org", "", JNull)],
                         map[1 := Activity("Lab", 0, 10, false, 1)], []);
            var loads := (t: string) => Some(JObject(map["id" := JInt(1)]));
            !IsOngoing(db.activities[1], 100) &&
            ScanAttendance(db, "1", "{\"id\": 1}", loads, 7, 100, None).1 ==
              Reply(true, "Attendance recorded for Ada Lovelace", Some(StudentBrief(1, "Ada Lovelace", "STU1001")))
  {
    var db := Db(map[], map[1 := Student("STU1001", "Ada", "Lovelace", "ada@example.org", "", JNull)],
                 map[1 := Activity("Lab", 0, 10, false, 1)], []);
    var loads := (t: string) => Some(JObject(map["id" := JInt(1)]));
    assert ScanFormValid("1", "{\"id\": 1}") by {
      assert !PySpace("1"[0]);
      assert !PySpace("{\"id\": 1}"[0]);
    }
    assert ParseKey("1") == Some(1);
    assert JsonKey(JInt(1)) == Some(1);
    ScanSucceeds(db, "1", "{\"id\": 1}", loads, 7, 100, 1, 1);
    AdaRecorded(db.students[1]);
  }

  lemma AdaRecorded(s: Student)
    requires s == Student("STU1001", "Ada", "Lovelace", "ada@example.org", "", JNull)
    ensures FullName(s) == "Ada Lovelace"
    ensures "Attendance recorded for " + FullName(s) == "Attendance recorded for Ada Lovelace"
  {
    assert FullName(s) == "Ada" + " " + "Lovelace";
  }

  // ---------------------------------------------------------------- take attendance

  /** What a page route answers: the 404 page, a redirect with an optional
      flash, the scanning page, or a form template rendered again. */
  datatype Page =
    | Missing
    | Redirected(target: string, notice: Option<Notice>)
    | TakePage(activityId: int)
    | FormPage(template: string)

  const NotActiveNotice := Notice(Warning, "Cannot take attendance for activities that are not currently active.")

  /** `take_attendance(activity_id)` at time `now`: the scanning page opens
      only for an activity that is ongoing. */
  function TakeAttendance(db: Db, aid: int, now: int): (r: Page)
    ensures r.TakePage? <==> aid in db.activities && IsOngoing(db.activities[aid], now)
    ensures r.TakePage? ==> r.activityId == aid
    ensures r == Missing <==> aid !in db.activities
  {
    if aid !in db.activities then Missing
    else if !IsOngoing(db.activities[aid], now) then Redirected("activities_list", Some(NotActiveNotice))
    else TakePage(aid)
  }

  /** The gate follows the activity's window: an active activity opens the
      page at every instant of its window, both ends included, and is
      refused with the warning outside it; an inactive one is always
      refused. */
  lemma TakeAttendanceWindow(db: Db, aid: int, now: int)
    requires aid in db.activities
    ensures var a := db.activities[aid];
            a.isActive && a.startTime <= a.endTime ==>
              TakeAttendance(db, aid, a.startTime) == TakePage(aid) &&
              TakeAttendance(db, aid, a.endTime) == TakePage(aid)
    ensures var a := db.activities[aid];
            a.isActive && a.startTime <= now <= a.endTime ==> TakeAttendance(db, aid, now) == TakePage(aid)
    ensures var a := db.activities[aid];
            now < a.startTime || now > a.endTime || !a.isActive ==>
              TakeAttendance(db, aid, now) == Redirected("activities_list", Some(NotActiveNotice))
  {
    OngoingWindow(db.activities[aid], now);
  }

  // ---------------------------------------------------------------- students

  /** A new student built from the form, before its QR data is set. */
  function FromInput(f: StudentInput): Student {
    Student(f.studentId, f.firstName, f.lastName, f.email, f.phone, JNull)
  }

  /** `add_student()` as written: the QR data is generated before the first
      commit, while the student has no primary key yet, so the stored
      payload's `id` is null. `newKey` is the key the commit assigns. */
  function AddStudentAsWritten(db: Db, f: StudentInput, emailOk: string -> bool, newKey: int, nowIso: string): (r: Db)
    requires newKey !in db.students
    ensures StudentValid(db, None, f, emailOk) ==> newKey in r.students && PayloadKey(r.students[newKey].qrData).None?
    ensures !StudentValid(db, None, f, emailOk) ==> r == db
  {
    if StudentValid(db, None, f, emailOk) then
      var s := SaveQrData(None, FromInput(f), nowIso);
      QrDataNamesStudent(None, FromInput(f), nowIso);
      db.(students := db.students[newKey := s])
    else db
  }

  /** `add_student()` with the QR data generated once the key is known, as
      `edit_student` and the QR-data endpoint already do. */
  function AddStudent(db: Db, f: StudentInput, emailOk: string -> bool, newKey: int, nowIso: string): (r: (Db, Page))
    requires newKey !in db.students
    ensures StudentValid(db, None, f, emailOk) ==>
              newKey in r.0.students && r.0.students[newKey].(qrData := JNull) == FromInput(f) &&
              PayloadKey(r.0.students[newKey].qrData) == Some(newKey) &&
              r.0 == db.(students := r.0.students) && r.0.students - {newKey} == db.students
    ensures !StudentValid(db, None, f, emailOk) ==> r == (db, FormPage("students/add.html"))
    ensures StudentValid(db, None, f, emailOk) ==>
              r.1 == Redirected("students_list",
                                Some(Notice(Success, "Student " + FullName(FromInput(f)) + " has been added!")))
    ensures UniqueStudents(db) ==> UniqueStudents(r.0)
  {
    if StudentValid(db, None, f, emailOk) then
      var s := SaveQrData(Some(newKey), FromInput(f), nowIso);
      QrDataNamesStudent(Some(newKey), FromInput(f), nowIso);
      var db' := db.(students := db.students[newKey := s]);
      assert db'.students - {newKey} == db.students;
      (db', Redirected("students_list", Some(Notice(Success, "Student " + FullName(s) + " has been added!"))))
    else (db, FormPage("students/add.html"))
  }

  /** `edit_student(id)`: the form is checked against the id the student
      had, the fields are replaced and the QR data regenerated. */
  function EditStudent(db: Db, key: int, f: StudentInput, emailOk: string -> bool, nowIso: string): (r: Db)
    ensures key !in db.students ==> r == db
    ensures key in db.students && StudentValid(db, Some(db.students[key].studentId), f, emailOk) ==>
              r.students.Keys == db.students.Keys && r.students[key].(qrData := JNull) == FromInput(f) &&
              PayloadKey(r.students[key].qrData) == Some(key) &&
              forall k :: k in db.students && k != key ==> r.students[k] == db.students[k]
    ensures UniqueStudents(db) ==> UniqueStudents(r)
  {
    if key !in db.students || !StudentValid(db, Some(db.students[key].studentId), f, emailOk) then db
    else
      var s := SaveQrData(Some(key), FromInput(f), nowIso);
      QrDataNamesStudent(Some(key), FromInput(f), nowIso);
      var r := db.(students := db.students[key := s]);
      EditKeepsUnique(db, key, f, emailOk, nowIso);
      r
  }

  lemma EditKeepsUnique(db: Db, key: int, f: StudentInput, emailOk: string -> bool, nowIso: string)
    requires key in db.students && StudentValid(db, Some(db.students[key].studentId), f, emailOk)
    ensures UniqueStudents(db) ==>
              UniqueStudents(db.(students := db.students[key := SaveQrData(Some(key), FromInput(f), nowIso)]))
  {
    if !UniqueStudents(db) {
      return;
    }
    var old_ := db.students[key];
    var s := SaveQrData(Some(key), FromInput(f), nowIso);
    var st := db.students[key := s];
    forall j, k | j in st && k in st && j != k
      ensures st[j].studentId != st[k].studentId && st[j].email != st[k].email
    {
      if j == key || k == key {
        var other := if j == key then k else j;
        assert st[other] == db.students[other];
        if f.studentId != old_.studentId {
          assert db.students[other].studentId != f.studentId;
        } else {
          assert db.students[other].studentId != old_.studentId;
        }
      }
    }
  }

  // ---------------------------------------------------------------- deletes

  /** The rows of `rows` that satisfy `keep`, in order. */
  function Filter(rows: seq<Attendance>, keep: Attendance -> bool): (r: seq<Attendance>)
    ensures |r| <= |rows|
    ensures forall x :: x in r <==> x in rows && keep(x)
  {
    if |rows| == 0 then []
    else
      var init := Filter(rows[..|rows| - 1], keep);
      var last := rows[|rows| - 1];
      assert rows == rows[..|rows| - 1] + [last];
      if keep(last) then init + [last] else init
  }

  /** Filtering works row by row and keeps the order: filtering two runs of
      rows is filtering each and putting the results side by side. */
  lemma {:induction false} FilterConcat(a: seq<Attendance>, b: seq<Attendance>, keep: Attendance -> bool)
    ensures Filter(a + b, keep) == Filter(a, keep) + Filter(b, keep)
    decreases |b|
  {
    if |b| == 0 {
      assert a + b == a;
    } else {
      var init, last := b[..|b| - 1], b[|b| - 1];
      FilterConcat(a, init, keep);
      FilterDropLast(a, b, keep);
      ConcatAssoc(Filter(a, keep), Filter(init, keep), if keep(last) then [last] else []);
    }
  }

  lemma FilterDropLast(a: seq<Attendance>, b: seq<Attendance>, keep: Attendance -> bool)
    requires |b| > 0
    ensures Filter(a + b, keep)
            == Filter(a + b[..|b| - 1], keep) + (if keep(b[|b| - 1]) then [b[|b| - 1]] else [])
  {
    var ab := a + b;
    assert ab[..|ab| - 1] == a + b[..|b| - 1];
    assert ab[|ab| - 1] == b[|b| - 1];
  }

  lemma ConcatAssoc<T>(x: seq<T>, y: seq<T>, z: seq<T>)
    ensures (x + y) + z == x + (y + z)
  {
  }

  /** A single row is kept exactly when it satisfies `keep`. */
  lemma FilterSingle(x: Attendance, keep: Attendance -> bool)
    ensures Filter([x], keep) == if keep(x) then [x] else []
  {
    assert [x][..0] == [];
  }

  /** Filtering keeps at most one row per pair. */
  lemma {:induction false} FilterKeepsUnique(rows: seq<Attendance>, keep: Attendance -> bool)
    requires UniquePairs(rows)
    ensures UniquePairs(Filter(rows, keep))
    decreases |rows|
  {
    if |rows| > 0 {
      var init := rows[..|rows| - 1];
      var last := rows[|rows| - 1];
      FilterKeepsUnique(init, keep);
      var r := Filter(rows, keep);
      if keep(last) {
        var fi := Filter(init, keep);
        assert r == fi + [last];
        forall i | 0 <= i < |fi|
          ensures (fi[i].studentId, fi[i].activityId) != (last.studentId, last.activityId)
        {
          assert fi[i] in init;
          var j :| 0 <= j < |init| && init[j] == fi[i];
          assert rows[j] == init[j];
        }
      }
    }
  }

  /** `delete_student(id)` behind its guards: anonymous users are sent to
      log in, non-admins to the dashboard; then a missing student is a 404;
      a database failure rolls back; otherwise the student's attendance rows
      go first and then the student. */
  function DeleteStudent(db: Db, u: CurrentUser, key: int, fault: Option<string>): (r: (Db, Page))
    ensures r.0 != db ==> IsAdmin(u) && key in db.students && fault.None?
    ensures u.Anonymous? ==> r == (db, Redirected("login", Some(LoginNotice)))
    ensures u.LoggedIn? && !IsAdmin(u) ==> r == (db, Redirected("dashboard", Some(AdminNotice)))
    ensures IsAdmin(u) && key !in db.students ==> r == (db, Missing)
    ensures IsAdmin(u) && key in db.students && fault.None? ==>
              r.0 == db.(students := db.students - {key},
                         attendance := Filter(db.attendance, (a: Attendance) => a.studentId != key))
    ensures IsAdmin(u) && key in db.students && fault.Some? ==>
              r == (db, Redirected("students_list", Some(Notice(Danger, "Error deleting student: " + fault.value))))
  {
    if u.Anonymous? then (db, Redirected("login", Some(LoginNotice)))
    else
      var body := (x: (Db, int, Option<string>)) => DeleteStudentBody(x.0, x.1, x.2);
      match AdminRequired(u, body, (db, key, fault))
      case Redirect(target, notice) => (db, Redirected(target, Some(notice)))
      case Ran(result) => result
  }

  function DeleteStudentBody(db: Db, key: int, fault: Option<string>): (Db, Page) {
    if key !in db.students then (db, Missing)
    else if fault.Some? then (db, Redirected("students_list", Some(Notice(Danger, "Error deleting student: " + fault.value))))
    else
      var name := FullName(db.students[key]);
      (db.(students := db.students - {key}, attendance := Filter(db.attendance, (a: Attendance) => a.studentId != key)),
       Redirected("students_list", Some(Notice(Success, "Student " + name + " has been deleted."))))
  }

  /** `delete_activity(id)`, with the same guards and the same cascade. */
  function DeleteActivity(db: Db, u: CurrentUser, key: int, fault: Option<string>): (r: (Db, Page))
    ensures r.0 != db ==> IsAdmin(u) && key in db.activities && fault.None?
    ensures u.Anonymous? ==> r == (db, Redirected("login", Some(LoginNotice)))
    ensures u.LoggedIn? && !IsAdmin(u) ==> r == (db, Redirected("dashboard", Some(AdminNotice)))
    ensures IsAdmin(u) && key !in db.activities ==> r == (db, Missing)
    ensures IsAdmin(u) && key in db.activities && fault.None? ==>
              r.0 == db.(activities := db.activities - {key},
                         attendance := Filter(db.attendance, (a: Attendance) => a.activityId != key))
    ensures IsAdmin(u) && key in db.activities && fault.Some? ==>
              r == (db, Redirected("activities_list", Some(Notice(Danger, "Error deleting activity: " + fault.value))))
  {
    if u.Anonymous? then (db, Redirected("login", Some(LoginNotice)))
    else
      var body := (x: (Db, int, Option<string>)) => DeleteActivityBody(x.0, x.1, x.2);
      match AdminRequired(u, body, (db, key, fault))
      case Redirect(target, notice) => (db, Redirected(target, Some(notice)))
      case Ran(result) => result
  }

  function DeleteActivityBody(db: Db, key: int, fault: Option<string>): (Db, Page) {
    if key !in db.activities then (db, Missing)
    else if fault.Some? then (db, Redirected("activities_list", Some(Notice(Danger, "Error deleting activity: " + fault.value))))
    else
      var name := db.activities[key].name;
      (db.(activities := db.activities - {key}, attendance := Filter(db.attendance, (a: Attendance) => a.activityId != key)),
       Redirected("activities_list", Some(Notice(Success, "Activity \"" + name + "\" has been deleted."))))
  }

  /** Deleting keeps every row pointing at stored records and at most one
      row per pair; no row of the deleted record survives, and every other
      row does. */
  lemma DeletesKeepInvariants(db: Db, u: CurrentUser, key: int, fault: Option<string>)
    requires RefIntegrity(db) && UniquePairs(db.attendance)
    ensures var s := DeleteStudent(db, u, key, fault).0;
            RefIntegrity(s) && UniquePairs(s.attendance) &&
            (forall a :: a in s.attendance ==> a.studentId != key || s == db) &&
            (forall a :: a in db.attendance && a.studentId != key ==> a in s.attendance)
    ensures var t := DeleteActivity(db, u, key, fault).0;
            RefIntegrity(t) && UniquePairs(t.attendance) &&
            (forall a :: a in t.attendance ==> a.activityId != key || t == db) &&
            (forall a :: a in db.attendance && a.activityId != key ==> a in t.attendance)
  {
    var s := DeleteStudent(db, u, key, fault).0;
    if s != db {
      FilterKeepsUnique(db.attendance, (a: Attendance) => a.studentId != key);
      forall i | 0 <= i < |s.attendance|
        ensures s.attendance[i].studentId in s.students && s.attendance[i].activityId in s.activities
      {
        assert s.attendance[i] in db.attendance;
      }
    }
    var t := DeleteActivity(db, u, key, fault).0;
    if t != db {
      FilterKeepsUnique(db.attendance, (a: Attendance) => a.activityId != key);
      forall i | 0 <= i < |t.attendance|
        ensures t.attendance[i].studentId in t.students && t.attendance[i].activityId in t.activities
      {
        assert t.attendance[i] in db.attendance;
      }
    }
  }

  // ---------------------------------------------------------------- report

  const SecondsPerDay := 86400

  /** The report's search form: the hidden activity id, the student id, and
      the two dates as day numbers (None when left empty). `valid` is whether
      the form was submitted and validated. */
  datatype Search = Search(valid: bool, activityId: string, studentId: string, dateFrom: Option<int>, dateTo: Option<int>)

  /** Which rows the report lists: those whose student and activity exist
      (the two joins), restricted by each non-empty filter of a valid form.
      `date_from` is compared from its midnight on, and `date_to` up to but
      not including the midnight after it. */
  predicate InReport(db: Db, q: Search, a: Attendance) {
    a.studentId in db.students && a.activityId in db.activities &&
    (q.valid ==>
      (q.activityId == "" || ParseKey(q.activityId) == Some(a.activityId)) &&
      (q.studentId == "" || db.students[a.studentId].studentId == q.studentId) &&
      (q.dateFrom.None? || a.timestamp >= q.dateFrom.value * SecondsPerDay) &&
      (q.dateTo.None? || a.timestamp < (q.dateTo.value + 1) * SecondsPerDay))
  }

  /** `attendance_report()`'s rows (ordering aside). */
  function Report(db: Db, q: Search): (r: seq<Attendance>)
    ensures forall a :: a in r <==> a in db.attendance && InReport(db, q, a)
  {
    Filter(db.attendance, (a: Attendance) => InReport(db, q, a))
  }

  /** `attendance_report()` as written: with a student id to filter on, the
      query joins `Student` a second time without an alias. The statement
      then names the `student` table twice, which the database refuses, so
      the request fails (None) instead of listing rows. Without that filter
      it lists the rows `Report` describes. */
  function ReportAsWritten(db: Db, q: Search): (r: Option<seq<Attendance>>)
    ensures r.None? <==> q.valid && q.studentId != ""
    ensures r.Some? ==> forall a :: a in r.value <==> a in db.attendance && InReport(db, q, a)
  {
    if q.valid && q.studentId != "" then None else Some(Report(db, q))
  }

  /** A search by a stored student's id: the as-written report fails
      although the corrected one lists that student's row. */
  lemma StudentSearchFails()
    ensures var row := Attendance(1, 1, 7, 100);
            var db := Db(map[], map[1 := Student("STU1001", "Ada", "Lovelace", "ada@example.org", "", JNull)],
                         map[1 := Activity("Lab", 0, 10, true, 1)], [row]);
            var q := Search(true, "", "STU1001", Some(0), Some(0));
            ReportAsWritten(db, q).None? && row in Report(db, q)
  {
    var row := Attendance(1, 1, 7, 100);
    var db := Db(map[], map[1 := Student("STU1001", "Ada", "Lovelace", "ada@example.org", "", JNull)],
                 map[1 := Activity("Lab", 0, 10, true, 1)], [row]);
    var q := Search(true, "", "STU1001", Some(0), Some(0));
    assert InReport(db, q, row);
    assert row in db.attendance;
  }

  /** The corrected report searched by student id alone lists exactly the
      rows of the student holding that id. */
  lemma ReportByStudent(db: Db, q: Search)
    requires RefIntegrity(db)
    requires q.valid && q.activityId == "" && q.studentId != "" && q.dateFrom.None? && q.dateTo.None?
    ensures forall a :: a in Report(db, q) <==>
              a in db.attendance && db.students[a.studentId].studentId == q.studentId
  {
    forall a | a in db.attendance
      ensures a.studentId in db.students && a.activityId in db.activities
    {
      var i :| 0 <= i < |db.attendance| && db.attendance[i] == a;
    }
  }

  /** The day a timestamp falls on. */
  function Day(t: int): int {
    t / SecondsPerDay
  }

  /** The half-open date window is exactly the days from `dateFrom` to
      `dateTo`, both included. */
  lemma DateWindowIsInclusive(t: int, from: int, to: int)
    ensures t >= from * SecondsPerDay && t < (to + 1) * SecondsPerDay <==> from <= Day(t) <= to
  {
    var d := Day(t);
    assert d * SecondsPerDay <= t < (d + 1) * SecondsPerDay;
    if from <= d <= to {
      assert from * SecondsPerDay <= d * SecondsPerDay;
      assert (d + 1) * SecondsPerDay <= (to + 1) * SecondsPerDay;
    }
  }

  /** An unsubmitted or invalid form, or one with every field empty, lists
      every row; with rows pointing at stored records that is all of them. */
  lemma EmptySearchListsAll(db: Db, q: Search)
    requires RefIntegrity(db)
    requires !q.valid || (q.activityId == "" && q.studentId == "" && q.dateFrom.None? && q.dateTo.None?)
    ensures forall a :: a in Report(db, q) <==> a in db.attendance
  {
    forall a | a in db.attendance
      ensures InReport(db, q, a)
    {
      var i :| 0 <= i < |db.attendance| && db.attendance[i] == a;
    }
  }
}
