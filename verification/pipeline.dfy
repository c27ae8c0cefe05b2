/** The path of a student's QR code from registration to the scanning page:
    the payload stored when the student is added, read back by the scanner,
    posted to the scan endpoint, and shown in the page's list. The scanner
    is assumed to read back exactly the text the server wrote, and `loads`
    to parse that text into the stored payload. */
module Pipeline {
  import opened Wrappers
  import opened Json
  import opened Models
  import opened Forms
  import opened Routes
  import QrScanner

  /** What the page's promise chain receives for an answer: a JSON reply is
      delivered with its `student` object; the 404 page is not JSON, so
      `response.json()` rejects like a network failure. */
  function ToOutcome(a: Answer): (o: QrScanner.FetchOutcome)
    ensures a.NotFound? <==> o.TransportError?
    ensures a.Reply? ==> o.reply.success == a.success && o.reply.message == a.message
    ensures a.Reply? ==> (o.reply.student.Some? <==> a.student.Some?)
  {
    match a
    case NotFound => QrScanner.TransportError
    case Reply(ok, message, student) =>
      var info := if student.Some? then Some(QrScanner.StudentInfo(student.value.name, student.value.studentId)) else None;
      QrScanner.Delivered(QrScanner.Reply(ok, message, info))
  }

  /** A student added by the handler as written carries a payload whose
      `id` is null, so scanning that very code is refused as missing a
      student id, and nothing is recorded. */
  lemma AsWrittenCodeIsRefused(db: Db, f: StudentInput, emailOk: string -> bool, newKey: int, nowIso: string,
                               activityField: string, text: string, loads: string -> Option<Json>, uid: int, now: int)
    requires newKey !in db.students && StudentValid(db, None, f, emailOk)
    requires ScanFormValid(activityField, text)
    requires ParseKey(activityField).Some? && ParseKey(activityField).value in db.activities
    requires loads(text) == Some(AddStudentAsWritten(db, f, emailOk, newKey, nowIso).students[newKey].qrData)
    ensures var db1 := AddStudentAsWritten(db, f, emailOk, newKey, nowIso);
            ScanAttendance(db1, activityField, text, loads, uid, now, None) ==
              (db1, Failure("Student ID missing in QR code"))
  {
    var db1 := AddStudentAsWritten(db, f, emailOk, newKey, nowIso);
    assert db1.students[newKey].qrData == GenerateQrData(None, FromInput(f), nowIso);
  }

  /** With the payload generated after the key is known, scanning a newly
      added student's code records the attendance, and the page puts the
      student, under their full name, at the top of its list. A new key has
      no rows yet because every row points at a stored student. */
  lemma AddedStudentIsRecorded(db: Db, f: StudentInput, emailOk: string -> bool, newKey: int, nowIso: string,
                               activityField: string, text: string, loads: string -> Option<Json>, uid: int, now: int,
                               view: QrScanner.View)
    requires newKey !in db.students && StudentValid(db, None, f, emailOk)
    requires ScanFormValid(activityField, text)
    requires ParseKey(activityField).Some? && ParseKey(activityField).value in db.activities
    requires newKey >= 0 && RefIntegrity(db)
    requires loads(text) == Some(AddStudent(db, f, emailOk, newKey, nowIso).0.students[newKey].qrData)
    ensures var db1 := AddStudent(db, f, emailOk, newKey, nowIso).0;
            var (db2, answer) := ScanAttendance(db1, activityField, text, loads, uid, now, None);
            var s := db1.students[newKey];
            answer.Reply? && answer.success &&
            db2.attendance == db.attendance + [Attendance(newKey, ParseKey(activityField).value, uid, now)] &&
            QrScanner.HandleOutcome(true, view, ToOutcome(answer)).items ==
              [QrScanner.StudentInfo(FullName(s), f.studentId)] + view.items
  {
    var db1 := AddStudent(db, f, emailOk, newKey, nowIso).0;
    var s := db1.students[newKey];
    var aid := ParseKey(activityField).value;
    assert s.qrData == GenerateQrData(Some(newKey), FromInput(f), nowIso);
    assert JsonKey(s.qrData.fields["id"]) == Some(newKey);
    assert db1.attendance == db.attendance;
    assert !Recorded(db1.attendance, newKey, aid);
  }
}
