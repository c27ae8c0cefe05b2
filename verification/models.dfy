/** The records of `models.py` and the behaviour attached to them: a
    student's full name and QR payload, an activity's ongoing window and
    attendance rate, and the idempotent recording of attendance. The database
    is a value: tables keyed by primary key, and the attendance rows in
    insertion order. Times are whole seconds of naive UTC time. */
module Models {
  import opened Wrappers
  import opened Json

  datatype User = User(username: string, email: string, isAdmin: bool)

  /** A student row without its primary key, which is the key it is stored
      under (and None while the row is not yet committed). `qrData` holds the
      payload that `qr_data` stores as JSON text. */
  datatype Student = Student(
    studentId: string,
    firstName: string,
    lastName: string,
    email: string,
    phone: string,
    qrData: Json)

  datatype Activity = Activity(
    name: string,
    startTime: int,
    endTime: int,
    isActive: bool,
    createdBy: int)

  /** An attendance row: the student's and activity's primary keys, the user
      who scanned, and when. */
  datatype Attendance = Attendance(studentId: int, activityId: int, scannedBy: int, timestamp: int)

  datatype Db = Db(
    users: map<int, User>,
    students: map<int, Student>,
    activities: map<int, Activity>,
    attendance: seq<Attendance>)

  // ---------------------------------------------------------------- Student

  /** `full_name()` */
  /** The first name, one space, and the last name: both names can be read
      back from it. */
  function FullName(s: Student): (r: string)
    ensures |r| == |s.firstName| + 1 + |s.lastName|
    ensures r[..|s.firstName|] == s.firstName && r[|s.firstName|] == ' '
    ensures r[|s.firstName| + 1..] == s.lastName
  {
    s.firstName + " " + s.lastName
  }

  /** The payload of `generate_qr_data()`: the primary key as it stands
      (`null` before the first commit), the student id, the full name and the
      ISO time of generation. */
  function GenerateQrData(pk: Option<int>, s: Student, nowIso: string): (r: Json)
    ensures r.JObject? && r.fields.Keys == {"id", "student_id", "name", "timestamp"}
    ensures r.fields["id"] == JNull <==> pk.None?
    ensures r.fields["student_id"] == JStr(s.studentId)
    ensures r.fields["name"] == JStr(FullName(s))
  {
    JObject(map["id" := OptionalInt(pk), "student_id" := JStr(s.studentId),
                "name" := JStr(FullName(s)), "timestamp" := JStr(nowIso)])
  }

  /** `save_qr_data()`: the new payload replaces `qr_data` and nothing else
      about the student changes. */
  function SaveQrData(pk: Option<int>, s: Student, nowIso: string): (r: Student)
    ensures r.qrData == GenerateQrData(pk, s, nowIso)
    ensures r.(qrData := s.qrData) == s
  {
    s.(qrData := GenerateQrData(pk, s, nowIso))
  }

  /** The payload a student's stored QR code names: its `id` entry when that
      is an integer. */
  function PayloadKey(payload: Json): Option<int> {
    if payload.JObject? && "id" in payload.fields && payload.fields["id"].JInt? then
      Some(payload.fields["id"].i)
    else None
  }

  /** A payload generated for a committed student names that student, and
      one generated before the commit names nobody. */
  lemma QrDataNamesStudent(pk: Option<int>, s: Student, nowIso: string)
    ensures PayloadKey(SaveQrData(pk, s, nowIso).qrData) == pk
  {
  }

  // ---------------------------------------------------------------- Activity

  /** `is_ongoing()` at time `now`. */
  function IsOngoing(a: Activity, now: int): (r: bool)
    ensures r ==> a.isActive && a.startTime <= now <= a.endTime
    ensures a.isActive && a.startTime <= now <= a.endTime ==> r
    ensures r ==> a.startTime <= a.endTime
    ensures a.endTime < a.startTime ==> !r
  {
    a.startTime <= now <= a.endTime && a.isActive
  }

  /** An active activity is ongoing on its closed window and nowhere else,
      in particular at both ends; an inactive one never is. */
  lemma OngoingWindow(a: Activity, now: int)
    ensures IsOngoing(a, now) ==> a.isActive && a.startTime <= a.endTime
    ensures a.isActive && a.startTime <= a.endTime ==> IsOngoing(a, a.startTime) && IsOngoing(a, a.endTime)
    ensures a.isActive && a.startTime <= now <= a.endTime ==> IsOngoing(a, now)
    ensures now < a.startTime || now > a.endTime || !a.isActive ==> !IsOngoing(a, now)
  {
  }

  /** How many rows record attendance at the activity `aid`. */
  function CountFor(rows: seq<Attendance>, aid: int): (n: nat)
    ensures n <= |rows|
  {
    if |rows| == 0 then 0
    else CountFor(rows[..|rows| - 1], aid) + (if rows[|rows| - 1].activityId == aid then 1 else 0)
  }

  /** `get_attendance_rate()` as an exact percentage: 0 without students,
      else the activity's rows per student times 100. */
  function AttendanceRate(db: Db, aid: int): (r: real)
    ensures |db.students| == 0 ==> r == 0.0
    ensures r >= 0.0
    ensures |db.students| > 0 && CountFor(db.attendance, aid) <= |db.students| ==> r <= 100.0
  {
    var total := |db.students|;
    if total == 0 then 0.0
    else
      var attended := CountFor(db.attendance, aid);
      RateBound(attended, total);
      (attended as real / total as real) * 100.0
  }

  lemma RateBound(attended: nat, total: nat)
    requires total > 0
    ensures (attended as real / total as real) * 100.0 >= 0.0
    ensures attended <= total ==> (attended as real / total as real) * 100.0 <= 100.0
  {
    if attended <= total {
      assert attended as real / total as real <= 1.0;
    }
  }

  // ---------------------------------------------------------------- Attendance

  predicate Recorded(rows: seq<Attendance>, sid: int, aid: int) {
    exists i :: 0 <= i < |rows| && rows[i].studentId == sid && rows[i].activityId == aid
  }

  /** At most one row per (student, activity) pair. */
  predicate UniquePairs(rows: seq<Attendance>) {
    forall i, j :: 0 <= i < j < |rows| ==>
      (rows[i].studentId, rows[i].activityId) != (rows[j].studentId, rows[j].activityId)
  }

  /** `Attendance.record_attendance(student_id, activity_id, user_id)` at time
      `now`: False and no change when the pair is already recorded, else one
      new row and True. */
  function RecordAttendance(db: Db, sid: int, aid: int, uid: int, now: int): (r: (Db, bool))
    ensures r.1 <==> !Recorded(db.attendance, sid, aid)
    ensures !r.1 ==> r.0 == db
    ensures r.1 ==> r.0 == db.(attendance := db.attendance + [Attendance(sid, aid, uid, now)])
    ensures Recorded(r.0.attendance, sid, aid)
  {
    if Recorded(db.attendance, sid, aid) then (db, false)
    else
      var rows := db.attendance + [Attendance(sid, aid, uid, now)];
      assert rows[|rows| - 1].studentId == sid && rows[|rows| - 1].activityId == aid;
      (db.(attendance := rows), true)
  }

  /** Recording keeps at most one row per pair, and asking again for the same
      pair answers False and changes nothing. */
  lemma RecordKeepsPairsUnique(db: Db, sid: int, aid: int, uid: int, now: int, uid2: int, later: int)
    requires UniquePairs(db.attendance)
    ensures UniquePairs(RecordAttendance(db, sid, aid, uid, now).0.attendance)
    ensures var db1 := RecordAttendance(db, sid, aid, uid, now).0;
            RecordAttendance(db1, sid, aid, uid2, later) == (db1, false)
  {
    var rows := RecordAttendance(db, sid, aid, uid, now).0.attendance;
    if rows != db.attendance {
      forall i, j | 0 <= i < j < |rows|
        ensures (rows[i].studentId, rows[i].activityId) != (rows[j].studentId, rows[j].activityId)
      {
        if j == |rows| - 1 {
          assert rows[i] == db.attendance[i];
        }
      }
    }
  }
}
