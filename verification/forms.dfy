/** The validation rules of `forms.py` (WTForms): required fields, length
    bounds, password confirmation, the uniqueness checks against the store,
    and the activity's end-after-start rule. The `Email()` syntax check is a
    parameter; date and time fields arrive already parsed (None when the
    input did not parse). */
module Forms {
  import opened Wrappers
  import opened Models

  // ---------------------------------------------------------------- field rules

  /** Python's `str.isspace`, which `DataRequired` uses through `strip()`. */
  predicate PySpace(c: char) {
    c == ' ' || '\t' <= c <= '\r' || '\U{001C}' <= c <= '\U{001F}' || c == '\U{0085}' || c == '\U{00A0}'
    || c == '\U{1680}' || '\U{2000}' <= c <= '\U{200A}' || c == '\U{2028}' || c == '\U{2029}'
    || c == '\U{202F}' || c == '\U{205F}' || c == '\U{3000}'
  }

  /** `DataRequired()`: the value is not empty and not only white space. */
  predicate Required(s: string) {
    exists i :: 0 <= i < |s| && !PySpace(s[i])
  }

  /** `Length(min, max)` on the number of characters; -1 means no bound, as
      in WTForms. */
  predicate LengthOk(s: string, min: int, max: int) {
    |s| >= min && (max == -1 || |s| <= max)
  }

  // ---------------------------------------------------------------- registration

  datatype RegistrationInput = RegistrationInput(
    username: string,
    email: string,
    password: string,
    confirm: string,
    isAdmin: bool)

  predicate UsernameTaken(db: Db, name: string) {
    exists k :: k in db.users && db.users[k].username == name
  }

  predicate UserEmailTaken(db: Db, email: string) {
    exists k :: k in db.users && db.users[k].email == email
  }

  /** `RegistrationForm.validate()`: a taken username or email, a short
      username or password, or a confirmation that differs is refused. */
  function RegistrationValid(db: Db, f: RegistrationInput, emailOk: string -> bool): (ok: bool)
    ensures UsernameTaken(db, f.username) || UserEmailTaken(db, f.email) ==> !ok
    ensures |f.username| < 4 || |f.password| < 6 || f.confirm != f.password ==> !ok
  {
    Required(f.username) && LengthOk(f.username, 4, 64) && !UsernameTaken(db, f.username)
    && Required(f.email) && emailOk(f.email) && !UserEmailTaken(db, f.email)
    && Required(f.password) && LengthOk(f.password, 6, -1)
    && Required(f.confirm) && f.confirm == f.password
  }

  /** No two users share a username or an email. */
  predicate UniqueUsers(db: Db) {
    forall j, k :: j in db.users && k in db.users && j != k ==>
      db.users[j].username != db.users[k].username && db.users[j].email != db.users[k].email
  }

  /** The `register` route's effect: a valid form adds the user under the
      fresh key, anything else leaves the store alone. */
  function Register(db: Db, f: RegistrationInput, emailOk: string -> bool, newKey: int): (r: Db)
    requires newKey !in db.users
    ensures RegistrationValid(db, f, emailOk) ==>
              r == db.(users := db.users[newKey := User(f.username, f.email, f.isAdmin)])
    ensures !RegistrationValid(db, f, emailOk) ==> r == db
    ensures UniqueUsers(db) ==> UniqueUsers(r)
  {
    if RegistrationValid(db, f, emailOk) then db.(users := db.users[newKey := User(f.username, f.email, f.isAdmin)])
    else db
  }

  /** Every accepted registration satisfies the documented bounds. */
  lemma RegistrationBounds(db: Db, f: RegistrationInput, emailOk: string -> bool)
    requires RegistrationValid(db, f, emailOk)
    ensures 4 <= |f.username| <= 64 && |f.password| >= 6 && f.confirm == f.password
    ensures forall k :: k in db.users ==> db.users[k].username != f.username && db.users[k].email != f.email
  {
  }

  // ---------------------------------------------------------------- students

  /** The posted student form. `birthDate` is the date of birth as a day
      number, None when the posted text does not parse as `%Y-%m-%d`; an
      empty field does not parse either, since the field is not optional. */
  datatype StudentInput = StudentInput(
    studentId: string,
    firstName: string,
    lastName: string,
    email: string,
    phone: string,
    birthDate: Option<int>)

  /** The student holding a given student id or email, if any. */
  predicate StudentIdTaken(db: Db, sid: string) {
    exists k :: k in db.students && db.students[k].studentId == sid
  }

  /** `validate_student_id`: only a changed id is looked up, and it is an
      error when another student holds it. `original` is the id the form was
      opened for (None when adding). */
  function StudentIdError(db: Db, original: Option<string>, sid: string): (err: bool)
    ensures err ==> exists k :: k in db.students && db.students[k].studentId == sid
    ensures original.None? ==> (err <==> StudentIdTaken(db, sid))
  {
    original != Some(sid) && StudentIdTaken(db, sid)
  }

  /** `validate_email`: an error when some student has the email and the
      form is not editing that very student (no original id, an empty one,
      or a different one). Under unique emails `.first()` finds the only
      holder, so "some" and "the first" agree. */
  function EmailError(db: Db, original: Option<string>, email: string): (err: bool)
    ensures err ==> exists k :: k in db.students && db.students[k].email == email
    ensures original.None? ==> (err <==> exists k :: k in db.students && db.students[k].email == email)
  {
    exists k :: k in db.students && db.students[k].email == email &&
      (original.None? || original.value == "" || db.students[k].studentId != original.value)
  }

  /** `StudentForm.validate()`, including the date of birth, which must
      parse. Every accepted form has a parsed date of birth, meets the length
      bounds, and passes both uniqueness checks. */
  function StudentValid(db: Db, original: Option<string>, f: StudentInput, emailOk: string -> bool): (ok: bool)
    ensures ok ==> f.birthDate.Some?
    ensures ok ==> 4 <= |f.studentId| <= 20 && 0 < |f.firstName| <= 64 && 0 < |f.lastName| <= 64
    ensures ok ==> 0 < |f.email| <= 120 && |f.phone| <= 20 && emailOk(f.email)
    ensures ok ==> !StudentIdError(db, original, f.studentId) && !EmailError(db, original, f.email)
  {
    f.birthDate.Some? && Required(f.studentId) && LengthOk(f.studentId, 4, 20) && !StudentIdError(db, original, f.studentId)
    && Required(f.firstName) && LengthOk(f.firstName, 0, 64)
    && Required(f.lastName) && LengthOk(f.lastName, 0, 64)
    && Required(f.email) && emailOk(f.email) && LengthOk(f.email, 0, 120) && !EmailError(db, original, f.email)
    && LengthOk(f.phone, 0, 20)
  }

  /** No two students share a student id or an email. */
  predicate UniqueStudents(db: Db) {
    forall j, k :: j in db.students && k in db.students && j != k ==>
      db.students[j].studentId != db.students[k].studentId && db.students[j].email != db.students[k].email
  }

  /** An unchanged student id never raises the id error; a new id raises it
      exactly when some student already holds it. */
  lemma StudentIdRule(db: Db, original: Option<string>, sid: string)
    ensures original == Some(sid) ==> !StudentIdError(db, original, sid)
    ensures original != Some(sid) ==> (StudentIdError(db, original, sid) <==> StudentIdTaken(db, sid))
  {
  }

  /** When editing the student stored under `key`, its own email is not an
      error, and another student's email is. */
  lemma EmailRuleOnEdit(db: Db, key: int, email: string)
    requires UniqueStudents(db) && key in db.students && db.students[key].studentId != ""
    ensures var original := Some(db.students[key].studentId);
            EmailError(db, original, email) <==>
              exists k :: k in db.students && k != key && db.students[k].email == email
  {
    var original := Some(db.students[key].studentId);
    if EmailError(db, original, email) {
      var k :| k in db.students && db.students[k].email == email &&
        (original.None? || original.value == "" || db.students[k].studentId != original.value);
      assert k != key;
    }
  }

  // ---------------------------------------------------------------- activities

  /** What running a validator can end in: no error, a validation error with
      its message, or an exception that aborts the request. */
  datatype Check = Pass | Fail(message: string) | Crash(error: string)

  const EndBeforeStart := "End time must be after start time."

  /** `validate_end_time` as written. It runs after `end_time` passed
      `DataRequired`, so the end time is present; the start time is None
      when its input did not parse, and comparing a datetime with None
      raises a TypeError. */
  function ValidateEndTimeAsWritten(start: Option<int>, end: int): (r: Check)
    ensures start.None? ==> r.Crash?
    ensures start.Some? ==> (r == Fail(EndBeforeStart) <==> end <= start.value)
    ensures start.Some? ==> (r == Pass <==> end > start.value)
  {
    match start
    case None => Crash("TypeError: '<=' not supported between instances of 'datetime.datetime' and 'NoneType'")
    case Some(s) => if end <= s then Fail(EndBeforeStart) else Pass
  }

  /** A missing start time leaves the comparison to the start field's own
      required check, which already reports it. */
  function ValidateEndTime(start: Option<int>, end: int): (r: Check)
    ensures !r.Crash?
    ensures r.Fail? <==> start.Some? && end <= start.value
  {
    match start
    case None => Pass
    case Some(s) => if end <= s then Fail(EndBeforeStart) else Pass
  }

  /** The as-written validator crashes on a form whose start time did not
      parse; the corrected one agrees with it whenever a start time exists. */
  lemma EndTimeCrash(end: int, start: int)
    ensures ValidateEndTimeAsWritten(None, end).Crash?
    ensures !ValidateEndTime(None, end).Crash?
    ensures ValidateEndTime(Some(start), end) == ValidateEndTimeAsWritten(Some(start), end)
  {
  }

  datatype ActivityInput = ActivityInput(
    name: string,
    location: string,
    start: Option<int>,
    end: Option<int>,
    isActive: bool)

  /** `ActivityForm.validate()` with the corrected end-time rule: every
      accepted form has both times and ends strictly after it starts. */
  function ActivityValid(f: ActivityInput): (ok: bool)
    ensures ok ==> f.start.Some? && f.end.Some? && f.start.value < f.end.value
  {
    Required(f.name) && LengthOk(f.name, 0, 100) && LengthOk(f.location, 0, 100)
    && f.start.Some? && f.end.Some? && ValidateEndTime(f.start, f.end.value) == Pass
  }

  // ---------------------------------------------------------------- scan form

  /** `AttendanceScanForm`: both hidden fields are required, so an empty or
      blank field is refused. */
  function ScanFormValid(activityId: string, scannedData: string): (ok: bool)
    ensures ok ==> |activityId| > 0 && |scannedData| > 0
    ensures (forall i :: 0 <= i < |activityId| ==> activityId[i] == ' ') ==> !ok
    ensures (forall i :: 0 <= i < |scannedData| ==> scannedData[i] == ' ') ==> !ok
  {
    Required(activityId) && Required(scannedData)
  }
}
