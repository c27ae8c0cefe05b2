/** The helpers of `utils.py`: the `admin_required` route guard and the
    QR payload builder `generate_qr_code_data`. */
module Utils {
  import opened Wrappers
  import opened Json
  import opened Feedback
  import opened Models

  /** The requesting user as the guard sees it. */
  datatype CurrentUser = Anonymous | LoggedIn(isAdmin: bool)

  /** A guarded route either redirects with a flash, or runs. */
  datatype Guarded<R> = Redirect(target: string, notice: Notice) | Ran(result: R)

  const AdminNotice := Notice(Danger, "You need admin privileges to access this page.")

  /** What `login_required` flashes before sending an anonymous user to the
      `login` view: the login manager's default message, in the category the
      application configures for it. */
  const LoginNotice := Notice(Info, "Please log in to access this page.")

  predicate IsAdmin(u: CurrentUser) {
    u.LoggedIn? && u.isAdmin
  }

  /** `admin_required(f)(*args)`: only an authenticated admin reaches `f`,
      which then gets the same arguments and whose result is passed back
      untouched; everyone else is sent to the dashboard with a danger flash. */
  function AdminRequired<A, R>(u: CurrentUser, f: A -> R, args: A): (r: Guarded<R>)
    ensures r.Ran? <==> IsAdmin(u)
    ensures r.Ran? ==> r.result == f(args)
    ensures r.Redirect? ==> r == Redirect("dashboard", AdminNotice)
  {
    if !u.LoggedIn? || !u.isAdmin then Redirect("dashboard", AdminNotice) else Ran(f(args))
  }

  /** The guard's verdict does not depend on the route it protects: two
      routes are refused or admitted together. */
  lemma GuardIgnoresRoute<A, B, R, S>(u: CurrentUser, f: A -> R, a: A, g: B -> S, b: B)
    ensures AdminRequired(u, f, a).Ran? <==> AdminRequired(u, g, b).Ran?
  {
  }

  /** `generate_qr_code_data(student)`: the student's key, student id and
      name. */
  function QrCodeData(pk: Option<int>, s: Student): (r: Json)
    ensures r.JObject? && r.fields.Keys == {"id", "student_id", "name"}
    ensures r.fields["name"] == JStr(s.firstName + " " + s.lastName)
  {
    JObject(map["id" := OptionalInt(pk), "student_id" := JStr(s.studentId),
                "name" := JStr(s.firstName + " " + s.lastName)])
  }

  /** The helper's payload is the model's payload without the timestamp, so
      both name the student identically. */
  lemma QrCodeDataAgrees(pk: Option<int>, s: Student, nowIso: string)
    ensures QrCodeData(pk, s).fields == GenerateQrData(pk, s, nowIso).fields - {"timestamp"}
    ensures QrCodeData(pk, s).fields["name"] == JStr(FullName(s))
  {
  }
}
