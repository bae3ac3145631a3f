/**
 * Session gating and the small display rules of the portal's views: the
 * `login_required` decorator, the role-based `dashboard` redirect, the name
 * shown for a user, and the experience label in the recruiter's lists.
 */
module Access {
  import opened Wrappers
  import opened Text

  /** What the session holds after login: the user's id and role, when set. */
  datatype Session = Session(userId: Option<nat>, role: Option<string>)

  /** Where a request ends up. */
  datatype Outcome = ToLogin | ToDashboard | Proceed

  /**
   * `login_required(role)`: without a user id in the session the request is
   * sent to the login page; with a required role (a non-empty string) that
   * differs from the session's role, to the dashboard; otherwise the view runs.
   */
  function LoginRequired(s: Session, role: string): (r: Outcome)
    ensures r == ToLogin <==> s.userId.None?
    ensures r == ToDashboard <==> s.userId.Some? && role != "" && s.role != Some(role)
    ensures r == Proceed <==> s.userId.Some? && (role == "" || s.role == Some(role))
  {
    if s.userId.None? then ToLogin
    else if role != "" && s.role != Some(role) then ToDashboard
    else Proceed
  }

  /** A view with no required role runs for every logged-in session, whatever its role. */
  lemma UngatedViewRunsForAnyRole(s: Session)
    requires s.userId.Some?
    ensures LoginRequired(s, "") == Proceed
  {
  }

  /** The dashboards a role is sent to. */
  datatype Dashboard = AdminDashboard | RecruiterDashboard | ApplicantDashboard

  const Admin: string := "ADMIN"
  const Recruiter: string := "RECRUITER"
  const Jobseeker: string := "JOBSEEKER"

  /**
   * `dashboard`: the role's own dashboard. Any other role, or none, makes the
   * dictionary lookup fail, modelled as `None`.
   */
  function DashboardFor(role: Option<string>): (r: Option<Dashboard>)
    ensures r.Some? <==> role == Some(Admin) || role == Some(Recruiter) || role == Some(Jobseeker)
    ensures r == Some(AdminDashboard) <==> role == Some(Admin)
    ensures r == Some(RecruiterDashboard) <==> role == Some(Recruiter)
    ensures r == Some(ApplicantDashboard) <==> role == Some(Jobseeker)
  {
    match role
    case Some(x) =>
      if x == Admin then Some(AdminDashboard)
      else if x == Recruiter then Some(RecruiterDashboard)
      else if x == Jobseeker then Some(ApplicantDashboard)
      else None
    case None => None
  }

  /** The role gate a role's dashboard sits behind: every dashboard admits exactly its own role. */
  function DashboardRole(d: Dashboard): string {
    match d
    case AdminDashboard => Admin
    case RecruiterDashboard => Recruiter
    case ApplicantDashboard => Jobseeker
  }

  /** The redirect lands on a dashboard whose gate lets the same session through. */
  lemma DashboardAdmitsItsRole(s: Session)
    requires s.userId.Some? && DashboardFor(s.role).Some?
    ensures LoginRequired(s, DashboardRole(DashboardFor(s.role).value)) == Proceed
  {
  }

  /**
   * `email.split('@')[0]`: the text before the first '@', or the whole
   * address when it has none.
   */
  function DisplayName(email: string): (r: string)
    ensures r <= email
    ensures '@' !in r
    ensures |r| < |email| ==> email[|r|] == '@'
  {
    SplitPrefix(email, "");
    var pieces := Split(email, '@');
    assert pieces[0] in pieces;
    pieces[0]
  }

  /** The first piece of a split is the text up to the first separator. */
  lemma {:induction false} SplitPrefix(s: string, cur: string)
    requires NoneOf(cur, {'@'})
    ensures var p := SplitFrom(s, '@', cur)[0];
            && |cur| <= |p| <= |cur| + |s| && p == cur + s[..|p| - |cur|]
            && (|p| < |cur| + |s| ==> s[|p| - |cur|] == '@')
    decreases |s|
  {
    if s != [] && s[0] != '@' {
      SplitPrefix(s[1..], cur + [s[0]]);
      var p := SplitFrom(s, '@', cur)[0];
      assert p == cur + [s[0]] + s[1..][..|p| - |cur| - 1];
      assert s[..|p| - |cur|] == [s[0]] + s[1..][..|p| - |cur| - 1];
    }
  }

  /** An address with exactly one '@' shows the local part. */
  lemma DisplayNameLocalPart(local: string, domain: string)
    requires '@' !in local
    ensures DisplayName(local + "@" + domain) == local
  {
    var e := local + "@" + domain;
    assert e[|local|] == '@';
    assert e[..|local|] == local;
  }

  /**
   * `str(experience) + ' years'` when the experience is set (non-zero, so a
   * negative value is shown as "-3 years"), otherwise "Not specified".
   */
  function ExperienceLabel(experience: int): (r: string)
    ensures experience == 0 <==> r == "Not specified"
    ensures experience != 0 ==> r == IntToDecimal(experience) + " years"
    ensures experience > 0 ==> r == NatToDecimal(experience) + " years"
    ensures experience < 0 ==> r == "-" + NatToDecimal(-experience) + " years"
  {
    if experience != 0 then
      var r := IntToDecimal(experience) + " years";
      assert r[|r| - 1] == 's';
      r
    else "Not specified"
  }
}
