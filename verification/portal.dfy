/**
 * The application lifecycle behind the portal's JSON endpoints, as pure
 * functions over an immutable store: applying to a job (with the screening
 * shortlist), recording hiring decisions, the recruiter's list of
 * undecided applications, and the admin's user and interview updates.
 *
 * Applications and decisions are kept as sequences so that "at most one
 * per (job, applicant)" is a property the operations preserve rather than
 * a consequence of the representation.
 */
module Portal {
  import opened Wrappers
  import opened Entities
  import opened Screening

  datatype User = User(email: string, role: string, isActive: bool)

  datatype Application = Application(id: nat, job: nat, applicant: nat, status: string, score: Option<real>)

  datatype Decision = Decision(job: nat, applicant: nat, finalStatus: string)

  datatype Interview = Interview(date: Option<string>, time: Option<string>, status: string)

  /** The database. Applicants are keyed by their user id. */
  datatype Store = Store(
    users: map<nat, User>,
    applicants: map<nat, Applicant>,
    jobs: map<nat, Job>,
    applications: seq<Application>,
    interviews: map<nat, Interview>,
    decisions: seq<Decision>)

  /** A 404 page, or a `{"success": false}` reply with status 400. */
  datatype ApiError = NotFound | BadRequest

  const Shortlisted: string := "Shortlisted"
  const Selected: string := "Selected"
  const Hired: string := "Hired"
  const Cancelled: string := "Cancelled"
  const Scheduled: string := "Scheduled"

  // ================================================================ invariants and lookups

  predicate AppOfPair(a: Application, job: nat, applicant: nat) {
    a.job == job && a.applicant == applicant
  }

  predicate DecisionOfPair(d: Decision, job: nat, applicant: nat) {
    d.job == job && d.applicant == applicant
  }

  /** At most one application per (job, applicant) and per id. */
  predicate ApplicationsUnique(apps: seq<Application>) {
    forall i, j :: 0 <= i < j < |apps| ==>
      !AppOfPair(apps[j], apps[i].job, apps[i].applicant) && apps[i].id != apps[j].id
  }

  /** At most one decision per (job, applicant). */
  predicate DecisionsUnique(decs: seq<Decision>) {
    forall i, j :: 0 <= i < j < |decs| ==> !DecisionOfPair(decs[j], decs[i].job, decs[i].applicant)
  }

  predicate Valid(st: Store) {
    ApplicationsUnique(st.applications) && DecisionsUnique(st.decisions)
  }

  /** The first application of a (job, applicant) pair. */
  function FindApplication(apps: seq<Application>, job: nat, applicant: nat): (r: Option<nat>)
    ensures r.Some? ==> r.value < |apps| && AppOfPair(apps[r.value], job, applicant)
    ensures r.Some? ==> forall k :: 0 <= k < r.value ==> !AppOfPair(apps[k], job, applicant)
    ensures r.None? ==> forall k :: 0 <= k < |apps| ==> !AppOfPair(apps[k], job, applicant)
    decreases |apps|
  {
    if apps == [] then None
    else if AppOfPair(apps[0], job, applicant) then Some(0)
    else match FindApplication(apps[1..], job, applicant)
      case Some(k) => Some(k + 1)
      case None => None
  }

  /** The first application with a given id. */
  function FindById(apps: seq<Application>, id: nat): (r: Option<nat>)
    ensures r.Some? ==> r.value < |apps| && apps[r.value].id == id
    ensures r.None? ==> forall k :: 0 <= k < |apps| ==> apps[k].id != id
    decreases |apps|
  {
    if apps == [] then None
    else if apps[0].id == id then Some(0)
    else match FindById(apps[1..], id)
      case Some(k) => Some(k + 1)
      case None => None
  }

  /** The first decision of a (job, applicant) pair. */
  function FindDecision(decs: seq<Decision>, job: nat, applicant: nat): (r: Option<nat>)
    ensures r.Some? ==> r.value < |decs| && DecisionOfPair(decs[r.value], job, applicant)
    ensures r.None? ==> forall k :: 0 <= k < |decs| ==> !DecisionOfPair(decs[k], job, applicant)
    decreases |decs|
  {
    if decs == [] then None
    else if DecisionOfPair(decs[0], job, applicant) then Some(0)
    else match FindDecision(decs[1..], job, applicant)
      case Some(k) => Some(k + 1)
      case None => None
  }

  /** The status of a pair's application, if it has one. */
  function StatusOf(apps: seq<Application>, job: nat, applicant: nat): Option<string> {
    match FindApplication(apps, job, applicant)
    case Some(i) => Some(apps[i].status)
    case None => None
  }

  /** The recorded decision of a pair, if any. */
  function DecisionFor(decs: seq<Decision>, job: nat, applicant: nat): Option<string> {
    match FindDecision(decs, job, applicant)
    case Some(i) => Some(decs[i].finalStatus)
    case None => None
  }

  // ================================================================ applying (api_job_apply)

  /** The user's applicant profile, or the blank one `get_or_create` would make. */
  function ApplicantOf(st: Store, user: nat): Applicant {
    if user in st.applicants then st.applicants[user] else BlankApplicant
  }

  /** Applying shortlists straight away when the job has criteria and the applicant passes them. */
  predicate ShortlistsOnApply(job: Job, a: Applicant) {
    job.criteria.Some? && PassesScreening(a, job.criteria)
  }

  predicate FreshId(st: Store, id: nat) {
    forall k :: 0 <= k < |st.applications| ==> st.applications[k].id != id
  }

  /**
   * `api_job_apply`: a missing job is a 404. Otherwise the user's applicant
   * profile is fetched or created, their application to the job fetched or
   * created (with `freshId` and `initialStatus`, the column default), and
   * set to "Shortlisted" when screening passes; otherwise its status stays.
   * No other application, and nothing else, changes.
   */
  function Apply(st: Store, jobId: nat, user: nat, freshId: nat, initialStatus: string): (r: Result<Store, ApiError>)
    requires FreshId(st, freshId)
    ensures r.Failure? <==> jobId !in st.jobs
    ensures r.Failure? ==> r.error == NotFound
    ensures r.Success? ==>
              && r.value.users == st.users && r.value.jobs == st.jobs
              && r.value.interviews == st.interviews && r.value.decisions == st.decisions
              && r.value.applicants == st.applicants[user := ApplicantOf(st, user)]
    ensures r.Success? ==>
              StatusOf(r.value.applications, jobId, user)
              == Some(if ShortlistsOnApply(st.jobs[jobId], ApplicantOf(st, user)) then Shortlisted
                      else StatusOf(st.applications, jobId, user).GetOr(initialStatus))
    ensures r.Success? ==> forall j, u :: !(j == jobId && u == user) ==>
              StatusOf(r.value.applications, j, u) == StatusOf(st.applications, j, u)
    ensures r.Success? && FindApplication(st.applications, jobId, user).Some? ==>
              var i := FindApplication(st.applications, jobId, user).value;
              && |r.value.applications| == |st.applications|
              && r.value.applications[i] == st.applications[i].(status := StatusOf(r.value.applications, jobId, user).value)
              && forall k :: 0 <= k < |st.applications| && k != i ==> r.value.applications[k] == st.applications[k]
    ensures r.Success? && FindApplication(st.applications, jobId, user).None? ==>
              r.value.applications
              == st.applications + [Application(freshId, jobId, user, StatusOf(r.value.applications, jobId, user).value, None)]
    ensures r.Success? && Valid(st) ==> Valid(r.value)
  {
    if jobId !in st.jobs then Failure(NotFound)
    else
      var applicant := ApplicantOf(st, user);
      var shortlist := ShortlistsOnApply(st.jobs[jobId], applicant);
      var apps := st.applications;
      var apps' :=
        match FindApplication(apps, jobId, user)
        case Some(i) =>
          if shortlist then apps[i := apps[i].(status := Shortlisted)] else apps
        case None =>
          apps + [Application(freshId, jobId, user, if shortlist then Shortlisted else initialStatus, None)];
      ApplyEffect(apps, jobId, user, freshId, shortlist, initialStatus);
      Success(st.(applicants := st.applicants[user := applicant], applications := apps'))
  }

  /** The application list after applying, as `Apply` builds it. */
  function AppliedList(apps: seq<Application>, jobId: nat, user: nat, freshId: nat, shortlist: bool, initialStatus: string)
    : seq<Application>
  {
    match FindApplication(apps, jobId, user)
    case Some(i) => if shortlist then apps[i := apps[i].(status := Shortlisted)] else apps
    case None => apps + [Application(freshId, jobId, user, if shortlist then Shortlisted else initialStatus, None)]
  }

  lemma ApplyEffect(apps: seq<Application>, jobId: nat, user: nat, freshId: nat, shortlist: bool, initialStatus: string)
    requires forall k :: 0 <= k < |apps| ==> apps[k].id != freshId
    ensures var apps' := AppliedList(apps, jobId, user, freshId, shortlist, initialStatus);
            && StatusOf(apps', jobId, user)
               == Some(if shortlist then Shortlisted else StatusOf(apps, jobId, user).GetOr(initialStatus))
            && (forall j, u :: !(j == jobId && u == user) ==> StatusOf(apps', j, u) == StatusOf(apps, j, u))
            && (ApplicationsUnique(apps) ==> ApplicationsUnique(apps'))
  {
    var apps' := AppliedList(apps, jobId, user, freshId, shortlist, initialStatus);
    match FindApplication(apps, jobId, user)
    case Some(i) =>
      assert |apps'| == |apps|;
      assert forall k :: 0 <= k < |apps| ==> apps'[k].job == apps[k].job && apps'[k].applicant == apps[k].applicant
                                               && apps'[k].id == apps[k].id;
      SameKeysSameFinds(apps, apps');
      forall j, u | !(j == jobId && u == user)
        ensures StatusOf(apps', j, u) == StatusOf(apps, j, u)
      {
        var f := FindApplication(apps, j, u);
        if f.Some? {
          assert f.value != i;
        }
      }
    case None =>
      FindInExtended(apps, Application(freshId, jobId, user, if shortlist then Shortlisted else initialStatus, None));
  }

  /** Two lists with the same (job, applicant) keys at every index find the same positions. */
  lemma SameKeysSameFinds(a: seq<Application>, b: seq<Application>)
    requires |a| == |b|
    requires forall k :: 0 <= k < |a| ==> a[k].job == b[k].job && a[k].applicant == b[k].applicant
    ensures forall j, u :: FindApplication(a, j, u) == FindApplication(b, j, u)
  {
    forall j, u ensures FindApplication(a, j, u) == FindApplication(b, j, u) {
      SameKeysSameFind(a, b, j, u);
    }
  }

  lemma {:induction false} SameKeysSameFind(a: seq<Application>, b: seq<Application>, j: nat, u: nat)
    requires |a| == |b|
    requires forall k :: 0 <= k < |a| ==> a[k].job == b[k].job && a[k].applicant == b[k].applicant
    ensures FindApplication(a, j, u) == FindApplication(b, j, u)
    decreases |a|
  {
    if a != [] {
      SameKeysSameFind(a[1..], b[1..], j, u);
    }
  }

  /** Appending an application of a new pair leaves every other pair's lookup alone. */
  lemma FindInExtended(apps: seq<Application>, x: Application)
    requires FindApplication(apps, x.job, x.applicant).None?
    requires forall k :: 0 <= k < |apps| ==> apps[k].id != x.id
    ensures FindApplication(apps + [x], x.job, x.applicant) == Some(|apps|)
    ensures forall j, u :: !(j == x.job && u == x.applicant) ==>
              FindApplication(apps + [x], j, u) == FindApplication(apps, j, u)
    ensures ApplicationsUnique(apps) ==> ApplicationsUnique(apps + [x])
  {
    var ext := apps + [x];
    FindInPrefix(apps, x, x.job, x.applicant);
    forall j, u | !(j == x.job && u == x.applicant)
      ensures FindApplication(ext, j, u) == FindApplication(apps, j, u)
    {
      FindInPrefix(apps, x, j, u);
    }
  }

  lemma {:induction false} FindInPrefix(apps: seq<Application>, x: Application, j: nat, u: nat)
    ensures FindApplication(apps, j, u).Some? ==> FindApplication(apps + [x], j, u) == FindApplication(apps, j, u)
    ensures FindApplication(apps, j, u).None? ==>
              FindApplication(apps + [x], j, u) == (if AppOfPair(x, j, u) then Some(|apps|) else None)
    decreases |apps|
  {
    if apps != [] {
      assert (apps + [x])[1..] == apps[1..] + [x];
      FindInPrefix(apps[1..], x, j, u);
    } else {
      assert apps + [x] == [x];
    }
  }

  /** Applying again changes nothing: at most one application per (job, applicant), same status. */
  lemma ApplyIdempotent(st: Store, jobId: nat, user: nat, freshId: nat, freshId': nat, initialStatus: string)
    requires FreshId(st, freshId)
    requires Apply(st, jobId, user, freshId, initialStatus).Success?
    requires FreshId(Apply(st, jobId, user, freshId, initialStatus).value, freshId')
    ensures var st' := Apply(st, jobId, user, freshId, initialStatus).value;
            Apply(st', jobId, user, freshId', initialStatus) == Success(st')
  {
    var st' := Apply(st, jobId, user, freshId, initialStatus).value;
    var applicant := ApplicantOf(st, user);
    assert ApplicantOf(st', user) == applicant;
    var shortlist := ShortlistsOnApply(st.jobs[jobId], applicant);
    var apps := st.applications;
    ApplyEffect(apps, jobId, user, freshId, shortlist, initialStatus);
    var f := FindApplication(st'.applications, jobId, user);
    assert f.Some?;
    if shortlist {
      assert st'.applications[f.value].status == Shortlisted;
      assert st'.applications[f.value := st'.applications[f.value].(status := Shortlisted)] == st'.applications;
    }
    assert st'.applicants[user := applicant] == st'.applicants;
  }

  // ================================================================ decisions

  /** `update_or_create` on (job, applicant): overwrite that pair's decision or add one. */
  function Upsert(decs: seq<Decision>, d: Decision): (r: seq<Decision>)
    ensures DecisionFor(r, d.job, d.applicant) == Some(d.finalStatus)
    ensures forall j, u :: !(j == d.job && u == d.applicant) ==> DecisionFor(r, j, u) == DecisionFor(decs, j, u)
    ensures DecisionsUnique(decs) ==> DecisionsUnique(r)
  {
    match FindDecision(decs, d.job, d.applicant)
    case Some(k) =>
      var r := decs[k := d];
      DecisionKeysSameFinds(decs, r);
      r
    case None =>
      AppendDecision(decs, d);
      decs + [d]
  }

  /** Appending a decision for an undecided pair decides it and nothing else. */
  lemma AppendDecision(decs: seq<Decision>, d: Decision)
    requires FindDecision(decs, d.job, d.applicant).None?
    ensures DecisionFor(decs + [d], d.job, d.applicant) == Some(d.finalStatus)
    ensures forall j, u :: !(j == d.job && u == d.applicant) ==>
              DecisionFor(decs + [d], j, u) == DecisionFor(decs, j, u)
    ensures DecisionsUnique(decs) ==> DecisionsUnique(decs + [d])
  {
    FindDecisionInPrefix(decs, d, d.job, d.applicant);
    forall j, u | !(j == d.job && u == d.applicant)
      ensures DecisionFor(decs + [d], j, u) == DecisionFor(decs, j, u)
    {
      FindDecisionInPrefix(decs, d, j, u);
    }
  }

  lemma DecisionKeysSameFinds(a: seq<Decision>, b: seq<Decision>)
    requires |a| == |b|
    requires forall k :: 0 <= k < |a| ==> a[k].job == b[k].job && a[k].applicant == b[k].applicant
    ensures forall j, u :: FindDecision(a, j, u) == FindDecision(b, j, u)
  {
    forall j, u ensures FindDecision(a, j, u) == FindDecision(b, j, u) {
      DecisionKeysSameFind(a, b, j, u);
    }
  }

  lemma {:induction false} DecisionKeysSameFind(a: seq<Decision>, b: seq<Decision>, j: nat, u: nat)
    requires |a| == |b|
    requires forall k :: 0 <= k < |a| ==> a[k].job == b[k].job && a[k].applicant == b[k].applicant
    ensures FindDecision(a, j, u) == FindDecision(b, j, u)
    decreases |a|
  {
    if a != [] {
      DecisionKeysSameFind(a[1..], b[1..], j, u);
    }
  }

  lemma {:induction false} FindDecisionInPrefix(decs: seq<Decision>, x: Decision, j: nat, u: nat)
    ensures FindDecision(decs, j, u).Some? ==> FindDecision(decs + [x], j, u) == FindDecision(decs, j, u)
    ensures FindDecision(decs, j, u).None? ==>
              FindDecision(decs + [x], j, u) == (if DecisionOfPair(x, j, u) then Some(|decs|) else None)
    decreases |decs|
  {
    if decs != [] {
      assert (decs + [x])[1..] == decs[1..] + [x];
      FindDecisionInPrefix(decs[1..], x, j, u);
    } else {
      assert decs + [x] == [x];
    }
  }

  /** The application with a given id, if any. */
  function AppById(apps: seq<Application>, id: nat): Option<Application> {
    match FindById(apps, id)
    case Some(i) => Some(apps[i])
    case None => None
  }

  /**
   * Recording a decision on an application (`api_make_decision` with
   * `scope == Some(user)`, `api_admin_make_decision` with `scope == None`).
   * An unknown application, or one whose job's recruiter is not `scope`, is
   * a 404 for the recruiter and a 400 for the admin. Otherwise the pair's
   * decision becomes `decision` (added or overwritten: the last write wins),
   * and "Hired" also marks the application "Selected"; any other decision
   * leaves application statuses alone.
   */
  function MakeDecision(st: Store, appId: nat, decision: string, scope: Option<nat>): (r: Result<Store, ApiError>)
    ensures r.Success? <==> AppById(st.applications, appId).Some? && (scope.None? || OwnsApplication(st, scope.value, appId))
    ensures r.Failure? ==> r.error == if scope.Some? then NotFound else BadRequest
    ensures r.Success? ==>
              var app := AppById(st.applications, appId).value;
              && DecisionFor(r.value.decisions, app.job, app.applicant) == Some(decision)
              && (forall j, u :: !(j == app.job && u == app.applicant) ==>
                    DecisionFor(r.value.decisions, j, u) == DecisionFor(st.decisions, j, u))
              && (decision == Hired ==>
                    var i := FindById(st.applications, appId).value;
                    r.value.applications == st.applications[i := app.(status := Selected)])
              && (decision != Hired ==> r.value.applications == st.applications)
              && r.value.users == st.users && r.value.jobs == st.jobs
              && r.value.applicants == st.applicants && r.value.interviews == st.interviews
    ensures r.Success? && Valid(st) ==> Valid(r.value)
  {
    match FindById(st.applications, appId)
    case None => Failure(if scope.Some? then NotFound else BadRequest)
    case Some(i) =>
      var app := st.applications[i];
      if scope.Some? && !(app.job in st.jobs && st.jobs[app.job].recruiter == scope.value) then Failure(NotFound)
      else
        var decs := Upsert(st.decisions, Decision(app.job, app.applicant, decision));
        var apps := if decision == Hired then st.applications[i := app.(status := Selected)] else st.applications;
        KeysKept(st.applications, i, app.(status := Selected));
        Success(st.(decisions := decs, applications := apps))
  }

  /** The application exists and its job was posted by `recruiter`. */
  predicate OwnsApplication(st: Store, recruiter: nat, appId: nat) {
    && AppById(st.applications, appId).Some?
    && AppById(st.applications, appId).value.job in st.jobs
    && st.jobs[AppById(st.applications, appId).value.job].recruiter == recruiter
  }

  /** Changing one application's status keeps ids, pairs and lookups. */
  lemma KeysKept(apps: seq<Application>, i: nat, a: Application)
    requires i < |apps| && a.id == apps[i].id && a.job == apps[i].job && a.applicant == apps[i].applicant
    ensures ApplicationsUnique(apps) ==> ApplicationsUnique(apps[i := a])
    ensures FindById(apps[i := a], a.id) == FindById(apps, a.id)
  {
    ByIdSame(apps, apps[i := a]);
  }

  lemma {:induction false} ByIdSame(a: seq<Application>, b: seq<Application>)
    requires |a| == |b| && forall k :: 0 <= k < |a| ==> a[k].id == b[k].id
    ensures forall id :: FindById(a, id) == FindById(b, id)
    decreases |a|
  {
    if a != [] {
      ByIdSame(a[1..], b[1..]);
    }
  }

  /**
   * `hire`: the recruiter's shortcut for a "Hired" decision. An application
   * that does not exist or is not on one of the recruiter's jobs is a 404;
   * otherwise the pair's decision becomes "Hired" and the application, and
   * no other, becomes "Selected".
   */
  function Hire(st: Store, appId: nat, user: nat): (r: Result<Store, ApiError>)
    ensures r.Failure? <==> !OwnsApplication(st, user, appId)
    ensures r.Failure? ==> r.error == NotFound
    ensures r.Success? ==>
              var i := FindById(st.applications, appId).value;
              var app := st.applications[i];
              && DecisionFor(r.value.decisions, app.job, app.applicant) == Some(Hired)
              && (forall j, u :: !(j == app.job && u == app.applicant) ==>
                    DecisionFor(r.value.decisions, j, u) == DecisionFor(st.decisions, j, u))
              && r.value.applications == st.applications[i := app.(status := Selected)]
              && AppById(r.value.applications, appId) == Some(app.(status := Selected))
              && r.value == st.(decisions := r.value.decisions, applications := r.value.applications)
  {
    match FindById(st.applications, appId)
    case Some(i) =>
      KeysKept(st.applications, i, st.applications[i].(status := Selected));
      MakeDecision(st, appId, Hired, Some(user))
    case None => MakeDecision(st, appId, Hired, Some(user))
  }

  // ================================================================ undecided applications

  /**
   * The recruiter's shortlisted applications that have no decision for
   * their (job, applicant) yet, in store order.
   */
  function Undecided(st: Store, recruiter: nat): (r: seq<Application>)
    ensures forall a :: a in r <==> a in st.applications && IsUndecided(st, recruiter, a)
  {
    UndecidedIn(st, recruiter, st.applications)
  }

  predicate IsUndecided(st: Store, recruiter: nat, a: Application) {
    && a.job in st.jobs
    && st.jobs[a.job].recruiter == recruiter
    && a.status == Shortlisted
    && DecisionFor(st.decisions, a.job, a.applicant).None?
  }

  function UndecidedIn(st: Store, recruiter: nat, apps: seq<Application>): (r: seq<Application>)
    ensures forall a :: a in r <==> a in apps && IsUndecided(st, recruiter, a)
    decreases |apps|
  {
    if apps == [] then []
    else
      var rest := UndecidedIn(st, recruiter, apps[1..]);
      assert forall a :: a in apps <==> a == apps[0] || a in apps[1..];
      if IsUndecided(st, recruiter, apps[0]) then [apps[0]] + rest else rest
  }

  /**
   * Once a decision is recorded for an application, no application of that
   * (job, applicant) is undecided any more, whatever the decision.
   */
  lemma DecisionLeavesUndecided(st: Store, appId: nat, decision: string, scope: Option<nat>, recruiter: nat)
    requires MakeDecision(st, appId, decision, scope).Success?
    ensures var st' := MakeDecision(st, appId, decision, scope).value;
            var app := AppById(st.applications, appId).value;
            forall a :: a in Undecided(st', recruiter) ==> !(a.job == app.job && a.applicant == app.applicant)
  {
  }

  /** A decision for one pair leaves the other pairs' undecided applications in the list. */
  lemma DecisionKeepsOtherUndecided(st: Store, appId: nat, decision: string, scope: Option<nat>, recruiter: nat,
                                    a: Application)
    requires MakeDecision(st, appId, decision, scope).Success?
    requires a in Undecided(st, recruiter)
    requires var app := AppById(st.applications, appId).value;
             !(a.job == app.job && a.applicant == app.applicant)
    ensures a in Undecided(MakeDecision(st, appId, decision, scope).value, recruiter)
  {
    var st' := MakeDecision(st, appId, decision, scope).value;
    var i := FindById(st.applications, appId).value;
    var k :| 0 <= k < |st.applications| && st.applications[k] == a;
    if decision == Hired {
      assert k != i;
      assert st'.applications[k] == a;
    }
  }

  // ================================================================ admin updates

  /**
   * `api_admin_update_user`: "deactivate" and "activate" set the account's
   * active flag; any other action changes nothing and still succeeds. An
   * unknown user is reported as a failed request.
   */
  function UpdateUser(st: Store, userId: nat, action: Option<string>): (r: Result<Store, ApiError>)
    ensures r.Failure? <==> userId !in st.users
    ensures r.Failure? ==> r.error == BadRequest
    ensures r.Success? ==> r.value.users.Keys == st.users.Keys
    ensures r.Success? && action == Some("deactivate") ==> !r.value.users[userId].isActive
    ensures r.Success? && action == Some("activate") ==> r.value.users[userId].isActive
    ensures r.Success? && action != Some("activate") && action != Some("deactivate") ==> r.value == st
    ensures r.Success? ==> r.value == st.(users := r.value.users)
    ensures r.Success? ==> forall id :: id in st.users && id != userId ==> r.value.users[id] == st.users[id]
    ensures r.Success? ==> r.value.users[userId] == st.users[userId].(isActive := r.value.users[userId].isActive)
  {
    if userId !in st.users then Failure(BadRequest)
    else
      var u := st.users[userId];
      if action == Some("deactivate") then Success(st.(users := st.users[userId := u.(isActive := false)]))
      else if action == Some("activate") then Success(st.(users := st.users[userId := u.(isActive := true)]))
      else Success(st)
  }

  /** The status shown in the admin's user list. */
  function UserStatusLabel(u: User): (r: string)
    ensures r == "active" <==> u.isActive
    ensures r == "active" || r == "inactive"
  {
    if u.isActive then "active" else "inactive"
  }

  /** Deactivating and then activating shows the user as "active" again, the account otherwise as it was. */
  lemma DeactivateActivate(st: Store, userId: nat)
    requires userId in st.users && st.users[userId].isActive
    ensures var st1 := UpdateUser(st, userId, Some("deactivate")).value;
            && UserStatusLabel(st1.users[userId]) == "inactive"
            && UpdateUser(st1, userId, Some("activate")) == Success(st)
  {
    var st1 := UpdateUser(st, userId, Some("deactivate")).value;
    assert st1.users[userId := st.users[userId]] == st.users;
  }

  /**
   * `api_admin_update_interview`: "cancel" marks the interview "Cancelled";
   * "reschedule" replaces its date and time and marks it "Scheduled"; any
   * other action changes nothing. An unknown interview is a failed request,
   * and so is a reschedule whose date or time the columns refuse, in which
   * case nothing is saved. Which values the date and time columns accept is
   * given by `dateOk` and `timeOk`: the column definitions are not part of
   * this model.
   */
  function UpdateInterview(st: Store, id: nat, action: Option<string>, date: Option<string>, time: Option<string>,
                           dateOk: Option<string> -> bool, timeOk: Option<string> -> bool)
    : (r: Result<Store, ApiError>)
    ensures r.Failure? <==> id !in st.interviews || (action == Some("reschedule") && !(dateOk(date) && timeOk(time)))
    ensures r.Failure? ==> r.error == BadRequest
    ensures r.Success? ==> r.value == st.(interviews := r.value.interviews)
    ensures r.Success? ==> r.value.interviews.Keys == st.interviews.Keys
    ensures r.Success? ==> forall k :: k in st.interviews && k != id ==> r.value.interviews[k] == st.interviews[k]
    ensures r.Success? && action == Some("cancel") ==>
              r.value.interviews[id] == st.interviews[id].(status := Cancelled)
    ensures r.Success? && action == Some("reschedule") ==>
              r.value.interviews[id] == Interview(date, time, Scheduled)
    ensures r.Success? && action != Some("cancel") && action != Some("reschedule") ==> r.value == st
  {
    if id !in st.interviews then Failure(BadRequest)
    else
      var it := st.interviews[id];
      if action == Some("cancel") then Success(st.(interviews := st.interviews[id := it.(status := Cancelled)]))
      else if action == Some("reschedule") then
        if dateOk(date) && timeOk(time) then
          Success(st.(interviews := st.interviews[id := Interview(date, time, Scheduled)]))
        else Failure(BadRequest)
      else Success(st)
  }

  /** A cancelled interview can be brought back by rescheduling it. */
  lemma CancelThenReschedule(st: Store, id: nat, date: Option<string>, time: Option<string>,
                             dateOk: Option<string> -> bool, timeOk: Option<string> -> bool)
    requires id in st.interviews && dateOk(date) && timeOk(time)
    ensures var st1 := UpdateInterview(st, id, Some("cancel"), None, None, dateOk, timeOk).value;
            && st1.interviews[id].status == Cancelled
            && UpdateInterview(st1, id, Some("reschedule"), date, time, dateOk, timeOk).value.interviews[id]
               == Interview(date, time, Scheduled)
  {
  }
}
