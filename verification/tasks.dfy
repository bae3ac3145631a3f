/**
 * `parse_resume_task`: the background job that parses an applicant's resume,
 * stores the parsed fields on the profile, rescores every application of the
 * applicant and raises a top-talent alert for each score of at least 50.
 *
 * The PDF text, whether an AI key is configured, the decoded AI reply and the
 * AI relevance number of each application are inputs; the notifications
 * themselves (WebSocket, e-mail, Slack) are reduced to the list of
 * applications they are sent for.
 */
module Tasks {
  import opened Wrappers
  import opened Text
  import opened Resume
  import opened Entities
  import opened Scoring
  import opened Portal
  import Access

  // ================================================================ field coercion

  /**
   * The experience value about to be stored: a missing key gives 0, a string
   * gives the number of its first digit run (0 when it has none), and any
   * other value is kept as it is.
   */
  function CoerceExperience(v: Option<JValue>): (r: JValue)
    ensures v.None? ==> r == JInt(0)
    ensures v.Some? && !v.value.JStr? ==> r == v.value
    ensures v.Some? && v.value.JStr? ==> r.JInt? && r.i >= 0
    ensures v.Some? && v.value.JStr? && FirstDigitRun(v.value.s).None? ==> r == JInt(0)
    ensures v.Some? && v.value.JStr? && FirstDigitRun(v.value.s).Some? ==>
              r == JInt(DigitsValue(FirstDigitRun(v.value.s).value))
    ensures !r.JStr?
  {
    match v
    case None => JInt(0)
    case Some(JStr(s)) =>
      (match FirstDigitRun(s)
       case Some(d) => JInt(DigitsValue(d))
       case None => JInt(0))
    case Some(x) => x
  }

  /** A run of digits followed by a non-digit is read up to that character. */
  lemma {:induction false} DigitRunStops(d: string, t: string)
    requires AllDigits(d)
    requires t == [] || !IsDigit(t[0])
    ensures DigitRun(d + t) == d
    decreases |d|
  {
    if d == [] {
      assert d + t == t;
    } else {
      assert (d + t)[1..] == d[1..] + t;
      DigitRunStops(d[1..], t);
      assert [d[0]] + d[1..] == d;
    }
  }

  /**
   * The experience label the recruiter's list shows, "N years", is read back
   * by the coercion as N.
   */
  lemma ExperienceLabelRoundTrip(n: nat)
    requires n > 0
    ensures CoerceExperience(Some(JStr(Access.ExperienceLabel(n)))) == JInt(n)
  {
    var d := NatToDecimal(n);
    var s := d + " years";
    assert Access.ExperienceLabel(n) == s;
    assert IsDigit(s[0]);
    DigitRunStops(d, " years");
    assert FirstDigitRun(s) == Some(d);
    DecimalRoundTrip(n);
  }

  /**
   * The integer the experience column receives from a coerced value (never a
   * string), or `None` when the value cannot be stored (a list or an
   * object), which makes the save fail. JSON null is stored as NULL, which
   * every reader treats as 0.
   */
  function StoredExperience(v: JValue): (r: Option<int>)
    requires !v.JStr?
    ensures r.None? <==> v.JList? || v.JObject?
    ensures v.JInt? ==> r == Some(v.i)
    ensures v.JNull? ==> r == Some(0)
  {
    match v
    case JInt(i) => Some(i)
    case JNull => Some(0)
    case _ => None
  }

  /** The skills text a parse stores, when the parse has a skills entry that joins. */
  function JoinedSkills(v: JValue): (r: Option<string>)
    ensures r.Some? <==> JoinedStrings(v).Some?
    ensures r.Some? ==> r.value == Join(JoinedStrings(v).value, ", ")
  {
    match JoinedStrings(v)
    case Some(ss) => Some(Join(ss, ", "))
    case None => None
  }

  /**
   * The profile after a parse: the parsed resume is kept, the skills are
   * replaced by the ", "-joined skills entry only when the parse has one,
   * the experience is coerced, and the education is the parsed one or "".
   * `None` when the skills entry cannot be joined or the experience cannot
   * be saved: the task stops before the save and the profile is left as it was.
   */
  function UpdatedApplicant(a: Applicant, p: ParsedResume): (r: Option<Applicant>)
    ensures r.None? <==> (p.skills.Some? && JoinedStrings(p.skills.value).None?)
                         || StoredExperience(CoerceExperience(p.experience)).None?
    ensures r.Some? ==> r.value.parsedData == Some(p) && r.value.hasResume == a.hasResume
    ensures r.Some? && p.skills.None? ==> r.value.skills == a.skills
    ensures r.Some? && p.skills.Some? ==> r.value.skills == Join(JoinedStrings(p.skills.value).value, ", ")
    ensures r.Some? ==> r.value.education == p.education.GetOr("")
    ensures r.Some? ==> Some(r.value.experience) == StoredExperience(CoerceExperience(p.experience))
  {
    var skills := if p.skills.Some? then JoinedSkills(p.skills.value) else Some(a.skills);
    match (skills, StoredExperience(CoerceExperience(p.experience)))
    case (Some(sk), Some(e)) =>
      Some(a.(parsedData := Some(p), skills := sk, experience := e, education := p.education.GetOr("")))
    case _ => None
  }

  /**
   * A skills entry that is a plain string is joined character by character:
   * "Go" is stored as "G, o".
   */
  lemma StringSkillsSpelledOut(a: Applicant, p: ParsedResume, w: string)
    requires p.skills == Some(JStr(w)) && |w| == 2
    requires StoredExperience(CoerceExperience(p.experience)).Some?
    ensures UpdatedApplicant(a, p).Some?
    ensures UpdatedApplicant(a, p).value.skills == [w[0]] + ", " + [w[1]]
  {
    var ss := JoinedStrings(JStr(w)).value;
    assert ss == [[w[0]], [w[1]]];
    assert ss[1..] == [[w[1]]];
    assert Join(ss[1..], ", ") == [w[1]];
    assert Join(ss, ", ") == [w[0]] + ", " + [w[1]];
  }

  /** A skills entry of null, a number, or a list holding a non-string stops the task. */
  lemma UnjoinableSkillsStop(a: Applicant, p: ParsedResume)
    requires p.skills.Some? && (p.skills.value.JNull? || p.skills.value.JInt?
                                || (p.skills.value.JList? && !AllStrings(p.skills.value.items)))
    ensures UpdatedApplicant(a, p).None?
  {
  }

  /**
   * After a parse with a skill list of clean names, the scoring engine sees
   * exactly those names, lower-cased, as the applicant's skill tokens.
   */
  lemma ParsedSkillsAreScored(a: Applicant, p: ParsedResume)
    requires UpdatedApplicant(a, p).Some? && p.skills.Some?
    requires forall x :: x in JoinedStrings(p.skills.value).value ==> IsSkillItem(x)
    ensures SkillTokens(UpdatedApplicant(a, p).value.skills)
            == set x | x in JoinedStrings(p.skills.value).value :: Lower(x)
  {
    SkillsJoinRoundTrip(JoinedStrings(p.skills.value).value);
  }

  /** The offline scanner's result always saves, with 7 or 2 years and its placeholder education. */
  lemma OfflineParseSaves(a: Applicant, text: string)
    ensures var r := UpdatedApplicant(a, ScanKeywords(text));
            && r.Some?
            && (r.value.experience == SeniorYears || r.value.experience == DefaultYears)
            && r.value.education == OfflineEducation
  {
  }

  // ================================================================ rescoring and alerts

  const AlertThreshold: real := 50.0

  /** The top-talent alert fires at a score of 50 or more; exactly 50 alerts. */
  predicate TopTalent(score: real) {
    score >= AlertThreshold
  }

  /** Full skill and experience credit alone reach the alert threshold, whatever the other parts. */
  lemma StrongMatchAlerts(job: Job, a: Applicant, aiRaw: int)
    requires SkillTokens(job.requirements) != {} && SkillTokens(job.requirements) <= SkillTokens(a.skills)
    requires MinExperience(job.requirements) > 0 && a.experience >= MinExperience(job.requirements)
    requires aiRaw >= 0
    ensures TopTalent(ApplicationScore(job, a, aiRaw).total)
  {
  }

  /** Without a skill match and with little experience, the AI number decides the alert. */
  lemma NoSkillMatchNeedsAi(job: Job, a: Applicant, aiRaw: int)
    requires MatchingSkills(job.requirements, a.skills) == {}
    requires MinExperience(job.requirements) == 0 && a.experience >= 0
    requires aiRaw <= 100
    ensures !TopTalent(ApplicationScore(job, a, aiRaw).total)
  {
  }

  /** An application the task rescores: one of the applicant's, for a job that exists. */
  predicate Rescored(jobs: map<nat, Job>, user: nat, x: Application) {
    x.applicant == user && x.job in jobs
  }

  /**
   * Every application of the applicant gets a fresh score from the updated
   * profile; `ai` gives the AI relevance number per application id.
   */
  function Rescore(jobs: map<nat, Job>, a: Applicant, user: nat, apps: seq<Application>, ai: nat -> int)
    : (r: seq<Application>)
    ensures |r| == |apps|
    ensures forall k :: 0 <= k < |apps| && !Rescored(jobs, user, apps[k]) ==> r[k] == apps[k]
    ensures forall k :: 0 <= k < |apps| && Rescored(jobs, user, apps[k]) ==>
              r[k] == apps[k].(score := Some(ApplicationScore(jobs[apps[k].job], a, ai(apps[k].id)).total))
  {
    seq(|apps|, k requires 0 <= k < |apps| =>
      if Rescored(jobs, user, apps[k])
      then apps[k].(score := Some(ApplicationScore(jobs[apps[k].job], a, ai(apps[k].id)).total))
      else apps[k])
  }

  /** The rescored applications whose new score reaches the threshold, in store order. */
  function Alerts(jobs: map<nat, Job>, user: nat, apps: seq<Application>): (r: seq<Application>)
    ensures forall x :: x in r <==>
              x in apps && Rescored(jobs, user, x) && x.score.Some? && TopTalent(x.score.value)
    decreases |apps|
  {
    if apps == [] then []
    else
      var rest := Alerts(jobs, user, apps[1..]);
      assert forall x :: x in apps <==> x == apps[0] || x in apps[1..];
      var x := apps[0];
      if Rescored(jobs, user, x) && x.score.Some? && TopTalent(x.score.value) then [x] + rest else rest
  }

  /** The score the task gives application `x` once the profile is `a`. */
  function NewScore(jobs: map<nat, Job>, a: Applicant, ai: nat -> int, x: Application): real
    requires x.job in jobs
  {
    ApplicationScore(jobs[x.job], a, ai(x.id)).total
  }

  /**
   * `r` is `st` with the profile `a` stored for `user`, each of the
   * applicant's applications to an existing job rescored against `a` (and
   * only in its score), every other application as it was, and an alert for
   * exactly the rescored applications scoring at least 50.
   */
  ghost predicate RescoredWith(st: Store, user: nat, a: Applicant, ai: nat -> int, r: (Store, seq<Application>)) {
    && r.0 == st.(applicants := st.applicants[user := a], applications := r.0.applications)
    && |r.0.applications| == |st.applications|
    && (forall k :: 0 <= k < |st.applications| ==>
          r.0.applications[k]
          == if Rescored(st.jobs, user, st.applications[k])
             then st.applications[k].(score := Some(NewScore(st.jobs, a, ai, st.applications[k])))
             else st.applications[k])
    && (forall x :: x in r.1 <==>
          x in r.0.applications && Rescored(st.jobs, user, x) && x.score.Some? && TopTalent(x.score.value))
  }

  /** Storing the updated profile `a` of `user`, rescoring the applicant's applications and collecting the alerts. */
  function StoreAndRescore(st: Store, user: nat, a: Applicant, ai: nat -> int): (r: (Store, seq<Application>))
    ensures RescoredWith(st, user, a, ai, r)
  {
    var apps := Rescore(st.jobs, a, user, st.applications, ai);
    (st.(applicants := st.applicants[user := a], applications := apps), Alerts(st.jobs, user, apps))
  }

  /** The task once the resume is parsed into `p`: a failed update changes nothing. */
  function TaskOn(st: Store, user: nat, p: ParsedResume, ai: nat -> int): (r: (Store, seq<Application>))
    requires user in st.applicants
    ensures UpdatedApplicant(st.applicants[user], p).None? ==> r == (st, [])
    ensures UpdatedApplicant(st.applicants[user], p).Some? ==>
              RescoredWith(st, user, UpdatedApplicant(st.applicants[user], p).value, ai, r)
  {
    match UpdatedApplicant(st.applicants[user], p)
    case None => (st, [])
    case Some(a) => StoreAndRescore(st, user, a, ai)
  }

  /**
   * The whole task for the applicant keyed `user`. A missing applicant, a
   * profile without a resume, or a parse that cannot be saved ends the task
   * with nothing changed and no alert. Otherwise the profile becomes the
   * parse's update of it, the applicant's applications are rescored against
   * that profile, and an alert is raised for each whose new score is at
   * least 50.
   */
  function ParseResumeTask(st: Store, user: nat, text: string, hasKey: bool, reply: Option<ParsedResume>,
                           ai: nat -> int): (r: (Store, seq<Application>))
    ensures user !in st.applicants || !st.applicants[user].hasResume ==> r == (st, [])
    ensures user in st.applicants && st.applicants[user].hasResume ==>
              var u := UpdatedApplicant(st.applicants[user], ParseResume(hasKey, text, reply));
              && (u.None? ==> r == (st, []))
              && (u.Some? ==> RescoredWith(st, user, u.value, ai, r))
    ensures r.0.users == st.users && r.0.jobs == st.jobs
    ensures r.0.decisions == st.decisions && r.0.interviews == st.interviews
    ensures forall u :: u in st.applicants && u != user ==> r.0.applicants[u] == st.applicants[u]
    ensures |r.0.applications| == |st.applications|
    ensures forall k :: 0 <= k < |st.applications| && st.applications[k].applicant != user ==>
              r.0.applications[k] == st.applications[k]
  {
    if user !in st.applicants || !st.applicants[user].hasResume then (st, [])
    else
      TaskOn(st, user, ParseResume(hasKey, text, reply), ai)
  }

  /**
   * After a successful task every application of the applicant to an existing
   * job carries the score of the parse's update of the profile, and it is
   * alerted exactly when that score is at least 50.
   */
  lemma TaskScoresAndAlerts(st: Store, user: nat, text: string, hasKey: bool, reply: Option<ParsedResume>,
                            ai: nat -> int, k: nat)
    requires user in st.applicants && st.applicants[user].hasResume
    requires UpdatedApplicant(st.applicants[user], ParseResume(hasKey, text, reply)).Some?
    requires k < |st.applications| && Rescored(st.jobs, user, st.applications[k])
    ensures var r := ParseResumeTask(st, user, text, hasKey, reply, ai);
            var x := st.applications[k];
            var a := UpdatedApplicant(st.applicants[user], ParseResume(hasKey, text, reply)).value;
            var total := ApplicationScore(st.jobs[x.job], a, ai(x.id)).total;
            && r.0.applicants[user] == a
            && r.0.applications[k] == x.(score := Some(total))
            && (r.0.applications[k] in r.1 <==> TopTalent(total))
  {
  }
}
