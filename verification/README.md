# HireSphere matching and screening core, in Dafny

HireSphere is a hiring portal. Recruiters post jobs with requirements and
screening criteria, and job seekers apply and upload resumes. This project
models, as pure functions over immutable data, the part of the portal that
decides things:

- **Scoring.** `calculate_application_score` has four parts:
  - a skills part worth up to 40 points: requirement tokens that the candidate's skills also contain;
  - an experience part worth up to 30 points: the first "N years" phrase of the requirements against the candidate's years;
  - an education part: an 0/50/100 comparison of degree ranks, weighted by 0.15;
  - an AI relevance number, weighted by 0.15 and not clamped.
- **Screening.** `passes_screening` is the legacy gate: it decides whether applying shortlists the applicant straight away.
- **Resume parsing.**
  - `_scan_keywords` is the offline keyword scanner.
  - `parse_resume_content` chooses between the AI reply and that scanner.
- **The resume task.** `parse_resume_task`:
  - coerces the parsed fields before they are saved;
  - rescores the applicant's applications;
  - raises an alert for each score of at least 50.
- **The application lifecycle behind the JSON endpoints:**
  - the `login_required` gate and the `dashboard` redirect;
  - apply-then-shortlist;
  - the hiring-decision upsert, where "Hired" marks the application "Selected";
  - the recruiter's list of undecided applications;
  - activating and deactivating users;
  - cancelling and rescheduling interviews;
  - the display helpers for names, statuses and experience labels.

Modules:

| module | file | models |
|---|---|---|
| `Wrappers` | wrappers.dfy | `Option` and `Result` |
| `Text` | text.dfy | the Python string operations used: `lower`, `strip`, `in`, `split`, `join`, `capitalize`, `str(int)`, `int(digits)`, and the regular expressions `\d+` and `[,\n\r]+` |
| `Resume` | resume.dfy | the parsed-resume record, `_scan_keywords`, `parse_resume_content` |
| `Entities` | entities.dfy | applicants, jobs, screening criteria |
| `Scoring` | scoring.dfy | `calculate_application_score` and its helpers |
| `Screening` | screening.dfy | `passes_screening` |
| `Portal` | portal.dfy | the store and the lifecycle endpoints of `views.py` |
| `Access` | access.dfy | `login_required`, `dashboard`, the display helpers |
| `Tasks` | tasks.dfy | `parse_resume_task` |

Where the code's own comments and the code differ, the model follows the
code. `_get_ai_match_score` says it returns an integer from 0 to 100, but
nothing clamps the number it reads from the reply. A reply of "900" scores
900, and the total can pass 100 (`Scoring.AiScoreUnclamped`,
`Scoring.TotalCanExceedHundred`).

The education score is 0, 50 or 100, weighted by 0.15
(`Scoring.EducationScore`). Without a key, without a number in the reply, or
after a failed call, the AI number is 50 (`Scoring.AiRawScore`).

The job's education rank is at least 3 and is raised by the highest level
its requirements name, so a requirement naming "phd" asks for rank 5 and
only a doctorate scores full education marks there
(`Scoring.DoctorateRequirement`).

Other quirks are kept as written:
- Requirements without tokens give 0 skill points, not full marks.
- An experience phrase such as "5+ years experience" counts as one more requirement token.
- Empty comma pieces count as screening tokens.
- A recruiter's decision endpoints compare the job's recruiter key with the session's user id.

## Model

| member | source | states |
|---|---|---|
| Resume.FoundKeywords | hiresphere/core/services.py:21-25 | the found skills are exactly the capitalised keywords that occur in the lower-cased text, kept in the keyword list's order |
| Resume.ScanKeywords | hiresphere/core/services.py:17-28 | a skill is reported exactly when its keyword occurs in the lower-cased text; experience is 7 exactly when "senior" or "lead" occurs and 2 otherwise; education is always "Unknown (Offline Mode)" |
| Resume.JoinedStrings | hiresphere/core/tasks.py:40 | the strings `", ".join` puts together: a string's characters, a list's strings, an object's keys; null, a number or a list holding a non-string cannot be joined |
| Resume.StrListJoined | hiresphere/core/tasks.py:40 | a list of strings is joined element by element |
| Resume.ParseResume | hiresphere/core/services.py:30-75 | without a key, or when the AI call or its decoding fails, the result is exactly the keyword scan; otherwise it is the decoded reply |
| Screening.ScreeningTokens | hiresphere/core/services.py:93-94 | one token per comma piece, empty pieces included; every token is stripped, has no upper-case letter and no comma |
| Screening.ScreeningTokensOfList | hiresphere/core/services.py:93-94 | a comma-joined list of tokens is read back as exactly that list |
| Text.SplitJoinRoundTrip | hiresphere/core/services.py:93-94 | joining the pieces of a split with the separator gives the text back |
| Screening.PassesScreening | hiresphere/core/services.py:77-101 | absent criteria pass; an applicant is rejected when both experiences are set and theirs is lower, or when both skill texts are non-empty and share no token; a rejection needs a non-zero experience or non-empty skills; an applicant who fails neither gate passes |
| Screening.UnstatedExperienceNeverRejects | hiresphere/core/services.py:86-88 | an applicant with experience 0 never fails the experience gate, so they pass exactly when the skill gate does not reject them |
| Screening.ScreeningMonotone | hiresphere/core/services.py:92-99 | of two applicants with the same experience and non-empty skill texts, the one whose tokens include a passing applicant's tokens also passes |
| Screening.AddingSkillsKeepsPass | hiresphere/core/services.py:92-99 | appending ",more" to non-empty skills never turns a pass into a fail |
| Screening.TrailingCommasMatch | hiresphere/core/services.py:93-97 | two skill texts that both end in a comma share the empty token, so the skill gate passes whatever the words |
| Scoring.SkillTokens | hiresphere/core/services.py:218-225 | tokens are non-empty, stripped, have no upper-case letter and no comma or line break |
| Scoring.MatchingSkills | hiresphere/core/services.py:229-230 | the matching skills are exactly the tokens that the requirements and the candidate share |
| Scoring.SkillsScore | hiresphere/core/services.py:227-233 | the skills part lies in 0..40; it is 0 with no requirement tokens, 0 exactly when nothing matches, and 40 exactly when every requirement token is matched |
| Scoring.SkillsScoreMonotone | hiresphere/core/services.py:229-232 | more candidate tokens never lower the skills part |
| Scoring.SkillsJoinRoundTrip | hiresphere/core/services.py:221-225 | tokenising a ", "-joined list of clean skill names gives exactly the lower-cased names |
| Scoring.SeededJobSkillsScore | hiresphere/core/services.py:218-233 | the seeded job with "5+ years experience" among its requirements gives a candidate who matches the other four tokens 32 points |
| Scoring.MinExperience | hiresphere/core/services.py:240-243 | the required years are the number of the first `N+ years` phrase, in any case, or 0 when there is none |
| Scoring.ExperienceScore | hiresphere/core/services.py:245-256 | at most 30 points, and not negative for non-negative experience; with a requirement the part grows linearly to 30 at the required years; without one the part is 10 exactly when experience is positive, else 0 |
| Scoring.ExperienceScoreMonotone | hiresphere/core/services.py:248-256 | more experience never lowers the experience part |
| Scoring.RankIn | hiresphere/core/services.py:128-131 | the rank is at least every matched keyword's rank, and is 0 or one of them |
| Scoring.JobRank | hiresphere/core/services.py:134-139 | the job's rank is at least 3 and at least every matched keyword's rank, and it is 3 or one of those ranks |
| Scoring.DoctorateRequirement | hiresphere/core/services.py:134-147 | a requirement naming "phd" has rank 5, and a candidate scores 100 there exactly when their rank is 5 |
| Scoring.EducationScore | hiresphere/core/services.py:103-151 | the score is 0, 50 or 100; it is 100 when the requirement names no level; otherwise it is 100 exactly when the candidate's rank reaches the job's, and 50 exactly when it is one below |
| Scoring.EducationFloorQuirk | hiresphere/core/services.py:134-151 | once the requirement names any level, a candidate of rank 1 or less scores 0 |
| Scoring.EducationScoreMonotone | hiresphere/core/services.py:146-151 | a higher candidate rank never lowers the education score |
| Scoring.CandidateEducation | hiresphere/core/services.py:261-262 | the parsed education wins when it is non-empty; otherwise the profile's education when it is non-empty; otherwise "None" |
| Scoring.AiRawScore | hiresphere/core/services.py:156-198 | the first number of the reply; 50 without a key, without digits or after an error |
| Scoring.AiScoreUnclamped | hiresphere/core/services.py:189-194 | a reply that is just the number n scores n, so 900 stays 900 |
| Scoring.ApplicationScore | hiresphere/core/services.py:214-284 | the skills and experience parts are the skills and experience scores of the requirements and profile; the education part is 0.15 times the education score of the candidate's education; the AI part is 0.15 times the AI number; the matching skills are the shared tokens; each part lies in its band; the total is the sum of the parts, and lies in 0..100 when the experience is not negative and the AI number is in 0..100 |
| Scoring.ApplicationScoreMonotone | hiresphere/core/services.py:214-284 | a candidate with a superset of the skill tokens, at least the years, at least the education rank and at least the AI number never scores a lower total |
| Scoring.TotalCanExceedHundred | hiresphere/core/services.py:275-278 | with non-negative experience, an AI number of 667 or more pushes the total past 100 |
| Tasks.CoerceExperience | hiresphere/core/tasks.py:43-48 | a missing value gives 0; a string gives the number of its first digit run, or 0 without one; any other value is kept |
| Tasks.ExperienceLabelRoundTrip | hiresphere/core/tasks.py:43-48 | the "N years" label shown to recruiters is coerced back to N |
| Tasks.StoredExperience | hiresphere/core/tasks.py:49-54 | an integer is stored as it is and null as 0; a list or an object cannot be stored |
| Tasks.JoinedSkills | hiresphere/core/tasks.py:39-40 | the stored skills text is the ", "-join of the entry's strings, and exists exactly when the entry can be joined |
| Tasks.UpdatedApplicant | hiresphere/core/tasks.py:38-54 | skills are replaced by the ", "-joined skills entry only when the parse has one; education becomes the parsed value or ""; the experience is coerced; the update fails, leaving the profile as it was, exactly when the skills entry cannot be joined or the experience cannot be stored |
| Tasks.StringSkillsSpelledOut | hiresphere/core/tasks.py:39-40 | a skills entry that is the string "Go" is stored as "G, o" |
| Tasks.UnjoinableSkillsStop | hiresphere/core/tasks.py:39-40 | a skills entry of null, a number, or a list holding a non-string stops the task before the save |
| Tasks.ParsedSkillsAreScored | hiresphere/core/tasks.py:39-40 | after a parse with clean skill names, the scoring engine sees exactly those names, lower-cased |
| Tasks.OfflineParseSaves | hiresphere/core/tasks.py:43-52 | the keyword scanner's result always saves, with 7 or 2 years and the offline education text |
| Tasks.StrongMatchAlerts | hiresphere/core/tasks.py:88-89 | full skill and experience credit reach the alert threshold whatever the other parts |
| Tasks.NoSkillMatchNeedsAi | hiresphere/core/tasks.py:88-89 | with no matching skill, no stated years and an AI number of at most 100, no alert fires |
| Tasks.Rescore | hiresphere/core/tasks.py:83-84 | each of the applicant's applications to an existing job gets the updated profile's total; every other application is unchanged |
| Tasks.Alerts | hiresphere/core/tasks.py:83-89 | an application is alerted exactly when it was rescored and its new score is at least 50 |
| Tasks.StoreAndRescore | hiresphere/core/tasks.py:54-89 | the profile is stored; each of the applicant's applications to an existing job gets the stored profile's total and every other application is unchanged; the alerts are exactly the rescored applications scoring at least 50 |
| Tasks.TaskOn | hiresphere/core/tasks.py:38-89 | a parse that cannot be saved leaves the store unchanged with no alert; otherwise the profile becomes the parse's update of it and the applications are rescored against it |
| Tasks.ParseResumeTask | hiresphere/core/tasks.py:19-133 | a missing applicant, a profile without a resume or a parse that cannot be saved leaves everything unchanged with no alert; otherwise the profile becomes the update by the parse the AI or the scanner produced, the applicant's applications to existing jobs are rescored against it, only in their score, and exactly those scoring at least 50 are alerted; no other applicant, user, job, decision or interview changes |
| Tasks.TaskScoresAndAlerts | hiresphere/core/tasks.py:83-89 | after a successful task the profile is the parse's update, each rescored application carries that profile's total, and it is alerted exactly when that total is at least 50 |
| Access.LoginRequired | hiresphere/core/views.py:41-52 | no user id sends the request to the login page; a required role that differs from the session's sends it to the dashboard; otherwise the view runs |
| Access.UngatedViewRunsForAnyRole | hiresphere/core/views.py:46-49 | a view without a role gate runs for every logged-in session |
| Access.DashboardFor | hiresphere/core/views.py:199-206 | ADMIN, RECRUITER and JOBSEEKER each go to their own dashboard; any other role fails the lookup |
| Access.DashboardAdmitsItsRole | hiresphere/core/views.py:199-206 | the dashboard a session is sent to lets that session through its role gate |
| Access.DisplayName | hiresphere/core/views.py:85 | the name is the part of the e-mail before the first '@', or the whole address when it has none |
| Access.DisplayNameLocalPart | hiresphere/core/views.py:483 | an address with one '@' shows its local part |
| Access.ExperienceLabel | hiresphere/core/views.py:791 | "Not specified" exactly when the experience is 0, otherwise the number followed by " years", a negative number with its minus sign |
| Portal.Apply | hiresphere/core/views.py:409-420 | a missing job is a 404; the application of the pair becomes "Shortlisted" exactly when the job has criteria that the applicant passes, and otherwise keeps its status, or takes the initial one when new; an existing application changes only in its status and a new one is appended; every other application stays as it was; at most one application per pair is preserved |
| Portal.ApplyIdempotent | hiresphere/core/views.py:414-418 | applying a second time changes nothing |
| Portal.Upsert | hiresphere/core/views.py:949-953 | the pair's decision becomes the new one, whether added or overwritten; other pairs keep theirs; at most one decision per pair is preserved |
| Portal.MakeDecision | hiresphere/core/views.py:936-960 | an unknown application, or another recruiter's, is a 404 for a recruiter and a failed request for the admin; otherwise the pair's decision is the last one written, "Hired" marks the application "Selected", other decisions leave the applications alone, and nothing else changes |
| Portal.Hire | hiresphere/core/views.py:333-343 | an application that is missing or on another recruiter's job is a 404; otherwise the pair's decision becomes "Hired", other pairs keep theirs, that application and no other becomes "Selected", and nothing else changes |
| Portal.Undecided | hiresphere/core/views.py:845-855 | the list holds exactly the recruiter's "Shortlisted" applications whose pair has no decision |
| Portal.DecisionLeavesUndecided | hiresphere/core/views.py:845-855 | after a decision no application of that pair is undecided |
| Portal.DecisionKeepsOtherUndecided | hiresphere/core/views.py:845-855 | a decision keeps other pairs' undecided applications in the list |
| Portal.UpdateUser | hiresphere/core/views.py:528-545 | "deactivate" and "activate" set the active flag; any other action succeeds and changes nothing; an unknown user is a failed request |
| Portal.UserStatusLabel | hiresphere/core/views.py:486 | "active" exactly when the account is active, otherwise "inactive" |
| Portal.DeactivateActivate | hiresphere/core/views.py:538-541 | deactivating shows "inactive", and activating again restores the store |
| Portal.UpdateInterview | hiresphere/core/views.py:677-693 | "cancel" marks the interview "Cancelled"; "reschedule" replaces the date and time and marks it "Scheduled", and is a failed request that saves nothing when the columns refuse the date or time; any other action changes nothing; an unknown interview is a failed request |
| Portal.CancelThenReschedule | hiresphere/core/views.py:683-688 | a cancelled interview is scheduled again by rescheduling it |

## Left out

- Calls to the language models (`parse_resume_content`, `_get_ai_match_score`): these are inputs. The decoded AI reply, or its absence, is one; the relevance number per application is another.
- The markdown-fence stripping of the AI reply and `json.loads`: reading JSON text is not modelled.
- PDF text extraction (pdfminer): the resume text is an input.
- Django ORM persistence, sessions, forms and HTTP rendering: the store is an immutable record, and responses become `Result` values.
- The column default of an application's status: `models.py` is not part of this model, so the initial status is a parameter of `Portal.Apply`.
- Notifications: the WebSocket broadcast, e-mail and Slack are reduced to the list of alerted applications. Celery plumbing and `debug_task` are left out.
- Tasks.ParseResumeTask: the Slack webhook setting is assumed to be defined. It is read outside the inner `try` of the alert branch, so were it missing, the first application scoring at least 50 would end the task and later applications would keep their old scores; the settings module is not part of this model.
- Scoring.ApplicationScore: scores are exact reals, and `round(x, 1)` on the parts and on the total is not modelled.
- Tasks.Alerts: compares the unrounded total with 50. The source compares the total rounded to one decimal, so a total in [49.95, 50) alerts there but not here.
- Text.Lower: only ASCII letters change case, and only ASCII digits count as digits. Python's Unicode case mapping and Unicode digits are not modelled.
- Tasks.StoredExperience: float and boolean experience values are not modelled.
- Portal.MakeDecision: the decision is a string; a decision sent as null is not modelled.
- Resume.ParsedResume: the AI reply is taken to be a JSON object, and its education entry a string or absent. A reply of another JSON type, or an education of null, a number or a list, is not modelled, because how the education column stores such values depends on its definition in `models.py`, which is not part of this model.
- Portal.UpdateInterview: which dates and times the interview columns accept is a parameter (`dateOk`, `timeOk`), because the column definitions in `models.py` are not part of this model.
- Scoring.MatchingSkills: a set, because the source returns `list(matches)` in no particular order.
- The commented-out older scorer in services.py: it is not live code.
- The management commands that seed and rescore the database are left out. Their seeded job and candidate appear only as the scenario in `Scoring.SeededJobSkillsScore`.
- The server-rendered HTML views, other endpoints that only read or list data, serializers, URL routing and the React frontend: these are presentation.
