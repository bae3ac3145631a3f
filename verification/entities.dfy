/**
 * The records the matching engine reads: applicants, job listings and their
 * screening criteria. Nullable text columns are modelled as strings whose
 * NULL is the empty string, since every reader writes `x or ""` or tests
 * truthiness; a NULL experience is modelled as 0 for the same reason.
 */
module Entities {
  import opened Wrappers
  import opened Resume

  /** A job seeker's profile. Applicants are identified by their user id. */
  datatype Applicant = Applicant(
    skills: string,
    experience: int,
    education: string,
    parsedData: Option<ParsedResume>,
    hasResume: bool)

  /** A recruiter's screening criteria attached to a job (`ScreeningCriteria`). */
  datatype Criteria = Criteria(requiredSkills: string, minExperience: Option<int>)

  /** A job listing; `recruiter` is the primary key of the posting recruiter. */
  datatype Job = Job(
    recruiter: nat,
    requirements: string,
    description: string,
    criteria: Option<Criteria>)

  /** A blank applicant profile, as `get_or_create` makes one for a user. */
  const BlankApplicant := Applicant("", 0, "", None, false)
}
