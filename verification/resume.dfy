/**
 * Resume parsing as the scoring service performs it: the structured result
 * of a parse, the offline keyword scanner used when no AI key is configured
 * or the AI call fails, and the choice between the two.
 *
 * The AI reply itself is an input: what the language model would answer is
 * outside the model, so `ParseResume` receives the already decoded reply.
 */
module Resume {
  import opened Wrappers
  import opened Text

  /**
   * A JSON value found under a parsed-resume key, as far as the resume task
   * tells them apart. Of an object only its keys matter here: iterating over
   * an object, as `", ".join` does, yields its keys.
   */
  datatype JValue = JNull | JInt(i: int) | JStr(s: string) | JList(items: seq<JValue>) | JObject(keys: seq<string>)

  /** The parsed-resume dictionary; `None` is an absent key. */
  datatype ParsedResume = ParsedResume(
    skills: Option<JValue>,
    experience: Option<JValue>,
    education: Option<string>)

  /** A list of strings, as a JSON value. */
  function StrList(ss: seq<string>): (r: JValue)
    ensures r.JList? && |r.items| == |ss|
    ensures forall i :: 0 <= i < |ss| ==> r.items[i] == JStr(ss[i])
  {
    JList(seq(|ss|, i requires 0 <= i < |ss| => JStr(ss[i])))
  }

  /** Every element of the list is a string. */
  predicate AllStrings(items: seq<JValue>) {
    forall i :: 0 <= i < |items| ==> items[i].JStr?
  }

  /**
   * The strings `", ".join(v)` puts together: a string's characters, a
   * list's elements, an object's keys. `None` is the `TypeError` of joining
   * null, a number, or a list holding anything but strings.
   */
  function JoinedStrings(v: JValue): (r: Option<seq<string>>)
    ensures r.Some? <==> v.JStr? || v.JObject? || (v.JList? && AllStrings(v.items))
    ensures v.JStr? ==> |r.value| == |v.s| && forall i :: 0 <= i < |v.s| ==> r.value[i] == [v.s[i]]
    ensures v.JList? && r.Some? ==> |r.value| == |v.items| && forall i :: 0 <= i < |v.items| ==> JStr(r.value[i]) == v.items[i]
    ensures v.JObject? ==> r == Some(v.keys)
  {
    match v
    case JStr(s) => Some(seq(|s|, i requires 0 <= i < |s| => [s[i]]))
    case JList(items) =>
      if AllStrings(items) then Some(seq(|items|, i requires 0 <= i < |items| && AllStrings(items) => items[i].s))
      else None
    case JObject(keys) => Some(keys)
    case _ => None
  }

  /** A list of strings is joined element by element. */
  lemma StrListJoined(ss: seq<string>)
    ensures JoinedStrings(StrList(ss)) == Some(ss)
  {
    var r := JoinedStrings(StrList(ss));
    assert r.Some?;
    assert |r.value| == |ss|;
    forall i | 0 <= i < |ss| ensures r.value[i] == ss[i] {
      assert JStr(r.value[i]) == StrList(ss).items[i];
    }
    assert r.value == ss;
  }

  /** The offline scanner's keyword list, in its order. */
  const Keywords: seq<string> := [
    "python", "django", "flask", "react", "javascript", "typescript", "node", "aws",
    "docker", "kubernetes", "sql", "postgresql", "java", "spring", "c++", "go", "html", "css"
  ]

  const OfflineEducation: string := "Unknown (Offline Mode)"

  const SeniorYears: int := 7
  const DefaultYears: int := 2

  /** `a` keeps some of the elements of `b`, in the order they have in `b`. */
  predicate IsSubsequence(a: seq<string>, b: seq<string>)
    decreases |b|
  {
    a == [] || (b != [] && ((a[0] == b[0] && IsSubsequence(a[1..], b[1..])) || IsSubsequence(a, b[1..])))
  }

  /**
   * The capitalised keywords of `kws` that occur in `text`, in list order:
   * a keyword's capitalised form is reported exactly when the keyword occurs,
   * and nothing else is.
   */
  function FoundKeywords(kws: seq<string>, text: string): (r: seq<string>)
    ensures IsSubsequence(r, Capitalized(kws))
    ensures forall kw :: kw in kws && Contains(text, kw) ==> Capitalize(kw) in r
    ensures forall s :: s in r ==> exists kw :: kw in kws && Contains(text, kw) && s == Capitalize(kw)
    decreases |kws|
  {
    if kws == [] then []
    else
      var rest := FoundKeywords(kws[1..], text);
      assert Capitalized(kws)[1..] == Capitalized(kws[1..]);
      assert forall kw :: kw in kws[1..] ==> kw in kws;
      if Contains(text, kws[0]) then [Capitalize(kws[0])] + rest
      else
        SubsequenceOfTail(rest, Capitalized(kws));
        rest
  }

  function Capitalized(kws: seq<string>): (r: seq<string>)
    ensures |r| == |kws|
    ensures forall i :: 0 <= i < |kws| ==> r[i] == Capitalize(kws[i])
  {
    seq(|kws|, i requires 0 <= i < |kws| => Capitalize(kws[i]))
  }

  lemma SubsequenceOfTail(a: seq<string>, b: seq<string>)
    requires b != [] && IsSubsequence(a, b[1..])
    ensures IsSubsequence(a, b)
  {
  }

  /**
   * `_scan_keywords`: skills are the listed keywords found in the lower-cased
   * text (capitalised, in list order); experience is 7 years when "senior"
   * or "lead" occurs and 2 otherwise; education is a fixed marker.
   */
  function ScanKeywords(text: string): (r: ParsedResume)
    ensures r.experience.Some? && r.education == Some(OfflineEducation)
    ensures r.skills.Some? && r.skills.value.JList? && JoinedStrings(r.skills.value).Some?
    ensures var found := JoinedStrings(r.skills.value).value;
            && IsSubsequence(found, Capitalized(Keywords))
            && (forall kw :: kw in Keywords && Contains(Lower(text), kw) ==> Capitalize(kw) in found)
            && (forall s :: s in found ==> exists kw :: kw in Keywords && Contains(Lower(text), kw) && s == Capitalize(kw))
    ensures r.experience.value == JInt(SeniorYears)
            <==> Contains(Lower(text), "senior") || Contains(Lower(text), "lead")
    ensures r.experience.value == JInt(SeniorYears) || r.experience.value == JInt(DefaultYears)
  {
    var t := Lower(text);
    var found := FoundKeywords(Keywords, t);
    StrListJoined(found);
    var years := if Contains(t, "senior") || Contains(t, "lead") then SeniorYears else DefaultYears;
    ParsedResume(Some(StrList(found)), Some(JInt(years)), Some(OfflineEducation))
  }

  /**
   * `parse_resume_content`: without an AI key the keyword scanner answers;
   * with a key the decoded AI reply is used, and the scanner again answers
   * when the call or the decoding failed (`reply == None`).
   */
  function ParseResume(hasKey: bool, text: string, reply: Option<ParsedResume>): (r: ParsedResume)
    ensures !hasKey || reply.None? ==> r == ScanKeywords(text)
    ensures hasKey && reply.Some? ==> r == reply.value
  {
    if !hasKey then ScanKeywords(text)
    else match reply
      case Some(p) => p
      case None => ScanKeywords(text)
  }
}
