/**
 * `passes_screening`, the legacy gate that decides whether applying to a
 * job shortlists the applicant straight away.
 */
module Screening {
  import opened Wrappers
  import opened Text
  import opened Entities

  /**
   * `[s.strip().lower() for s in text.split(',')]`, empty pieces included:
   * one token per comma piece, each without surrounding blanks, upper-case
   * letters or commas.
   */
  function ScreeningTokens(text: string): (r: seq<string>)
    ensures |r| == |Split(text, ',')|
    ensures forall i :: 0 <= i < |r| ==> r[i] == Lower(Strip(Split(text, ',')[i]))
    ensures forall t :: t in r ==> IsToken(t)
  {
    var pieces := Split(text, ',');
    var r := seq(|pieces|, i requires 0 <= i < |pieces| => Lower(Strip(pieces[i])));
    forall t | t in r ensures IsToken(t) {
      var i :| 0 <= i < |r| && r[i] == t;
      CleanToken(pieces[i]);
    }
    r
  }

  /** What a screening token looks like: stripped, lower-case, comma-free. */
  predicate IsToken(t: string) {
    IsStripped(t) && HasNoUpper(t) && NoneOf(t, {','})
  }

  /** Stripping and lower-casing a comma piece gives a token. */
  lemma CleanToken(p: string)
    requires NoneOf(p, {','})
    ensures IsToken(Lower(Strip(p)))
  {
    var t := Strip(p);
    assert forall i :: 0 <= i < |t| ==> t[i] in p;
  }

  /**
   * A comma-joined list of tokens is read back as exactly that list: the
   * tokeniser inverts `",".join`.
   */
  lemma ScreeningTokensOfList(items: seq<string>)
    requires |items| > 0
    requires forall t :: t in items ==> IsToken(t)
    ensures ScreeningTokens(Join(items, [','])) == items
  {
    var text := Join(items, [',']);
    JoinThenSplit(items);
    var pieces := Split(text, ',');
    var r := ScreeningTokens(text);
    assert |r| == |items|;
    forall i | 0 <= i < |items| ensures r[i] == items[i] {
      assert r[i] == Lower(Strip(pieces[i]));
      assert items[i] in items;
      TokenFixed(items[i]);
    }
    assert r == items;
  }

  /** Stripping and lower-casing leave a token as it is. */
  lemma TokenFixed(t: string)
    requires IsToken(t)
    ensures Lower(Strip(t)) == t
  {
    StripFixed(t);
    LowerFixed(t);
  }

  lemma {:induction false} JoinThenSplit(items: seq<string>)
    requires |items| > 0
    requires forall t :: t in items ==> NoneOf(t, {','})
    ensures Split(Join(items, [',']), ',') == items
    decreases |items|
  {
    SplitNoComma(items[0], "");
    assert "" + items[0] == items[0];
    if |items| > 1 {
      var rest := items[1..];
      assert forall t :: t in rest ==> t in items;
      JoinThenSplit(rest);
      SplitFromAppend(items[0], Join(rest, [',']), "");
      assert items == [items[0]] + rest;
    }
  }

  /** Some required token is also one of the applicant's tokens. */
  predicate SharesToken(required: seq<string>, own: seq<string>) {
    exists i :: 0 <= i < |required| && required[i] in own
  }

  /** A minimum-experience value that Python treats as true: present and non-zero. */
  predicate IsSet(minExperience: Option<int>) {
    minExperience.Some? && minExperience.value != 0
  }

  /** The experience gate fails: both experiences are set and the applicant's is below the minimum. */
  predicate TooJunior(a: Applicant, c: Criteria) {
    IsSet(c.minExperience) && a.experience != 0 && a.experience < c.minExperience.value
  }

  /** The skill gate fails: both skill texts are non-empty and share no token. */
  predicate LacksSkill(a: Applicant, c: Criteria) {
    c.requiredSkills != "" && a.skills != ""
    && !SharesToken(ScreeningTokens(c.requiredSkills), ScreeningTokens(a.skills))
  }

  /**
   * Without criteria every applicant passes. Otherwise the applicant is
   * rejected when both experiences are set and theirs is below the minimum,
   * or when both skill texts are non-empty and share no comma-separated token.
   */
  function PassesScreening(a: Applicant, criteria: Option<Criteria>): (r: bool)
    ensures criteria.None? ==> r
    ensures (criteria.Some? && IsSet(criteria.value.minExperience) && a.experience != 0
             && a.experience < criteria.value.minExperience.value) ==> !r
    ensures (criteria.Some? && criteria.value.requiredSkills != "" && a.skills != ""
             && !SharesToken(ScreeningTokens(criteria.value.requiredSkills), ScreeningTokens(a.skills))) ==> !r
    ensures !r ==> criteria.Some? && (a.experience != 0 || a.skills != "")
    ensures criteria.Some? && !TooJunior(a, criteria.value) && !LacksSkill(a, criteria.value) ==> r
  {
    match criteria
    case None => true
    case Some(c) => !TooJunior(a, c) && !LacksSkill(a, c)
  }

  /**
   * An applicant who states no experience is never rejected for experience:
   * only the skill gate can reject them.
   */
  lemma UnstatedExperienceNeverRejects(a: Applicant, c: Criteria)
    requires a.experience == 0
    ensures !TooJunior(a, c)
    ensures PassesScreening(a, Some(c)) <==> !LacksSkill(a, c)
  {
  }

  /**
   * Only the skill tokens matter: an applicant whose tokens include another's
   * passes whenever that other applicant passes with the same experience.
   */
  lemma ScreeningMonotone(a: Applicant, a': Applicant, c: Criteria)
    requires a'.experience == a.experience
    requires a.skills != "" && a'.skills != ""
    requires forall t :: t in ScreeningTokens(a.skills) ==> t in ScreeningTokens(a'.skills)
    requires PassesScreening(a, Some(c))
    ensures PassesScreening(a', Some(c))
  {
    if c.requiredSkills != "" {
      var req := ScreeningTokens(c.requiredSkills);
      var i :| 0 <= i < |req| && req[i] in ScreeningTokens(a.skills);
      assert req[i] in ScreeningTokens(a'.skills);
    }
  }

  /** Cutting at a comma splits the two sides independently. */
  lemma {:induction false} SplitFromAppend(x: string, y: string, cur: string)
    requires NoneOf(cur, {','})
    ensures SplitFrom(x + [','] + y, ',', cur) == SplitFrom(x, ',', cur) + SplitFrom(y, ',', "")
    decreases |x|
  {
    if x == [] {
      assert x + [','] + y == [','] + y;
      assert ([','] + y)[1..] == y;
    } else {
      assert (x + [','] + y)[0] == x[0];
      assert (x + [','] + y)[1..] == x[1..] + [','] + y;
      if x[0] == ',' {
        SplitFromAppend(x[1..], y, "");
      } else {
        SplitFromAppend(x[1..], y, cur + [x[0]]);
      }
    }
  }

  /**
   * Appending ", more skills" to a non-empty skills text never turns a pass
   * into a fail.
   */
  lemma AddingSkillsKeepsPass(a: Applicant, extra: string, c: Criteria)
    requires a.skills != ""
    requires PassesScreening(a, Some(c))
    ensures PassesScreening(a.(skills := a.skills + [','] + extra), Some(c))
  {
    var a' := a.(skills := a.skills + [','] + extra);
    SplitFromAppend(a.skills, extra, "");
    var p := Split(a.skills, ',');
    var p' := Split(a'.skills, ',');
    assert p' == p + Split(extra, ',');
    forall t | t in ScreeningTokens(a.skills) ensures t in ScreeningTokens(a'.skills) {
      var i :| 0 <= i < |ScreeningTokens(a.skills)| && ScreeningTokens(a.skills)[i] == t;
      assert p'[i] == p[i];
      assert ScreeningTokens(a'.skills)[i] == t;
    }
    ScreeningMonotone(a, a', c);
  }

  /**
   * Empty pieces count as tokens: any two skill texts that end in a comma
   * share the empty token, so required skills "Python," let an applicant
   * with skills "Java," through, whatever the words.
   */
  lemma TrailingCommasMatch(required: string, own: string, experience: int, minExperience: Option<int>)
    requires NoneOf(required, {','}) && NoneOf(own, {','})
    requires !IsSet(minExperience) || experience == 0 || experience >= minExperience.value
    ensures PassesScreening(Applicant(own + [','], experience, "", None, false),
                            Some(Criteria(required + [','], minExperience)))
  {
    TrailingCommaToken(required);
    TrailingCommaToken(own);
    var req := ScreeningTokens(required + [',']);
    assert req[1] in ScreeningTokens(own + [',']);
  }

  /** A text ending in a comma has an empty last token. */
  lemma TrailingCommaToken(w: string)
    requires NoneOf(w, {','})
    ensures |ScreeningTokens(w + [','])| == 2 && ScreeningTokens(w + [','])[1] == ""
  {
    SplitFromAppend(w, "", "");
    assert w + [','] + "" == w + [','];
    SplitNoComma(w, "");
    assert "" + w == w;
    assert Split("", ',') == [""];
    assert Split(w + [','], ',') == [w, ""];
    assert Strip("") == "";
  }

  lemma {:induction false} SplitNoComma(s: string, cur: string)
    requires NoneOf(cur, {','}) && NoneOf(s, {','})
    ensures SplitFrom(s, ',', cur) == [cur + s]
    decreases |s|
  {
    if s != [] {
      SplitNoComma(s[1..], cur + [s[0]]);
      assert cur + [s[0]] + s[1..] == cur + s;
    } else {
      assert cur + s == cur;
    }
  }
}
