/**
 * The application scoring engine of `calculate_application_score`: a skills
 * part worth up to 40 points, an experience part worth up to 30, the
 * education comparison weighted by 0.15 and the AI relevance number
 * weighted by 0.15. Scores are exact reals; the final `round(x, 1)` is
 * not modelled. The AI relevance number is an input.
 */
module Scoring {
  import opened Wrappers
  import opened Text
  import opened Resume
  import opened Entities

  // ================================================================ skills (40 points)

  /** The characters `[,\n\r]+` splits skill lists on. */
  const SkillSeparators: set<char> := {',', '\n', '\r'}

  const SkillsWeight: real := 40.0

  /**
   * The skill tokens of a requirements or skills text: the lower-cased text
   * cut at runs of commas and line breaks, each piece stripped, empty pieces
   * dropped. Every token is non-empty, stripped, lower-case and free of
   * separators.
   */
  function SkillTokens(text: string): (r: set<string>)
    ensures forall t :: t in r ==> t != [] && IsStripped(t) && HasNoUpper(t) && NoneOf(t, SkillSeparators)
  {
    var low := Lower(text);
    var pieces := SplitRuns(low, SkillSeparators);
    forall p | p in pieces
      ensures HasNoUpper(Strip(p)) && NoneOf(Strip(p), SkillSeparators)
    {
      PieceChars(low, SkillSeparators, p);
      var q := Strip(p);
      forall i | 0 <= i < |q| ensures !IsUpper(q[i]) && q[i] !in SkillSeparators {
        assert q[i] in q;
        assert q[i] in p;
        var j :| 0 <= j < |p| && p[j] == q[i];
        assert p[j] !in SkillSeparators;
        var k :| 0 <= k < |low| && low[k] == q[i];
      }
    }
    TokensOf(pieces)
  }

  /** The stripped, non-empty pieces. */
  function TokensOf(pieces: seq<string>): (r: set<string>)
    ensures forall t :: t in r ==> t != [] && IsStripped(t)
  {
    assert forall p :: p in pieces && Strip(p) != [] ==> IsStripped(Strip(p));
    set p | p in pieces && Strip(p) != [] :: Strip(p)
  }

  /** Every piece of a split holds only characters of the split text. */
  lemma PieceChars(s: string, seps: set<char>, p: string)
    requires p in SplitRuns(s, seps)
    ensures forall c :: c in p ==> c in s
  {
    SplitRunsChars(s, seps, "");
  }

  /** Splitting never invents characters. */
  lemma {:induction false} SplitRunsChars(s: string, seps: set<char>, cur: string)
    requires NoneOf(cur, seps)
    ensures forall p, c :: p in SplitRunsFrom(s, seps, cur) && c in p ==> c in cur || c in s
    decreases |s|
  {
    if s == [] {
    } else if s[0] in seps {
      var rest := DropLeading(s[1..], seps);
      SplitRunsChars(rest, seps, "");
      assert forall c :: c in rest ==> c in s;
    } else {
      SplitRunsChars(s[1..], seps, cur + [s[0]]);
    }
  }

  /** The requirement tokens the candidate also lists (`matching_skills`, in no order). */
  function MatchingSkills(jobText: string, candText: string): (r: set<string>)
    ensures r <= SkillTokens(jobText) && r <= SkillTokens(candText)
    ensures forall t :: t in SkillTokens(jobText) && t in SkillTokens(candText) ==> t in r
  {
    SkillTokens(jobText) * SkillTokens(candText)
  }

  /**
   * The skills part: the share of requirement tokens the candidate lists,
   * times 40. A requirements text without tokens gives 0, not full marks.
   */
  function SkillsScore(jobText: string, candText: string): (r: real)
    ensures 0.0 <= r <= SkillsWeight
    ensures SkillTokens(jobText) == {} ==> r == 0.0
    ensures r == 0.0 <==> MatchingSkills(jobText, candText) == {}
    ensures r == SkillsWeight <==> SkillTokens(jobText) != {} && SkillTokens(jobText) <= SkillTokens(candText)
  {
    var job := SkillTokens(jobText);
    var hits := MatchingSkills(jobText, candText);
    if job == {} then 0.0
    else
      SubsetCardinality(hits, job);
      assert hits == job <==> job <= SkillTokens(candText);
      Share(|hits|, |job|)
  }

  /** `hits / total * 40` for `hits <= total`. */
  function Share(hits: nat, total: nat): (r: real)
    requires 0 < total && hits <= total
    ensures 0.0 <= r <= SkillsWeight
    ensures r == 0.0 <==> hits == 0
    ensures r == SkillsWeight <==> hits == total
  {
    FractionFacts(hits, total);
    (hits as real) / (total as real) * SkillsWeight
  }

  /** The fraction `hits / total` lies in 0..1 and reaches either end only at the matching count. */
  lemma FractionFacts(hits: nat, total: nat)
    requires 0 < total && hits <= total
    ensures var q := (hits as real) / (total as real);
            && 0.0 <= q <= 1.0 && (q == 0.0 <==> hits == 0) && (q == 1.0 <==> hits == total)
  {
    var h := hits as real;
    var t := total as real;
    var q := h / t;
    RatioFacts(h, t);
    if q == 0.0 {
      assert h == 0.0 * t;
    }
    if q == 1.0 {
      assert h == 1.0 * t;
    }
  }

  /** Division by a positive number keeps the order. */
  lemma DivMonotone(x: real, y: real, t: real)
    requires x <= y && t > 0.0
    ensures x / t <= y / t
  {
    var a := x / t;
    var b := y / t;
    RatioFacts(x, t);
    RatioFacts(y, t);
    assert (b - a) * t == y - x;
  }

  /** A subset is no larger than its superset, and equally large only when equal. */
  lemma {:induction false} SubsetCardinality<T>(a: set<T>, b: set<T>)
    requires a <= b
    ensures |a| <= |b|
    ensures |a| == |b| <==> a == b
    decreases |b|
  {
    if b != {} {
      var x :| x in b;
      SubsetCardinality(a - {x}, b - {x});
      assert b == (b - {x}) + {x};
      if x in a {
        assert a == (a - {x}) + {x};
        assert |a - {x}| == |a| - 1;
      } else {
        assert a - {x} == a;
      }
    }
  }

  /** Listing more skills never lowers the skills part. */
  lemma SkillsScoreMonotone(jobText: string, cand: string, cand': string)
    requires SkillTokens(cand) <= SkillTokens(cand')
    ensures SkillsScore(jobText, cand) <= SkillsScore(jobText, cand')
  {
    var job := SkillTokens(jobText);
    if job != {} {
      var h := MatchingSkills(jobText, cand);
      var h' := MatchingSkills(jobText, cand');
      assert h <= h';
      SubsetCardinality(h, h');
      SubsetCardinality(h', job);
      ShareMonotone(|h|, |h'|, |job|);
    }
  }

  lemma ShareMonotone(h: nat, h': nat, total: nat)
    requires 0 < total && h <= h' <= total
    ensures Share(h, total) <= Share(h', total)
  {
    DivMonotone(h as real, h' as real, total as real);
  }

  // ---------------------------------------------------------------- joining skill lists

  /** A skill name that survives tokenising unchanged up to case. */
  predicate IsSkillItem(x: string) {
    x != [] && IsStripped(x) && NoneOf(x, SkillSeparators)
  }

  function LowerAll(items: seq<string>): (r: seq<string>)
    ensures |r| == |items|
    ensures forall i :: 0 <= i < |items| ==> r[i] == Lower(items[i])
  {
    seq(|items|, i requires 0 <= i < |items| => Lower(items[i]))
  }

  function Prefixed(items: seq<string>): (r: seq<string>)
    ensures |r| == |items|
    ensures forall i :: 0 <= i < |items| ==> r[i] == " " + items[i]
  {
    seq(|items|, i requires 0 <= i < |items| => " " + items[i])
  }

  lemma LowerKeepsItem(x: string)
    requires IsSkillItem(x)
    ensures IsSkillItem(Lower(x))
  {
  }

  lemma {:induction false} LowerJoin(items: seq<string>)
    ensures Lower(Join(items, ", ")) == Join(LowerAll(items), ", ")
    decreases |items|
  {
    if |items| >= 2 {
      LowerJoin(items[1..]);
      assert LowerAll(items)[1..] == LowerAll(items[1..]);
      assert Lower(", ") == ", ";
      LowerAppend(items[0], ", " + Join(items[1..], ", "));
      LowerAppend(", ", Join(items[1..], ", "));
      assert items[0] + ", " + Join(items[1..], ", ") == items[0] + (", " + Join(items[1..], ", "));
      assert Join(LowerAll(items), ", ") == LowerAll(items)[0] + (", " + Join(LowerAll(items)[1..], ", "));
    }
  }

  /** The pieces a joined list splits into: the first item, then every other item behind its blank. */
  lemma {:induction false} SplitJoined(items: seq<string>, cur: string)
    requires |items| > 0 && forall x :: x in items ==> NoneOf(x, SkillSeparators)
    requires NoneOf(cur, SkillSeparators)
    ensures SplitRunsFrom(Join(items, ", "), SkillSeparators, cur) == [cur + items[0]] + Prefixed(items[1..])
    decreases |items|
  {
    var seps := SkillSeparators;
    assert NoneOf(items[0], seps) by {
      assert items[0] in items;
    }
    if |items| == 1 {
      SplitRunsSkipsWord(items[0], "", seps, cur);
      assert items[0] + "" == items[0];
    } else {
      var rest := items[1..];
      var j := Join(rest, ", ");
      assert Join(items, ", ") == items[0] + (", " + j);
      SplitRunsSkipsWord(items[0], ", " + j, seps, cur);
      SplitAfterSeparator(j, cur + items[0]);
      assert forall x :: x in rest ==> x in items;
      SplitJoined(rest, " ");
      PrefixedCons(rest);
    }
  }

  lemma PrefixedCons(rest: seq<string>)
    requires |rest| > 0
    ensures [" " + rest[0]] + Prefixed(rest[1..]) == Prefixed(rest)
  {
  }

  /** At ", " the current piece ends and the next one starts with the blank. */
  lemma SplitAfterSeparator(j: string, cur: string)
    requires NoneOf(cur, SkillSeparators)
    ensures SplitRunsFrom(", " + j, SkillSeparators, cur) == [cur] + SplitRunsFrom(j, SkillSeparators, " ")
  {
    var seps := SkillSeparators;
    var t := ", " + j;
    var u := " " + j;
    assert t[0] == ',' && t[1..] == u;
    assert u[0] == ' ' && ' ' !in seps;
    assert DropLeading(u, seps) == u;
    assert SplitRunsFrom(t, seps, cur) == [cur] + SplitRunsFrom(u, seps, "");
    SplitRunsSkipsWord(" ", j, seps, "");
    assert "" + " " == " ";
  }

  /**
   * Joining skill names with ", " and tokenising the result gives back the
   * names, lower-cased, as long as no name is blank, has surrounding
   * whitespace or holds a comma or line break.
   */
  lemma SkillsJoinRoundTrip(items: seq<string>)
    requires forall x :: x in items ==> IsSkillItem(x)
    ensures SkillTokens(Join(items, ", ")) == set x | x in items :: Lower(x)
  {
    var low := LowerAll(items);
    LowerJoin(items);
    var pieces := SplitRuns(Join(low, ", "), SkillSeparators);
    assert SkillTokens(Join(items, ", ")) == TokensOf(pieces);
    LowerAllSet(items);
    if items == [] {
      assert pieces == [""];
      assert TokensOf(pieces) == {};
    } else {
      forall x | x in low ensures IsSkillItem(x) {
        var i :| 0 <= i < |low| && low[i] == x;
        LowerKeepsItem(items[i]);
      }
      SplitJoined(low, "");
      assert "" + low[0] == low[0];
      TokensOfJoinedPieces(low);
    }
  }

  lemma LowerAllSet(items: seq<string>)
    ensures (set x | x in items :: Lower(x)) == set y | y in LowerAll(items)
  {
    var l := LowerAll(items);
    forall y | y in l ensures y in set x | x in items :: Lower(x) {
      var i :| 0 <= i < |l| && l[i] == y;
      assert items[i] in items;
    }
    forall x | x in items ensures Lower(x) in l {
      var i :| 0 <= i < |items| && items[i] == x;
      assert l[i] == Lower(x);
    }
  }

  /** Stripping the pieces of a joined list gives back exactly its items. */
  lemma TokensOfJoinedPieces(low: seq<string>)
    requires |low| > 0 && forall x :: x in low ==> IsSkillItem(x)
    ensures TokensOf([low[0]] + Prefixed(low[1..])) == set y | y in low
  {
    var pieces := [low[0]] + Prefixed(low[1..]);
    forall p | p in pieces ensures Strip(p) != [] && Strip(p) in low {
      JoinedPieceStrips(low, p);
    }
    forall y | y in low ensures y in TokensOf(pieces) {
      var i :| 0 <= i < |low| && low[i] == y;
      JoinedItemFound(low, i);
    }
  }

  lemma JoinedPieceStrips(low: seq<string>, p: string)
    requires |low| > 0 && forall x :: x in low ==> IsSkillItem(x)
    requires p in [low[0]] + Prefixed(low[1..])
    ensures Strip(p) != [] && Strip(p) in low
  {
    var pieces := [low[0]] + Prefixed(low[1..]);
    var i :| 0 <= i < |pieces| && pieces[i] == p;
    if i == 0 {
      assert low[0] in low;
      StripFixed(p);
    } else {
      assert p == " " + low[i];
      assert low[i] in low;
      StripSpaceThen(low[i]);
    }
  }

  lemma JoinedItemFound(low: seq<string>, i: nat)
    requires i < |low| && forall x :: x in low ==> IsSkillItem(x)
    ensures low[i] in TokensOf([low[0]] + Prefixed(low[1..]))
  {
    var pieces := [low[0]] + Prefixed(low[1..]);
    var y := low[i];
    assert IsSkillItem(y) by {
      assert y in low;
    }
    if i == 0 {
      StripFixed(y);
      assert pieces[0] == y;
    } else {
      assert pieces[i] == Prefixed(low[1..])[i - 1] == " " + low[1..][i - 1];
      StripSpaceThen(y);
    }
    InTokensOf(pieces, i);
  }

  lemma InTokensOf(pieces: seq<string>, i: nat)
    requires i < |pieces| && Strip(pieces[i]) != []
    ensures Strip(pieces[i]) in TokensOf(pieces)
  {
    assert pieces[i] in pieces;
  }

  const SeededRequirements: seq<string> := ["Python", "Django", "AWS", "PostgreSQL", "5+ years experience"]
  const SeededSkills: seq<string> := ["Python", "Django", "AWS", "PostgreSQL", "Docker", "Redis"]

  lemma SeededItems()
    ensures forall x :: x in SeededRequirements ==> IsSkillItem(x)
    ensures forall x :: x in SeededSkills ==> IsSkillItem(x)
  {
  }

  lemma SeededTokens()
    ensures SkillTokens(Join(SeededRequirements, ", ")) == {"python", "django", "aws", "postgresql", "5+ years experience"}
    ensures SkillTokens(Join(SeededSkills, ", ")) == {"python", "django", "aws", "postgresql", "docker", "redis"}
  {
    SeededItems();
    SkillsJoinRoundTrip(SeededRequirements);
    SkillsJoinRoundTrip(SeededSkills);
    SeededLowerAll();
    LowerAllSet(SeededRequirements);
    LowerAllSet(SeededSkills);
    SeededSets();
  }

  lemma SeededLowerAll()
    ensures LowerAll(SeededRequirements) == ["python", "django", "aws", "postgresql", "5+ years experience"]
    ensures LowerAll(SeededSkills) == ["python", "django", "aws", "postgresql", "docker", "redis"]
  {
    SeededLower();
  }

  lemma SeededSets()
    ensures (set y | y in ["python", "django", "aws", "postgresql", "5+ years experience"])
            == {"python", "django", "aws", "postgresql", "5+ years experience"}
    ensures (set y | y in ["python", "django", "aws", "postgresql", "docker", "redis"])
            == {"python", "django", "aws", "postgresql", "docker", "redis"}
  {
  }

  lemma SeededLower()
    ensures Lower("Python") == "python"
    ensures Lower("Django") == "django"
    ensures Lower("AWS") == "aws"
    ensures Lower("PostgreSQL") == "postgresql"
    ensures Lower("5+ years experience") == "5+ years experience"
    ensures Lower("Docker") == "docker"
    ensures Lower("Redis") == "redis"
  {
  }

  /**
   * The seeded "Senior Python Developer" job (requirements "Python, Django,
   * AWS, PostgreSQL, 5+ years experience") lists its years phrase as a fifth
   * requirement token, so the seeded candidate with skills "Python, Django,
   * AWS, PostgreSQL, Docker, Redis" matches 4 of 5 tokens and earns 32 of 40
   * points. Both texts are written as the ", "-joined lists they are.
   */
  lemma SeededJobSkillsScore()
    ensures SkillsScore(Join(SeededRequirements, ", "), Join(SeededSkills, ", ")) == 32.0
  {
    SeededTokens();
    SeededCounts();
    FourOfFiveTokens(Join(SeededRequirements, ", "), Join(SeededSkills, ", "),
                     {"python", "django", "aws", "postgresql", "5+ years experience"},
                     {"python", "django", "aws", "postgresql", "docker", "redis"});
  }

  /** Four of five requirement tokens matched earn 32 points. */
  lemma FourOfFiveTokens(req: string, cand: string, job: set<string>, own: set<string>)
    requires SkillTokens(req) == job && SkillTokens(cand) == own
    requires |job| == 5 && |job * own| == 4
    ensures SkillsScore(req, cand) == 32.0
  {
    assert MatchingSkills(req, cand) == job * own;
    SkillsScoreIsShare(req, cand);
    FourFifths(|MatchingSkills(req, cand)|, |SkillTokens(req)|);
  }

  lemma FourFifths(m: nat, j: nat)
    requires m == 4 && j == 5
    ensures (m as real) / (j as real) * SkillsWeight == 32.0
  {
  }

  lemma SkillsScoreIsShare(jobText: string, candText: string)
    requires SkillTokens(jobText) != {}
    ensures SkillsScore(jobText, candText)
            == (|MatchingSkills(jobText, candText)| as real) / (|SkillTokens(jobText)| as real) * SkillsWeight
  {
  }

  lemma SeededCounts()
    ensures |{"python", "django", "aws", "postgresql", "5+ years experience"}| == 5
    ensures {"python", "django", "aws", "postgresql", "5+ years experience"}
            * {"python", "django", "aws", "postgresql", "docker", "redis"}
            == {"python", "django", "aws", "postgresql"}
    ensures |{"python", "django", "aws", "postgresql"}| == 4
  {
  }

  // ================================================================ experience (30 points)

  const ExperienceWeight: real := 30.0
  const NoRequirementBonus: real := 10.0

  /** One past the end of the digit run starting at `i`. */
  function RunEnd(s: string, i: nat): (e: nat)
    requires i <= |s|
    ensures i <= e <= |s|
    ensures forall k :: i <= k < e ==> IsDigit(s[k])
    ensures e == |s| || !IsDigit(s[e])
    ensures i < |s| && IsDigit(s[i]) ==> i < e
    decreases |s| - i
  {
    if i < |s| && IsDigit(s[i]) then RunEnd(s, i + 1) else i
  }

  /** One past the whitespace run (`\s*`) starting at `i`. */
  function SkipSpaces(s: string, i: nat): (e: nat)
    requires i <= |s|
    ensures i <= e <= |s|
    decreases |s| - i
  {
    if i < |s| && IsSpace(s[i]) then SkipSpaces(s, i + 1) else i
  }

  /** `\+?\s*years?` matches at `e`, ignoring case. */
  predicate YearsFollow(s: string, e: nat)
    requires e <= |s|
  {
    var p := if e < |s| && s[e] == '+' then e + 1 else e;
    var k := SkipSpaces(s, p);
    k + 4 <= |s| && Lower(s[k..k + 4]) == "year"
  }

  /**
   * A match of `(\d+)\+?\s*years?` starts at `i`. Only the first digit of a
   * run is considered: a match starting inside a run would also match from
   * the run's first digit, which `re.search` tries earlier.
   */
  predicate YearsPhraseAt(s: string, i: nat) {
    && i < |s|
    && IsDigit(s[i])
    && (i == 0 || !IsDigit(s[i - 1]))
    && YearsFollow(s, RunEnd(s, i))
  }

  /** The number captured by a match at `i`. */
  function PhraseYears(s: string, i: nat): nat
    requires i < |s|
  {
    DigitsValue(s[i..RunEnd(s, i)])
  }

  function ScanYears(s: string, i: nat): nat
    requires i <= |s|
    decreases |s| - i
  {
    if i == |s| then 0
    else if IsDigit(s[i]) then
      var e := RunEnd(s, i);
      if YearsFollow(s, e) then DigitsValue(s[i..e]) else ScanYears(s, e)
    else ScanYears(s, i + 1)
  }

  /** The phrase at `j` is the first one at or after `i`. */
  predicate FirstPhraseFrom(s: string, i: nat, j: nat) {
    i <= j < |s| && YearsPhraseAt(s, j) && forall k :: i <= k < j ==> !YearsPhraseAt(s, k)
  }

  /** No phrase starts at or after `i`. */
  predicate NoPhraseFrom(s: string, i: nat) {
    forall j :: i <= j < |s| ==> !YearsPhraseAt(s, j)
  }

  /**
   * The required years of a job: the number of the first "N years" phrase
   * (`N+ years`, `N year`, any case) in its requirements, or 0 when there is
   * none.
   */
  function MinExperience(req: string): (r: nat)
    ensures NoPhraseFrom(req, 0) ==> r == 0
    ensures forall i :: FirstPhraseFrom(req, 0, i) ==> r == PhraseYears(req, i)
  {
    ScanYearsFindsFirst(req, 0);
    ScanYears(req, 0)
  }

  /** `ScanYears` from a position that is not inside a digit run finds the first phrase from there on. */
  lemma ScanYearsFindsFirst(s: string, i: nat)
    requires i <= |s|
    requires i == 0 || i == |s| || !IsDigit(s[i - 1]) || !IsDigit(s[i])
    ensures NoPhraseFrom(s, i) ==> ScanYears(s, i) == 0
    ensures forall j :: FirstPhraseFrom(s, i, j) ==> ScanYears(s, i) == PhraseYears(s, j)
  {
    if NoPhraseFrom(s, i) {
      ScanYearsNone(s, i);
    }
    forall j | FirstPhraseFrom(s, i, j)
      ensures ScanYears(s, i) == PhraseYears(s, j)
    {
      ScanYearsFirst(s, i, j);
    }
  }

  /** No phrase from `i` on: the scan reports 0. */
  lemma {:induction false} ScanYearsNone(s: string, i: nat)
    requires i <= |s|
    requires i == 0 || i == |s| || !IsDigit(s[i - 1]) || !IsDigit(s[i])
    requires NoPhraseFrom(s, i)
    ensures ScanYears(s, i) == 0
    decreases |s| - i
  {
    if i < |s| {
      assert !YearsPhraseAt(s, i);
      if IsDigit(s[i]) {
        ScanYearsNone(s, RunEnd(s, i));
      } else {
        ScanYearsNone(s, i + 1);
      }
    }
  }

  /** The first phrase at or after `i` starts at `j`: the scan reports its number. */
  lemma {:induction false} ScanYearsFirst(s: string, i: nat, j: nat)
    requires i < |s|
    requires i == 0 || !IsDigit(s[i - 1]) || !IsDigit(s[i])
    requires FirstPhraseFrom(s, i, j)
    ensures ScanYears(s, i) == PhraseYears(s, j)
    decreases |s| - i
  {
    if IsDigit(s[i]) {
      var e := RunEnd(s, i);
      if YearsFollow(s, e) {
        assert YearsPhraseAt(s, i);
      } else {
        assert !YearsPhraseAt(s, i);
        assert forall k :: i < k < e ==> !YearsPhraseAt(s, k);
        ScanYearsFirst(s, e, j);
      }
    } else {
      assert !YearsPhraseAt(s, i);
      ScanYearsFirst(s, i + 1, j);
    }
  }

  lemma RatioFacts(a: real, b: real)
    requires b > 0.0
    ensures (a / b) * b == a
    ensures a >= b ==> a / b >= 1.0
    ensures a <= b ==> a / b <= 1.0
    ensures a >= 0.0 ==> a / b >= 0.0
  {
  }

  function Min(a: real, b: real): real {
    if a <= b then a else b
  }

  /**
   * The experience part. With a requirement, credit grows linearly up to
   * 30 points at the required years (the ratio is capped at 1.5 and then
   * at 1.0); without one, any experience earns a flat 10-point bonus.
   */
  function ExperienceScore(minExp: nat, candExp: int): (r: real)
    ensures r <= ExperienceWeight
    ensures candExp >= 0 ==> r >= 0.0
    ensures minExp > 0 && candExp >= minExp ==> r == ExperienceWeight
    ensures minExp > 0 && candExp <= minExp ==> r * (minExp as real) == ExperienceWeight * (candExp as real)
    ensures minExp == 0 ==> (r == NoRequirementBonus <==> candExp > 0) && (r == 0.0 <==> candExp <= 0)
  {
    if minExp > 0 then
      var q := (candExp as real) / (minExp as real);
      RatioFacts(candExp as real, minExp as real);
      var ratio := Min(q, 1.5);
      Min(ratio, 1.0) * ExperienceWeight
    else if candExp > 0 then NoRequirementBonus
    else 0.0
  }

  /** More experience never lowers the experience part. */
  lemma ExperienceScoreMonotone(minExp: nat, a: int, b: int)
    requires a <= b
    ensures ExperienceScore(minExp, a) <= ExperienceScore(minExp, b)
  {
    if minExp > 0 {
      DivMonotone(a as real, b as real, minExp as real);
    }
  }

  // ================================================================ education (0 / 50 / 100, weighted 0.15)

  /** The education keywords and their ranks, in the order of the source's table. */
  const EduRanks: seq<(string, nat)> := [
    ("phd", 5), ("doctorate", 5), ("master", 4), ("mba", 4), ("bachelor", 3), ("bs", 3),
    ("ba", 3), ("associate", 2), ("diploma", 1), ("high school", 0), ("none", 0)
  ]

  /** A job that names any education keyword asks for at least this rank. */
  const JobRankFloor: nat := 3

  const EducationWeight: real := 0.15

  /** The highest rank among the table keys occurring in `t`, or 0. */
  function RankIn(t: string, table: seq<(string, nat)>): (r: nat)
    ensures forall k :: 0 <= k < |table| && Contains(t, table[k].0) ==> table[k].1 <= r
    ensures r == 0 || exists k :: 0 <= k < |table| && Contains(t, table[k].0) && table[k].1 == r
    decreases |table|
  {
    if table == [] then 0
    else
      var rest := RankIn(t, table[1..]);
      assert forall k :: 1 <= k < |table| ==> table[k] == table[1..][k - 1];
      if Contains(t, table[0].0) && table[0].1 > rest then table[0].1 else rest
  }

  /** Some table key occurs in `t` (`found_req`). */
  predicate NamesLevel(t: string) {
    exists k :: 0 <= k < |EduRanks| && Contains(t, EduRanks[k].0)
  }

  /** A candidate's education rank: the highest keyword rank in the lower-cased text. */
  function CandidateRank(edu: string): nat {
    RankIn(Lower(edu), EduRanks)
  }

  /** The rank a job asks for: at least 3, raised by higher keywords in its requirements. */
  function JobRank(req: string): (r: nat)
    ensures r >= JobRankFloor
    ensures forall k :: 0 <= k < |EduRanks| && Contains(Lower(req), EduRanks[k].0) ==> EduRanks[k].1 <= r
    ensures r == JobRankFloor
            || exists k :: 0 <= k < |EduRanks| && Contains(Lower(req), EduRanks[k].0) && EduRanks[k].1 == r
  {
    var found := RankIn(Lower(req), EduRanks);
    if found > JobRankFloor then found else JobRankFloor
  }

  /**
   * A doctorate in the requirements raises the job's rank to 5, so only a
   * doctorate scores full education marks there.
   */
  lemma DoctorateRequirement(req: string, candEdu: string)
    requires Contains(Lower(req), "phd")
    ensures JobRank(req) == 5
    ensures EducationScore(candEdu, req) == 100 <==> CandidateRank(candEdu) == 5
  {
    assert EduRanks[0].0 == "phd";
    assert NamesLevel(Lower(req));
    RankAtMostFive(Lower(candEdu), EduRanks);
    RankAtMostFive(Lower(req), EduRanks);
  }

  /** No table rank exceeds 5, so neither does a matched rank. */
  lemma {:induction false} RankAtMostFive(t: string, table: seq<(string, nat)>)
    requires forall k :: 0 <= k < |table| ==> table[k].1 <= 5
    ensures RankIn(t, table) <= 5
    decreases |table|
  {
    if table != [] {
      RankAtMostFive(t, table[1..]);
    }
  }

  /**
   * `_calculate_education_score`: 100 when the requirements name no level or
   * the candidate reaches the job's rank, 50 one rank below, 0 otherwise.
   */
  function EducationScore(candEdu: string, jobReq: string): (r: nat)
    ensures r == 0 || r == 50 || r == 100
    ensures !NamesLevel(Lower(jobReq)) ==> r == 100
    ensures NamesLevel(Lower(jobReq)) ==>
              && (r == 100 <==> CandidateRank(candEdu) >= JobRank(jobReq))
              && (r == 50 <==> CandidateRank(candEdu) + 1 == JobRank(jobReq))
  {
    if !NamesLevel(Lower(jobReq)) then 100
    else
      var c := CandidateRank(candEdu);
      var j := JobRank(jobReq);
      if c >= j then 100 else if c == j - 1 then 50 else 0
  }

  /**
   * Once the requirements name any level, even "high school", the bar is at
   * least a bachelor's: a candidate of diploma rank or below scores 0.
   */
  lemma EducationFloorQuirk(candEdu: string, jobReq: string)
    requires NamesLevel(Lower(jobReq))
    requires CandidateRank(candEdu) <= 1
    ensures EducationScore(candEdu, jobReq) == 0
  {
  }

  /** A higher-ranked education never scores less against the same job. */
  lemma EducationScoreMonotone(e1: string, e2: string, jobReq: string)
    requires CandidateRank(e1) <= CandidateRank(e2)
    ensures EducationScore(e1, jobReq) <= EducationScore(e2, jobReq)
  {
  }

  /** The parsed resume carries a non-empty education. */
  predicate ParsedEducation(a: Applicant) {
    a.parsedData.Some? && a.parsedData.value.education.Some? && a.parsedData.value.education.value != ""
  }

  /**
   * The candidate's education text: the parsed resume's education when it
   * is non-empty, else the profile's, else the word "None".
   */
  function CandidateEducation(a: Applicant): (r: string)
    ensures r != ""
    ensures ParsedEducation(a) ==> r == a.parsedData.value.education.value
    ensures r != a.education ==> r == "None" || a.parsedData.Some?
    ensures !ParsedEducation(a) && a.education != "" ==> r == a.education
    ensures !ParsedEducation(a) && a.education == "" ==> r == "None"
  {
    var parsed := if a.parsedData.Some? then a.parsedData.value.education else None;
    if parsed.Some? && parsed.value != "" then parsed.value
    else if a.education != "" then a.education
    else "None"
  }

  // ================================================================ AI relevance (weighted 0.15)

  /** What the relevance call produced: no key configured, a reply text, or an error. */
  datatype AiOutcome = NoKey | Reply(content: string) | CallFailed

  const AiFallback: nat := 50
  const AiWeight: real := 0.15

  /**
   * `_get_ai_match_score`: the first number in the reply, or 50 when there is
   * no key, no number or an error. Nothing clamps it to 0..100. (The reply is
   * stripped first in the source; stripping cannot change its first number.)
   */
  function AiRawScore(o: AiOutcome): (r: nat)
    ensures !o.Reply? ==> r == AiFallback
    ensures o.Reply? && (forall i :: 0 <= i < |o.content| ==> !IsDigit(o.content[i])) ==> r == AiFallback
    ensures o.Reply? && FirstDigitRun(o.content).Some? ==> r == DigitsValue(FirstDigitRun(o.content).value)
  {
    match o
    case Reply(c) =>
      (match FirstDigitRun(c)
       case Some(d) => DigitsValue(d)
       case None => AiFallback)
    case _ => AiFallback
  }

  /**
   * The AI number is taken as it is, whatever its size: a reply that is just
   * the number `n` scores `n`, so a reply of "900" scores 900.
   */
  lemma AiScoreUnclamped(n: nat)
    ensures AiRawScore(Reply(NatToDecimal(n))) == n
  {
    var d := NatToDecimal(n);
    DigitRunOfDigits(d);
    DecimalRoundTrip(n);
  }

  lemma {:induction false} DigitRunOfDigits(d: string)
    requires AllDigits(d)
    ensures DigitRun(d) == d
    decreases |d|
  {
    if d != [] {
      DigitRunOfDigits(d[1..]);
    }
  }

  // ================================================================ composite

  /** The score breakdown returned with `return_details`. */
  datatype Breakdown = Breakdown(
    skills: real,
    experience: real,
    education: real,
    ai: real,
    matching: set<string>,
    total: real)

  /**
   * `calculate_application_score`: the four parts and their sum. The total
   * lies in 0..100 when the experience is not negative and the AI number is
   * within 0..100.
   */
  function ApplicationScore(job: Job, applicant: Applicant, aiRaw: int): (b: Breakdown)
    ensures 0.0 <= b.skills <= SkillsWeight
    ensures b.experience <= ExperienceWeight
    ensures applicant.experience >= 0 ==> b.experience >= 0.0
    ensures b.education == 0.0 || b.education == 7.5 || b.education == 15.0
    ensures b.ai == AiWeight * (aiRaw as real)
    ensures b.matching <= SkillTokens(job.requirements) && b.matching <= SkillTokens(applicant.skills)
    ensures b.skills == SkillsScore(job.requirements, applicant.skills)
    ensures b.experience == ExperienceScore(MinExperience(job.requirements), applicant.experience)
    ensures b.education == EducationWeight * (EducationScore(CandidateEducation(applicant), job.requirements) as real)
    ensures b.matching == MatchingSkills(job.requirements, applicant.skills)
    ensures b.total == b.skills + b.experience + b.education + b.ai
    ensures applicant.experience >= 0 && 0 <= aiRaw <= 100 ==> 0.0 <= b.total <= 100.0
  {
    var skills := SkillsScore(job.requirements, applicant.skills);
    var experience := ExperienceScore(MinExperience(job.requirements), applicant.experience);
    var education := (EducationScore(CandidateEducation(applicant), job.requirements) as real) * EducationWeight;
    var ai := (aiRaw as real) * AiWeight;
    Breakdown(skills, experience, education, ai,
              MatchingSkills(job.requirements, applicant.skills),
              skills + experience + education + ai)
  }

  /**
   * The total never drops for a candidate who has every skill token, year,
   * education rank and AI point another has, or more.
   */
  lemma ApplicationScoreMonotone(job: Job, a: Applicant, a': Applicant, ai: int, ai': int)
    requires SkillTokens(a.skills) <= SkillTokens(a'.skills)
    requires a.experience <= a'.experience
    requires CandidateRank(CandidateEducation(a)) <= CandidateRank(CandidateEducation(a'))
    requires ai <= ai'
    ensures ApplicationScore(job, a, ai).total <= ApplicationScore(job, a', ai').total
  {
    SkillsScoreMonotone(job.requirements, a.skills, a'.skills);
    ExperienceScoreMonotone(MinExperience(job.requirements), a.experience, a'.experience);
    EducationScoreMonotone(CandidateEducation(a), CandidateEducation(a'), job.requirements);
  }

  /** A large enough AI number pushes the total past 100. */
  lemma TotalCanExceedHundred(job: Job, applicant: Applicant, aiRaw: int)
    requires applicant.experience >= 0 && aiRaw >= 667
    ensures ApplicationScore(job, applicant, aiRaw).total > 100.0
  {
  }
}
