/**
 * String helpers with the meaning of the Python built-ins the portal's
 * scoring and resume code relies on: `str.lower`, `str.strip`, `sub in s`,
 * `str.split`, `", ".join`, `str.capitalize`, `str(int)`, `int(digits)` and
 * the two regular expressions `\d+` and `[,\n\r]+` used for splitting.
 *
 * Case mapping covers ASCII letters only; every other character is left as
 * it is. Digits are the ASCII digits.
 */
module Text {
  import opened Wrappers

  predicate IsUpper(c: char) { 'A' <= c <= 'Z' }

  predicate IsLowerLetter(c: char) { 'a' <= c <= 'z' }

  predicate IsDigit(c: char) { '0' <= c <= '9' }

  /** `str.isspace()`: the characters `str.strip()` removes and `\s` matches. */
  predicate IsSpace(c: char) {
    var n := c as int;
    || 9 <= n <= 13
    || 0x1C <= n <= 0x20
    || n == 0x85 || n == 0xA0 || n == 0x1680
    || 0x2000 <= n <= 0x200A
    || n == 0x2028 || n == 0x2029 || n == 0x202F || n == 0x205F || n == 0x3000
  }

  /** No ASCII upper-case letter in `s`: what `lower()` produces. */
  predicate HasNoUpper(s: string) {
    forall i :: 0 <= i < |s| ==> !IsUpper(s[i])
  }

  function LowerChar(c: char): char {
    if IsUpper(c) then (c as int + 32) as char else c
  }

  function UpperChar(c: char): char {
    if IsLowerLetter(c) then (c as int - 32) as char else c
  }

  /** `s.lower()` */
  function Lower(s: string): (r: string)
    ensures |r| == |s|
    ensures forall i :: 0 <= i < |s| ==> r[i] == LowerChar(s[i])
  {
    seq(|s|, i requires 0 <= i < |s| => LowerChar(s[i]))
  }

  /** `s.capitalize()`: first character upper-cased, the rest lower-cased. */
  function Capitalize(s: string): (r: string)
    ensures |r| == |s|
  {
    if s == [] then [] else [UpperChar(s[0])] + Lower(s[1..])
  }

  /** `sub in s` */
  predicate Contains(s: string, sub: string)
    decreases |s|
  {
    sub <= s || (|s| > 0 && Contains(s[1..], sub))
  }

  /** `s.lstrip()` */
  function TrimLeft(s: string): (r: string)
    ensures |r| <= |s| && r == s[|s| - |r|..]
    ensures r == [] || !IsSpace(r[0])
    decreases |s|
  {
    if |s| > 0 && IsSpace(s[0]) then TrimLeft(s[1..]) else s
  }

  /** `s.rstrip()` */
  function TrimRight(s: string): (r: string)
    ensures |r| <= |s| && r == s[..|r|]
    ensures r == [] || !IsSpace(r[|r| - 1])
    decreases |s|
  {
    if |s| > 0 && IsSpace(s[|s| - 1]) then TrimRight(s[..|s| - 1]) else s
  }

  /** `s.strip()`: the result is a piece of `s` with no surrounding whitespace. */
  function Strip(s: string): (r: string)
    ensures forall c :: c in r ==> c in s
    ensures r == [] || (!IsSpace(r[0]) && !IsSpace(r[|r| - 1]))
  {
    var l := TrimLeft(s);
    var r := TrimRight(l);
    assert forall c :: c in r ==> c in l;
    assert forall c :: c in l ==> c in s;
    r
  }

  /** A string that `strip()` leaves alone. */
  predicate IsStripped(s: string) {
    s == [] || (!IsSpace(s[0]) && !IsSpace(s[|s| - 1]))
  }

  lemma StripFixed(s: string)
    requires IsStripped(s)
    ensures Strip(s) == s
  {
  }

  /** Stripping a single leading blank off an already stripped, non-empty word. */
  lemma StripSpaceThen(x: string)
    requires x != [] && IsStripped(x)
    ensures Strip(" " + x) == x
  {
    assert (" " + x)[1..] == x;
    assert TrimLeft(" " + x) == TrimLeft(x) == x;
    assert TrimRight(x) == x;
  }

  // ---------------------------------------------------------------- digits

  function DigitValue(c: char): nat
    requires IsDigit(c)
  {
    c as int - '0' as int
  }

  function DigitChar(k: nat): (c: char)
    requires k < 10
    ensures IsDigit(c) && DigitValue(c) == k
  {
    ('0' as int + k) as char
  }

  predicate AllDigits(d: string) {
    forall i :: 0 <= i < |d| ==> IsDigit(d[i])
  }

  /** `int(d)` for a string of decimal digits. */
  function DigitsValue(d: string): nat
    requires AllDigits(d)
    decreases |d|
  {
    if d == [] then 0 else 10 * DigitsValue(d[..|d| - 1]) + DigitValue(d[|d| - 1])
  }

  /** The longest prefix of `s` made of digits. */
  function DigitRun(s: string): (r: string)
    ensures r <= s && AllDigits(r)
    ensures |r| == |s| || !IsDigit(s[|r|])
    decreases |s|
  {
    if |s| > 0 && IsDigit(s[0]) then [s[0]] + DigitRun(s[1..]) else []
  }

  /** `re.search(r'\d+', s)`: the leftmost maximal run of digits, if there is one. */
  function FirstDigitRun(s: string): (r: Option<string>)
    ensures r.None? <==> forall i :: 0 <= i < |s| ==> !IsDigit(s[i])
    ensures r.Some? ==> |r.value| > 0 && AllDigits(r.value)
    decreases |s|
  {
    if s == [] then None
    else if IsDigit(s[0]) then Some(DigitRun(s))
    else
      var r := FirstDigitRun(s[1..]);
      assert forall i :: 1 <= i < |s| ==> s[i] == s[1..][i - 1];
      r
  }

  /** `str(n)` for a natural number. */
  function NatToDecimal(n: nat): (r: string)
    ensures |r| > 0 && AllDigits(r)
  {
    if n < 10 then [DigitChar(n)] else NatToDecimal(n / 10) + [DigitChar(n % 10)]
  }

  /** `str(i)` */
  function IntToDecimal(i: int): string {
    if i < 0 then "-" + NatToDecimal(-i) else NatToDecimal(i)
  }

  /** Printing a number and reading it back with `int()` gives the number again. */
  lemma {:induction false} DecimalRoundTrip(n: nat)
    ensures DigitsValue(NatToDecimal(n)) == n
  {
    if n >= 10 {
      DecimalRoundTrip(n / 10);
      var d := NatToDecimal(n);
      assert d[..|d| - 1] == NatToDecimal(n / 10);
    }
  }

  // ---------------------------------------------------------------- joining and splitting

  /** `sep.join(items)` */
  function Join(items: seq<string>, sep: string): string
    decreases |items|
  {
    if |items| == 0 then ""
    else if |items| == 1 then items[0]
    else items[0] + sep + Join(items[1..], sep)
  }

  predicate NoneOf(p: string, seps: set<char>) {
    forall i :: 0 <= i < |p| ==> p[i] !in seps
  }

  /** `s.split(sep)`: cut at every occurrence of `sep`, keeping empty pieces. */
  function Split(s: string, sep: char): (r: seq<string>)
    ensures |r| > 0
    ensures forall p :: p in r ==> NoneOf(p, {sep})
  {
    SplitFrom(s, sep, "")
  }

  function SplitFrom(s: string, sep: char, cur: string): (r: seq<string>)
    requires NoneOf(cur, {sep})
    ensures |r| > 0
    ensures forall p :: p in r ==> NoneOf(p, {sep})
    decreases |s|
  {
    if s == [] then [cur]
    else if s[0] == sep then [cur] + SplitFrom(s[1..], sep, "")
    else SplitFrom(s[1..], sep, cur + [s[0]])
  }

  /** Joining the pieces of a split with the separator gives the text back. */
  lemma SplitJoinRoundTrip(s: string, sep: char)
    ensures Join(Split(s, sep), [sep]) == s
  {
    SplitFromJoin(s, sep, "");
  }

  lemma {:induction false} SplitFromJoin(s: string, sep: char, cur: string)
    requires NoneOf(cur, {sep})
    ensures Join(SplitFrom(s, sep, cur), [sep]) == cur + s
    decreases |s|
  {
    if s == [] {
      assert cur + s == cur;
    } else if s[0] == sep {
      var rest := SplitFrom(s[1..], sep, "");
      SplitFromJoin(s[1..], sep, "");
      assert ([cur] + rest)[1..] == rest;
      assert Join([cur] + rest, [sep]) == cur + [sep] + Join(rest, [sep]);
      assert s == [sep] + s[1..];
    } else {
      SplitFromJoin(s[1..], sep, cur + [s[0]]);
      assert cur + [s[0]] + s[1..] == cur + s;
    }
  }

  /** Lower-casing a text with no upper-case letter changes nothing. */
  lemma LowerFixed(s: string)
    requires HasNoUpper(s)
    ensures Lower(s) == s
  {
  }

  /** Drops the separators at the front of `s`. */
  function DropLeading(s: string, seps: set<char>): (r: string)
    ensures |r| <= |s| && r == s[|s| - |r|..]
    ensures r == [] || r[0] !in seps
    decreases |s|
  {
    if |s| > 0 && s[0] in seps then DropLeading(s[1..], seps) else s
  }

  /**
   * `re.split('[' + seps + ']+', s)`: cut at every maximal run of separator
   * characters. A separator at the very start or end yields an empty piece
   * there, as the regular-expression split does.
   */
  function SplitRuns(s: string, seps: set<char>): (r: seq<string>)
    ensures |r| > 0
    ensures forall p :: p in r ==> NoneOf(p, seps)
  {
    SplitRunsFrom(s, seps, "")
  }

  function SplitRunsFrom(s: string, seps: set<char>, cur: string): (r: seq<string>)
    requires NoneOf(cur, seps)
    ensures |r| > 0
    ensures forall p :: p in r ==> NoneOf(p, seps)
    decreases |s|
  {
    if s == [] then [cur]
    else if s[0] in seps then [cur] + SplitRunsFrom(DropLeading(s[1..], seps), seps, "")
    else SplitRunsFrom(s[1..], seps, cur + [s[0]])
  }

  /** Characters that are not separators are simply collected into the current piece. */
  lemma {:induction false} SplitRunsSkipsWord(x: string, t: string, seps: set<char>, cur: string)
    requires NoneOf(cur, seps) && NoneOf(x, seps)
    ensures NoneOf(cur + x, seps)
    ensures SplitRunsFrom(x + t, seps, cur) == SplitRunsFrom(t, seps, cur + x)
    decreases |x|
  {
    if x != [] {
      assert (x + t)[0] == x[0];
      assert (x + t)[1..] == x[1..] + t;
      assert cur + x == (cur + [x[0]]) + x[1..];
      SplitRunsSkipsWord(x[1..], t, seps, cur + [x[0]]);
    } else {
      assert x + t == t;
      assert cur + x == cur;
    }
  }

  lemma LowerAppend(a: string, b: string)
    ensures Lower(a + b) == Lower(a) + Lower(b)
  {
  }
}
