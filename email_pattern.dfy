/** The entity's `EMAIL_PATTERN`, `^[a-zA-Z0-9._%+-]+@[a-zA-Z0-9.-]+\.[a-zA-Z]{2,6}$`,
    used with `Matcher.matches()`, so the whole string must match.

    `InEmailLanguage` is the language of the expression read literally: the string splits
    into a local part, "@", a domain part, "." and a top-level label. `MatchesBySplit` decides it
    without searching: it splits at the first '@' and at the last '.' after it.
    `MatchesBySplitIsLanguage` proves the two agree on every string, which gives `Matches`
    its contract. */
module EmailPattern {

  import opened Wrappers
  import opened JavaText

  predicate IsAsciiLetter(c: char) {
    ('a' <= c <= 'z') || ('A' <= c <= 'Z')
  }

  predicate IsAsciiDigit(c: char) {
    '0' <= c <= '9'
  }

  /** The class `[a-zA-Z0-9._%+-]`. */
  predicate IsLocalChar(c: char) {
    IsAsciiLetter(c) || IsAsciiDigit(c) || c == '.' || c == '_' || c == '%' || c == '+' || c == '-'
  }

  /** The class `[a-zA-Z0-9.-]`. */
  predicate IsDomainChar(c: char) {
    IsAsciiLetter(c) || IsAsciiDigit(c) || c == '.' || c == '-'
  }

  /** `[a-zA-Z0-9._%+-]+` */
  predicate IsLocalPart(s: string) {
    |s| > 0 && forall i :: 0 <= i < |s| ==> IsLocalChar(s[i])
  }

  /** `[a-zA-Z0-9.-]+` */
  predicate IsDomainPart(s: string) {
    |s| > 0 && forall i :: 0 <= i < |s| ==> IsDomainChar(s[i])
  }

  /** `[a-zA-Z]{2,6}` */
  predicate IsTopLevelPart(s: string) {
    2 <= |s| <= 6 && forall i :: 0 <= i < |s| ==> IsAsciiLetter(s[i])
  }

  /** The strings the regular expression matches in full. */
  ghost predicate InEmailLanguage(s: string) {
    exists at: int, dot: int ::
      && 0 <= at < dot < |s|
      && s[at] == '@'
      && s[dot] == '.'
      && IsLocalPart(s[..at])
      && IsDomainPart(s[at + 1..dot])
      && IsTopLevelPart(s[dot + 1..])
  }

  /** The position of the first `c` in `s`, if any. */
  function IndexOf(s: string, c: char): (r: Option<nat>)
    ensures r.Some? ==> r.value < |s| && s[r.value] == c
    ensures r.Some? ==> forall j :: 0 <= j < r.value ==> s[j] != c
    ensures r.None? ==> forall j :: 0 <= j < |s| ==> s[j] != c
  {
    if |s| == 0 then None
    else if s[0] == c then Some(0)
    else match IndexOf(s[1..], c)
      case None => None
      case Some(k) => Some(k + 1)
  }

  /** The position of the last `c` in `s`, if any. */
  function LastIndexOf(s: string, c: char): (r: Option<nat>)
    ensures r.Some? ==> r.value < |s| && s[r.value] == c
    ensures r.Some? ==> forall j :: r.value < j < |s| ==> s[j] != c
    ensures r.None? ==> forall j :: 0 <= j < |s| ==> s[j] != c
  {
    if |s| == 0 then None
    else if s[|s| - 1] == c then Some(|s| - 1)
    else LastIndexOf(s[..|s| - 1], c)
  }

  /** `EMAIL_PATTERN.matcher(s).matches()`: true exactly of the strings in the language
      of the regular expression. */
  function Matches(s: string): (m: bool)
    ensures m <==> InEmailLanguage(s)
  {
    MatchesBySplitIsLanguage(s);
    MatchesBySplit(s)
  }

  /** The decision procedure behind `Matches`: split at the first '@' and at the last '.'
      after it, and check the three parts. */
  predicate MatchesBySplit(s: string) {
    match IndexOf(s, '@')
    case None => false
    case Some(at) =>
      var domain := s[at + 1..];
      match LastIndexOf(domain, '.')
      case None => false
      case Some(d) =>
        IsLocalPart(s[..at]) && IsDomainPart(domain[..d]) && IsTopLevelPart(domain[d + 1..])
  }

  /** The split-based decision accepts exactly the language of the regular expression. */
  lemma MatchesBySplitIsLanguage(s: string)
    ensures MatchesBySplit(s) <==> InEmailLanguage(s)
  {
    if MatchesBySplit(s) {
      MatchIsInLanguage(s);
    }
    if InEmailLanguage(s) {
      var at: int, dot: int :|
        && 0 <= at < dot < |s|
        && s[at] == '@'
        && s[dot] == '.'
        && IsLocalPart(s[..at])
        && IsDomainPart(s[at + 1..dot])
        && IsTopLevelPart(s[dot + 1..]);
      LanguageSplitIsFound(s, at, dot);
    }
  }

  /** The split found by the matcher witnesses membership in the language. */
  lemma MatchIsInLanguage(s: string)
    requires MatchesBySplit(s)
    ensures InEmailLanguage(s)
  {
    var at := IndexOf(s, '@').value;
    var d := LastIndexOf(s[at + 1..], '.').value;
    var dot := at + 1 + d;
    assert s[at + 1..][..d] == s[at + 1..dot];
    assert s[at + 1..][d + 1..] == s[dot + 1..];
  }

  /** Any split the language allows is the one the matcher finds: no local character is
      '@', so `at` is the first '@', and no top-level letter is '.', so `dot` is the last '.'. */
  lemma LanguageSplitIsFound(s: string, at: int, dot: int)
    requires 0 <= at < dot < |s| && s[at] == '@' && s[dot] == '.'
    requires IsLocalPart(s[..at]) && IsDomainPart(s[at + 1..dot]) && IsTopLevelPart(s[dot + 1..])
    ensures MatchesBySplit(s)
  {
    assert forall j :: 0 <= j < at ==> s[..at][j] == s[j];
    assert IndexOf(s, '@') == Some(at);
    var domain := s[at + 1..];
    var d := dot - at - 1;
    assert forall j :: d < j < |domain| ==> domain[j] == s[dot + 1..][j - d - 1];
    assert LastIndexOf(domain, '.') == Some(d);
    assert domain[..d] == s[at + 1..dot];
    assert domain[d + 1..] == s[dot + 1..];
  }

  /** A matching address holds exactly one '@'. */
  lemma MatchedAddressHasOneAt(s: string)
    requires Matches(s)
    ensures exists at :: 0 <= at < |s| && s[at] == '@'
    ensures forall i, j :: 0 <= i < |s| && 0 <= j < |s| && s[i] == '@' && s[j] == '@' ==> i == j
  {
  }

  /** A matching address is never blank, so for a matching address the entity's blank
      check never fires before the format check. */
  lemma MatchedAddressIsNotBlank(s: string)
    requires Matches(s)
    ensures !IsBlank(s)
  {
  }
}
