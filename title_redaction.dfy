// `sanitizeTitle`: four global regular-expression replacements, applied in
// order, each replacing every leftmost non-overlapping match with
// "[REDACTED]". Each pattern is written out as the match that a backtracking
// ECMAScript engine returns at a given start index.
module TitleRedaction {
  import opened Wrappers

  const Redacted: string := "[REDACTED]"

  // ---------------------------------------------------------------------------
  // Character classes

  /** `\d` */
  predicate IsDigit(c: char) { '0' <= c <= '9' }

  /** `\w` */
  predicate IsWordChar(c: char) {
    'a' <= c <= 'z' || 'A' <= c <= 'Z' || IsDigit(c) || c == '_'
  }

  /** `\s`: the ECMAScript WhiteSpace and LineTerminator characters. */
  predicate IsSpace(c: char) {
    c == '\t' || c == '\n' || c == '\U{000B}' || c == '\U{000C}' || c == '\r' || c == ' '
    || c == '\U{00A0}' || c == '\U{1680}' || '\U{2000}' <= c <= '\U{200A}'
    || c == '\U{2028}' || c == '\U{2029}' || c == '\U{202F}' || c == '\U{205F}'
    || c == '\U{3000}' || c == '\U{FEFF}'
  }

  /** `[A-Za-z0-9._%+-]` */
  predicate IsLocalChar(c: char) {
    'a' <= c <= 'z' || 'A' <= c <= 'Z' || IsDigit(c)
    || c == '.' || c == '_' || c == '%' || c == '+' || c == '-'
  }

  /** `[A-Za-z0-9.-]` */
  predicate IsHostChar(c: char) {
    'a' <= c <= 'z' || 'A' <= c <= 'Z' || IsDigit(c) || c == '.' || c == '-'
  }

  /** `[A-Z|a-z]`: the bar is a literal member of the class. */
  predicate IsTldChar(c: char) {
    'a' <= c <= 'z' || 'A' <= c <= 'Z' || c == '|'
  }

  predicate WordAt(s: string, k: int) {
    0 <= k < |s| && IsWordChar(s[k])
  }

  /** `\b` at index k: a word character on exactly one side. */
  predicate BoundaryAt(s: string, k: int) {
    WordAt(s, k - 1) != WordAt(s, k)
  }

  predicate DigitsAt(s: string, k: int, n: nat) {
    0 <= k && k + n <= |s| && forall t :: k <= t < k + n ==> IsDigit(s[t])
  }

  /** The end of the longest run of `cls` characters starting at k. */
  function RunEnd(s: string, k: int, cls: char -> bool): (r: int)
    requires 0 <= k <= |s|
    ensures k <= r <= |s|
    ensures forall t :: k <= t < r ==> cls(s[t])
    ensures r == |s| || !cls(s[r])
    decreases |s| - k
  {
    if k == |s| || !cls(s[k]) then k else RunEnd(s, k + 1, cls)
  }

  // ---------------------------------------------------------------------------
  // The four patterns

  datatype Pattern = Ssn | CreditCard | Email | Phone

  /** Digit groups separated by '-', followed by a word boundary: with the
      leading boundary that `MatchAt` checks, `\b\d{3}-\d{2}-\d{4}\b` is
      DashedMatch(s, i, [3, 2, 4]). */
  function DashedMatch(s: string, i: int, groups: seq<nat>): (r: Option<int>)
    requires 0 <= i <= |s| && |groups| > 0
    decreases |groups|
  {
    if !DigitsAt(s, i, groups[0]) then None
    else if |groups| == 1 then
      (if BoundaryAt(s, i + groups[0]) then Some(i + groups[0]) else None)
    else if i + groups[0] < |s| && s[i + groups[0]] == '-' then
      DashedMatch(s, i + groups[0] + 1, groups[1..])
    else None
  }

  /** `\d{4}\s?` repeated, then `\b` (the leading `\b` is checked by
      `MatchAt`): a whitespace character after a group is always
      taken, since leaving it would put it where a digit is needed. */
  function CardGroups(s: string, k: int, n: nat): (r: Option<int>)
    requires 0 <= k <= |s| && n > 0
    decreases n
  {
    if !DigitsAt(s, k, 4) then None
    else if n == 1 then (if BoundaryAt(s, k + 4) then Some(k + 4) else None)
    else if k + 4 < |s| && IsSpace(s[k + 4]) then CardGroups(s, k + 5, n - 1)
    else CardGroups(s, k + 4, n - 1)
  }

  /** The top-level-domain part `[A-Z|a-z]{2,}\b` after the dot at m: the
      longest run first, then shorter ones, down to two characters. */
  function TldMatch(s: string, m: int, end: int): (r: Option<int>)
    requires 0 <= m < |s| && end <= |s|
    ensures r.Some? ==> m + 3 <= r.value <= end && BoundaryAt(s, r.value)
    decreases end
  {
    if end < m + 3 then None
    else if BoundaryAt(s, end) then Some(end)
    else TldMatch(s, m, end - 1)
  }

  /** The host part `[A-Za-z0-9.-]+\.` after the '@' at a: the rightmost dot
      of the host run first, then the ones before it. */
  function DotMatch(s: string, a: int, m: int): (r: Option<int>)
    requires 0 <= a && m < |s|
    ensures r.Some? ==> a + 2 < r.value <= |s|
    decreases m
  {
    if m < a + 2 then None
    else if s[m] == '.' then
      match TldMatch(s, m, RunEnd(s, m + 1, IsTldChar))
      case Some(e) => Some(e)
      case None => DotMatch(s, a, m - 1)
    else DotMatch(s, a, m - 1)
  }

  /** `\b[A-Za-z0-9._%+-]+@[A-Za-z0-9.-]+\.[A-Z|a-z]{2,}\b`. The local part
      is always its longest run, since a shorter run would need '@' where a
      local-part character is. */
  function EmailMatch(s: string, i: int): (r: Option<int>)
    requires 0 <= i <= |s|
  {
    if i == |s| || !BoundaryAt(s, i) || !IsLocalChar(s[i]) then None
    else
      var a := RunEnd(s, i, IsLocalChar);
      if a < |s| && s[a] == '@' then DotMatch(s, a, RunEnd(s, a + 1, IsHostChar) - 1)
      else None
  }

  /** The end of the match of `p` starting exactly at index i, if any. */
  function MatchAt(p: Pattern, s: string, i: int): (r: Option<int>)
    requires 0 <= i <= |s|
    ensures r.Some? ==> i < r.value <= |s|
    ensures r.Some? ==> s[i] != '['
    ensures r.Some? && p != Email ==> IsDigit(s[i]) && BoundaryAt(s, i)
    ensures r.Some? && p == Email ==> exists t :: i < t < r.value && s[t] == '@'
  {
    if p != Email && !BoundaryAt(s, i) then None
    else
      match p
      case Ssn => DashedMatchBounds(s, i, [3, 2, 4]); DashedMatch(s, i, [3, 2, 4])
      case CreditCard => CardGroupsBounds(s, i, 4); CardGroups(s, i, 4)
      case Email => EmailMatchBounds(s, i); EmailMatch(s, i)
      case Phone => DashedMatchBounds(s, i, [3, 3, 4]); DashedMatch(s, i, [3, 3, 4])
  }

  lemma {:induction false} DashedMatchBounds(s: string, i: int, groups: seq<nat>)
    requires 0 <= i <= |s| && |groups| > 0 && forall g :: g in groups ==> g > 0
    ensures DashedMatch(s, i, groups).Some? ==>
              i < DashedMatch(s, i, groups).value <= |s| && IsDigit(s[i])
    decreases |groups|
  {
    assert groups[0] in groups;
    if DigitsAt(s, i, groups[0]) {
      assert IsDigit(s[i]);
    }
    if |groups| > 1 && DigitsAt(s, i, groups[0]) && i + groups[0] < |s| && s[i + groups[0]] == '-' {
      assert forall g :: g in groups[1..] ==> g in groups;
      DashedMatchBounds(s, i + groups[0] + 1, groups[1..]);
    }
  }

  lemma {:induction false} CardGroupsBounds(s: string, k: int, n: nat)
    requires 0 <= k <= |s| && n > 0
    ensures CardGroups(s, k, n).Some? ==> k < CardGroups(s, k, n).value <= |s| && IsDigit(s[k])
    decreases n
  {
    if n > 1 && DigitsAt(s, k, 4) {
      if k + 4 < |s| && IsSpace(s[k + 4]) {
        CardGroupsBounds(s, k + 5, n - 1);
      } else {
        CardGroupsBounds(s, k + 4, n - 1);
      }
    }
  }

  lemma EmailMatchBounds(s: string, i: int)
    requires 0 <= i <= |s|
    ensures EmailMatch(s, i).Some? ==>
              i < EmailMatch(s, i).value <= |s| && IsLocalChar(s[i]) &&
              exists t :: i < t < EmailMatch(s, i).value && s[t] == '@'
  {
    if EmailMatch(s, i).Some? {
      var a := RunEnd(s, i, IsLocalChar);
      assert s[a] == '@';
    }
  }

  // ---------------------------------------------------------------------------
  // Global replacement

  /** `s.replace(/p/g, "[REDACTED]")`, from index i on. */
  function ReplaceFrom(p: Pattern, s: string, i: int): string
    requires 0 <= i <= |s|
    decreases |s| - i
  {
    if i == |s| then []
    else match MatchAt(p, s, i)
      case Some(j) => Redacted + ReplaceFrom(p, s, j)
      case None => [s[i]] + ReplaceFrom(p, s, i + 1)
  }

  function ReplaceAll(p: Pattern, s: string): string {
    ReplaceFrom(p, s, 0)
  }

  /** No match starts at or after index i. */
  predicate NoMatchFrom(p: Pattern, s: string, i: int)
    requires 0 <= i <= |s|
  {
    forall k :: i <= k < |s| ==> MatchAt(p, s, k).None?
  }

  lemma {:induction false} ReplaceFromNoMatch(p: Pattern, s: string, i: int)
    requires 0 <= i <= |s| && NoMatchFrom(p, s, i)
    ensures ReplaceFrom(p, s, i) == s[i..]
    decreases |s| - i
  {
    if i < |s| {
      ReplaceFromNoMatch(p, s, i + 1);
      assert s[i..] == [s[i]] + s[i + 1..];
    }
  }

  /** Where some match starts at or after i, the output differs from the
      input: that match's first character is not '['. */
  lemma ReplaceFromChanged(p: Pattern, s: string, i: int)
    requires 0 <= i <= |s| && !NoMatchFrom(p, s, i)
    ensures ReplaceFrom(p, s, i) != s[i..]
  {
    var k :| i <= k < |s| && MatchAt(p, s, k).Some?;
    ReplaceFromChangedAt(p, s, i, k);
  }

  lemma {:induction false} ReplaceFromChangedAt(p: Pattern, s: string, i: int, k: int)
    requires 0 <= i <= k < |s| && MatchAt(p, s, k).Some?
    ensures ReplaceFrom(p, s, i) != s[i..]
    decreases k - i
  {
    var m := MatchAt(p, s, i);
    if m.Some? {
      ReplaceFromMatched(p, s, i);
      RedactedDiffers(ReplaceFrom(p, s, m.value), s[i..]);
    } else {
      ReplaceFromUnmatched(p, s, i);
      ReplaceFromChangedAt(p, s, i + 1, k);
      ConsDiffers(s[i], ReplaceFrom(p, s, i + 1), s[i + 1..]);
      assert s[i..] == [s[i]] + s[i + 1..];
    }
  }

  lemma ReplaceFromMatched(p: Pattern, s: string, i: int)
    requires 0 <= i < |s| && MatchAt(p, s, i).Some?
    ensures s[i..][0] != '['
    ensures ReplaceFrom(p, s, i) == Redacted + ReplaceFrom(p, s, MatchAt(p, s, i).value)
  {
  }

  lemma ReplaceFromUnmatched(p: Pattern, s: string, i: int)
    requires 0 <= i < |s| && MatchAt(p, s, i).None?
    ensures ReplaceFrom(p, s, i) == [s[i]] + ReplaceFrom(p, s, i + 1)
  {
  }

  lemma RedactedDiffers(rest: string, t: string)
    requires |t| > 0 && t[0] != '['
    ensures Redacted + rest != t
  {
    assert (Redacted + rest)[0] == '[';
  }

  lemma ConsDiffers(c: char, rest: string, t: string)
    requires rest != t
    ensures [c] + rest != [c] + t
  {
    assert ([c] + rest)[1..] == rest && ([c] + t)[1..] == t;
  }

  /** A replacement pass leaves a string unchanged exactly when the pattern
      matches nowhere in it. */
  lemma ReplaceAllUnchangedIff(p: Pattern, s: string)
    ensures ReplaceAll(p, s) == s <==> NoMatchFrom(p, s, 0)
  {
    assert s[0..] == s;
    if NoMatchFrom(p, s, 0) {
      ReplaceFromNoMatch(p, s, 0);
    } else {
      ReplaceFromChanged(p, s, 0);
    }
  }

  // ---------------------------------------------------------------------------
  // sanitizeTitle

  const TitlePatterns: seq<Pattern> := [Ssn, CreditCard, Email, Phone]

  /** The patterns of `ps` applied to `s` in order. */
  function RedactWith(ps: seq<Pattern>, s: string): string
    decreases |ps|
  {
    if ps == [] then s else ReplaceAll(ps[|ps| - 1], RedactWith(ps[..|ps| - 1], s))
  }

  /** `sanitizeTitle` as a function; an empty or missing title gives "". */
  function RedactTitle(title: string): string {
    if title == "" then "" else RedactWith(TitlePatterns, title)
  }

  /** `sanitizeTitle`: `sanitized` is rewritten once per pattern. */
  method SanitizeTitle(title: string) returns (sanitized: string)
    ensures sanitized == RedactTitle(title)
  {
    if title == "" {
      return "";
    }
    sanitized := title;
    for k := 0 to |TitlePatterns|
      invariant sanitized == RedactWith(TitlePatterns[..k], title)
    {
      assert TitlePatterns[..k + 1][..k] == TitlePatterns[..k];
      sanitized := ReplaceAll(TitlePatterns[k], sanitized);
    }
    assert TitlePatterns[..|TitlePatterns|] == TitlePatterns;
  }

  lemma NoDigitOrAtNoMatch(p: Pattern, s: string)
    requires forall k :: 0 <= k < |s| ==> !IsDigit(s[k]) && s[k] != '@'
    ensures NoMatchFrom(p, s, 0)
  {
  }

  lemma {:induction false} RedactWithClean(ps: seq<Pattern>, s: string)
    requires forall k :: 0 <= k < |s| ==> !IsDigit(s[k]) && s[k] != '@'
    ensures RedactWith(ps, s) == s
    decreases |ps|
  {
    if ps != [] {
      RedactWithClean(ps[..|ps| - 1], s);
      NoDigitOrAtNoMatch(ps[|ps| - 1], s);
      ReplaceAllUnchangedIff(ps[|ps| - 1], s);
    }
  }

  /** A title with no digit and no '@' is returned unchanged. */
  lemma CleanTitleUnchanged(title: string)
    requires forall k :: 0 <= k < |title| ==> !IsDigit(title[k]) && title[k] != '@'
    ensures RedactTitle(title) == title
  {
    RedactWithClean(TitlePatterns, title);
  }

  lemma RedactedIsClean()
    ensures forall k :: 0 <= k < |Redacted| ==> !IsDigit(Redacted[k]) && Redacted[k] != '@'
    ensures forall ps :: RedactWith(ps, Redacted) == Redacted
  {
    forall ps ensures RedactWith(ps, Redacted) == Redacted {
      RedactWithClean(ps, Redacted);
    }
  }

  predicate Clean(s: string) {
    forall k :: 0 <= k < |s| ==> !IsDigit(s[k]) && s[k] != '@'
  }

  /** Once a pass leaves a clean string, the later passes keep it. */
  lemma {:induction false} RedactWithCleanAfterFirst(ps: seq<Pattern>, s: string)
    requires |ps| > 0 && Clean(ReplaceAll(ps[0], s))
    ensures RedactWith(ps, s) == ReplaceAll(ps[0], s)
    decreases |ps|
  {
    if |ps| == 1 {
      assert ps[..0] == [];
    } else {
      var front := ps[..|ps| - 1];
      assert front[0] == ps[0];
      RedactWithCleanAfterFirst(front, s);
      NoDigitOrAtNoMatch(ps[|ps| - 1], ReplaceAll(ps[0], s));
      ReplaceAllUnchangedIff(ps[|ps| - 1], ReplaceAll(ps[0], s));
    }
  }

  lemma SsnMatchExample()
    ensures MatchAt(Ssn, "123-45-6789", 0) == Some(11)
  {
    var s := "123-45-6789";
    assert DigitsAt(s, 7, 4) && BoundaryAt(s, 11);
    assert DashedMatch(s, 7, [4]) == Some(11);
    assert DigitsAt(s, 4, 2) && s[6] == '-';
    assert [2, 4][1..] == [4];
    assert DashedMatch(s, 4, [2, 4]) == Some(11);
    assert DigitsAt(s, 0, 3) && s[3] == '-';
    assert [3, 2, 4][1..] == [2, 4];
  }

  /** A bare social-security-number pattern is redacted as a whole. */
  lemma SsnTitleRedacted()
    ensures RedactTitle("123-45-6789") == Redacted
  {
    var s := "123-45-6789";
    SsnMatchExample();
    assert ReplaceAll(Ssn, s) == Redacted + ReplaceFrom(Ssn, s, 11);
    assert Clean(Redacted);
    RedactWithCleanAfterFirst(TitlePatterns, s);
  }

  /** A digit pattern does not start right after a word character. */
  lemma LeadingBoundaryRequired()
    ensures MatchAt(Ssn, "a123-45-6789", 1) == None
    ensures MatchAt(Phone, "x555-123-4567", 1) == None
    ensures MatchAt(CreditCard, "x1234123412341234", 1) == None
  {
    assert WordAt("a123-45-6789", 0) && WordAt("a123-45-6789", 1);
    assert WordAt("x555-123-4567", 0) && WordAt("x555-123-4567", 1);
    assert WordAt("x1234123412341234", 0) && WordAt("x1234123412341234", 1);
  }

  /** A number glued to a preceding letter is no whole number: the title is
      left as it is. */
  lemma GluedNumberKept()
    ensures RedactTitle("a123-45-6789") == "a123-45-6789"
  {
    var s := "a123-45-6789";
    forall p ensures ReplaceAll(p, s) == s {
      forall k | 0 <= k < |s| ensures MatchAt(p, s, k).None? {
        GluedNumberNoMatchAt(p, k);
      }
      ReplaceAllUnchangedIff(p, s);
    }
    var ps := TitlePatterns;
    assert ps[..3][..2][..1][..0] == [];
    assert RedactWith(ps[..3][..2][..1], s) == ReplaceAll(Ssn, s);
    assert RedactWith(ps[..3][..2], s) == ReplaceAll(CreditCard, RedactWith(ps[..3][..2][..1], s));
    assert RedactWith(ps[..3], s) == ReplaceAll(Email, RedactWith(ps[..3][..2], s));
    assert RedactWith(ps, s) == ReplaceAll(Phone, RedactWith(ps[..3], s));
  }

  lemma GluedNumberNoMatchAt(p: Pattern, k: int)
    requires 0 <= k < 12
    ensures MatchAt(p, "a123-45-6789", k).None?
  {
    var s := "a123-45-6789";
    if p == Email {
      assert forall t :: 0 <= t < |s| ==> s[t] != '@';
    } else if k == 1 || k == 2 || k == 3 || k == 6 || k == 9 || k == 10 || k == 11 {
      assert WordAt(s, k - 1) && WordAt(s, k);
    } else if k == 5 {
      assert !IsDigit(s[7]);
    } else if k == 8 {
      assert s[11] != '-' && !DigitsAt(s, 12, 4);
    } else {
      assert !IsDigit(s[k]);
    }
  }

  lemma RunEndSteps(s: string, k: int, cls: char -> bool, e: int)
    requires 0 <= k <= e <= |s|
    requires forall t :: k <= t < e ==> cls(s[t])
    requires e == |s| || !cls(s[e])
    ensures RunEnd(s, k, cls) == e
    decreases e - k
  {
    if k < e {
      RunEndSteps(s, k + 1, cls, e);
    }
  }

  /** An address with a two-letter top-level domain is redacted. */
  lemma EmailMatchExample()
    ensures MatchAt(Email, "a@b.co", 0) == Some(6)
  {
    var s := "a@b.co";
    RunEndSteps(s, 0, IsLocalChar, 1);
    RunEndSteps(s, 2, IsHostChar, 6);
    RunEndSteps(s, 4, IsTldChar, 6);
    assert TldMatch(s, 3, 6) == Some(6);
    assert DotMatch(s, 1, 3) == Some(6);
    assert DotMatch(s, 1, 4) == Some(6);
  }

  /** A one-letter top-level domain is not an address. */
  lemma ShortTldNotMatched()
    ensures NoMatchFrom(Email, "a@b.c", 0)
  {
    var s := "a@b.c";
    RunEndSteps(s, 0, IsLocalChar, 1);
    RunEndSteps(s, 2, IsHostChar, 5);
    RunEndSteps(s, 4, IsTldChar, 5);
    assert TldMatch(s, 3, 5) == None;
    assert DotMatch(s, 1, 2) == None;
    assert DotMatch(s, 1, 4) == None;
    assert EmailMatch(s, 0) == None;
    assert forall t :: 1 < t < |s| ==> s[t] != '@';
  }

  /** The bar in `[A-Z|a-z]` is matched literally, so "|x" passes as a
      top-level domain. */
  lemma BarInTopLevelDomain()
    ensures MatchAt(Email, "a@b.|x", 0) == Some(6)
  {
    var s := "a@b.|x";
    RunEndSteps(s, 0, IsLocalChar, 1);
    RunEndSteps(s, 2, IsHostChar, 4);
    RunEndSteps(s, 4, IsTldChar, 6);
    assert TldMatch(s, 3, 6) == Some(6);
    assert DotMatch(s, 1, 3) == Some(6);
  }
}
