/** The prose pipeline of lib/typography.ts: `processRegularText` runs `applyBasicRules`,
    `applyNonBreakingSpaces` and `applyPunctuation` in that order. Each rule function is a
    pure function over the whole text and a method that reassigns `result` one
    statement at a time, as the source does. */
module Prose {
  import opened Wrappers
  import opened Chars
  import opened Strings
  import opened Replace
  import opened Patterns
  import opened Placeholders

  /** `line.replace(/^\s+|\s+$/g, '')` */
  function StripLine(line: string): string {
    ReplaceAll(EdgeWs, line)
  }

  function StripAll(ls: seq<string>): (r: seq<string>)
    ensures |r| == |ls|
    ensures forall k :: 0 <= k < |ls| ==> r[k] == StripLine(ls[k])
  {
    if ls == [] then [] else [StripLine(ls[0])] + StripAll(ls[1..])
  }

  /** `result.split('\n').map(line => line.replace(/^\s+|\s+$/g, '')).join('\n')` */
  function StripLines(s: string): string {
    Join(StripAll(Split(s, '\n')), '\n')
  }

  /** One pattern per word of a table, in the table's order. */
  function WordRules(ws: seq<string>, rule: string -> Matcher): (r: seq<Matcher>)
    ensures |r| == |ws|
    ensures forall k :: 0 <= k < |ws| ==> r[k] == rule(ws[k])
  {
    if ws == [] then [] else [rule(ws[0])] + WordRules(ws[1..], rule)
  }

  /** The dictionary patterns of the `forEach` at lib/typography.ts:177-182, in order. */
  const HyphenWordRules: seq<Matcher> := WordRules(HyphenWords, HyphenWord)

  /** The short-word patterns of the `forEach` at lib/typography.ts:264-267, in order. */
  const ShortWordRules: seq<Matcher> := WordRules(ShortWords, ShortWord)

  /** Steps 1-4 of `applyBasicRules`: spaces, line edges, the numero sign, and the protection
      of letter-hyphen-letter, dictionary words and abbreviations. */
  function Protected(text: string): string {
    var r1 := ReplaceAll(HSpaceRun, text);
    var r2 := StripLines(r1);
    var r3 := ReplaceAll(NumeroSpace, r2);
    var r4 := ReplaceAll(LetterHyphen, r3);
    var r5 := Chain(HyphenWordRules, r4);
    Chain(Abbreviations, r5)
  }

  /** Steps 5-9: the number range and the dash rules, which run while hyphens are protected. */
  function Dashes(s: string): string {
    var r7 := ReplaceAll(NumberRange, s);
    var r8 := ReplaceAll(EnDashAfterSpace, r7);
    var r9 := ReplaceAll(SpacedDash(IsEnDash), r8);
    var r10 := ReplaceAll(SpacedDash(IsHyphenOrEmDash), r9);
    var r11 := ReplaceAll(LetterDash, r10);
    ReplaceAll(DialogueHyphen, r11)
  }

  /** Steps 11-14, after the restoring chain: ellipsis, spaces around punctuation, parentheses. */
  function Finish(s: string): string {
    var r14 := ReplaceAll(Ellipsis, s);
    var r15 := ReplaceAll(SpaceBeforePunct, r14);
    var r16 := ReplaceAll(SpaceAfterPunct(IsRussianOrLatin), r15);
    var r17 := ReplaceAll(OpenParen, r16);
    ReplaceAll(CloseParen, r17)
  }

  /** `applyBasicRules` */
  function BasicRules(text: string): string {
    Finish(Chain(Literals(Restorations), Dashes(Protected(text))))
  }

  /** `applyNonBreakingSpaces` */
  function NonBreakingSpaces(text: string): string {
    ReplaceAll(Initials, ReplaceAll(NumberUnit, Chain(ShortWordRules, text)))
  }

  /** `applyPunctuation` */
  function Punctuation(text: string): string {
    ReplaceAll(Percent, ReplaceAll(DialogueDash, text))
  }

  /** `processRegularText` */
  function RegularText(text: string): string {
    Punctuation(NonBreakingSpaces(BasicRules(text)))
  }

  /** A `forEach` over a table of patterns, each replacing into `result`. */
  method ApplyEach(rules: seq<Matcher>, text: string) returns (result: string)
    ensures result == Chain(rules, text)
  {
    result := text;
    for k := 0 to |rules|
      invariant result == Chain(rules[..k], text)
    {
      ChainSnoc(rules[..k], rules[k], text);
      assert rules[..k + 1] == rules[..k] + [rules[k]];
      result := ReplaceAll(rules[k], result);
    }
    assert rules[..|rules|] == rules;
  }

  /** `applyBasicRules`, statement by statement. */
  method ApplyBasicRules(text: string) returns (result: string)
    ensures result == BasicRules(text)
  {
    result := text;
    result := ReplaceAll(HSpaceRun, result);
    result := StripLines(result);
    result := ReplaceAll(NumeroSpace, result);
    result := ReplaceAll(LetterHyphen, result);
    result := ApplyEach(HyphenWordRules, result);
    result := Chain(Abbreviations, result);
    result := ReplaceAll(NumberRange, result);
    result := ReplaceAll(EnDashAfterSpace, result);
    result := ReplaceAll(SpacedDash(IsEnDash), result);
    result := ReplaceAll(SpacedDash(IsHyphenOrEmDash), result);
    result := ReplaceAll(LetterDash, result);
    result := ReplaceAll(DialogueHyphen, result);
    result := Chain(Literals(Restorations), result);
    result := ReplaceAll(Ellipsis, result);
    result := ReplaceAll(SpaceBeforePunct, result);
    result := ReplaceAll(SpaceAfterPunct(IsRussianOrLatin), result);
    result := ReplaceAll(OpenParen, result);
    result := ReplaceAll(CloseParen, result);
  }

  /** `applyNonBreakingSpaces`, statement by statement. */
  method ApplyNonBreakingSpaces(text: string) returns (result: string)
    ensures result == NonBreakingSpaces(text)
  {
    result := text;
    result := ApplyEach(ShortWordRules, result);
    result := ReplaceAll(NumberUnit, result);
    result := ReplaceAll(Initials, result);
  }

  /** `applyPunctuation`, statement by statement. */
  method ApplyPunctuation(text: string) returns (result: string)
    ensures result == Punctuation(text)
  {
    result := text;
    result := ReplaceAll(DialogueDash, result);
    result := ReplaceAll(Percent, result);
  }

  /** `processRegularText` */
  method ProcessRegularText(text: string) returns (result: string)
    ensures result == RegularText(text)
  {
    result := text;
    result := ApplyBasicRules(result);
    result := ApplyNonBreakingSpaces(result);
    result := ApplyPunctuation(result);
  }

  // ---- step 1: runs of horizontal whitespace ----

  /** No two adjacent characters of `t` satisfy `p`. */
  predicate NoAdjacent(t: string, p: char -> bool) {
    forall k :: 0 <= k < |t| - 1 ==> !(p(t[k]) && p(t[k + 1]))
  }

  lemma NoAdjacentCons(c: char, t: string, p: char -> bool)
    requires NoAdjacent(t, p)
    requires t != [] && p(c) ==> !p(t[0])
    ensures NoAdjacent([c] + t, p)
  {
    var u := [c] + t;
    forall k | 0 <= k < |u| - 1 ensures !(p(u[k]) && p(u[k + 1])) {
      if k > 0 {
        assert u[k] == t[k - 1] && u[k + 1] == t[k];
      }
    }
  }

  /** The scan of `[ \t\v\f\r]{2,}` from `i` starts with `s[i]` when that is not such a
      character. */
  lemma SqueezeHead(s: string, i: nat)
    requires i < |s| && !IsHSpace(s[i])
    ensures Scan(HSpaceRun, s, i) != [] && Scan(HSpaceRun, s, i)[0] == s[i]
  {
    assert !Fires(HSpaceRun, s, i);
    ScanHead(HSpaceRun, s, i);
  }

  /** What `[ \t\v\f\r]{2,}` matches at `i`: the maximal run, when it is at least 2 long. */
  lemma SqueezeMatch(s: string, i: nat)
    requires i < |s|
    ensures Fires(HSpaceRun, s, i) <==> RunLen(s, i, IsHSpace) >= 2
    ensures Fires(HSpaceRun, s, i) ==> HSpaceRun(s, i) == Some(Hit(RunLen(s, i, IsHSpace), " "))
  {
  }

  lemma SqueezeFireStep(s: string, i: nat, n: nat)
    requires i < |s| && n == RunLen(s, i, IsHSpace) && n >= 2
    requires NoAdjacent(Scan(HSpaceRun, s, i + n), IsHSpace)
    ensures NoAdjacent(Scan(HSpaceRun, s, i), IsHSpace)
  {
    SqueezeMatch(s, i);
    ScanFire(HSpaceRun, s, i);
    if i + n < |s| { SqueezeHead(s, i + n); }
    NoAdjacentCons(' ', Scan(HSpaceRun, s, i + n), IsHSpace);
  }

  lemma SqueezeCopyStep(s: string, i: nat)
    requires i < |s| && RunLen(s, i, IsHSpace) < 2
    requires NoAdjacent(Scan(HSpaceRun, s, i + 1), IsHSpace)
    ensures NoAdjacent(Scan(HSpaceRun, s, i), IsHSpace)
  {
    SqueezeMatch(s, i);
    ScanCopy(HSpaceRun, s, i);
    if IsHSpace(s[i]) && i + 1 < |s| {
      SqueezeHead(s, i + 1);
    }
    NoAdjacentCons(s[i], Scan(HSpaceRun, s, i + 1), IsHSpace);
  }

  lemma {:induction false} SqueezeFrom(s: string, i: nat)
    requires i <= |s|
    ensures NoAdjacent(Scan(HSpaceRun, s, i), IsHSpace)
    decreases |s| - i
  {
    if i < |s| {
      var n := RunLen(s, i, IsHSpace);
      if n >= 2 {
        SqueezeFrom(s, i + n);
        SqueezeFireStep(s, i, n);
      } else {
        SqueezeFrom(s, i + 1);
        SqueezeCopyStep(s, i);
      }
    }
  }

  /** After `/[ \t\v\f\r]{2,}/g` → `' '`, no two such characters are adjacent. */
  lemma SqueezeNoAdjacent(s: string)
    ensures NoAdjacent(ReplaceAll(HSpaceRun, s), IsHSpace)
  {
    SqueezeFrom(s, 0);
  }

  /** The same pass keeps every line break: it matches no '\n' and inserts none. */
  lemma SqueezeKeepsNewlines(s: string)
    ensures CountChar(ReplaceAll(HSpaceRun, s), '\n') == CountChar(s, '\n')
  {
    forall j | 0 <= j < |s| ensures AddsCount(HSpaceRun, s, '\n', 0, j) {
      if Fires(HSpaceRun, s, j) {
        var n := RunLen(s, j, IsHSpace);
        var w := s[j..j + n];
        assert forall k :: 0 <= k < n ==> w[k] == s[j + k];
        CountCharAbsent(w, '\n');
        CountCharAbsent(" ", '\n');
      }
    }
    ScanCount(HSpaceRun, s, 0, '\n', 0);
    assert s[0..] == s;
  }

  // ---- step 1a: the edges of each line ----

  /** Inside the trimmed part no edge pattern matches: a whitespace run there is followed by
      the last non-whitespace character, so it does not reach the end of the line. */
  lemma EdgeWsInside(line: string, a: nat, e: nat, j: nat)
    requires a == RunLen(line, 0, IsWs) && a < |line| && e == TrimEndIndex(line)
    requires a <= j < e
    ensures !Fires(EdgeWs, line, j)
  {
    var n := Ws(line, j);
    if n > 0 && j + n == |line| {
      assert false;
    }
  }

  /** The trailing whitespace run is removed. */
  lemma EdgeWsTail(line: string, e: nat)
    requires 0 < e < |line| && e == TrimEndIndex(line)
    ensures Scan(EdgeWs, line, e) == []
  {
    RunLenToEnd(line, e, IsWs);
    assert EdgeWs(line, e) == Some(Hit(|line| - e, []));
    ScanFire(EdgeWs, line, e);
  }

  /** The leading whitespace run is removed. */
  lemma EdgeWsHead(line: string, a: nat)
    requires a == RunLen(line, 0, IsWs) && 0 < a
    ensures Scan(EdgeWs, line, 0) == Scan(EdgeWs, line, a)
  {
    assert EdgeWs(line, 0) == Some(Hit(a, []));
    ScanFire(EdgeWs, line, 0);
  }

  /** `line.replace(/^\s+|\s+$/g, '')` is `line.trim()`. */
  lemma StripIsTrim(line: string)
    ensures StripLine(line) == Trim(line)
  {
    var a := RunLen(line, 0, IsWs);
    if a == |line| {
      if a > 0 { EdgeWsHead(line, a); }
    } else {
      var e := TrimEndIndex(line);
      assert !IsWs(line[a]);
      assert a < e;
      if a > 0 { EdgeWsHead(line, a); }
      forall j | a <= j < e ensures !Fires(EdgeWs, line, j) {
        EdgeWsInside(line, a, e, j);
      }
      ScanCopyRange(EdgeWs, line, a, e);
      if e < |line| { EdgeWsTail(line, e); }
      assert Scan(EdgeWs, line, a) == line[a..e];
    }
  }

  /** A line that neither begins nor ends with whitespace. */
  predicate NoEdgeWs(line: string) {
    line == [] || (!IsWs(line[0]) && !IsWs(line[|line| - 1]))
  }

  /** After lib/typography.ts:157 the k-th line is the k-th line of the input, trimmed: the
      pass keeps the number of lines and no line begins or ends with whitespace. */
  lemma StripLinesShape(s: string)
    ensures var ls := Split(s, '\n'); var out := Split(StripLines(s), '\n');
      |out| == |ls| && forall k :: 0 <= k < |ls| ==> out[k] == Trim(ls[k]) && NoEdgeWs(out[k])
  {
    var ls := Split(s, '\n');
    var rs := StripAll(ls);
    forall k | 0 <= k < |ls| ensures rs[k] == Trim(ls[k]) && '\n' !in rs[k] {
      StripIsTrim(ls[k]);
    }
    SplitJoin(rs, '\n');
  }

  /** The same pass keeps every line break. */
  lemma StripLinesKeepsNewlines(s: string)
    ensures CountChar(StripLines(s), '\n') == CountChar(s, '\n')
  {
    var ls := Split(s, '\n');
    var rs := StripAll(ls);
    forall k | 0 <= k < |ls| ensures '\n' !in rs[k] {
      StripIsTrim(ls[k]);
    }
    CountJoin(rs, '\n');
    SplitCount(s, '\n');
  }

  // ---- steps 2-14: placeholders ----

  /** The output of `applyBasicRules` holds no `[[HYPHEN]]`, `[[T_*]]` or `[[I_T_D]]` token:
      the restoring chain removes every one, and the passes after it insert none. */
  lemma BasicRulesNoPlaceholders(text: string)
    ensures NoPlaceholders(BasicRules(text))
  {
    RestoredNoPlaceholders(Dashes(Protected(text)));
  }

  lemma RestoredNoPlaceholders(x: string)
    ensures NoPlaceholders(Finish(Chain(Literals(Restorations), x)))
  {
    var r13 := Chain(Literals(Restorations), x);
    RestoreClears(x);
    var r14 := ReplaceAll(Ellipsis, r13);
    EllipsisSafe(r13);
    SafeKeepsNoPlaceholders(Ellipsis, r13);
    var r15 := ReplaceAll(SpaceBeforePunct, r14);
    SpaceBeforePunctSafe(r14);
    SafeKeepsNoPlaceholders(SpaceBeforePunct, r14);
    var r16 := ReplaceAll(SpaceAfterPunct(IsRussianOrLatin), r15);
    SpaceAfterPunctSafe(IsRussianOrLatin, r15);
    SafeKeepsNoPlaceholders(SpaceAfterPunct(IsRussianOrLatin), r15);
    var r17 := ReplaceAll(OpenParen, r16);
    ParensSafe(r16);
    SafeKeepsNoPlaceholders(OpenParen, r16);
    ParensSafe(r17);
    SafeKeepsNoPlaceholders(CloseParen, r17);
  }

  lemma ShortWordRulesSafe()
    ensures forall k, t :: 0 <= k < |ShortWordRules| ==> SafeIn(ShortWordRules[k], t)
  {
    ShortWordsSafe();
  }

  /** `applyNonBreakingSpaces` inserts no placeholder token. */
  lemma NonBreakingSpacesKeepsNoPlaceholders(text: string)
    requires NoPlaceholders(text)
    ensures NoPlaceholders(NonBreakingSpaces(text))
  {
    var r1 := Chain(ShortWordRules, text);
    assert NoPlaceholders(r1) by {
      ShortWordRulesSafe();
      ChainSafe(ShortWordRules, text);
    }
    NumberUnitSafe(r1);
    SafeKeepsNoPlaceholders(NumberUnit, r1);
    var r2 := ReplaceAll(NumberUnit, r1);
    InitialsSafe(r2);
    SafeKeepsNoPlaceholders(Initials, r2);
  }

  /** `applyPunctuation` inserts no placeholder token. */
  lemma PunctuationKeepsNoPlaceholders(text: string)
    requires NoPlaceholders(text)
    ensures NoPlaceholders(Punctuation(text))
  {
    DialogueDashSafe(text);
    SafeKeepsNoPlaceholders(DialogueDash, text);
    var r1 := ReplaceAll(DialogueDash, text);
    PercentSafe(r1);
    SafeKeepsNoPlaceholders(Percent, r1);
  }

  /** No placeholder token survives `processRegularText`, whatever the input holds. */
  lemma RegularTextNoPlaceholders(text: string)
    ensures NoPlaceholders(RegularText(text))
  {
    var b := BasicRules(text);
    BasicRulesNoPlaceholders(text);
    NonBreakingSpacesKeepsNoPlaceholders(b);
    PunctuationKeepsNoPlaceholders(NonBreakingSpaces(b));
  }

  // ---- step 11: the ellipsis ----

  /** No three consecutive '.' in `t`. */
  predicate NoThreeDots(t: string) {
    forall k :: 0 <= k < |t| - 2 ==> !(t[k] == '.' && t[k + 1] == '.' && t[k + 2] == '.')
  }

  lemma NoThreeDotsCons(c: char, t: string)
    requires c != '.' && NoThreeDots(t)
    ensures NoThreeDots([c] + t)
  {
    var u := [c] + t;
    forall k | 0 <= k < |u| - 2 ensures !(u[k] == '.' && u[k + 1] == '.' && u[k + 2] == '.') {
      if k > 0 { assert u[k] == t[k - 1] && u[k + 1] == t[k] && u[k + 2] == t[k + 1]; }
    }
  }

  /** One or two dots in front of a text that does not start with a dot. */
  lemma NoThreeDotsShort(d: string, t: string)
    requires |d| <= 2 && NoThreeDots(t) && (t != [] ==> t[0] != '.')
    ensures NoThreeDots(d + t)
  {
    var u := d + t;
    forall k | 0 <= k < |u| - 2 ensures !(u[k] == '.' && u[k + 1] == '.' && u[k + 2] == '.') {
      if k >= |d| {
        assert u[k] == t[k - |d|] && u[k + 1] == t[k - |d| + 1] && u[k + 2] == t[k - |d| + 2];
      } else {
        assert u[|d|] == t[0];
      }
    }
  }

  /** What `\.{3,}` matches at `i`: the maximal run of dots, when it is at least 3 long. */
  lemma EllipsisMatch(s: string, i: nat)
    requires i < |s|
    ensures Fires(Ellipsis, s, i) <==> RunLen(s, i, IsDot) >= 3
    ensures Fires(Ellipsis, s, i) ==> Ellipsis(s, i) == Some(Hit(RunLen(s, i, IsDot), [ELLIPSIS]))
  {
  }

  /** The scan from a position that is not a dot starts with that character. */
  lemma EllipsisHead(s: string, i: nat)
    requires i < |s| && s[i] != '.'
    ensures Scan(Ellipsis, s, i) != [] && Scan(Ellipsis, s, i)[0] == s[i]
  {
    EllipsisMatch(s, i);
    ScanHead(Ellipsis, s, i);
  }

  lemma EllipsisLongStep(s: string, i: nat, n: nat)
    requires i < |s| && n == RunLen(s, i, IsDot) && n >= 3
    requires NoThreeDots(Scan(Ellipsis, s, i + n))
    ensures NoThreeDots(Scan(Ellipsis, s, i))
  {
    EllipsisMatch(s, i);
    ScanFire(Ellipsis, s, i);
    NoThreeDotsCons(ELLIPSIS, Scan(Ellipsis, s, i + n));
  }

  lemma EllipsisShortStep(s: string, i: nat, n: nat)
    requires i < |s| && n == RunLen(s, i, IsDot) && 0 < n < 3
    requires NoThreeDots(Scan(Ellipsis, s, i + n))
    ensures NoThreeDots(Scan(Ellipsis, s, i))
  {
    forall j | i <= j < i + n ensures !Fires(Ellipsis, s, j) {
      EllipsisMatch(s, j);
      assert RunLen(s, j, IsDot) < 3 by { RunLenSuffix(s, i, j, IsDot); }
    }
    ScanCopyRange(Ellipsis, s, i, i + n);
    if i + n < |s| { EllipsisHead(s, i + n); }
    NoThreeDotsShort(s[i..i + n], Scan(Ellipsis, s, i + n));
  }

  lemma EllipsisCopyStep(s: string, i: nat)
    requires i < |s| && s[i] != '.'
    requires NoThreeDots(Scan(Ellipsis, s, i + 1))
    ensures NoThreeDots(Scan(Ellipsis, s, i))
  {
    EllipsisMatch(s, i);
    ScanCopy(Ellipsis, s, i);
    NoThreeDotsCons(s[i], Scan(Ellipsis, s, i + 1));
  }

  /** From a position that does not sit inside a run of dots, the scan leaves no "...". */
  lemma {:induction false} EllipsisFrom(s: string, i: nat)
    requires i <= |s|
    ensures NoThreeDots(Scan(Ellipsis, s, i))
    decreases |s| - i
  {
    if i < |s| {
      var n := RunLen(s, i, IsDot);
      if n == 0 {
        EllipsisFrom(s, i + 1);
        EllipsisCopyStep(s, i);
      } else {
        EllipsisFrom(s, i + n);
        if n >= 3 { EllipsisLongStep(s, i, n); } else { EllipsisShortStep(s, i, n); }
      }
    }
  }

  /** After `/\.{3,}/g` → `'…'` no three consecutive dots remain. */
  lemma EllipsisNoThreeDots(s: string)
    ensures NoThreeDots(ReplaceAll(Ellipsis, s))
  {
    EllipsisFrom(s, 0);
  }

  /** Each match of the same pass becomes exactly one '…'. */
  lemma EllipsisOnePerMatch(s: string)
    ensures CountChar(ReplaceAll(Ellipsis, s), ELLIPSIS) == CountChar(s, ELLIPSIS) + MatchCount(Ellipsis, s)
  {
    forall j | 0 <= j < |s| ensures AddsCount(Ellipsis, s, ELLIPSIS, 1, j) {
      if Fires(Ellipsis, s, j) {
        var n := RunLen(s, j, IsDot);
        var w := s[j..j + n];
        assert forall k :: 0 <= k < n ==> w[k] == s[j + k];
        CountCharAbsent(w, ELLIPSIS);
      }
    }
    ScanCount(Ellipsis, s, 0, ELLIPSIS, 1);
    assert s[0..] == s;
  }

  // ---- step 5: number ranges ----

  /** `1966-1977` becomes `1966–1977` (en dash). */
  lemma NumberRangeExample()
    ensures ReplaceAll(NumberRange, "1966-1977") == "1966–1977"
  {
    var s := "1966-1977";
    RangeHit();
    ScanFire(NumberRange, s, 0);
  }

  lemma RangeHit()
    ensures NumberRange("1966-1977", 0) == Some(Hit(9, "1966–1977"))
  {
    var s := "1966-1977";
    RunLenExact(s, 0, 4, IsDigit);
    RunLenExact(s, 5, 4, IsDigit);
    RangeSlices();
  }

  lemma RangeSlices()
    ensures var s := "1966-1977"; s[0..4] + [EN_DASH] + s[5..9] == "1966–1977"
  {
    var s := "1966-1977";
    assert s[0..4] == "1966" && s[5..9] == "1977";
  }

  // ---- applyNonBreakingSpaces: short words ----

  /** `\b` is ASCII-only and a short word starts with a Russian letter, so a short-word pattern
      matches only where the word directly follows a character of `[A-Za-z0-9_]`. */
  lemma ShortWordFires(k: nat, s: string, i: nat)
    requires k < |ShortWords| && Fires(ShortWord(ShortWords[k]), s, i)
    ensures 0 < i && IsAsciiWord(s[i - 1]) && IsRussian(s[i])
  {
    var w := ShortWords[k];
    assert 'а' <= w[0] <= 'я';
    assert ShortWordAt(w, s, i).Some?;
    assert Fold(s[i + 0]) == Fold(w[0]);
  }

  /** No ASCII word character directly before a Russian letter. */
  predicate NoAsciiBeforeRussian(s: string) {
    forall i :: 0 < i < |s| ==> !(IsAsciiWord(s[i - 1]) && IsRussian(s[i]))
  }

  lemma {:induction false} ShortWordsFrom(k: nat, s: string)
    requires k <= |ShortWords| && NoAsciiBeforeRussian(s)
    ensures Chain(ShortWordRules[k..], s) == s
    decreases |ShortWords| - k
  {
    if k < |ShortWords| {
      var m := ShortWordRules[k];
      forall j | 0 <= j < |s| ensures !Fires(m, s, j) {
        if Fires(m, s, j) { ShortWordFires(k, s, j); }
      }
      ScanNoFire(m, s, 0);
      assert s[0..] == s;
      assert ShortWordRules[k..][1..] == ShortWordRules[k + 1..];
      ShortWordsFrom(k + 1, s);
    }
  }

  /** Hence the short-word patterns leave ordinary Russian text as it is. */
  lemma ShortWordsDormant(s: string)
    requires NoAsciiBeforeRussian(s)
    ensures Chain(ShortWordRules, s) == s
  {
    ShortWordsFrom(0, s);
    assert ShortWordRules[0..] == ShortWordRules;
  }

  lemma NumberUnitStart(s: string, j: nat)
    requires Fires(NumberUnit, s, j)
    ensures IsDigit(s[j])
  {
    assert RunLen(s, j, IsDigit) > 0;
  }

  lemma InitialsStart(s: string, j: nat)
    requires Fires(Initials, s, j)
    ensures IsCyrUpper(s[j])
  {
    assert InitialsAt(s, j).Some?;
  }

  /** `в магазин` keeps its ordinary space. */
  lemma ShortWordExample()
    ensures NonBreakingSpaces("в магазин") == "в магазин"
  {
    var s := "в магазин";
    forall i | 0 <= i < |s| ensures !IsAsciiWord(s[i]) && !IsDigit(s[i]) && !IsCyrUpper(s[i]) {
      assert s[i] == ' ' || 'а' <= s[i] <= 'я';
    }
    ShortWordsDormant(s);
    forall j | 0 <= j < |s| ensures !Fires(NumberUnit, s, j) && !Fires(Initials, s, j) {
      if Fires(NumberUnit, s, j) { NumberUnitStart(s, j); }
      if Fires(Initials, s, j) { InitialsStart(s, j); }
    }
    ScanNoFire(NumberUnit, s, 0);
    ScanNoFire(Initials, s, 0);
    assert s[0..] == s;
  }

  /** `10 кг`: the number and the unit are joined by a no-break space. */
  lemma UnitExample()
    ensures NonBreakingSpaces("10 кг") == "10" + [NBSP] + "кг"
  {
    UnitShortWords();
    UnitPass();
    UnitResultNoInitials();
  }

  lemma UnitShortWords()
    ensures Chain(ShortWordRules, "10 кг") == "10 кг"
  {
    var s := "10 кг";
    forall i | 0 < i < |s| ensures !(IsAsciiWord(s[i - 1]) && IsRussian(s[i])) {
      assert i == 1 || !IsAsciiWord(s[i - 1]) || !IsRussian(s[i]);
    }
    ShortWordsDormant(s);
  }

  lemma UnitResultNoInitials()
    ensures ReplaceAll(Initials, "10" + [NBSP] + "кг") == "10" + [NBSP] + "кг"
  {
    var t := "10" + [NBSP] + "кг";
    forall k | 0 <= k < |t| ensures !IsCyrUpper(t[k]) {
      assert t[k] == NBSP || IsDigit(t[k]) || IsCyrLower(t[k]);
    }
    NoCapitalNoInitials(t);
  }

  lemma UnitPass()
    ensures ReplaceAll(NumberUnit, "10 кг") == "10" + [NBSP] + "кг"
  {
    var s := "10 кг";
    UnitHitExample();
    ScanFire(NumberUnit, s, 0);
  }

  lemma UnitHitExample()
    ensures NumberUnit("10 кг", 0) == Some(Hit(5, "10" + [NBSP] + "кг"))
  {
    var s := "10 кг";
    RunLenExact(s, 0, 2, IsDigit);
    RunLenExact(s, 2, 1, IsWs);
    assert CiAt(s, 3, Units[0]);
    assert FirstUnit(s, 3, 0) == Some(0);
    assert s[0..2] == "10" && s[3..5] == "кг";
  }

  /** Without a capital Cyrillic letter, the initials pattern has nothing to match. */
  lemma NoCapitalNoInitials(t: string)
    requires forall k :: 0 <= k < |t| ==> !IsCyrUpper(t[k])
    ensures ReplaceAll(Initials, t) == t
  {
    forall j | 0 <= j < |t| ensures !Fires(Initials, t, j) {
      if Fires(Initials, t, j) { InitialsStart(t, j); }
    }
    ScanNoFire(Initials, t, 0);
    assert t[0..] == t;
  }

  /** `А. С. Пушкин`: both initials are tied to what follows by no-break spaces. */
  lemma InitialsExample()
    ensures NonBreakingSpaces("А. С. Пушкин") == "А." + [NBSP] + "С." + [NBSP] + "Пушкин"
  {
    var s := "А. С. Пушкин";
    forall i | 0 <= i < |s| ensures !IsAsciiWord(s[i]) && !IsDigit(s[i]) {
      assert s[i] == '.' || s[i] == ' ' || IsRussian(s[i]);
    }
    ShortWordsDormant(s);
    forall j | 0 <= j < |s| ensures !Fires(NumberUnit, s, j) {
      if Fires(NumberUnit, s, j) { NumberUnitStart(s, j); }
    }
    ScanNoFire(NumberUnit, s, 0);
    assert s[0..] == s;
    InitialsPass();
  }

  lemma InitialsPass()
    ensures ReplaceAll(Initials, "А. С. Пушкин") == "А." + [NBSP] + "С." + [NBSP] + "Пушкин"
  {
    var s := "А. С. Пушкин";
    InitialsHitExample();
    ScanFire(Initials, s, 0);
  }

  lemma InitialsHitExample()
    ensures Initials("А. С. Пушкин", 0) == Some(Hit(12, "А." + [NBSP] + "С." + [NBSP] + "Пушкин"))
  {
    var s := "А. С. Пушкин";
    InitialsHitShape(s);
    InitialsSlices();
  }

  lemma InitialsHitShape(s: string)
    requires s == "А. С. Пушкин"
    ensures InitialsAt(s, 0) == Some(Hit(12, s[0..2] + [NBSP] + s[3..5] + [NBSP] + s[6..12]))
  {
    InitialsRuns(s);
    assert IsCyrUpper(s[0]) && s[1] == '.' && IsCyrUpper(s[3]) && s[4] == '.' && IsCyrUpper(s[6]);
  }

  lemma InitialsRuns(s: string)
    requires s == "А. С. Пушкин"
    ensures Ws(s, 2) == 1 && Ws(s, 5) == 1 && RunLen(s, 7, IsCyrLower) == 5 && |s| == 12
  {
    RunLenExact(s, 2, 1, IsWs);
    RunLenExact(s, 5, 1, IsWs);
    RunLenExact(s, 7, 5, IsCyrLower);
  }

  lemma InitialsSlices()
    ensures var s := "А. С. Пушкин";
      s[0..2] + [NBSP] + s[3..5] + [NBSP] + s[6..12] == "А." + [NBSP] + "С." + [NBSP] + "Пушкин"
  {
    var s := "А. С. Пушкин";
    assert s[0..2] == "А." && s[3..5] == "С." && s[6..12] == "Пушкин";
  }

  // ---- applyPunctuation: dialogue dashes ----

  lemma PercentStart(s: string, j: nat)
    requires Fires(Percent, s, j)
    ensures IsDigit(s[j])
  {
    assert RunLen(s, j, IsDigit) > 0;
  }

  /** `- Привет!` opens with an em dash and an en space. */
  lemma DialogueDashExample()
    ensures Punctuation("- Привет!") == [EM_DASH, EN_SPACE] + "Привет!"
  {
    DashPassExample();
    DashResultNoPercent();
  }

  lemma DashResultNoPercent()
    ensures ReplaceAll(Percent, [EM_DASH, EN_SPACE] + "Привет!") == [EM_DASH, EN_SPACE] + "Привет!"
  {
    var t := [EM_DASH, EN_SPACE] + "Привет!";
    forall k | 0 <= k < |t| ensures !IsDigit(t[k]) {
      assert t[k] == EM_DASH || t[k] == EN_SPACE || t[k] == '!' || IsRussian(t[k]);
    }
    NoDigitNoPercent(t);
  }

  /** Without a digit, `\d+%` has nothing to match. */
  lemma NoDigitNoPercent(t: string)
    requires forall k :: 0 <= k < |t| ==> !IsDigit(t[k])
    ensures ReplaceAll(Percent, t) == t
  {
    forall j | 0 <= j < |t| ensures !Fires(Percent, t, j) {
      if Fires(Percent, t, j) { PercentStart(t, j); }
    }
    ScanNoFire(Percent, t, 0);
    assert t[0..] == t;
  }

  lemma DashPassExample()
    ensures ReplaceAll(DialogueDash, "- Привет!") == [EM_DASH, EN_SPACE] + "Привет!"
  {
    var s := "- Привет!";
    RunLenExact(s, 0, 0, IsWs);
    RunLenExact(s, 1, 1, IsWs);
    assert DialogueDash(s, 0) == Some(Hit(2, [EM_DASH, EN_SPACE]));
    ScanFire(DialogueDash, s, 0);
    DashPassTail();
  }

  lemma DashPassTail()
    ensures Scan(DialogueDash, "- Привет!", 2) == "Привет!"
  {
    var s := "- Привет!";
    GreetingOneLine();
    OneLineTail(s, 2);
    assert s[2..] == "Привет!";
  }

  lemma GreetingOneLine()
    ensures var s := "- Привет!"; forall k :: 0 <= k < |s| ==> !IsLineTerminator(s[k])
  {
    var s := "- Привет!";
    forall k | 0 <= k < |s| ensures !IsLineTerminator(s[k]) {
      assert s[k] == '-' || s[k] == ' ' || s[k] == '!' || IsRussian(s[k]);
    }
  }

  /** Past the start of a text with no line terminator, the dialogue-dash pass copies it. */
  lemma OneLineTail(s: string, i: nat)
    requires 0 < i <= |s| && forall k :: 0 <= k < |s| ==> !IsLineTerminator(s[k])
    ensures Scan(DialogueDash, s, i) == s[i..]
  {
    forall j | i <= j < |s| ensures !Fires(DialogueDash, s, j) {
      assert !LineStart(s, j);
      DashFires(s, j);
    }
    ScanNoFire(DialogueDash, s, i);
  }

  /** `15%` gets a thin space before the sign. */
  lemma PercentExample()
    ensures Punctuation("15%") == "15" + [THIN_SPACE, '%']
  {
    PercentNoDash();
    PercentPass();
  }

  lemma PercentNoDash()
    ensures ReplaceAll(DialogueDash, "15%") == "15%"
  {
    var s := "15%";
    forall j | 0 <= j < |s| ensures !Fires(DialogueDash, s, j) {
      assert s[j] != '-' && !IsWs(s[j]);
    }
    ScanNoFire(DialogueDash, s, 0);
    assert s[0..] == s;
  }

  lemma PercentPass()
    ensures ReplaceAll(Percent, "15%") == "15" + [THIN_SPACE, '%']
  {
    var s := "15%";
    RunLenExact(s, 0, 2, IsDigit);
    assert s[0..2] == "15";
    assert Percent(s, 0) == Some(Hit(3, "15" + [THIN_SPACE, '%']));
    ScanFire(Percent, s, 0);
  }

  /** The line of `t` that starts at `p` opens with `\s*-`. */
  predicate DashLine(t: string, p: nat) {
    p + Ws(t, p) < |t| && t[p + Ws(t, p)] == '-'
  }

  /** The pattern matches exactly at the line starts whose line opens with `\s*-`. */
  lemma DashFires(s: string, p: nat)
    requires p < |s|
    ensures Fires(DialogueDash, s, p) <==> LineStart(s, p) && DashLine(s, p)
  {
    if LineStart(s, p) && DashLine(s, p) {
      var h := p + Ws(s, p);
      assert h + 1 + Ws(s, h + 1) <= |s|;
      assert DialogueDash(s, p).Some?;
    }
  }

  /** No line of `t` opens with `\s*-`; the first line only counts when `first`. */
  predicate NoDashLine(t: string, first: bool) {
    forall p :: 0 <= p < |t| && (if p == 0 then first else IsLineTerminator(t[p - 1])) ==> !DashLine(t, p)
  }

  lemma {:induction false} RunLenShift(a: string, u: string, q: nat, p: char -> bool)
    requires q <= |u|
    ensures RunLen(a + u, |a| + q, p) == RunLen(u, q, p)
    decreases |u| - q
  {
    if q < |u| {
      assert (a + u)[|a| + q] == u[q];
      RunLenShift(a, u, q + 1, p);
    }
  }

  lemma DashLineShift(a: string, u: string, q: nat)
    requires q <= |u|
    ensures DashLine(a + u, |a| + q) == DashLine(u, q)
  {
    RunLenShift(a, u, q, IsWs);
    if q + Ws(u, q) < |u| { assert (a + u)[|a| + q + Ws(u, q)] == u[q + Ws(u, q)]; }
  }

  /** A piece put in front of a dash-free text keeps it dash-free when the piece's own line
      starts are. */
  lemma NoDashLineCons(a: string, u: string, first: bool, inner: bool)
    requires a != [] && NoDashLine(u, inner) && (IsLineTerminator(a[|a| - 1]) ==> inner)
    requires forall p :: 0 <= p < |a| && (if p == 0 then first else IsLineTerminator(a[p - 1])) ==>
      !DashLine(a + u, p)
    ensures NoDashLine(a + u, first)
  {
    var t := a + u;
    forall p | 0 <= p < |t| && (if p == 0 then first else IsLineTerminator(t[p - 1]))
      ensures !DashLine(t, p)
    {
      if p >= |a| {
        var q := p - |a|;
        DashLineShift(a, u, q);
        if q == 0 { assert t[p - 1] == a[|a| - 1]; } else { assert t[p - 1] == u[q - 1]; }
      } else if p > 0 {
        assert t[p - 1] == a[p - 1];
      }
    }
  }

  /** At a line start where the pattern does not match, the scan copies the line's leading
      whitespace and the character after it, which is no '-'. */
  lemma DashCopyRun(s: string, i: nat)
    requires i < |s| && LineStart(s, i) && !Fires(DialogueDash, s, i)
    ensures !DashLine(Scan(DialogueDash, s, i), 0)
  {
    var e := i + Ws(s, i);
    assert !DashLine(s, i) by { DashFires(s, i); }
    forall k | i <= k < e ensures !Fires(DialogueDash, s, k) {
      DashInRun(s, i, k);
    }
    ScanCopyRange(DialogueDash, s, i, e);
    if e == |s| {
      assert Scan(DialogueDash, s, i) == s[i..] + [];
      RunLenToEnd(Scan(DialogueDash, s, i), 0, IsWs);
    } else {
      DashAfterRun(s, i, e);
    }
  }

  /** Inside the leading whitespace of a line that does not open with '-', nothing matches. */
  lemma DashInRun(s: string, i: nat, k: nat)
    requires i <= k < i + Ws(s, i) && !DashLine(s, i)
    ensures !Fires(DialogueDash, s, k)
  {
    RunLenSuffix(s, i, k, IsWs);
    DashFires(s, k);
  }

  lemma DashAfterRun(s: string, i: nat, e: nat)
    requires e == i + Ws(s, i) < |s| && !DashLine(s, i)
    requires Scan(DialogueDash, s, i) == s[i..e] + Scan(DialogueDash, s, e)
    ensures !DashLine(Scan(DialogueDash, s, i), 0)
  {
    RunEnd(s, i, e);
    DashFires(s, e);
    ScanCopy(DialogueDash, s, e);
    WsThenChar(s, i, e, Scan(DialogueDash, s, e + 1), Scan(DialogueDash, s, i));
  }

  /** The character that ends the leading whitespace of a line that does not open with '-'
      is neither whitespace nor '-', and the line starting there does not open with '-'. */
  lemma RunEnd(s: string, i: nat, e: nat)
    requires e == i + Ws(s, i) < |s| && !DashLine(s, i)
    ensures !IsWs(s[e]) && s[e] != '-' && !DashLine(s, e)
    ensures forall k :: i <= k < e ==> IsWs(s[k])
  {
    assert Ws(s, e) == 0;
  }

  /** A text made of the whitespace `s[i..e]`, then the character `s[e]`, neither whitespace
      nor '-', then anything, does not open with `\s*-`. */
  lemma WsThenChar(s: string, i: nat, e: nat, rest: string, t: string)
    requires i <= e < |s| && !IsWs(s[e]) && s[e] != '-' && forall k :: i <= k < e ==> IsWs(s[k])
    requires t == s[i..e] + ([s[e]] + rest)
    ensures !DashLine(t, 0)
  {
    var x := [s[e]] + rest;
    forall k | 0 <= k < e - i ensures IsWs(t[k]) {
      assert t[k] == s[i..e][k] == s[i + k];
    }
    assert t[e - i] == x[0] == s[e];
    RunLenExact(t, 0, e - i, IsWs);
  }

  /** The scan from `i` leaves no line that opens with `\s*-`. */
  lemma {:induction false} DashFreeFrom(s: string, i: nat)
    requires i <= |s|
    ensures NoDashLine(Scan(DialogueDash, s, i), LineStart(s, i))
    decreases |s| - i
  {
    if i < |s| {
      if Fires(DialogueDash, s, i) {
        var j := i + DialogueDash(s, i).value.len;
        DashFreeFrom(s, j);
        DashFireStep(s, i, j);
      } else {
        DashFreeFrom(s, i + 1);
        DashCopyStep(s, i);
      }
    }
  }

  lemma DashFireStep(s: string, i: nat, j: nat)
    requires Fires(DialogueDash, s, i) && j == i + DialogueDash(s, i).value.len
    requires NoDashLine(Scan(DialogueDash, s, j), LineStart(s, j))
    ensures NoDashLine(Scan(DialogueDash, s, i), LineStart(s, i))
  {
    ScanFire(DialogueDash, s, i);
    DashPieceClean(Scan(DialogueDash, s, i), Scan(DialogueDash, s, j), LineStart(s, i), LineStart(s, j));
  }

  /** The em dash and en space put in for a dialogue dash open no `\s*-` line. */
  lemma DashPieceClean(t: string, u: string, first: bool, inner: bool)
    requires t == [EM_DASH, EN_SPACE] + u && NoDashLine(u, inner)
    ensures NoDashLine(t, first)
  {
    var a := [EM_DASH, EN_SPACE];
    assert Ws(a + u, 0) == 0;
    NoDashLineCons(a, u, first, inner);
  }

  lemma DashCopyStep(s: string, i: nat)
    requires i < |s| && !Fires(DialogueDash, s, i)
    requires NoDashLine(Scan(DialogueDash, s, i + 1), LineStart(s, i + 1))
    ensures NoDashLine(Scan(DialogueDash, s, i), LineStart(s, i))
  {
    ScanCopy(DialogueDash, s, i);
    if LineStart(s, i) { DashCopyRun(s, i); }
    NoDashLineCons([s[i]], Scan(DialogueDash, s, i + 1), LineStart(s, i), LineStart(s, i + 1));
  }

  /** After the dialogue-dash pass of `applyPunctuation` no line opens with `\s*-`. */
  lemma DialogueDashDone(s: string)
    ensures NoDashLine(ReplaceAll(DialogueDash, s), true)
  {
    DashFreeFrom(s, 0);
  }

  lemma DashNoFire(t: string, p: nat)
    requires NoDashLine(t, true)
    ensures !Fires(DialogueDash, t, p)
  {
    if p < |t| {
      DashFires(t, p);
      if LineStart(t, p) { assert !DashLine(t, p); }
    }
  }

  /** Hence a second pass changes nothing. */
  lemma DialogueDashIdempotent(s: string)
    ensures ReplaceAll(DialogueDash, ReplaceAll(DialogueDash, s)) == ReplaceAll(DialogueDash, s)
  {
    var t := ReplaceAll(DialogueDash, s);
    DialogueDashDone(s);
    forall p | 0 <= p < |t| ensures !Fires(DialogueDash, t, p) {
      DashNoFire(t, p);
    }
    ScanNoFire(DialogueDash, t, 0);
    assert t[0..] == t;
  }
}
