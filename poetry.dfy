/** The poetry pipeline of lib/typography.ts: `processPoetryText` splits the text into lines,
    keeps each line's indentation and blank lines as they are, and runs the milder
    `applyPoetryRules` on the rest of each line. */
module Poetry {
  import opened Chars
  import opened Strings
  import opened Replace
  import opened Patterns

  /** `applyPoetryRules` */
  function PoetryRules(text: string): string {
    var r1 := ReplaceAll(DoubleHyphen, text);
    var r2 := ReplaceAll(Ellipsis, r1);
    var r3 := ReplaceAll(SpaceBeforePunct, r2);
    ReplaceAll(SpaceAfterPunct(IsRussian), r3)
  }

  /** `applyPoetryRules`, statement by statement. */
  method ApplyPoetryRules(text: string) returns (result: string)
    ensures result == PoetryRules(text)
  {
    result := text;
    result := ReplaceAll(DoubleHyphen, result);
    result := ReplaceAll(Ellipsis, result);
    result := ReplaceAll(SpaceBeforePunct, result);
    result := ReplaceAll(SpaceAfterPunct(IsRussian), result);
  }

  /** The callback of `lines.map` in `processPoetryText`: the indentation `^[\s\t]*` is kept,
      a line with nothing after it is returned as it is, and the rest is processed. */
  function PoetryLine(line: string): string {
    var indent := LeadingWs(line);
    var content := line[|indent|..];
    if Trim(content) == [] then line else indent + PoetryRules(content)
  }

  function PoetryLines(ls: seq<string>): (r: seq<string>)
    ensures |r| == |ls|
    ensures forall k :: 0 <= k < |ls| ==> r[k] == PoetryLine(ls[k])
  {
    if ls == [] then [] else [PoetryLine(ls[0])] + PoetryLines(ls[1..])
  }

  /** `processPoetryText` */
  function PoetryText(text: string): string {
    Join(PoetryLines(Split(text, '\n')), '\n')
  }

  // ---- each pass keeps a line a line ----

  predicate NotNewline(c: char) { c != '\n' }

  /** A pass whose replacements hold no '\n' inserts none. */
  lemma NoNewlinePass(m: Matcher, s: string)
    requires '\n' !in s
    requires forall j :: 0 <= j < |s| && Fires(m, s, j) ==> '\n' !in m(s, j).value.out
    ensures '\n' !in ReplaceAll(m, s)
  {
    forall j | 0 <= j < |s| && Fires(m, s, j) ensures All(m(s, j).value.out, NotNewline) {
    }
    ScanAll(m, s, 0, NotNewline);
  }

  lemma PoetryRulesNoNewline(text: string)
    requires '\n' !in text
    ensures '\n' !in PoetryRules(text)
  {
    var r1 := ReplaceAll(DoubleHyphen, text);
    var r2 := ReplaceAll(Ellipsis, r1);
    var r3 := ReplaceAll(SpaceBeforePunct, r2);
    NoNewlinePass(DoubleHyphen, text);
    NoNewlinePass(Ellipsis, r1);
    NoNewlinePass(SpaceBeforePunct, r2);
    NoNewlinePass(SpaceAfterPunct(IsRussian), r3);
  }

  // ---- each pass keeps a non-whitespace first character ----

  lemma HeadPass(m: Matcher, s: string)
    requires s != [] && !IsWs(s[0])
    requires Fires(m, s, 0) ==> m(s, 0).value.out != [] && !IsWs(m(s, 0).value.out[0])
    ensures ReplaceAll(m, s) != [] && !IsWs(ReplaceAll(m, s)[0])
  {
    ScanHead(m, s, 0);
  }

  lemma PoetryRulesHead(text: string)
    requires text != [] && !IsWs(text[0])
    ensures PoetryRules(text) != [] && !IsWs(PoetryRules(text)[0])
  {
    var r1 := ReplaceAll(DoubleHyphen, text);
    var r2 := ReplaceAll(Ellipsis, r1);
    var r3 := ReplaceAll(SpaceBeforePunct, r2);
    HeadPass(DoubleHyphen, text);
    HeadPass(Ellipsis, r1);
    HeadPass(SpaceBeforePunct, r2);
    HeadPass(SpaceAfterPunct(IsRussian), r3);
  }

  // ---- one line ----

  /** A line of whitespace only comes back unchanged. */
  lemma BlankLineUnchanged(line: string)
    requires All(line, IsWs)
    ensures PoetryLine(line) == line
  {
    RunLenToEnd(line, 0, IsWs);
  }

  /** A processed line starts with exactly the indentation of the input line. */
  lemma PoetryLineIndent(line: string)
    ensures LeadingWs(PoetryLine(line)) == LeadingWs(line)
  {
    var indent := LeadingWs(line);
    var content := line[|indent|..];
    if Trim(content) != [] {
      var r := PoetryRules(content);
      assert content[0] == line[|indent|];
      PoetryRulesHead(content);
      var out := indent + r;
      assert forall k :: 0 <= k < |indent| ==> out[k] == indent[k];
      assert out[|indent|] == r[0];
      RunLenExact(out, 0, |indent|, IsWs);
    }
  }

  lemma PoetryLineNoNewline(line: string)
    requires '\n' !in line
    ensures '\n' !in PoetryLine(line)
  {
    var indent := LeadingWs(line);
    var content := line[|indent|..];
    if Trim(content) != [] {
      assert forall c :: c in content ==> c in line;
      assert forall c :: c in indent ==> c in line;
      PoetryRulesNoNewline(content);
    }
  }

  // ---- the whole text ----

  /** `processPoetryText` keeps the lines: the k-th output line is the k-th input line
      processed, with its indentation, and blank lines are unchanged. */
  lemma PoetryTextLines(text: string)
    ensures var ls := Split(text, '\n'); var out := Split(PoetryText(text), '\n');
      |out| == |ls| && forall k :: 0 <= k < |ls| ==>
        out[k] == PoetryLine(ls[k]) && LeadingWs(out[k]) == LeadingWs(ls[k])
        && (All(ls[k], IsWs) ==> out[k] == ls[k])
  {
    var ls := Split(text, '\n');
    var ps := PoetryLines(ls);
    forall k | 0 <= k < |ls|
      ensures '\n' !in ps[k] && LeadingWs(ps[k]) == LeadingWs(ls[k])
      ensures All(ls[k], IsWs) ==> ps[k] == ls[k]
    {
      PoetryLineNoNewline(ls[k]);
      PoetryLineIndent(ls[k]);
      if All(ls[k], IsWs) { BlankLineUnchanged(ls[k]); }
    }
    SplitJoin(ps, '\n');
  }

  /** `processPoetryText` keeps the number of '\n' characters. */
  lemma PoetryTextKeepsNewlines(text: string)
    ensures CountChar(PoetryText(text), '\n') == CountChar(text, '\n')
  {
    var ls := Split(text, '\n');
    var ps := PoetryLines(ls);
    forall k | 0 <= k < |ls| ensures '\n' !in ps[k] {
      PoetryLineNoNewline(ls[k]);
    }
    CountJoin(ps, '\n');
    SplitCount(text, '\n');
  }

  /** After `/--/g` → `'—'` no "--" is left. */
  lemma DoubleHyphenClears(s: string)
    ensures !Contains(ReplaceAll(DoubleHyphen, s), "--")
  {
    LiteralClears("--", [EM_DASH], s, 0, IsHyphen);
  }

  predicate IsHyphen(c: char) { c == '-' }

  // ---- a text none of the passes touches ----

  /** A character none of the four patterns of `applyPoetryRules` can match on. */
  predicate Plain(c: char) { c != '-' && !IsWs(c) && !IsPunct(c) }

  lemma QuietPass(m: Matcher, s: string)
    requires forall j :: 0 <= j < |s| ==> !Fires(m, s, j)
    ensures ReplaceAll(m, s) == s
  {
    ScanNoFire(m, s, 0);
    assert s[0..] == s;
  }

  /** Without a hyphen, whitespace or punctuation, the poetry rules change nothing; in
      particular they keep any bracket, letter or digit, `[[HYPHEN]]` included. */
  lemma PoetryRulesPlain(text: string)
    requires All(text, Plain)
    ensures PoetryRules(text) == text
  {
    forall j | 0 <= j < |text|
      ensures !Fires(DoubleHyphen, text, j) && !Fires(Ellipsis, text, j)
      ensures !Fires(SpaceBeforePunct, text, j) && !Fires(SpaceAfterPunct(IsRussian), text, j)
    {
      assert Plain(text[j]);
      LiteralMiss("--", [EM_DASH], text, j);
      assert RunLen(text, j, IsDot) == 0 && Ws(text, j) == 0;
    }
    QuietPass(DoubleHyphen, text);
    QuietPass(Ellipsis, text);
    QuietPass(SpaceBeforePunct, text);
    QuietPass(SpaceAfterPunct(IsRussian), text);
  }
}
