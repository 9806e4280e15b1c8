/** The entry points of `AdvancedTypographyProcessor` in lib/typography.ts: `process`,
    `processWithFormatting`, `detectStanzaStructure` and `getProcessingStats`. */
module Typography {
  import opened Wrappers
  import opened Chars
  import opened Strings
  import opened Replace
  import opened Patterns
  import opened Classifier
  import opened Prose
  import opened Poetry
  import opened Placeholders

  // ---- process ----

  /** `process`: the poetry pipeline for a text the classifier calls poetry, the prose
      pipeline otherwise. */
  function Process(text: string): string {
    if IsPoetry(text) then PoetryText(text) else RegularText(text)
  }

  /** A text classified as poetry keeps its lines, their indentation, its blank lines and
      its number of line breaks. */
  lemma ProcessPoetryKeepsLines(text: string)
    requires IsPoetry(text)
    ensures var ls := Split(text, '\n'); var out := Split(Process(text), '\n');
      |out| == |ls| && forall k :: 0 <= k < |ls| ==>
        LeadingWs(out[k]) == LeadingWs(ls[k]) && (All(ls[k], IsWs) ==> out[k] == ls[k])
    ensures CountChar(Process(text), '\n') == CountChar(text, '\n')
  {
    PoetryTextLines(text);
    PoetryTextKeepsNewlines(text);
  }

  /** A discrepancy between the two pipelines: one short capitalised line already scores as
      poetry, and the poetry rules never look at placeholder tokens, so a `[[HYPHEN]]` typed in
      such a text comes out of `process` as it went in, while the prose pipeline lets none
      through (Prose.RegularTextNoPlaceholders). */
  lemma PoetryKeepsToken()
    ensures var t := "Кот[[HYPHEN]]"; Process(t) == t && !NoPlaceholders(t)
  {
    TokenLineIsPoetry();
    TokenLineUntouched();
    TokenLineHasToken();
  }

  lemma TokenLineHasToken()
    ensures !NoPlaceholders("Кот[[HYPHEN]]")
  {
    var t := "Кот[[HYPHEN]]";
    var r := Restorations[7].0;
    assert r == HYPHEN_TOKEN;
    assert t[3..13] == r;
    assert OccursAt(t, r, 3);
  }

  lemma TokenLinePlain()
    ensures var t := "Кот[[HYPHEN]]"; All(t, Plain) && '\n' !in t
  {
    var t := "Кот[[HYPHEN]]";
    forall k | 0 <= k < |t| ensures Plain(t[k]) && t[k] != '\n' {
      assert IsRussian(t[k]) || t[k] == '[' || t[k] == ']' || IsLatinUpper(t[k]);
    }
  }

  lemma TokenLineIsPoetry()
    ensures IsPoetry("Кот[[HYPHEN]]")
  {
    var t := "Кот[[HYPHEN]]";
    TokenLinePlain();
    SplitNoSep(t, '\n');
    TrimNoEdges(t);
    assert NonBlank([t]) == [t];
    assert IsCyrUpper(Trim(t)[0]) && |Trim(t)| < 60;
    OneShortCapitalLineIsPoetry(t);
  }

  lemma TokenLineUntouched()
    ensures PoetryText("Кот[[HYPHEN]]") == "Кот[[HYPHEN]]"
  {
    var t := "Кот[[HYPHEN]]";
    TokenLinePlain();
    SplitNoSep(t, '\n');
    TrimNoEdges(t);
    assert t[0..] == t;
    PoetryRulesPlain(t);
    assert PoetryLines([t]) == [PoetryLine(t)];
  }

  /** A text without a non-blank line goes through the prose pipeline. */
  lemma BlankTextIsProse(text: string)
    requires NonBlankLines(text) == []
    ensures Process(text) == RegularText(text)
  {
    BlankIsNotPoetry(text);
  }

  // ---- processWithFormatting ----

  datatype Style = Normal | Heading1 | Heading2 | PoetryStyle | Quote
  datatype Alignment = Left | Center | Right | Justify

  /** `FormattedText`: a run of text and its optional character formatting. */
  datatype FormattedText = FormattedText(text: string, bold: Option<bool>, italic: Option<bool>,
    underline: Option<bool>, fontSize: Option<real>, color: Option<string>)

  /** `FormattedParagraph`: the runs of a paragraph and its optional paragraph formatting. */
  datatype FormattedParagraph = FormattedParagraph(content: seq<FormattedText>, style: Option<Style>,
    alignment: Option<Alignment>, indent: Option<real>, tabStops: Option<seq<real>>)

  /** `p.content.map(c => c.text).join('')` */
  function RunTexts(content: seq<FormattedText>): string {
    if content == [] then [] else content[0].text + RunTexts(content[1..])
  }

  function ParagraphTexts(ps: seq<FormattedParagraph>): seq<string> {
    seq(|ps|, k requires 0 <= k < |ps| => RunTexts(ps[k].content))
  }

  /** The text the classifier sees: the paragraphs joined by '\n'. */
  function FullText(ps: seq<FormattedParagraph>): string {
    Join(ParagraphTexts(ps), '\n')
  }

  function ProcessRun(item: FormattedText, poem: bool): FormattedText {
    item.(text := if poem then PoetryText(item.text) else RegularText(item.text))
  }

  function ProcessParagraph(p: FormattedParagraph, poem: bool): FormattedParagraph {
    p.(content := seq(|p.content|, k requires 0 <= k < |p.content| => ProcessRun(p.content[k], poem)),
       style := if poem && p.style == Some(Normal) then Some(PoetryStyle) else p.style)
  }

  /** `processWithFormatting`: the whole document is classified once, then every run is
      processed on its own by the chosen pipeline. */
  function ProcessWithFormatting(ps: seq<FormattedParagraph>): seq<FormattedParagraph> {
    var poem := IsPoetry(FullText(ps));
    seq(|ps|, k requires 0 <= k < |ps| => ProcessParagraph(ps[k], poem))
  }

  /** `q` is `p` processed: the same runs, every attribute but the run text unchanged, each
      run text through the chosen pipeline, and only a `normal` paragraph of a poem changes
      style, to `poetry`. */
  predicate ParagraphProcessed(p: FormattedParagraph, q: FormattedParagraph, poem: bool) {
    |q.content| == |p.content|
    && q.alignment == p.alignment && q.indent == p.indent && q.tabStops == p.tabStops
    && (q.style != p.style <==> poem && p.style == Some(Normal))
    && (q.style != p.style ==> q.style == Some(PoetryStyle))
    && forall j :: 0 <= j < |p.content| ==>
      q.content[j].(text := p.content[j].text) == p.content[j]
      && q.content[j].text == (if poem then PoetryText(p.content[j].text) else RegularText(p.content[j].text))
  }

  lemma ParagraphShape(p: FormattedParagraph, poem: bool)
    ensures ParagraphProcessed(p, ProcessParagraph(p, poem), poem)
  {
  }

  /** The document keeps its shape and formatting, and the whole document goes through the
      one pipeline its full text is classified for. */
  lemma FormattingShape(ps: seq<FormattedParagraph>)
    ensures var r := ProcessWithFormatting(ps); var poem := IsPoetry(FullText(ps));
      |r| == |ps| && forall k :: 0 <= k < |ps| ==> ParagraphProcessed(ps[k], r[k], poem)
  {
    var poem := IsPoetry(FullText(ps));
    forall k | 0 <= k < |ps| ensures ParagraphProcessed(ps[k], ProcessWithFormatting(ps)[k], poem) {
      ParagraphShape(ps[k], poem);
    }
  }

  /** A document of one paragraph with one run is processed exactly as `process` processes
      that run's text. */
  lemma SingleRunIsProcess(p: FormattedParagraph)
    requires |p.content| == 1
    ensures var r := ProcessWithFormatting([p]);
      |r| == 1 && |r[0].content| == 1 && r[0].content[0].text == Process(p.content[0].text)
  {
    assert p.content[1..] == [];
    AppendEmpty(p.content[0].text);
    assert RunTexts(p.content) == p.content[0].text;
    assert ParagraphTexts([p]) == [p.content[0].text];
  }

  // ---- detectStanzaStructure ----

  /** `line.trim().length === 0`: the line is whitespace only (`Trim`'s contract makes the two
      the same). */
  predicate Blank(line: string) { All(line, IsWs) }

  /** The stanzas of the remaining lines `ls` when the stanza `cur` is open: a blank line
      closes the open stanza, a non-blank line joins it, the end closes it. */
  function Groups(ls: seq<string>, cur: seq<string>): seq<seq<string>>
    decreases |ls|
  {
    if ls == [] then (if cur == [] then [] else [cur])
    else if Blank(ls[0]) then (if cur == [] then [] else [cur]) + Groups(ls[1..], [])
    else Groups(ls[1..], cur + [ls[0]])
  }

  function JoinEach(gs: seq<seq<string>>): seq<string> {
    seq(|gs|, k requires 0 <= k < |gs| => Join(gs[k], '\n'))
  }

  function Stanzas(text: string): seq<string> {
    JoinEach(Groups(Split(text, '\n'), []))
  }

  /** `detectStanzaStructure` */
  method DetectStanzaStructure(text: string) returns (stanzas: seq<string>)
    ensures stanzas == Stanzas(text)
  {
    var lines := Split(text, '\n');
    stanzas := [];
    var currentStanza: seq<string> := [];
    var emptyLineCount := 0;
    ghost var groups: seq<seq<string>> := [];
    for i := 0 to |lines|
      invariant stanzas == JoinEach(groups)
      invariant Groups(lines, []) == groups + Groups(lines[i..], currentStanza)
    {
      var line := lines[i];
      if |Trim(line)| == 0 {
        GroupsBlankStep(lines, i, currentStanza);
        emptyLineCount := emptyLineCount + 1;
        if emptyLineCount >= 1 && |currentStanza| > 0 {
          JoinEachSnoc(groups, currentStanza);
          Assoc(groups, [currentStanza], Groups(lines[i + 1..], []));
          stanzas := stanzas + [Join(currentStanza, '\n')];
          groups := groups + [currentStanza];
          currentStanza := [];
          emptyLineCount := 0;
        } else {
          PrependEmpty(Groups(lines[i + 1..], []));
        }
      } else {
        GroupsLineStep(lines, i, currentStanza);
        currentStanza := currentStanza + [line];
        emptyLineCount := 0;
      }
    }
    GroupsEnd(lines, currentStanza);
    if |currentStanza| > 0 {
      JoinEachSnoc(groups, currentStanza);
      stanzas := stanzas + [Join(currentStanza, '\n')];
      groups := groups + [currentStanza];
    } else {
      AppendEmpty(groups);
    }
  }

  lemma GroupsBlankStep(ls: seq<string>, i: nat, cur: seq<string>)
    requires i < |ls| && Blank(ls[i])
    ensures Groups(ls[i..], cur) == (if cur == [] then [] else [cur]) + Groups(ls[i + 1..], [])
  {
    assert ls[i..][0] == ls[i] && ls[i..][1..] == ls[i + 1..];
  }

  lemma GroupsLineStep(ls: seq<string>, i: nat, cur: seq<string>)
    requires i < |ls| && !Blank(ls[i])
    ensures Groups(ls[i..], cur) == Groups(ls[i + 1..], cur + [ls[i]])
  {
    assert ls[i..][0] == ls[i] && ls[i..][1..] == ls[i + 1..];
  }

  lemma GroupsEnd(ls: seq<string>, cur: seq<string>)
    ensures Groups(ls[|ls|..], cur) == (if cur == [] then [] else [cur])
  {
    assert ls[|ls|..] == [];
  }

  lemma JoinEachSnoc(gs: seq<seq<string>>, g: seq<string>)
    ensures JoinEach(gs + [g]) == JoinEach(gs) + [Join(g, '\n')]
  {
  }

  function Flatten(gs: seq<seq<string>>): seq<string> {
    if gs == [] then [] else gs[0] + Flatten(gs[1..])
  }

  /** The number of stanza starts: non-blank lines that follow a blank line or begin the
      text (`open` says whether a stanza is open before `ls`). */
  function Starts(ls: seq<string>, open: bool): nat {
    if ls == [] then 0
    else if Blank(ls[0]) then Starts(ls[1..], false)
    else (if open then 0 else 1) + Starts(ls[1..], true)
  }

  /** A stanza: at least one line, each non-blank and free of '\n'. */
  predicate GoodGroup(g: seq<string>) {
    g != [] && forall j :: 0 <= j < |g| ==> !Blank(g[j]) && '\n' !in g[j]
  }

  predicate GoodLines(ls: seq<string>) {
    forall j :: 0 <= j < |ls| ==> '\n' !in ls[j]
  }

  lemma FlattenCons(g: seq<string>, gs: seq<seq<string>>)
    ensures Flatten([g] + gs) == g + Flatten(gs)
  {
    assert ([g] + gs)[0] == g && ([g] + gs)[1..] == gs;
  }

  /** Concatenating the stanzas gives the non-blank lines, in order. */
  lemma {:induction false} GroupsFlatten(ls: seq<string>, cur: seq<string>)
    ensures Flatten(Groups(ls, cur)) == cur + NonBlank(ls)
    decreases |ls|
  {
    if ls == [] {
      FlattenEnd(cur);
    } else if Blank(ls[0]) {
      GroupsFlatten(ls[1..], []);
      FlattenBlankStep(ls, cur);
    } else {
      GroupsFlatten(ls[1..], cur + [ls[0]]);
      FlattenLineStep(ls, cur);
    }
  }

  lemma FlattenEnd(cur: seq<string>)
    ensures Flatten(Groups([], cur)) == cur + NonBlank([])
  {
    if cur != [] { FlattenCons(cur, []); }
    AppendEmpty(cur);
  }

  lemma FlattenBlankStep(ls: seq<string>, cur: seq<string>)
    requires ls != [] && Blank(ls[0])
    requires Flatten(Groups(ls[1..], [])) == [] + NonBlank(ls[1..])
    ensures Flatten(Groups(ls, cur)) == cur + NonBlank(ls)
  {
    PrependEmpty(NonBlank(ls[1..]));
    if cur != [] {
      FlattenCons(cur, Groups(ls[1..], []));
    } else {
      PrependEmpty(Groups(ls[1..], []));
    }
  }

  lemma FlattenLineStep(ls: seq<string>, cur: seq<string>)
    requires ls != [] && !Blank(ls[0])
    requires Flatten(Groups(ls[1..], cur + [ls[0]])) == cur + [ls[0]] + NonBlank(ls[1..])
    ensures Flatten(Groups(ls, cur)) == cur + NonBlank(ls)
  {
    assert NonBlank(ls) == [ls[0]] + NonBlank(ls[1..]);
    Assoc(cur, [ls[0]], NonBlank(ls[1..]));
  }

  /** Every stanza is a non-empty run of non-blank lines. */
  lemma {:induction false} GroupsShape(ls: seq<string>, cur: seq<string>)
    requires GoodLines(ls)
    requires cur == [] || GoodGroup(cur)
    ensures forall k :: 0 <= k < |Groups(ls, cur)| ==> GoodGroup(Groups(ls, cur)[k])
    decreases |ls|
  {
    if ls != [] {
      assert GoodLines(ls[1..]) by {
        forall j | 0 <= j < |ls[1..]| ensures '\n' !in ls[1..][j] { assert ls[1..][j] == ls[j + 1]; }
      }
      if Blank(ls[0]) {
        GroupsShape(ls[1..], []);
      } else {
        var c := cur + [ls[0]];
        assert forall j :: 0 <= j < |c| ==> c[j] == (if j < |cur| then cur[j] else ls[0]);
        GroupsShape(ls[1..], c);
      }
    }
  }

  /** The number of stanzas is the number of stanza starts. */
  lemma {:induction false} GroupsCount(ls: seq<string>, cur: seq<string>)
    ensures |Groups(ls, cur)| == (if cur == [] then 0 else 1) + Starts(ls, cur != [])
    decreases |ls|
  {
    if ls != [] {
      if Blank(ls[0]) { GroupsCount(ls[1..], []); } else { GroupsCount(ls[1..], cur + [ls[0]]); }
    }
  }

  /** Without a blank line the open stanza runs to the end. */
  lemma {:induction false} GroupsNoBlank(ls: seq<string>, cur: seq<string>)
    requires forall j :: 0 <= j < |ls| ==> !Blank(ls[j])
    requires cur + ls != []
    ensures Groups(ls, cur) == [cur + ls]
    decreases |ls|
  {
    if ls == [] {
      AppendEmpty(cur);
    } else {
      assert forall j :: 0 <= j < |ls[1..]| ==> ls[1..][j] == ls[j + 1];
      GroupsNoBlank(ls[1..], cur + [ls[0]]);
      AppendHead(cur, ls);
    }
  }

  /** `g` is the stretch `ls[a..b]` of lines, with a blank line or an end of `ls` on each side. */
  predicate Block(ls: seq<string>, g: seq<string>, a: nat, b: nat) {
    a < b <= |ls| && g == ls[a..b] && (a == 0 || Blank(ls[a - 1])) && (b == |ls| || Blank(ls[b]))
  }

  ghost predicate IsBlock(ls: seq<string>, g: seq<string>) {
    exists a: nat, b: nat :: Block(ls, g, a, b)
  }

  /** With the open stanza `ls[c..i]`, every stanza still to come is a stretch of `ls` between
      blank lines or ends, and `a`, `b` say which. */
  lemma {:induction false} GroupBlock(ls: seq<string>, i: nat, c: nat, k: nat) returns (a: nat, b: nat)
    requires c <= i <= |ls| && (c == 0 || Blank(ls[c - 1]))
    requires k < |Groups(ls[i..], ls[c..i])|
    ensures Block(ls, Groups(ls[i..], ls[c..i])[k], a, b)
    decreases |ls| - i
  {
    if i == |ls| {
      a, b := BlockEnd(ls, c, k);
    } else if Blank(ls[i]) {
      if c < i && k == 0 {
        BlockClosed(ls, i, c);
        a, b := c, i;
      } else {
        var m := if c < i then k - 1 else k;
        BlankShift(ls, i, c, k, m);
        a, b := GroupBlock(ls, i + 1, i + 1, m);
      }
    } else {
      LineShift(ls, i, c, k);
      a, b := GroupBlock(ls, i + 1, c, k);
    }
  }

  lemma BlockEnd(ls: seq<string>, c: nat, k: nat) returns (a: nat, b: nat)
    requires c <= |ls| && (c == 0 || Blank(ls[c - 1]))
    requires k < |Groups(ls[|ls|..], ls[c..|ls|])|
    ensures Block(ls, Groups(ls[|ls|..], ls[c..|ls|])[k], a, b)
  {
    GroupsEnd(ls, ls[c..]);
    a, b := c, |ls|;
  }

  lemma BlockClosed(ls: seq<string>, i: nat, c: nat)
    requires c < i < |ls| && (c == 0 || Blank(ls[c - 1])) && Blank(ls[i])
    ensures 0 < |Groups(ls[i..], ls[c..i])| && Block(ls, Groups(ls[i..], ls[c..i])[0], c, i)
  {
    GroupsBlankStep(ls, i, ls[c..i]);
  }

  lemma BlankShift(ls: seq<string>, i: nat, c: nat, k: nat, m: nat)
    requires c <= i < |ls| && Blank(ls[i]) && m == (if c < i then k - 1 else k)
    requires k < |Groups(ls[i..], ls[c..i])| && (c < i ==> k > 0)
    ensures m < |Groups(ls[i + 1..], ls[i + 1..i + 1])|
    ensures Groups(ls[i..], ls[c..i])[k] == Groups(ls[i + 1..], ls[i + 1..i + 1])[m]
  {
    GroupsBlankStep(ls, i, ls[c..i]);
    assert ls[i + 1..i + 1] == [];
  }

  lemma LineShift(ls: seq<string>, i: nat, c: nat, k: nat)
    requires c <= i < |ls| && !Blank(ls[i]) && k < |Groups(ls[i..], ls[c..i])|
    ensures k < |Groups(ls[i + 1..], ls[c..i + 1])|
    ensures Groups(ls[i..], ls[c..i])[k] == Groups(ls[i + 1..], ls[c..i + 1])[k]
  {
    GroupsLineStep(ls, i, ls[c..i]);
    assert ls[c..i] + [ls[i]] == ls[c..i + 1];
  }

  /** `detectStanzaStructure` splits the text into its stanzas: each is a non-empty group of
      non-blank lines and a maximal one, a stretch of the text's lines with a blank line or
      an end of the text on each side; splitting them back into lines and concatenating gives
      exactly the non-blank lines of the text, in order; and there is one stanza per non-blank
      line that follows a blank line or begins the text. */
  lemma StanzaStructure(text: string)
    ensures var st := Stanzas(text);
      (forall k :: 0 <= k < |st| ==> GoodGroup(Split(st[k], '\n')))
      && (forall k :: 0 <= k < |st| ==> IsBlock(Split(text, '\n'), Split(st[k], '\n')))
      && Flatten(seq(|st|, k requires 0 <= k < |st| => Split(st[k], '\n'))) == NonBlankLines(text)
      && |st| == Starts(Split(text, '\n'), false)
  {
    var ls := Split(text, '\n');
    var gs := Groups(ls, []);
    var st := Stanzas(text);
    GroupsShape(ls, []);
    GroupsFlatten(ls, []);
    GroupsCount(ls, []);
    assert ls[0..] == ls && ls[0..0] == [];
    forall k | 0 <= k < |gs| ensures IsBlock(ls, gs[k]) {
      var a, b := GroupBlock(ls, 0, 0, k);
    }
    forall k | 0 <= k < |gs| ensures Split(st[k], '\n') == gs[k] {
      SplitJoin(gs[k], '\n');
    }
    assert seq(|st|, k requires 0 <= k < |st| => Split(st[k], '\n')) == gs;
  }

  /** A text none of whose lines is blank is one stanza. */
  lemma NoBlankLineOneStanza(text: string)
    requires forall j :: 0 <= j < |Split(text, '\n')| ==> !Blank(Split(text, '\n')[j])
    ensures Stanzas(text) == [text]
  {
    var ls := Split(text, '\n');
    GroupsNoBlank(ls, []);
    assert [] + ls == ls;
    JoinSplit(text, '\n');
  }

  /** The number of stanzas is at most the number of non-blank lines, and zero exactly when
      there is none. */
  lemma StanzaCountBounds(text: string)
    ensures |Stanzas(text)| <= |NonBlankLines(text)|
    ensures |Stanzas(text)| == 0 <==> NonBlankLines(text) == []
  {
    var ls := Split(text, '\n');
    var gs := Groups(ls, []);
    GroupsShape(ls, []);
    GroupsFlatten(ls, []);
    assert [] + NonBlank(ls) == NonBlank(ls);
    FlattenLength(gs);
  }

  /** A list of non-empty groups has no more groups than lines, and none only when empty. */
  lemma {:induction false} FlattenLength(gs: seq<seq<string>>)
    requires forall k :: 0 <= k < |gs| ==> gs[k] != []
    ensures |gs| <= |Flatten(gs)|
    ensures gs == [] <==> Flatten(gs) == []
  {
    if gs != [] {
      assert forall k :: 0 <= k < |gs[1..]| ==> gs[1..][k] == gs[k + 1];
      FlattenLength(gs[1..]);
    }
  }

  // ---- getProcessingStats ----

  datatype Stats = Stats(originalLength: nat, processedLength: nat, isPoetry: bool,
    spacesReplaced: nat, dashesReplaced: nat, ellipsisReplaced: nat, stanzaCount: Option<nat>)

  predicate IsSpace(c: char) { c == ' ' }

  /** `/[ ]{2,}/g` (only the matches are counted, so the replacement is immaterial). */
  const SpaceRun: Matcher := RunOf(IsSpace, 2, " ")

  /** `getProcessingStats`: lengths, the classification, the number of matches of
      `[ ]{2,}`, `--` and `\.{3,}` in the original text, and the stanza count of a poem. */
  function ProcessingStats(original: string, processed: string): Stats {
    var poem := IsPoetry(original);
    Stats(|original|, |processed|, poem,
      MatchCount(SpaceRun, original), MatchCount(DoubleHyphen, original),
      MatchCount(Ellipsis, original),
      if poem then Some(|Stanzas(original)|) else None)
  }

  /** The stanza count is reported exactly for a poem, and then it is the number of runs of
      non-blank lines, at least one. */
  lemma StatsStanzaCount(original: string, processed: string)
    ensures var r := ProcessingStats(original, processed);
      (r.stanzaCount.Some? <==> r.isPoetry)
      && (r.stanzaCount.Some? ==> r.stanzaCount.value == Starts(Split(original, '\n'), false)
                                  && 1 <= r.stanzaCount.value <= |NonBlankLines(original)|)
  {
    StanzaStructure(original);
    StanzaCountBounds(original);
    if IsPoetry(original) && NonBlankLines(original) == [] {
      BlankIsNotPoetry(original);
    }
  }

  /** `spacesReplaced` is the number of maximal runs of two or more spaces, `dashesReplaced`
      the number of em dashes the poetry rule `--` → `—` inserts, and `ellipsisReplaced` the
      number of ellipses the `\.{3,}` → `…` rule inserts. */
  lemma StatsCountReplacements(original: string, processed: string)
    ensures var r := ProcessingStats(original, processed);
      r.spacesReplaced == SpaceRunStarts(original, 0)
      && CountChar(ReplaceAll(DoubleHyphen, original), EM_DASH) == CountChar(original, EM_DASH) + r.dashesReplaced
      && CountChar(ReplaceAll(Ellipsis, original), ELLIPSIS) == CountChar(original, ELLIPSIS) + r.ellipsisReplaced
  {
    SpaceRunCount(original, 0);
    DoubleHyphenOnePerMatch(original);
    EllipsisOnePerMatch(original);
  }

  /** Position `j` starts a maximal run of at least two spaces. */
  predicate SpaceRunStart(s: string, j: nat) {
    j + 1 < |s| && s[j] == ' ' && s[j + 1] == ' ' && (j == 0 || s[j - 1] != ' ')
  }

  /** The number of positions from `i` on that start a maximal run of two or more spaces. */
  function SpaceRunStarts(s: string, i: nat): nat
    requires i <= |s|
    decreases |s| - i
  {
    if i == |s| then 0 else (if SpaceRunStart(s, i) then 1 else 0) + SpaceRunStarts(s, i + 1)
  }

  /** No run starts strictly inside a run of spaces. */
  lemma {:induction false} SpaceRunStartsSkip(s: string, i: nat, e: nat)
    requires 0 < i <= e <= |s|
    requires forall k :: i - 1 <= k < e ==> s[k] == ' '
    ensures SpaceRunStarts(s, i) == SpaceRunStarts(s, e)
    decreases e - i
  {
    if i < e {
      assert !SpaceRunStart(s, i);
      SpaceRunStartsSkip(s, i + 1, e);
    }
  }

  /** `[ ]{2,}` with the `g` flag matches once per maximal run of two or more spaces: the scan,
      started anywhere but inside a run of spaces, counts the run starts it passes. */
  lemma {:induction false} SpaceRunCount(s: string, i: nat)
    requires i <= |s|
    requires i == 0 || i == |s| || s[i - 1] != ' ' || s[i] != ' '
    ensures Hits(SpaceRun, s, i) == SpaceRunStarts(s, i)
    decreases |s| - i
  {
    if i < |s| {
      var n := SpaceRunFires(s, i);
      if n >= 2 {
        SpaceRunCount(s, i + n);
        SpaceRunStartsSkip(s, i + 1, i + n);
      } else {
        SpaceRunCount(s, i + 1);
      }
    }
  }

  /** The scan step at `i`: it jumps over the whole run `n` of spaces when that run is two or
      more long, and then `i` starts a run; otherwise it moves on by one and `i` starts none. */
  lemma SpaceRunFires(s: string, i: nat) returns (n: nat)
    requires i < |s|
    requires i == 0 || s[i - 1] != ' ' || s[i] != ' '
    ensures n == RunLen(s, i, IsSpace) && i + n <= |s|
    ensures n >= 2 ==> Fires(SpaceRun, s, i) && SpaceRun(s, i).value.len == n && SpaceRunStart(s, i)
    ensures n >= 2 ==> forall k :: i <= k < i + n ==> s[k] == ' '
    ensures n >= 2 ==> i + n == |s| || s[i + n] != ' '
    ensures n < 2 ==> !Fires(SpaceRun, s, i) && !SpaceRunStart(s, i)
    ensures n < 2 ==> i + 1 == |s| || s[i] != ' ' || s[i + 1] != ' '
  {
    n := RunLen(s, i, IsSpace);
    assert SpaceRun(s, i) == RunOfAt(IsSpace, 2, " ", s, i);
  }

  lemma DoubleHyphenOnePerMatch(s: string)
    ensures CountChar(ReplaceAll(DoubleHyphen, s), EM_DASH) == CountChar(s, EM_DASH) + MatchCount(DoubleHyphen, s)
  {
    forall j | 0 <= j < |s| ensures AddsCount(DoubleHyphen, s, EM_DASH, 1, j) {
      if Fires(DoubleHyphen, s, j) {
        assert s[j..j + 2] == "--";
      }
    }
    ScanCount(DoubleHyphen, s, 0, EM_DASH, 1);
  }

  /** `getProcessingStats` counts one run of spaces, one `--` and one run of dots in
      `a  b--c...d`. */
  lemma StatsExample(processed: string)
    ensures var r := ProcessingStats("a  b--c...d", processed);
      r.spacesReplaced == 1 && r.dashesReplaced == 1 && r.ellipsisReplaced == 1
  {
    var s := "a  b--c...d";
    ExampleSpaces(s);
    ExampleDashes(s);
    ExampleDots(s);
  }

  lemma ExampleSpaces(s: string)
    requires s == "a  b--c...d"
    ensures MatchCount(SpaceRun, s) == 1
  {
    assert !Fires(SpaceRun, s, 0);
    RunLenExact(s, 1, 2, IsSpace);
    assert Fires(SpaceRun, s, 1) && SpaceRun(s, 1).value.len == 2;
    forall j | 3 <= j < |s| ensures !Fires(SpaceRun, s, j) {
      assert s[j] != ' ';
    }
    HitsSkip(SpaceRun, s, 0, 1);
    HitsSkip(SpaceRun, s, 3, |s|);
  }

  lemma ExampleDashes(s: string)
    requires s == "a  b--c...d"
    ensures MatchCount(DoubleHyphen, s) == 1
  {
    forall j | 0 <= j < 4 ensures !Fires(DoubleHyphen, s, j) {
      LiteralMiss("--", [EM_DASH], s, j);
    }
    assert s[4..][..2] == "--";
    assert Fires(DoubleHyphen, s, 4) && DoubleHyphen(s, 4).value.len == 2;
    forall j | 6 <= j < |s| ensures !Fires(DoubleHyphen, s, j) {
      LiteralMiss("--", [EM_DASH], s, j);
    }
    HitsSkip(DoubleHyphen, s, 0, 4);
    HitsSkip(DoubleHyphen, s, 6, |s|);
  }

  lemma ExampleDots(s: string)
    requires s == "a  b--c...d"
    ensures MatchCount(Ellipsis, s) == 1
  {
    forall j | 0 <= j < 7 ensures !Fires(Ellipsis, s, j) {
      assert s[j] != '.';
    }
    RunLenExact(s, 7, 3, IsDot);
    assert Fires(Ellipsis, s, 7) && Ellipsis(s, 7).value.len == 3;
    assert !Fires(Ellipsis, s, 10);
    HitsSkip(Ellipsis, s, 0, 7);
    HitsSkip(Ellipsis, s, 10, |s|);
  }
}
