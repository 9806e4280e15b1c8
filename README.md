# Russian typography service — a Dafny model of its core

The service takes a Russian text (plain, or a formatted document split into paragraphs and
runs) and typesets it by fixed rules:

- it first decides whether the text is poetry or prose, with a scoring heuristic over line
  lengths, line breaks, indentation, capitalised lines and the variance of line lengths;
- prose goes through the basic rules, the non-breaking-space rules and the punctuation rules
  (`processRegularText`). The basic rules squeeze spaces, trim lines, set the numero sign,
  protect hyphenated words and abbreviations with placeholder tokens, set dashes and number
  ranges, restore the tokens and turn `...` into an ellipsis;
- poetry is processed line by line (`processPoetryText`). Indentation and blank lines are kept,
  and each line's content gets a small rule set: `--` becomes an em dash, `...` an ellipsis,
  and spaces around punctuation are fixed;
- a formatted document is classified on its whole text, and then every run is processed while
  keeping its formatting;
- `detectStanzaStructure` groups a poem's lines into stanzas, and `getProcessingStats` reports
  lengths, match counts and the stanza count.

The HTTP route around this core derives the `.docx` download name by transliterating the
upload's name and sanitising it. Before building the document it trims trailing empty
paragraphs, and it turns HTML elements into styled text runs (`parseRuns`).

## How it is modelled

- **Regular expressions.** Every regular expression of the core becomes a named *matcher*
  (module `Patterns`) for one generic engine (module `Replace`). A matcher is a function
  `(string, position) -> Option<Hit>` that tells how many characters match there and what
  replaces them. `ReplaceAll` is JavaScript's leftmost, non-overlapping global `replace`, and
  `MatchCount` is `match(/…/g).length`. A chain of `.replace` calls is `Chain(rules, s)`.
- **Character classes.** These are in module `Chars`. `IsWs` is the exact ECMAScript white
  space and line terminator list, and `IsLetter` is a documented subset of `\p{L}`.
- **Rule methods.** Each rule function of the source (`applyBasicRules`, `applyPoetryRules`,
  …) is a method that reassigns its `result` statement by statement. The method is proved
  equal to a pure function of its input, and the lemmas are stated about that function.
- **Loops.** `detectStanzaStructure`, `parseRuns` and `trimTrailingEmptyParagraphs` are
  methods with their loops and invariants. `detectStanzaStructure`'s counter
  `emptyLineCount` is kept as in the source, but it is dead state: it is at least 1 whenever it is
  tested, so the stanzas do not depend on it.
- **Classifier arithmetic.** JavaScript numbers in the classifier are exact reals, with `NaN`
  for `0/0` and an infinity of the dividend's sign for a non-zero number divided by zero.
- **Behaviour of the code that a reader may not expect, reproduced as written:**
  - `isPoetry` scores a text with any number of lines, even one, and its cutoff is a score of
    4, so a single short capitalised line counts as poetry;
  - `\b` is ASCII-only, so a short-word non-breaking-space rule fires only where the short
    word directly follows a character of `[A-Za-z0-9_]`: never at the start of the text, after a
    space or after a Cyrillic letter, so `в магазин` keeps its plain space;
  - the dialogue rule emits an em dash and an EN SPACE (U+2002);
  - the placeholder for `и т.д.` is restored without a hyphen;
  - the dictionary pass over hyphenated words comes after the letter–hyphen–letter protection
    and therefore finds nothing left to protect;
  - placeholder tokens such as `[[HYPHEN]]` are handled only by the prose pipeline, which never
    emits one. The poetry pipeline does not touch them, so a poem that contains the literal text
    `[[HYPHEN]]` keeps it: `Кот[[HYPHEN]]` is classified as poetry and comes out unchanged.

## Model

| member | source | states |
|---|---|---|
| Classifier.IsPoetryIff | lib/typography.ts:39-68 | a text is poetry exactly when the sum of the five weighted indicators, written with integers only, reaches 4 |
| Classifier.ScoreIsInteger | lib/typography.ts:46-67 | the real-valued score built from the ratios and the variance equals its integer cross-multiplied form |
| Classifier.VarianceBelow | lib/typography.ts:73-77 | for non-empty lengths, population variance below b holds exactly when n·Σx² − (Σx)² < b·n² |
| Classifier.RegularLengthsIff | lib/typography.ts:63-65 | the low-variance indicator holds exactly when there are lines and their length variance is below 100 |
| Classifier.RatioAbove | lib/typography.ts:50-60 | a ratio a/n is above c/10 exactly when n > 0 and 10a > cn, or n = 0 and a > 0 (a/0 is +Infinity); 0/0 is NaN and above nothing, so an empty text never meets a ratio test |
| Classifier.MeanBelow | lib/typography.ts:46-47 | the mean line length is below b exactly when there are lines and the sum is below b·n, or there are none and the sum is negative (s/0 is −Infinity); 0/0 is NaN and below nothing |
| Classifier.BlankIsNotPoetry | lib/typography.ts:39-68 | a text without non-blank lines is never poetry |
| Classifier.OneShortCapitalLineIsPoetry | lib/typography.ts:39-68 | a single capitalised line shorter than 60 characters is classified as poetry |
| Prose.ApplyEach | lib/typography.ts:177 | running the table of rules one after another computes the chained replacement |
| Prose.ApplyBasicRules | lib/typography.ts:151-237 | the statement-by-statement rule sequence computes the basic-rules function |
| Prose.ApplyNonBreakingSpaces | lib/typography.ts:259-278 | the short-word, unit and initials passes compute the non-breaking-space function, whose behaviour the ShortWord*, NumberUnitAt, InitialsAt, UnitExample, InitialsExample, NonBreakingSpacesKeepsNoPlaceholders and ShortWordExample rows state |
| Prose.ApplyPunctuation | lib/typography.ts:283-293 | the dialogue-dash and percent passes compute the punctuation function, whose behaviour the DialogueDash*, PercentExample and PunctuationKeepsNoPlaceholders rows state |
| Prose.ProcessRegularText | lib/typography.ts:108-117 | the prose pipeline is basic rules, then non-breaking spaces, then punctuation; its output holds no placeholder token (RegularTextNoPlaceholders) |
| Prose.SqueezeNoAdjacent | lib/typography.ts:155 | after squeezing, no two horizontal spaces are adjacent |
| Prose.SqueezeKeepsNewlines | lib/typography.ts:155 | squeezing spaces keeps the number of line breaks |
| Prose.StripIsTrim | lib/typography.ts:157 | stripping leading and trailing spaces of a line is the same as trimming it |
| Prose.StripLinesShape | lib/typography.ts:157 | line stripping keeps the number of lines and leaves each line trimmed, with no white space at either edge |
| Prose.StripLinesKeepsNewlines | lib/typography.ts:157 | line stripping keeps the number of line breaks |
| Prose.BasicRulesNoPlaceholders | lib/typography.ts:213-221 | the basic rules leave no placeholder token in their output |
| Prose.EllipsisNoThreeDots | lib/typography.ts:224 | after the ellipsis rule no three dots in a row remain |
| Prose.EllipsisOnePerMatch | lib/typography.ts:224 | the ellipsis rule adds exactly one ellipsis per run of three or more dots |
| Prose.NumberRangeExample | lib/typography.ts:195 | `1966-1977` becomes `1966–1977` with an en dash |
| Patterns.NumberUnitAt | lib/typography.ts:270-271 | a number–unit match is a run of digits, a run of white space and a unit of the list (any letter case); it is replaced by the digits, one no-break space and the unit as written, so it starts with a digit and holds only digits, Russian letters and no-break spaces |
| Patterns.InitialsAt | lib/typography.ts:274-275 | an initials match is a capital and a dot, white space, a capital and a dot, white space, and a capitalised surname; it is replaced by the two initials and the surname as written, with each run of white space turned into one no-break space |
| Prose.UnitExample | lib/typography.ts:269-271 | `10 кг` becomes `10`, a no-break space and `кг` |
| Prose.InitialsExample | lib/typography.ts:273-275 | `А. С. Пушкин` becomes `А.`, a no-break space, `С.`, a no-break space and `Пушкин` |
| Prose.NonBreakingSpacesKeepsNoPlaceholders | lib/typography.ts:259-278 | the non-breaking-space passes bring no placeholder token into a text that has none |
| Prose.PunctuationKeepsNoPlaceholders | lib/typography.ts:283-293 | the dialogue-dash and percent passes bring no placeholder token into a text that has none |
| Prose.RegularTextNoPlaceholders | lib/typography.ts:108-117 | whatever the input, the output of the prose pipeline holds no placeholder token |
| Prose.ShortWordFires | lib/typography.ts:263-267 | a short-word pattern matches only at a Russian letter directly preceded by a character of `[A-Za-z0-9_]`, never at the start of the text |
| Prose.ShortWordsDormant | lib/typography.ts:263-267 | when no Russian letter follows a character of `[A-Za-z0-9_]`, the short-word passes leave the text unchanged |
| Prose.ShortWordExample | lib/typography.ts:259-278 | `в магазин` comes out of the non-breaking-space passes unchanged, with its plain space |
| Prose.DashFires | lib/typography.ts:287 | the dialogue pattern matches exactly at the line starts whose line opens with optional whitespace and `-` |
| Prose.DialogueDashDone | lib/typography.ts:287 | after the dialogue pass no line opens with optional whitespace and `-` |
| Prose.DialogueDashIdempotent | lib/typography.ts:287 | a second dialogue pass changes nothing |
| Prose.DialogueDashExample | lib/typography.ts:283-293 | `- Привет!` becomes an em dash, an en space and `Привет!` |
| Prose.PercentExample | lib/typography.ts:283-293 | `15%` becomes `15`, a thin space and `%` |
| Placeholders.ProtectRestoreRoundTrip | lib/typography.ts:163 | protecting letter–hyphen–letter and then restoring the hyphen token gives back the text, when the text holds no token |
| Placeholders.ProtectLeavesNoBare | lib/typography.ts:163 | without a chain of two hyphenated joins, protection leaves no letter–hyphen–letter behind |
| Placeholders.ProtectChainExample | lib/typography.ts:163 | in `a-b-c` only the first hyphen is protected, so a bare letter–hyphen–letter remains |
| Poetry.ApplyPoetryRules | lib/typography.ts:242-254 | the poetry rule sequence computes the poetry-rules function |
| Poetry.PoetryLineIndent | lib/typography.ts:129-142 | processing a poem line keeps its leading white space (indentation) |
| Poetry.BlankLineUnchanged | lib/typography.ts:132-134 | a line made of white space only is left unchanged |
| Poetry.PoetryTextLines | lib/typography.ts:122-146 | a poem keeps its number of lines; each output line is its input line processed, with the same indentation, and blank lines stay as they were |
| Poetry.PoetryTextKeepsNewlines | lib/typography.ts:122-146 | a poem keeps its number of line breaks |
| Poetry.DoubleHyphenClears | lib/typography.ts:246 | after the `--` rule no `--` is left |
| Poetry.PoetryRulesPlain | lib/typography.ts:242-254 | a text with no hyphen, whitespace or punctuation passes the poetry rules unchanged |
| Typography.ProcessPoetryKeepsLines | lib/typography.ts:330-338 | a text classified as poetry keeps its lines, their indentation, its blank lines and its line breaks |
| Typography.PoetryKeepsToken | lib/typography.ts:330-338 | `Кот[[HYPHEN]]` is classified as poetry and comes out of `process` unchanged, so a placeholder token can survive the poetry pipeline |
| Typography.BlankTextIsProse | lib/typography.ts:330-338 | a text without non-blank lines goes through the prose pipeline |
| Typography.FormattingShape | lib/typography.ts:82-103 | the document keeps its paragraphs, runs and formatting; every run is processed by the pipeline its whole text is classified for; only a `normal` paragraph of a poem changes style, to `poetry` |
| Typography.SingleRunIsProcess | lib/typography.ts:82-103 | a one-paragraph, one-run document is processed exactly as `process` processes that text |
| Typography.DetectStanzaStructure | lib/typography.ts:298-325 | the loop over the lines computes the stanza grouping: runs of non-blank lines, each joined with line breaks |
| Typography.StanzaStructure | lib/typography.ts:298-325 | each stanza is non-empty and made of non-blank lines, and is a maximal block: a stretch of the text's lines with a blank line or an end of the text on each side; together, in order, the stanzas are exactly the non-blank lines; their number is the number of non-blank lines that open a block |
| Typography.GroupBlock | lib/typography.ts:298-325 | with the open stanza starting at the text's start or after a blank line, each stanza still to come is a stretch of lines with a blank line or an end on each side |
| Typography.NoBlankLineOneStanza | lib/typography.ts:298-325 | a text none of whose lines is blank is one stanza, the text itself |
| Typography.StanzaCountBounds | lib/typography.ts:298-325 | there are at most as many stanzas as non-blank lines, and none exactly when there is no non-blank line |
| Typography.StatsStanzaCount | lib/typography.ts:343-363 | the stanza count is present exactly for poetry; it is then the number of blocks of non-blank lines, between 1 and the number of non-blank lines |
| Typography.StatsCountReplacements | lib/typography.ts:358-360 | `spacesReplaced` is the number of maximal runs of two or more spaces in the original text; `dashesReplaced` and `ellipsisReplaced` equal the numbers of em dashes and ellipses that the `--` and `...` rules insert |
| Typography.SpaceRunCount | lib/typography.ts:358 | a global match of `[ ]{2,}` started outside a run of spaces counts exactly the positions where a run of two or more spaces begins |
| Typography.StatsExample | lib/typography.ts:358-360 | `a  b--c...d` counts one run of spaces, one `--` and one run of dots |
| Route.TransliterateConcat | app/api/process/route.ts:20-27 | transliteration works character by character: the result for a concatenation is the concatenation of the results |
| Route.TransliterateNoRussian | app/api/process/route.ts:20-27 | no Cyrillic letter survives transliteration |
| Route.SanitizedShape | app/api/process/route.ts:230-232 | the file name holds only `[A-Za-z0-9_-]` and does not end in `_` or `-`; it is the replaced name with only a run of `_`/`-` cut off its end |
| Route.SanitizeIdempotent | app/api/process/route.ts:230-232 | sanitising a sanitised name changes nothing |
| Route.TrimTrailingEmptyParagraphs | app/api/process/route.ts:118-126 | the result is a prefix of the input; every dropped paragraph is empty and the last kept one is not; nothing is dropped when the last paragraph is non-empty, and everything when all are empty |
| Runs.ParseRuns | app/api/process/route.ts:29-52 | the loop over the child nodes collects the runs that the recursive run definition gives |
| Runs.ChildRunsTexts | app/api/process/route.ts:45-48 | the runs' texts are the non-blank text nodes in document order, whatever the styles |
| Runs.ChildRunsInherit | app/api/process/route.ts:32-44 | every run keeps each style attribute its ancestors set |
| Runs.TagRuns | app/api/process/route.ts:34-36 | every run under b/strong is bold, under i/em in italics and under u underlined |
| Runs.SpanFontSize | app/api/process/route.ts:37-42 | a span whose style is any prefix without `font-size:` (in any letter case), then `font-size:`, any whitespace, a non-empty run of digits, `px` and anything at all gives its children's style twice that number as size, whatever style it inherits |
| Runs.SpanFontSizeExample | app/api/process/route.ts:41-42 | a span styled `font-size: 12px` gives size 24 (half-points) |
| Runs.SpanColor | app/api/process/route.ts:37-40 | a span whose style is any prefix without `color:` (in any letter case), then `color:`, any whitespace, then a value that starts with no whitespace and runs to the next `;` or the end gives its children's style that value, with its first `#` removed, as color |
| Runs.SpanStyleExample | app/api/process/route.ts:37-42 | a span styled `color: red; font-size: 12px` gives color `red` and size 24 |
| Runs.SpanColorExample | app/api/process/route.ts:39-40 | a span styled `color: #FF0000` gives color `FF0000` |

## Left out

- The HTTP handler `POST` is not modelled: upload parsing, the docx (mammoth, docx, PizZip) and HTML (cheerio) libraries, and the responses. `typographHtml`, `htmlToDocxParagraphs` and `fillEmptyParagraphsInDocx` are left out for the same reason: each is I/O or a call into a library. `typographText` is called by the route but not defined in the typography module.
- `isEmptyParagraph`, `hasSignificantContent` and `isTrulyEmptyParagraph` inspect docx library objects. `TrimTrailingEmptyParagraphs` takes the emptiness test as a parameter instead.
- `parseRuns` reads a cheerio DOM. `Runs.Node` stands for the parts it looks at: tag name, `style` attribute, children and text data.
- `getExampleText` returns a constant and adds nothing to model.
- The pages, the layout, the Next.js configuration and the demo route are user interface and configuration.
- Classifier: arithmetic is exact, with no IEEE rounding. Line lengths are counted in characters, not UTF-16 code units.
- Chars: `\p{L}`, `\s` and case-insensitive matching use the documented character subsets in `Chars`, not full Unicode tables or case folding.
- Route.TransliterateConcat: `split('')` splits into UTF-16 code units, while the model maps characters. The two agree for the whole table and for every character of the Basic Multilingual Plane.
- Runs.SpanFontSize: `Number(…) * 2` is exact in the model, so font sizes with more than 15 digits lose no precision here.
- Typography.PoetryKeepsToken: that `process` brings no placeholder token into a poem that has none is not proved; it needs reasoning about the poetry rules across the rejoined lines. The prose half is Prose.RegularTextNoPlaceholders.
- Placeholders.ProtectRestoreRoundTrip: the hyphen guarantee is proved for the protect and restore steps. It is not proved end to end through the intervening dash and range rules.
