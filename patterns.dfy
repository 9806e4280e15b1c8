/** One `Matcher` per regular expression of the typography engine (lib/typography.ts).
    Each says what its pattern matches when tried at position `i` of the subject and what the
    match is replaced by, including the regex engine's backtracking where it matters. */
module Patterns {
  import opened Wrappers
  import opened Chars
  import opened Strings
  import opened Replace

  const HYPHEN_TOKEN: string := "[[HYPHEN]]"

  /** Length of the whitespace run (`\s*`) starting at `i`. */
  function Ws(s: string, i: nat): nat { RunLen(s, i, IsWs) }

  /** `\b`: the ASCII word-character test differs on the two sides of position `i`. */
  predicate Boundary(s: string, i: nat) {
    (0 < i <= |s| && IsAsciiWord(s[i - 1])) != (i < |s| && IsAsciiWord(s[i]))
  }

  /** `^` with the `m` flag: the start of the string or just after a line terminator. */
  predicate LineStart(s: string, i: nat) {
    i == 0 || (i <= |s| && IsLineTerminator(s[i - 1]))
  }

  // ---- applyBasicRules ----

  /** `/[ \t\v\f\r]{2,}/g` → `' '` */
  const HSpaceRun: Matcher := RunOf(IsHSpace, 2, " ")

  /** `/^\s+|\s+$/g` → `''` on one line: the leading whitespace, or a whitespace run that
      reaches the end of the line. */
  function EdgeWsAt(s: string, i: nat): Option<Hit> {
    var n := Ws(s, i);
    if i == 0 && n > 0 then Some(Hit(n, []))
    else if n > 0 && i + n == |s| then Some(Hit(n, []))
    else None
  }

  const EdgeWs: Matcher := EdgeWsAt

  /** `/№\s*(\d+)/g` → `'№\u00A0$1'` */
  function NumeroSpaceAt(s: string, i: nat): Option<Hit> {
    if i < |s| && s[i] == '№' then
      var w := Ws(s, i + 1);
      var d := RunLen(s, i + 1 + w, IsDigit);
      if d > 0 then Some(Hit(1 + w + d, ['№', NBSP] + s[i + 1 + w..i + 1 + w + d])) else None
    else None
  }

  const NumeroSpace: Matcher := NumeroSpaceAt

  /** `/(\p{L})-(\p{L})/gu` → `'$1[[HYPHEN]]$2'` */
  function LetterHyphenAt(s: string, i: nat): Option<Hit> {
    if i + 2 < |s| && IsLetter(s[i]) && s[i + 1] == '-' && IsLetter(s[i + 2])
    then Some(Hit(3, [s[i]] + HYPHEN_TOKEN + [s[i + 2]]))
    else None
  }

  const LetterHyphen: Matcher := LetterHyphenAt

  /** The compound words whose hyphen is protected (lib/typography.ts:166-176). */
  const HyphenWords: seq<string> := [
    "из-за", "из-под", "по-русски", "по-моему", "по-твоему", "по-нашему",
    "по-вашему", "кое-что", "кое-как", "кто-нибудь", "что-нибудь", "где-нибудь",
    "когда-либо", "как-то", "все-таки", "по-своему", "по-старому", "по-новому",
    "по-английски", "по-французски", "по-немецки", "по-итальянски", "по-испански", "по-китайски",
    "по-японски", "по-украински", "по-белорусски", "по-польски", "по-чешски", "по-гречески",
    "по-турецки", "по-арабски", "по-еврейски", "по-латински", "по-современному", "по-старинному",
    "по-детски", "по-взрослому", "по-товарищески", "по-приятельски", "по-родственному", "по-отечески",
    "по-матерински", "по-братски", "по-сестрински", "по-деловому", "по-дружески", "по-особенному",
    "по-особому"
  ]

  /** Index of the first 'е' of `w` (|w| when there is none): `word.replace('е', '[её]')`
      changes only that one. */
  function FirstE(w: string): (k: nat)
    ensures k <= |w|
    ensures k < |w| ==> w[k] == 'е'
    ensures forall j :: 0 <= j < k ==> w[j] != 'е'
  {
    if w == [] then 0 else if w[0] == 'е' then 0 else 1 + FirstE(w[1..])
  }

  /** Character `c` matches position `k` of the word's pattern, case-insensitively. */
  predicate WordCharMatches(w: string, k: nat, c: char)
    requires k < |w|
  {
    if k == FirstE(w) then Fold(c) == 'е' || Fold(c) == 'ё' else Fold(c) == Fold(w[k])
  }

  /** `word.replace(/-/g, '[[HYPHEN]]')` */
  function SafeWord(w: string): string {
    ReplaceAll(Literal("-", HYPHEN_TOKEN), w)
  }

  /** `new RegExp(word.replace('е', '[её]'), 'gi')` → `safe` */
  function HyphenWordAt(w: string, s: string, i: nat): Option<Hit> {
    if w != [] && i + |w| <= |s| && forall j :: i <= j < i + |w| ==> WordCharMatches(w, j - i, s[j])
    then Some(Hit(|w|, SafeWord(w)))
    else None
  }

  function HyphenWord(w: string): Matcher {
    (s: string, i: nat) => HyphenWordAt(w, s, i)
  }

  /** `/\b<lit>/gi` → `out`, for the abbreviation patterns. */
  function AbbrevAt(lit: string, out: string, s: string, i: nat): Option<Hit> {
    if lit != [] && Boundary(s, i) && CiAt(s, i, lit) then Some(Hit(|lit|, out)) else None
  }

  function Abbrev(lit: string, out: string): Matcher {
    (s: string, i: nat) => AbbrevAt(lit, out, s, i)
  }

  /** The chained abbreviation replaces (lib/typography.ts:185-192), in order. */
  const Abbreviations: seq<Matcher> := [
    Abbrev("т.-е.", "[[T_E]]"), Abbrev("т.-д.", "[[T_D]]"), Abbrev("т.-п.", "[[T_P]]"),
    Abbrev("т.-к.", "[[T_K]]"), Abbrev("т.-н.", "[[T_N]]"), Abbrev("т.-о.", "[[T_O]]"),
    Abbrev("и т.-д.", "[[I_T_D]]")
  ]

  /** `/(\d{1,4})-(\d{1,4})/g` → `'$1–$2'`. The first group takes at most four digits and
      cannot give any back, since a shorter group is followed by a digit, not '-'. */
  function NumberRangeAt(s: string, i: nat): Option<Hit> {
    var a := RunLen(s, i, IsDigit);
    var d1 := if a < 4 then a else 4;
    if d1 > 0 && i + d1 < |s| && s[i + d1] == '-' then
      var b := RunLen(s, i + d1 + 1, IsDigit);
      var d2 := if b < 4 then b else 4;
      if d2 > 0 then Some(Hit(d1 + 1 + d2, s[i..i + d1] + [EN_DASH] + s[i + d1 + 1..i + d1 + 1 + d2]))
      else None
    else None
  }

  const NumberRange: Matcher := NumberRangeAt

  /** `/(\s|^|\n)–(\s)/g` → `'$1\u00A0— '` (the `\n` alternative is part of `\s`). */
  function EnDashAfterSpaceAt(s: string, i: nat): Option<Hit> {
    if i + 2 < |s| && IsWs(s[i]) && s[i + 1] == EN_DASH && IsWs(s[i + 2])
    then Some(Hit(3, [s[i], NBSP, EM_DASH, ' ']))
    else if i == 0 && 1 < |s| && s[0] == EN_DASH && IsWs(s[1])
    then Some(Hit(2, [NBSP, EM_DASH, ' ']))
    else None
  }

  const EnDashAfterSpace: Matcher := EnDashAfterSpaceAt

  /** `/\s+<d>\s+/g` → `'\u00A0— '`, for a dash character accepted by `isDash`. */
  function SpacedDashAt(isDash: char -> bool, s: string, i: nat): Option<Hit> {
    var w1 := Ws(s, i);
    if w1 > 0 && i + w1 < |s| && isDash(s[i + w1]) then
      var w2 := Ws(s, i + w1 + 1);
      if w2 > 0 then Some(Hit(w1 + 1 + w2, [NBSP, EM_DASH, ' '])) else None
    else None
  }

  function SpacedDash(isDash: char -> bool): Matcher {
    (s: string, i: nat) => SpacedDashAt(isDash, s, i)
  }

  predicate IsEnDash(c: char) { c == EN_DASH }
  predicate IsHyphenOrEmDash(c: char) { c == '-' || c == EM_DASH }

  /** `/(\p{L})\s*-\s*(\p{L})/gu` → `'$1 — $2'` */
  function LetterDashAt(s: string, i: nat): Option<Hit> {
    if i < |s| && IsLetter(s[i]) then
      var w1 := Ws(s, i + 1);
      var h := i + 1 + w1;
      if h < |s| && s[h] == '-' then
        var w2 := Ws(s, h + 1);
        var j := h + 1 + w2;
        if j < |s| && IsLetter(s[j]) then Some(Hit(j + 1 - i, [s[i], ' ', EM_DASH, ' ', s[j]])) else None
      else None
    else None
  }

  const LetterDash: Matcher := LetterDashAt

  /** `/(^|\n)-\s/gu` → `'$1— '` */
  function DialogueHyphenAt(s: string, i: nat): Option<Hit> {
    if i == 0 && 1 < |s| && s[0] == '-' && IsWs(s[1]) then Some(Hit(2, [EM_DASH, ' ']))
    else if i + 2 < |s| && s[i] == '\n' && s[i + 1] == '-' && IsWs(s[i + 2])
    then Some(Hit(3, ['\n', EM_DASH, ' ']))
    else None
  }

  const DialogueHyphen: Matcher := DialogueHyphenAt

  /** The chained restoring replaces (lib/typography.ts:213-221), in order. */
  const Restorations: seq<(string, string)> := [
    ("[[T_E]]", "т.-е."), ("[[T_D]]", "т.-д."), ("[[T_P]]", "т.-п."), ("[[T_K]]", "т.-к."),
    ("[[T_N]]", "т.-н."), ("[[T_O]]", "т.-о."), ("[[I_T_D]]", "и т.д."), (HYPHEN_TOKEN, "-")
  ]

  function Literals(ps: seq<(string, string)>): (ms: seq<Matcher>)
    ensures |ms| == |ps|
    ensures forall k :: 0 <= k < |ps| ==> ms[k] == Literal(ps[k].0, ps[k].1)
  {
    if ps == [] then [] else [Literal(ps[0].0, ps[0].1)] + Literals(ps[1..])
  }

  predicate IsDot(c: char) { c == '.' }

  /** `/\.{3,}/g` → `'…'` */
  const Ellipsis: Matcher := RunOf(IsDot, 3, [ELLIPSIS])

  /** `/\s+([,.;:!?])/g` → `'$1'` */
  function SpaceBeforePunctAt(s: string, i: nat): Option<Hit> {
    var w := Ws(s, i);
    if w > 0 && i + w < |s| && IsPunct(s[i + w]) then Some(Hit(w + 1, [s[i + w]])) else None
  }

  const SpaceBeforePunct: Matcher := SpaceBeforePunctAt

  /** `/([,.;:!?])(<letter>)/g` → `'$1 $2'` for the letter class `isLetter`. */
  function SpaceAfterPunctAt(isLetter: char -> bool, s: string, i: nat): Option<Hit> {
    if i + 1 < |s| && IsPunct(s[i]) && isLetter(s[i + 1])
    then Some(Hit(2, [s[i], ' ', s[i + 1]]))
    else None
  }

  function SpaceAfterPunct(isLetter: char -> bool): Matcher {
    (s: string, i: nat) => SpaceAfterPunctAt(isLetter, s, i)
  }

  /** `[А-Яа-яёЁA-Za-z]` */
  predicate IsRussianOrLatin(c: char) { IsRussian(c) || IsLatinUpper(c) || IsLatinLower(c) }

  /** `/\(\s+/g` → `'('` */
  function OpenParenAt(s: string, i: nat): Option<Hit> {
    if i < |s| && s[i] == '(' && Ws(s, i + 1) > 0 then Some(Hit(1 + Ws(s, i + 1), "(")) else None
  }

  const OpenParen: Matcher := OpenParenAt

  /** `/\s+\)/g` → `')'` */
  function CloseParenAt(s: string, i: nat): Option<Hit> {
    var w := Ws(s, i);
    if w > 0 && i + w < |s| && s[i + w] == ')' then Some(Hit(w + 1, ")")) else None
  }

  const CloseParen: Matcher := CloseParenAt

  // ---- applyNonBreakingSpaces ----

  /** The short words that get a non-breaking space after them (lib/typography.ts:263). */
  const ShortWords: seq<string> := [
    "а", "в", "и", "к", "о", "с", "у", "не", "на",
    "от", "до", "за", "из", "по", "со", "во", "об"
  ]

  /** `new RegExp(`\\b${word}\\s+`, 'gi')` → `word + '\u00A0'` */
  function ShortWordAt(w: string, s: string, i: nat): Option<Hit> {
    if Boundary(s, i) && CiAt(s, i, w) && Ws(s, i + |w|) > 0
    then Some(Hit(|w| + Ws(s, i + |w|), w + [NBSP]))
    else None
  }

  function ShortWord(w: string): Matcher {
    (s: string, i: nat) => ShortWordAt(w, s, i)
  }

  /** The unit alternatives of lib/typography.ts:270, in the order they are tried. */
  const Units: seq<string> := [
    "кг", "г", "т", "мг", "мм", "дм", "см", "м", "км", "л", "мл", "руб", "коп", "долл", "евро"
  ]

  /** The first unit alternative, from index `k` on, that matches at `j` case-insensitively. */
  function FirstUnit(s: string, j: nat, k: nat): (r: Option<nat>)
    requires k <= |Units|
    ensures r.Some? ==> k <= r.value < |Units| && CiAt(s, j, Units[r.value])
    ensures r.Some? ==> forall u :: k <= u < r.value ==> !CiAt(s, j, Units[u])
    ensures r.None? ==> forall u :: k <= u < |Units| ==> !CiAt(s, j, Units[u])
    decreases |Units| - k
  {
    if k == |Units| then None else if CiAt(s, j, Units[k]) then Some(k) else FirstUnit(s, j, k + 1)
  }

  /** The characters a number-and-unit replacement is made of. */
  predicate QuantityChar(c: char) { IsDigit(c) || IsRussian(c) || c == NBSP }

  /** The characters an initials replacement is made of. */
  predicate InitialsChar(c: char) { IsRussian(c) || c == '.' || c == NBSP }

  /** A text that matches a unit case-insensitively is made of Russian letters. */
  lemma UnitRussian(s: string, x: nat, u: nat)
    requires u < |Units| && CiAt(s, x, Units[u])
    ensures forall k :: x <= k < x + |Units[u]| ==> IsRussian(s[k])
  {
    var lit := Units[u];
    assert All(lit, c => 'а' <= c <= 'я');
    forall k | x <= k < x + |lit| ensures IsRussian(s[k]) {
      assert Fold(s[x + (k - x)]) == Fold(lit[k - x]);
    }
  }

  lemma QuantityOut(s: string, i: nat, d: nat, x: nat, u: nat)
    requires i + d <= x && u < |Units| && CiAt(s, x, Units[u])
    requires forall k :: i <= k < i + d ==> IsDigit(s[k])
    ensures All(s[i..i + d] + [NBSP] + s[x..x + |Units[u]|], QuantityChar)
  {
    var e := x + |Units[u]|;
    UnitRussian(s, x, u);
    AllSlice(s, i, i + d, QuantityChar);
    AllSlice(s, x, e, QuantityChar);
    AllConcat(s[i..i + d], [NBSP], QuantityChar);
    AllConcat(s[i..i + d] + [NBSP], s[x..e], QuantityChar);
  }

  /** `s[x..e]` is one of the unit alternatives, in any letter case. */
  predicate UnitAt(s: string, x: nat, e: nat) {
    exists u :: 0 <= u < |Units| && x + |Units[u]| == e && CiAt(s, x, Units[u])
  }

  /** A match of `(\d+)\s+(unit)` at `i`: the digits `s[i..i + d]`, the white space
      `s[i + d..i + d + w]` and a unit up to `i + h.len`; the replacement is the number, one
      no-break space and the unit. */
  predicate QuantityHit(s: string, i: nat, d: nat, w: nat, h: Hit) {
    0 < d && 0 < w && i + d + w < i + h.len <= |s|
    && All(s[i..i + d], IsDigit) && All(s[i + d..i + d + w], IsWs)
    && UnitAt(s, i + d + w, i + h.len)
    && h.out == s[i..i + d] + [NBSP] + s[i + d + w..i + h.len]
  }

  /** The replacement for a number `s[i..i + d]` followed by the white space
      `s[i + d..i + d + w]`, when a unit comes next: `'$1\u00A0$2'`. */
  function UnitHit(s: string, i: nat, d: nat, w: nat): (r: Option<Hit>)
    requires 0 < d && 0 < w && i + d + w <= |s|
    requires forall k :: i <= k < i + d ==> IsDigit(s[k])
    requires forall k :: i + d <= k < i + d + w ==> IsWs(s[k])
    ensures r.Some? ==> |r.value.out| > d && r.value.out[0] == s[i]
    ensures r.Some? ==> All(r.value.out, QuantityChar)
    ensures r.Some? ==> QuantityHit(s, i, d, w, r.value)
  {
    var f := FirstUnit(s, i + d + w, 0);
    if f.Some? then
      var n := |Units[f.value]|;
      var h := Hit(d + w + n, s[i..i + d] + [NBSP] + s[i + d + w..i + d + w + n]);
      QuantityHitOf(s, i, d, w, f.value, h);
      Some(h)
    else None
  }

  lemma QuantityHitOf(s: string, i: nat, d: nat, w: nat, u: nat, h: Hit)
    requires 0 < d && 0 < w && u < |Units| && CiAt(s, i + d + w, Units[u])
    requires forall k :: i <= k < i + d ==> IsDigit(s[k])
    requires forall k :: i + d <= k < i + d + w ==> IsWs(s[k])
    requires h == Hit(d + w + |Units[u]|, s[i..i + d] + [NBSP] + s[i + d + w..i + d + w + |Units[u]|])
    ensures QuantityHit(s, i, d, w, h) && All(h.out, QuantityChar)
    ensures |h.out| > d && h.out[0] == s[i]
  {
    QuantityOut(s, i, d, i + d + w, u);
    UnitNonEmpty(u);
    QuantityShape(s, i, d, w, u, h);
  }

  lemma UnitNonEmpty(u: nat)
    requires u < |Units|
    ensures |Units[u]| > 0
  {
  }

  lemma QuantityShape(s: string, i: nat, d: nat, w: nat, u: nat, h: Hit)
    requires 0 < d && 0 < w && u < |Units| && 0 < |Units[u]| && CiAt(s, i + d + w, Units[u])
    requires forall k :: i <= k < i + d ==> IsDigit(s[k])
    requires forall k :: i + d <= k < i + d + w ==> IsWs(s[k])
    requires h == Hit(d + w + |Units[u]|, s[i..i + d] + [NBSP] + s[i + d + w..i + d + w + |Units[u]|])
    ensures QuantityHit(s, i, d, w, h)
  {
    AllSlice(s, i, i + d, IsDigit);
    AllSlice(s, i + d, i + d + w, IsWs);
    assert UnitAt(s, i + d + w, i + h.len);
  }

  /** `/(\d+)\s+(кг|г|...|евро)/gi` → `'$1\u00A0$2'`; the replacement keeps the number and
      the unit and puts a no-break space between them. */
  function NumberUnitAt(s: string, i: nat): (r: Option<Hit>)
    ensures r.Some? ==> r.value.out != [] && IsDigit(r.value.out[0])
    ensures r.Some? ==> All(r.value.out, QuantityChar)
    ensures r.Some? ==> exists d: nat, w: nat :: QuantityHit(s, i, d, w, r.value)
  {
    var d := RunLen(s, i, IsDigit);
    var w := if d > 0 then Ws(s, i + d) else 0;
    if w > 0 then UnitHit(s, i, d, w) else None
  }

  const NumberUnit: Matcher := NumberUnitAt

  lemma InitialsOut(s: string, i: nat, j: nat, k: nat, e: nat)
    requires i + 2 <= j && j + 2 <= k < e <= |s|
    requires IsCyrUpper(s[i]) && s[i + 1] == '.' && IsCyrUpper(s[j]) && s[j + 1] == '.'
    requires IsCyrUpper(s[k]) && forall t :: k < t < e ==> IsCyrLower(s[t])
    ensures All(s[i..i + 2] + [NBSP] + s[j..j + 2] + [NBSP] + s[k..e], InitialsChar)
  {
    AllSlice(s, i, i + 2, InitialsChar);
    AllSlice(s, j, j + 2, InitialsChar);
    AllSlice(s, k, e, InitialsChar);
    AllConcat(s[i..i + 2], [NBSP], InitialsChar);
    AllConcat(s[i..i + 2] + [NBSP], s[j..j + 2], InitialsChar);
    AllConcat(s[i..i + 2] + [NBSP] + s[j..j + 2], [NBSP], InitialsChar);
    AllConcat(s[i..i + 2] + [NBSP] + s[j..j + 2] + [NBSP], s[k..e], InitialsChar);
  }

  /** A match of the initials pattern at `i`: two initials `s[i..i + 2]` and `s[j..j + 2]`, each
      followed by white space, and a surname `s[k..i + h.len]`; the replacement keeps the
      initials and the surname and puts one no-break space in place of each white-space run. */
  predicate InitialsHit(s: string, i: nat, j: nat, k: nat, h: Hit) {
    i + 2 < j && j + 2 < k && k + 1 < i + h.len <= |s|
    && IsCyrUpper(s[i]) && s[i + 1] == '.' && All(s[i + 2..j], IsWs)
    && IsCyrUpper(s[j]) && s[j + 1] == '.' && All(s[j + 2..k], IsWs)
    && IsCyrUpper(s[k]) && All(s[k + 1..i + h.len], IsCyrLower)
    && h.out == s[i..i + 2] + [NBSP] + s[j..j + 2] + [NBSP] + s[k..i + h.len]
  }

  lemma InitialsHitOf(s: string, i: nat, j: nat, k: nat, e: nat, h: Hit)
    requires i + 2 < j && j + 2 < k && k + 1 < e <= |s|
    requires IsCyrUpper(s[i]) && s[i + 1] == '.' && IsCyrUpper(s[j]) && s[j + 1] == '.'
    requires forall t :: i + 2 <= t < j ==> IsWs(s[t])
    requires forall t :: j + 2 <= t < k ==> IsWs(s[t])
    requires IsCyrUpper(s[k]) && forall t :: k < t < e ==> IsCyrLower(s[t])
    requires h == Hit(e - i, s[i..i + 2] + [NBSP] + s[j..j + 2] + [NBSP] + s[k..e])
    ensures InitialsHit(s, i, j, k, h) && All(h.out, InitialsChar)
  {
    InitialsOut(s, i, j, k, e);
    AllSlice(s, i + 2, j, IsWs);
    AllSlice(s, j + 2, k, IsWs);
    AllSlice(s, k + 1, e, IsCyrLower);
  }

  /** `/([А-ЯЁ]\.)\s+([А-ЯЁ]\.)\s+([А-ЯЁ][а-яё]+)/g` → `'$1\u00A0$2\u00A0$3'` */
  function InitialsAt(s: string, i: nat): (r: Option<Hit>)
    ensures r.Some? ==> r.value.out != [] && IsCyrUpper(r.value.out[0])
    ensures r.Some? ==> All(r.value.out, InitialsChar)
    ensures r.Some? ==> exists j: nat, k: nat :: InitialsHit(s, i, j, k, r.value)
  {
    if i + 1 < |s| && IsCyrUpper(s[i]) && s[i + 1] == '.' && Ws(s, i + 2) > 0 then
      var j := i + 2 + Ws(s, i + 2);
      if j + 1 < |s| && IsCyrUpper(s[j]) && s[j + 1] == '.' && Ws(s, j + 2) > 0 then
        var k := j + 2 + Ws(s, j + 2);
        if k < |s| && IsCyrUpper(s[k]) && RunLen(s, k + 1, IsCyrLower) > 0 then
          var e := k + 1 + RunLen(s, k + 1, IsCyrLower);
          var h := Hit(e - i, s[i..i + 2] + [NBSP] + s[j..j + 2] + [NBSP] + s[k..e]);
          InitialsHitOf(s, i, j, k, e, h);
          Some(h)
        else None
      else None
    else None
  }

  const Initials: Matcher := InitialsAt

  // ---- applyPunctuation ----

  /** The pattern `^\s*-\s*` with the `g` and `m` flags → em dash + en space. */
  function DialogueDashAt(s: string, i: nat): (r: Option<Hit>)
    ensures r.Some? ==> r.value.out == [EM_DASH, EN_SPACE]
  {
    if i < |s| && LineStart(s, i) && i + Ws(s, i) < |s| && s[i + Ws(s, i)] == '-' then
      var h := i + Ws(s, i);
      Some(Hit(h + 1 + Ws(s, h + 1) - i, [EM_DASH, EN_SPACE]))
    else None
  }

  const DialogueDash: Matcher := DialogueDashAt

  /** `/(\d+)\s*%/g` → `'$1\u2009%'` */
  function PercentAt(s: string, i: nat): Option<Hit> {
    var d := RunLen(s, i, IsDigit);
    if d > 0 && i + d + Ws(s, i + d) < |s| && s[i + d + Ws(s, i + d)] == '%'
    then Some(Hit(d + Ws(s, i + d) + 1, s[i..i + d] + [THIN_SPACE, '%']))
    else None
  }

  const Percent: Matcher := PercentAt

  // ---- applyPoetryRules ----

  /** `/--/g` → `'—'` */
  const DoubleHyphen: Matcher := Literal("--", [EM_DASH])
}
