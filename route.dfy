/** The pure helpers of app/api/process/route.ts: `transliterate` and the file-name
    sanitisation built on it, `trimTrailingEmptyParagraphs`, and `parseRuns`, the walk that
    turns the HTML of a paragraph into formatted text runs. The HTML tree and the paragraph
    objects of the docx library are given abstractly. */
module Route {
  import opened Wrappers
  import opened Chars
  import opened Strings

  // ---- transliterate ----

  /** A string of ASCII characters: what every entry of the table is. */
  type AsciiString = s: string | forall k :: 0 <= k < |s| ==> s[k] < '\U{0080}' witness ""

  /** The table of `transliterate`: the Russian letters to Latin, in `UpperEntry` and `LowerEntry`, and punctuation to
      `_`, `-`, `at` or nothing, in `SymbolEntry`. */
  function TranslitEntry(c: char): Option<AsciiString> {
    if IsCyrUpper(c) then Some(UpperEntry(c))
    else if IsCyrLower(c) then Some(LowerEntry(c))
    else SymbolEntry(c)
  }

  function UpperEntry(c: char): AsciiString
    requires IsCyrUpper(c)
  {
    match c
    case 'А' => "A"
    case 'Б' => "B"
    case 'В' => "V"
    case 'Г' => "G"
    case 'Д' => "D"
    case 'Е' => "E"
    case 'Ё' => "E"
    case 'Ж' => "Zh"
    case 'З' => "Z"
    case 'И' => "I"
    case 'Й' => "Y"
    case 'К' => "K"
    case 'Л' => "L"
    case 'М' => "M"
    case 'Н' => "N"
    case 'О' => "O"
    case 'П' => "P"
    case 'Р' => "R"
    case 'С' => "S"
    case 'Т' => "T"
    case 'У' => "U"
    case 'Ф' => "F"
    case 'Х' => "Kh"
    case 'Ц' => "Ts"
    case 'Ч' => "Ch"
    case 'Ш' => "Sh"
    case 'Щ' => "Shch"
    case 'Ъ' => ""
    case 'Ы' => "Y"
    case 'Ь' => ""
    case 'Э' => "E"
    case 'Ю' => "Yu"
    case 'Я' => "Ya"
    case _ => ""
  }

  function LowerEntry(c: char): AsciiString
    requires IsCyrLower(c)
  {
    match c
    case 'а' => "a"
    case 'б' => "b"
    case 'в' => "v"
    case 'г' => "g"
    case 'д' => "d"
    case 'е' => "e"
    case 'ё' => "e"
    case 'ж' => "zh"
    case 'з' => "z"
    case 'и' => "i"
    case 'й' => "y"
    case 'к' => "k"
    case 'л' => "l"
    case 'м' => "m"
    case 'н' => "n"
    case 'о' => "o"
    case 'п' => "p"
    case 'р' => "r"
    case 'с' => "s"
    case 'т' => "t"
    case 'у' => "u"
    case 'ф' => "f"
    case 'х' => "kh"
    case 'ц' => "ts"
    case 'ч' => "ch"
    case 'ш' => "sh"
    case 'щ' => "shch"
    case 'ъ' => ""
    case 'ы' => "y"
    case 'ь' => ""
    case 'э' => "e"
    case 'ю' => "yu"
    case 'я' => "ya"
    case _ => ""
  }

  function SymbolEntry(c: char): Option<AsciiString> {
    match c
    case ' ' => Some("_")
    case '—' => Some("-")
    case '–' => Some("-")
    case ',' => Some("")
    case '.' => Some("")
    case '«' => Some("")
    case '»' => Some("")
    case '(' => Some("")
    case ')' => Some("")
    case '[' => Some("")
    case ']' => Some("")
    case '{' => Some("")
    case '}' => Some("")
    case '/' => Some("-")
    case '\\' => Some("-")
    case '@' => Some("at")
    case '#' => Some("")
    case '$' => Some("")
    case '%' => Some("")
    case '^' => Some("")
    case '&' => Some("")
    case '*' => Some("")
    case '+' => Some("")
    case '=' => Some("")
    case ':' => Some("")
    case ';' => Some("")
    case '?' => Some("")
    case '!' => Some("")
    case '"' => Some("")
    case '\'' => Some("")
    case '<' => Some("")
    case '>' => Some("")
    case '|' => Some("")
    case '`' => Some("")
    case '~' => Some("")
    case _ => None
  }

  /** `map[char] !== undefined ? map[char] : char` */
  function TranslitChar(c: char): string {
    if TranslitEntry(c).Some? then TranslitEntry(c).value else [c]
  }

  /** `transliterate`: every character replaced by its table entry, others kept. */
  function Transliterate(s: string): string {
    if s == [] then [] else TranslitChar(s[0]) + Transliterate(s[1..])
  }

  /** Each character is transliterated on its own, so transliteration distributes over
      concatenation. */
  lemma {:induction false} TransliterateConcat(a: string, b: string)
    ensures Transliterate(a + b) == Transliterate(a) + Transliterate(b)
  {
    if a == [] {
      assert a + b == b;
    } else {
      assert (a + b)[0] == a[0] && (a + b)[1..] == a[1..] + b;
      TransliterateConcat(a[1..], b);
    }
  }

  /** No character of a transliterated character is Russian: a Russian letter has an
      entry, and every entry is ASCII. */
  lemma TranslitCharNoRussian(c: char)
    ensures forall k :: 0 <= k < |TranslitChar(c)| ==> !IsRussian(TranslitChar(c)[k])
  {
  }

  /** No letter of А–Я, а–я, Ё or ё survives transliteration. */
  lemma {:induction false} TransliterateNoRussian(s: string)
    ensures forall k :: 0 <= k < |Transliterate(s)| ==> !IsRussian(Transliterate(s)[k])
  {
    if s != [] {
      TranslitCharNoRussian(s[0]);
      TransliterateNoRussian(s[1..]);
    }
  }

  // ---- the file name of the download ----

  /** `[A-Za-z0-9_-]` */
  predicate IsFileChar(c: char) { IsLatinUpper(c) || IsLatinLower(c) || IsDigit(c) || c == '_' || c == '-' }

  predicate IsTrailChar(c: char) { c == '_' || c == '-' }

  /** `name.replace(/\.docx$/i, '')` */
  function StripDocx(name: string): string {
    if |name| >= 5 && CiAt(name, |name| - 5, ".docx") then name[..|name| - 5] else name
  }

  /** `s.replace(/[^A-Za-z0-9_-]/g, '_')` */
  function ReplaceDisallowed(s: string): (r: string)
    ensures |r| == |s|
    ensures forall k :: 0 <= k < |s| ==> r[k] == (if IsFileChar(s[k]) then s[k] else '_')
  {
    if s == [] then [] else [if IsFileChar(s[0]) then s[0] else '_'] + ReplaceDisallowed(s[1..])
  }

  /** Where the maximal run of `_`/`-` that ends `s` begins: this is where the leftmost
      match of `/[_-]+$/` starts. */
  function TrailStart(s: string): (e: nat)
    ensures e <= |s|
    ensures forall k :: e <= k < |s| ==> IsTrailChar(s[k])
    ensures e > 0 ==> !IsTrailChar(s[e - 1])
  {
    if s != [] && IsTrailChar(s[|s| - 1]) then TrailStart(s[..|s| - 1]) else |s|
  }

  /** `s.replace(/[_-]+$/, '')` */
  function StripTrailing(s: string): string {
    s[..TrailStart(s)]
  }

  /** The file name of the download, built from the uploaded file's name. */
  function SanitizeFileName(name: string): string {
    StripTrailing(ReplaceDisallowed(Transliterate(StripDocx(name))))
  }

  /** The file name holds only `[A-Za-z0-9_-]`, does not end with `_` or `-`, and is what
      the character replacement gives with just a run of `_`/`-` cut off its end. */
  lemma SanitizedShape(name: string)
    ensures var r := SanitizeFileName(name); var full := ReplaceDisallowed(Transliterate(StripDocx(name)));
      All(r, IsFileChar) && (r == [] || !IsTrailChar(r[|r| - 1]))
      && IsPrefix(r, full) && forall k :: |r| <= k < |full| ==> IsTrailChar(full[k])
  {
    var full := ReplaceDisallowed(Transliterate(StripDocx(name)));
    ReplacedFileChars(Transliterate(StripDocx(name)));
    StripShape(full);
  }

  lemma ReplacedFileChars(s: string)
    ensures All(ReplaceDisallowed(s), IsFileChar)
  {
  }

  lemma StripShape(full: string)
    requires All(full, IsFileChar)
    ensures var r := StripTrailing(full);
      All(r, IsFileChar) && (r == [] || !IsTrailChar(r[|r| - 1]))
      && IsPrefix(r, full) && forall k :: |r| <= k < |full| ==> IsTrailChar(full[k])
  {
    var r := StripTrailing(full);
    assert forall k :: 0 <= k < |r| ==> r[k] == full[k];
  }

  /** A file character has no table entry. */
  lemma FileCharKept(c: char)
    requires IsFileChar(c)
    ensures TranslitEntry(c).None?
  {
    assert !IsRussian(c);
  }

  lemma {:induction false} TransliterateKeepsFileChars(s: string)
    requires All(s, IsFileChar)
    ensures Transliterate(s) == s
  {
    if s != [] {
      FileCharKept(s[0]);
      assert All(s[1..], IsFileChar) by {
        forall k | 0 <= k < |s[1..]| ensures IsFileChar(s[1..][k]) { assert s[1..][k] == s[k + 1]; }
      }
      TransliterateKeepsFileChars(s[1..]);
      assert s == [s[0]] + s[1..];
    }
  }

  /** A file character does not fold to '.', so a file name has no `.docx` suffix. */
  lemma FoldFileChar(c: char)
    requires IsFileChar(c)
    ensures Fold(c) != '.'
  {
  }

  lemma NoDocxSuffix(r: string)
    requires All(r, IsFileChar)
    ensures StripDocx(r) == r
  {
    if |r| >= 5 {
      FoldFileChar(r[|r| - 5]);
      assert Fold(r[|r| - 5 + 0]) != Fold(".docx"[0]);
    }
  }

  lemma ReplaceKeepsFileChars(r: string)
    requires All(r, IsFileChar)
    ensures ReplaceDisallowed(r) == r
  {
  }

  lemma StripNoTrail(r: string)
    requires r == [] || !IsTrailChar(r[|r| - 1])
    ensures StripTrailing(r) == r
  {
  }

  /** Sanitising a sanitised name changes nothing. */
  lemma SanitizeIdempotent(name: string)
    ensures SanitizeFileName(SanitizeFileName(name)) == SanitizeFileName(name)
  {
    var r := SanitizeFileName(name);
    SanitizedShape(name);
    NoDocxSuffix(r);
    TransliterateKeepsFileChars(r);
    ReplaceKeepsFileChars(r);
    StripNoTrail(r);
  }

  // ---- trimTrailingEmptyParagraphs ----

  /** `trimTrailingEmptyParagraphs`: drop the run of truly empty paragraphs at the end.
      `isTrulyEmpty` stands for `isTrulyEmptyParagraph`, which inspects the docx library's
      paragraph objects. */
  method TrimTrailingEmptyParagraphs<T(==)>(paragraphs: seq<T>, isTrulyEmpty: T -> bool) returns (r: seq<T>)
    ensures IsSeqPrefix(r, paragraphs)
    ensures forall k :: |r| <= k < |paragraphs| ==> isTrulyEmpty(paragraphs[k])
    ensures r != [] ==> !isTrulyEmpty(r[|r| - 1])
    ensures paragraphs != [] && !isTrulyEmpty(paragraphs[|paragraphs| - 1]) ==> r == paragraphs
    ensures (forall k :: 0 <= k < |paragraphs| ==> isTrulyEmpty(paragraphs[k])) ==> r == []
  {
    var lastNonEmpty: int := |paragraphs| - 1;
    while lastNonEmpty >= 0
      invariant -1 <= lastNonEmpty < |paragraphs|
      invariant forall k :: lastNonEmpty < k < |paragraphs| ==> isTrulyEmpty(paragraphs[k])
      decreases lastNonEmpty + 1
    {
      if !isTrulyEmpty(paragraphs[lastNonEmpty]) {
        break;
      }
      lastNonEmpty := lastNonEmpty - 1;
    }
    r := paragraphs[..lastNonEmpty + 1];
  }

  predicate IsSeqPrefix<T(==)>(p: seq<T>, s: seq<T>) {
    |p| <= |s| && s[..|p|] == p
  }
}
