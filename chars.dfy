/** Character classes used by the regular expressions of the typography engine,
    and the case canonicalisation applied by the `i` flag. */
module Chars {

  const NBSP: char := '\U{00A0}'
  const THIN_SPACE: char := '\U{2009}'
  const EN_SPACE: char := '\U{2002}'
  const EM_DASH: char := '—'
  const EN_DASH: char := '–'
  const ELLIPSIS: char := '…'

  /** JavaScript `\s`, which is also the set `String.prototype.trim` removes:
      the ECMAScript WhiteSpace and LineTerminator code points. */
  predicate IsWs(c: char) {
    c == '\t' || c == '\n' || c == '\U{000B}' || c == '\U{000C}' || c == '\r' || c == ' '
    || c == NBSP || c == '\U{1680}' || ('\U{2000}' <= c <= '\U{200A}')
    || c == '\U{2028}' || c == '\U{2029}' || c == '\U{202F}' || c == '\U{205F}'
    || c == '\U{3000}' || c == '\U{FEFF}'
  }

  /** The class `[ \t\v\f\r]`: whitespace that does not break a line. */
  predicate IsHSpace(c: char) {
    c == ' ' || c == '\t' || c == '\U{000B}' || c == '\U{000C}' || c == '\r'
  }

  /** The characters after which `^` matches in a multiline (`m`) expression. */
  predicate IsLineTerminator(c: char) {
    c == '\n' || c == '\r' || c == '\U{2028}' || c == '\U{2029}'
  }

  /** JavaScript `\d`. */
  predicate IsDigit(c: char) { '0' <= c <= '9' }

  predicate IsLatinUpper(c: char) { 'A' <= c <= 'Z' }
  predicate IsLatinLower(c: char) { 'a' <= c <= 'z' }

  /** JavaScript `\w`, which decides `\b`: ASCII letters, digits and `_` only. */
  predicate IsAsciiWord(c: char) { IsLatinUpper(c) || IsLatinLower(c) || IsDigit(c) || c == '_' }

  /** `[А-ЯЁ]` */
  predicate IsCyrUpper(c: char) { 'А' <= c <= 'Я' || c == 'Ё' }
  /** `[а-яё]` */
  predicate IsCyrLower(c: char) { 'а' <= c <= 'я' || c == 'ё' }
  /** `[А-Яа-яёЁ]`: the Russian alphabet in both cases. */
  predicate IsRussian(c: char) { IsCyrUpper(c) || IsCyrLower(c) }

  /** `\p{L}`, restricted to the scripts this engine is about: ASCII letters, the letters of
      Latin-1 Supplement and Latin Extended-A/B, and the Cyrillic letters of U+0400-U+052F. */
  predicate IsLetter(c: char) {
    IsLatinUpper(c) || IsLatinLower(c)
    || ('\U{00C0}' <= c <= '\U{024F}' && c != '\U{00D7}' && c != '\U{00F7}')
    || ('\U{0400}' <= c <= '\U{0481}') || ('\U{048A}' <= c <= '\U{052F}')
  }

  /** `[,.;:!?]` */
  predicate IsPunct(c: char) { c == ',' || c == '.' || c == ';' || c == ':' || c == '!' || c == '?' }

  /** Case canonicalisation of the `i` flag, for ASCII and for Cyrillic U+0400-U+045F:
      two characters match case-insensitively when their folds are equal. */
  function Fold(c: char): (f: char)
    ensures IsLatinUpper(c) ==> IsLatinLower(f)
    ensures 'А' <= c <= 'Я' ==> 'а' <= f <= 'я'
    ensures !IsLatinUpper(c) && !('\U{0400}' <= c <= '\U{042F}') ==> f == c
  {
    if IsLatinUpper(c) then (c as int + 32) as char
    else if 'А' <= c <= 'Я' then (c as int + 32) as char
    else if '\U{0400}' <= c <= '\U{040F}' then (c as int + 80) as char
    else c
  }
}
