/** The semantics of JavaScript's `String.prototype.replace`, `match` and `split` with a
    regular expression, for the patterns of this engine (each matches at least one character).
    A pattern is a `Matcher`: what it matches when tried at one position of the subject string.
    The global replace then scans the subject left to right, replaces the leftmost match,
    resumes after it (so matches never overlap) and copies every character not matched. */
module Replace {
  import opened Wrappers
  import opened Strings

  /** A match tried at some position: the number of characters it consumes, and the text it is
      replaced by (for `match`, the captured group). */
  datatype Hit = Hit(len: nat, out: string)

  type Matcher = (string, nat) -> Option<Hit>

  /** The pattern matches a non-empty piece of `s` starting at `i`. */
  predicate Fires(m: Matcher, s: string, i: nat) {
    i < |s| && m(s, i).Some? && 0 < m(s, i).value.len <= |s| - i
  }

  /** The global replace `s.replace(/.../g, ...)`, from position `i` on. */
  function Scan(m: Matcher, s: string, i: nat): string
    requires i <= |s|
    decreases |s| - i
  {
    if i == |s| then []
    else if Fires(m, s, i) then m(s, i).value.out + Scan(m, s, i + m(s, i).value.len)
    else [s[i]] + Scan(m, s, i + 1)
  }

  function ReplaceAll(m: Matcher, s: string): string {
    Scan(m, s, 0)
  }

  /** The number of matches the same scan finds: `(s.match(/.../g) || []).length`. */
  function Hits(m: Matcher, s: string, i: nat): nat
    requires i <= |s|
    decreases |s| - i
  {
    if i == |s| then 0
    else if Fires(m, s, i) then 1 + Hits(m, s, i + m(s, i).value.len)
    else Hits(m, s, i + 1)
  }

  function MatchCount(m: Matcher, s: string): nat {
    Hits(m, s, 0)
  }

  /** The leftmost position from `i` on where the pattern matches. */
  function FirstFire(m: Matcher, s: string, i: nat): (r: Option<nat>)
    requires i <= |s|
    ensures r.Some? ==> i <= r.value < |s| && Fires(m, s, r.value)
    ensures r.Some? ==> forall j :: i <= j < r.value ==> !Fires(m, s, j)
    ensures r.None? ==> forall j :: i <= j < |s| ==> !Fires(m, s, j)
    decreases |s| - i
  {
    if i == |s| then None else if Fires(m, s, i) then Some(i) else FirstFire(m, s, i + 1)
  }

  /** `s.replace(/.../, ...)` without the `g` flag: only the leftmost match is replaced. */
  function ReplaceFirst(m: Matcher, s: string): string {
    match FirstFire(m, s, 0)
    case None => s
    case Some(i) => s[..i] + m(s, i).value.out + s[i + m(s, i).value.len..]
  }

  /** `s.match(/.../)` without the `g` flag: the leftmost match, if any. */
  function FirstMatch(m: Matcher, s: string): Option<Hit> {
    match FirstFire(m, s, 0)
    case None => None
    case Some(i) => m(s, i)
  }

  /** A chained expression `s.replace(r1, ..).replace(r2, ..)...`, applied left to right. */
  function Chain(ms: seq<Matcher>, s: string): string
    decreases |ms|
  {
    if ms == [] then s else Chain(ms[1..], ReplaceAll(ms[0], s))
  }

  /** `p+` or `p{min,}` for a character class `p`, replaced by `out`: matches the maximal run. */
  function RunOfAt(p: char -> bool, min: nat, out: string, s: string, i: nat): Option<Hit> {
    var n := RunLen(s, i, p);
    if n > 0 && n >= min then Some(Hit(n, out)) else None
  }

  function RunOf(p: char -> bool, min: nat, out: string): Matcher {
    (s: string, i: nat) => RunOfAt(p, min, out, s, i)
  }

  /** A literal pattern (`--`, `\[\[HYPHEN\]\]`) replaced by `r`. */
  function LiteralAt(q: string, r: string, s: string, i: nat): Option<Hit> {
    if q != [] && i <= |s| && IsPrefix(q, s[i..]) then Some(Hit(|q|, r)) else None
  }

  function Literal(q: string, r: string): Matcher {
    (s: string, i: nat) => LiteralAt(q, r, s, i)
  }

  // ---- generic facts about the scan ----

  /** The scan keeps a character property when each copied character and each replacement has it. */
  lemma {:induction false} ScanAll(m: Matcher, s: string, i: nat, p: char -> bool)
    requires i <= |s|
    requires forall j :: i <= j < |s| && !Fires(m, s, j) ==> p(s[j])
    requires forall j :: i <= j < |s| && Fires(m, s, j) ==> All(m(s, j).value.out, p)
    ensures All(Scan(m, s, i), p)
    decreases |s| - i
  {
    if i < |s| {
      if Fires(m, s, i) {
        ScanAll(m, s, i + m(s, i).value.len, p);
      } else {
        ScanAll(m, s, i + 1, p);
      }
    }
  }

  /** The match at `j`, if any, replaces a text by one with `d` more `c` characters. */
  predicate AddsCount(m: Matcher, s: string, c: char, d: nat, j: nat) {
    Fires(m, s, j) ==> CountChar(m(s, j).value.out, c) == CountChar(s[j..j + m(s, j).value.len], c) + d
  }

  /** The scan adds `d` characters `c` per match when each replacement adds `d` to the text
      it replaces (`d` = 0: the scan keeps the number of `c`). */
  lemma {:induction false} ScanCount(m: Matcher, s: string, i: nat, c: char, d: nat)
    requires i <= |s|
    requires forall j :: i <= j < |s| ==> AddsCount(m, s, c, d, j)
    ensures CountChar(Scan(m, s, i), c) == CountChar(s[i..], c) + d * Hits(m, s, i)
    decreases |s| - i
  {
    if i < |s| {
      if Fires(m, s, i) {
        assert AddsCount(m, s, c, d, i);
        ScanCount(m, s, i + m(s, i).value.len, c, d);
        CountFireStep(m, s, i, c, d);
      } else {
        ScanCount(m, s, i + 1, c, d);
        CountCopyStep(m, s, i, c, d);
      }
    } else {
      assert s[i..] == [];
    }
  }

  lemma CountFireStep(m: Matcher, s: string, i: nat, c: char, d: nat)
    requires Fires(m, s, i) && AddsCount(m, s, c, d, i)
    requires var n := i + m(s, i).value.len;
      CountChar(Scan(m, s, n), c) == CountChar(s[n..], c) + d * Hits(m, s, n)
    ensures CountChar(Scan(m, s, i), c) == CountChar(s[i..], c) + d * Hits(m, s, i)
  {
    var h := m(s, i).value;
    var k := Hits(m, s, i + h.len);
    ScanFire(m, s, i);
    MulStep(d, k);
    CountSplice(Scan(m, s, i), h.out, Scan(m, s, i + h.len), s, i, i + h.len, c, d, d * k);
  }

  lemma CountCopyStep(m: Matcher, s: string, i: nat, c: char, d: nat)
    requires i < |s| && !Fires(m, s, i)
    requires CountChar(Scan(m, s, i + 1), c) == CountChar(s[i + 1..], c) + d * Hits(m, s, i + 1)
    ensures CountChar(Scan(m, s, i), c) == CountChar(s[i..], c) + d * Hits(m, s, i)
  {
    ScanCopy(m, s, i);
    assert CountChar([s[i]], c) == CountChar(s[i..i + 1], c) by {
      assert s[i..i + 1] == [s[i]];
    }
    CountSplice(Scan(m, s, i), [s[i]], Scan(m, s, i + 1), s, i, i + 1, c, 0, d * Hits(m, s, i + 1));
  }

  lemma MulStep(d: nat, k: nat)
    ensures d * (1 + k) == d + d * k
  {
  }

  /** Counting over a result assembled from a piece and a rest. */
  lemma CountSplice(x: string, piece: string, rest: string, s: string, i: nat, k: nat, c: char,
                    d1: nat, d2: nat)
    requires i <= k <= |s| && x == piece + rest
    requires CountChar(piece, c) == CountChar(s[i..k], c) + d1
    requires CountChar(rest, c) == CountChar(s[k..], c) + d2
    ensures CountChar(x, c) == CountChar(s[i..], c) + d1 + d2
  {
    CountCharAppend(piece, rest, c);
    assert s[i..] == s[i..k] + s[k..];
    CountCharAppend(s[i..k], s[k..], c);
  }

  /** Where nothing matches, the scan copies its input. */
  lemma {:induction false} ScanNoFire(m: Matcher, s: string, i: nat)
    requires i <= |s|
    requires forall j :: i <= j < |s| ==> !Fires(m, s, j)
    ensures Scan(m, s, i) == s[i..]
    decreases |s| - i
  {
    if i < |s| {
      ScanNoFire(m, s, i + 1);
      assert s[i..] == [s[i]] + s[i + 1..];
    }
  }

  /** Where nothing matches, the count does not grow. */
  lemma {:induction false} HitsSkip(m: Matcher, s: string, i: nat, e: nat)
    requires i <= e <= |s|
    requires forall j :: i <= j < e ==> !Fires(m, s, j)
    ensures Hits(m, s, i) == Hits(m, s, e)
    decreases e - i
  {
    if i < e { HitsSkip(m, s, i + 1, e); }
  }

  /** A literal does not match where its first character is missing. */
  lemma LiteralMiss(q: string, r: string, s: string, j: nat)
    requires j < |s| && q != [] && s[j] != q[0]
    ensures !Fires(Literal(q, r), s, j)
  {
    if IsPrefix(q, s[j..]) { assert false; }
  }

  /** If each replacement starts with a character outside `inA`, a prefix of the result made
      of `inA` characters was copied from the input. */
  lemma {:induction false} TransferPrefix(m: Matcher, s: string, i: nat, w: string, inA: char -> bool)
    requires i <= |s|
    requires All(w, inA)
    requires forall j :: i <= j < |s| && Fires(m, s, j) ==>
      m(s, j).value.out != [] && !inA(m(s, j).value.out[0])
    requires IsPrefix(w, Scan(m, s, i))
    ensures IsPrefix(w, s[i..])
    decreases |w|
  {
    if w == [] {
    } else if i == |s| {
    } else if Fires(m, s, i) {
      ScanHead(m, s, i);
    } else {
        var rest := Scan(m, s, i + 1);
        assert Scan(m, s, i) == [s[i]] + rest;
        assert IsPrefix(w[1..], rest) by {
          assert w[1..] == ([s[i]] + rest)[1..|w|];
        }
        TransferPrefix(m, s, i + 1, w[1..], inA);
        PrefixCons(w, s, i);
    }
  }

  /** One step of the scan where the pattern matches. */
  lemma ScanFire(m: Matcher, s: string, i: nat)
    requires Fires(m, s, i)
    ensures Scan(m, s, i) == m(s, i).value.out + Scan(m, s, i + m(s, i).value.len)
  {
  }

  /** One step of the scan where the pattern does not match. */
  lemma ScanCopy(m: Matcher, s: string, i: nat)
    requires i < |s| && !Fires(m, s, i)
    ensures Scan(m, s, i) == [s[i]] + Scan(m, s, i + 1)
  {
  }

  /** The first character of the scan from a position: the first character of the replacement
      when the pattern matches there, the character itself otherwise. */
  lemma ScanHead(m: Matcher, s: string, i: nat)
    requires i < |s|
    ensures Fires(m, s, i) && m(s, i).value.out != [] ==>
      Scan(m, s, i) != [] && Scan(m, s, i)[0] == m(s, i).value.out[0]
    ensures !Fires(m, s, i) ==> Scan(m, s, i) != [] && Scan(m, s, i)[0] == s[i]
  {
  }

  lemma PrefixCons(w: string, s: string, i: nat)
    requires i < |s| && w != [] && w[0] == s[i] && IsPrefix(w[1..], s[i + 1..])
    ensures IsPrefix(w, s[i..]) && OccursAt(s[i..], w, 0)
  {
    assert s[i..][..|w|] == [s[i]] + s[i + 1..][..|w| - 1];
  }

  /** A pattern made of `inA` characters cannot appear in the result when it does not appear
      in the input and each replacement starts outside `inA` and lacks the pattern's first
      character. */
  lemma {:induction false} ScanKeepsAbsent(m: Matcher, s: string, i: nat, p: string, inA: char -> bool)
    requires i <= |s| && p != [] && All(p, inA)
    requires forall j :: i <= j < |s| && Fires(m, s, j) ==>
      m(s, j).value.out != [] && !inA(m(s, j).value.out[0]) && p[0] !in m(s, j).value.out
    requires !Contains(s[i..], p)
    ensures !Contains(Scan(m, s, i), p)
    decreases |s| - i
  {
    if i < |s| {
      var next := if Fires(m, s, i) then i + m(s, i).value.len else i + 1;
      assert s[next..] == s[i..][next - i..];
      if Contains(s[next..], p) {
        ContainsSuffix(s[i..], p, next - i);
      }
      ScanKeepsAbsent(m, s, next, p, inA);
      if IsPrefix(p, s[i..]) {
        assert OccursAt(s[i..], p, 0);
      }
      AbsentStep(m, s, i, p, inA);
    }
  }

  /** One step of the two lemmas around it: the piece placed at `i` cannot start an
      occurrence of `p`, so none is created in front of a rest that has none. */
  lemma AbsentStep(m: Matcher, s: string, i: nat, p: string, inA: char -> bool)
    requires i < |s| && p != [] && All(p, inA)
    requires forall j :: i <= j < |s| && Fires(m, s, j) ==>
      m(s, j).value.out != [] && !inA(m(s, j).value.out[0]) && p[0] !in m(s, j).value.out
    requires !Fires(m, s, i) ==> !IsPrefix(p, s[i..])
    requires !Contains(Scan(m, s, if Fires(m, s, i) then i + m(s, i).value.len else i + 1), p)
    ensures !Contains(Scan(m, s, i), p)
  {
    var next := if Fires(m, s, i) then i + m(s, i).value.len else i + 1;
    var piece := if Fires(m, s, i) then m(s, i).value.out else [s[i]];
    var rest := Scan(m, s, next);
    assert Scan(m, s, i) == piece + rest;
    if Contains(piece + rest, p) {
      ContainsConcat(piece, rest, p);
      var j :| 0 <= j < |piece| && OccursAt(piece + rest, p, j);
      assert (piece + rest)[j] == p[0];
      if !Fires(m, s, i) {
        assert IsPrefix(p[1..], rest) by {
          assert p[1..] == (piece + rest)[1..|p|];
        }
        TransferPrefix(m, s, i + 1, p[1..], inA);
        PrefixCons(p, s, i);
      }
    }
  }

  /** After replacing every occurrence of `q` by a text that starts outside `inA` and lacks
      `q`'s first character, no occurrence of `q` is left. */
  lemma {:induction false} LiteralClears(q: string, r: string, s: string, i: nat, inA: char -> bool)
    requires i <= |s| && q != [] && All(q, inA)
    requires r != [] && !inA(r[0]) && q[0] !in r
    ensures !Contains(Scan(Literal(q, r), s, i), q)
    decreases |s| - i
  {
    if i < |s| {
      var m := Literal(q, r);
      LiteralOutputs(q, r, s, i, inA);
      if Fires(m, s, i) {
        LiteralClears(q, r, s, i + |q|, inA);
      } else {
        LiteralClears(q, r, s, i + 1, inA);
      }
      AbsentStep(m, s, i, q, inA);
    }
  }

  lemma LiteralOutputs(q: string, r: string, s: string, i: nat, inA: char -> bool)
    requires q != [] && r != [] && !inA(r[0]) && q[0] !in r
    ensures forall j :: i <= j < |s| && Fires(Literal(q, r), s, j) ==>
      Literal(q, r)(s, j).value.out != [] && !inA(Literal(q, r)(s, j).value.out[0])
      && q[0] !in Literal(q, r)(s, j).value.out
    ensures Fires(Literal(q, r), s, i) ==> Literal(q, r)(s, i).value.len == |q|
    ensures i < |s| && !Fires(Literal(q, r), s, i) ==> !IsPrefix(q, s[i..])
  {
  }

  /** Extending a chain by one more replace applies it to the chain's result. */
  lemma {:induction false} ChainSnoc(ms: seq<Matcher>, m: Matcher, s: string)
    ensures Chain(ms + [m], s) == ReplaceAll(m, Chain(ms, s))
    decreases |ms|
  {
    if ms == [] {
      assert [] + [m] == [m];
    } else {
      assert (ms + [m])[1..] == ms[1..] + [m];
      ChainSnoc(ms[1..], m, ReplaceAll(ms[0], s));
    }
  }

  /** Where nothing matches between `i` and `e`, the scan copies that stretch. */
  lemma {:induction false} ScanCopyRange(m: Matcher, s: string, i: nat, e: nat)
    requires i <= e <= |s|
    requires forall j :: i <= j < e ==> !Fires(m, s, j)
    ensures Scan(m, s, i) == s[i..e] + Scan(m, s, e)
    decreases e - i
  {
    if i < e {
      ScanCopy(m, s, i);
      ScanCopyRange(m, s, i + 1, e);
      assert s[i..e] == [s[i]] + s[i + 1..e];
      Assoc([s[i]], s[i + 1..e], Scan(m, s, e));
    }
  }
}
