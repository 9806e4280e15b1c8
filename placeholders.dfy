/** The placeholders of `applyBasicRules`: hyphens and abbreviations are hidden behind
    bracketed tokens (`[[HYPHEN]]`, `[[T_E]]`, ...) while the dash rules run, then restored.
    This module proves that no token survives the restoring chain or any later pass, and that
    restoring undoes the letter-hyphen-letter protection. */
module Placeholders {
  import opened Wrappers
  import opened Chars
  import opened Strings
  import opened Replace
  import opened Patterns

  /** The characters every token is made of. */
  predicate TokenChar(c: char) { c == '[' || c == ']' || c == '_' || IsLatinUpper(c) }

  /** A token: non-empty, made of token characters, starting with '['. */
  predicate TokenShaped(t: string) { t != [] && t[0] == '[' && All(t, TokenChar) }

  /** No placeholder token occurs in `s`. */
  predicate NoPlaceholders(s: string) {
    forall k :: 0 <= k < |Restorations| ==> !Contains(s, Restorations[k].0)
  }

  /** A replacement that cannot create a token: non-empty, starting with a non-token
      character, without '['. */
  predicate SafeText(o: string) { o != [] && !TokenChar(o[0]) && '[' !in o }

  predicate SafeAt(m: Matcher, s: string, j: nat) {
    Fires(m, s, j) ==> SafeText(m(s, j).value.out)
  }

  /** Every match of `m` in `s` is replaced by a safe text. */
  predicate SafeIn(m: Matcher, s: string) {
    forall j :: 0 <= j < |s| ==> SafeAt(m, s, j)
  }

  lemma TokensShaped()
    ensures forall k :: 0 <= k < |Restorations| ==> TokenShaped(Restorations[k].0)
    ensures forall k :: 0 <= k < |Restorations| ==> SafeText(Restorations[k].1)
  {
  }

  /** A pass whose replacements are safe keeps a text free of tokens. */
  lemma SafeKeepsNoPlaceholders(m: Matcher, s: string)
    requires SafeIn(m, s) && NoPlaceholders(s)
    ensures NoPlaceholders(ReplaceAll(m, s))
  {
    TokensShaped();
    assert s[0..] == s;
    forall k | 0 <= k < |Restorations|
      ensures !Contains(ReplaceAll(m, s), Restorations[k].0)
    {
      forall j | 0 <= j < |s| && Fires(m, s, j)
        ensures var o := m(s, j).value.out; o != [] && !TokenChar(o[0]) && Restorations[k].0[0] !in o
      {
        assert SafeAt(m, s, j);
      }
      ScanKeepsAbsent(m, s, 0, Restorations[k].0, TokenChar);
    }
  }

  /** A chain of literal replaces with safe replacements keeps a token absent. */
  lemma {:induction false} ChainKeepsAbsent(ps: seq<(string, string)>, x: string, t: string)
    requires forall k :: 0 <= k < |ps| ==> SafeText(ps[k].1)
    requires TokenShaped(t) && !Contains(x, t)
    ensures !Contains(Chain(Literals(ps), x), t)
    decreases |ps|
  {
    if ps != [] {
      var y := ReplaceAll(Literal(ps[0].0, ps[0].1), x);
      assert x[0..] == x;
      ScanKeepsAbsent(Literal(ps[0].0, ps[0].1), x, 0, t, TokenChar);
      ChainKeepsAbsent(ps[1..], y, t);
      assert Literals(ps)[1..] == Literals(ps[1..]);
    }
  }

  /** A chain of literal replaces with safe replacements leaves none of its token patterns. */
  lemma {:induction false} ChainClears(ps: seq<(string, string)>, x: string, k: nat)
    requires forall j :: 0 <= j < |ps| ==> SafeText(ps[j].1)
    requires k < |ps| && TokenShaped(ps[k].0)
    ensures !Contains(Chain(Literals(ps), x), ps[k].0)
    decreases |ps|
  {
    var y := ReplaceAll(Literal(ps[0].0, ps[0].1), x);
    assert Literals(ps)[1..] == Literals(ps[1..]);
    if k == 0 {
      LiteralClears(ps[0].0, ps[0].1, x, 0, TokenChar);
      ChainKeepsAbsent(ps[1..], y, ps[0].0);
    } else {
      ChainClears(ps[1..], y, k - 1);
    }
  }

  /** The restoring chain (lib/typography.ts:213-221) leaves no token, whatever its input. */
  lemma RestoreClears(x: string)
    ensures NoPlaceholders(Chain(Literals(Restorations), x))
  {
    TokensShaped();
    forall k | 0 <= k < |Restorations|
      ensures !Contains(Chain(Literals(Restorations), x), Restorations[k].0)
    {
      ChainClears(Restorations, x, k);
    }
  }

  // ---- the passes after the restoring chain have safe replacements ----

  lemma EllipsisSafe(s: string) ensures SafeIn(Ellipsis, s) { }

  lemma SpaceBeforePunctSafe(s: string) ensures SafeIn(SpaceBeforePunct, s) { }

  lemma SpaceAfterPunctSafe(isLetter: char -> bool, s: string)
    requires !isLetter('[')
    ensures SafeIn(SpaceAfterPunct(isLetter), s)
  {
  }

  lemma ParensSafe(s: string) ensures SafeIn(OpenParen, s) && SafeIn(CloseParen, s) { }

  /** A chain of passes each safe on every text keeps a text free of tokens. */
  lemma {:induction false} ChainSafe(ms: seq<Matcher>, s: string)
    requires forall k, t :: 0 <= k < |ms| ==> SafeIn(ms[k], t)
    requires NoPlaceholders(s)
    ensures NoPlaceholders(Chain(ms, s))
    decreases |ms|
  {
    if ms != [] {
      SafeKeepsNoPlaceholders(ms[0], s);
      ChainSafe(ms[1..], ReplaceAll(ms[0], s));
    }
  }

  /** A short word followed by a non-breaking space cannot start or hold a token. */
  lemma ShortWordSafe(w: string, s: string)
    requires w != [] && !TokenChar(w[0]) && '[' !in w
    ensures SafeIn(ShortWord(w), s)
  {
    forall j | 0 <= j < |s| ensures SafeAt(ShortWord(w), s, j) {
      assert (w + [NBSP])[0] == w[0];
    }
  }

  lemma ShortWordsSafe()
    ensures forall k, t :: 0 <= k < |ShortWords| ==> SafeIn(ShortWord(ShortWords[k]), t)
  {
    forall k, t | 0 <= k < |ShortWords| ensures SafeIn(ShortWord(ShortWords[k]), t) {
      var w := ShortWords[k];
      assert 'а' <= w[0] <= 'я' && forall j :: 0 <= j < |w| ==> 'а' <= w[j] <= 'я';
      ShortWordSafe(w, t);
    }
  }

  /** A slice none of whose characters is '[' holds no '['. */
  lemma NoBracketSlice(s: string, x: nat, y: nat)
    requires x <= y <= |s| && forall k :: x <= k < y ==> s[k] != '['
    ensures '[' !in s[x..y]
  {
  }

  /** A text all of whose characters pass a test that '[' fails holds no '['. */
  lemma AllNoBracket(o: string, p: char -> bool)
    requires All(o, p) && !p('[')
    ensures '[' !in o
  {
    assert o[0..|o|] == o;
    NoBracketSlice(o, 0, |o|);
  }

  lemma NumberUnitSafeAt(s: string, j: nat)
    requires Fires(NumberUnit, s, j)
    ensures SafeText(NumberUnit(s, j).value.out)
  {
    AllNoBracket(NumberUnitAt(s, j).value.out, QuantityChar);
  }

  lemma NumberUnitSafe(s: string)
    ensures SafeIn(NumberUnit, s)
  {
    forall j | 0 <= j < |s| && Fires(NumberUnit, s, j) ensures SafeText(NumberUnit(s, j).value.out) {
      NumberUnitSafeAt(s, j);
    }
  }

  lemma InitialsSafeAt(s: string, i: nat)
    requires Fires(Initials, s, i)
    ensures SafeText(Initials(s, i).value.out)
  {
    AllNoBracket(InitialsAt(s, i).value.out, InitialsChar);
  }

  lemma InitialsSafe(s: string)
    ensures SafeIn(Initials, s)
  {
    forall i | 0 <= i < |s| && Fires(Initials, s, i) ensures SafeText(Initials(s, i).value.out) {
      InitialsSafeAt(s, i);
    }
  }

  lemma DialogueDashSafe(s: string) ensures SafeIn(DialogueDash, s) { }

  lemma PercentSafe(s: string)
    ensures SafeIn(Percent, s)
  {
    forall i | 0 <= i < |s| && Fires(Percent, s, i) ensures SafeText(Percent(s, i).value.out) {
      var d := RunLen(s, i, IsDigit);
      NoBracketSlice(s, i, i + d);
      assert Percent(s, i).value.out == s[i..i + d] + [THIN_SPACE, '%'];
    }
  }

  // ---- protect and restore ----

  const RestoreHyphen: Matcher := Literal(HYPHEN_TOKEN, "-")

  /** The literal pattern matches where its text occurs. */
  lemma LiteralFires(q: string, r: string, o: string, p: nat)
    requires q != [] && p + |q| <= |o| && o[p..p + |q|] == q
    ensures Fires(Literal(q, r), o, p) && Literal(q, r)(o, p) == Some(Hit(|q|, r))
  {
    assert o[p..][..|q|] == o[p..p + |q|];
  }

  /** The literal pattern does not match where the text from there does not start with it. */
  lemma LiteralMisses(q: string, r: string, o: string, p: nat, x: string)
    requires p <= |o| && o[p..] == x && !IsPrefix(q, x)
    ensures !Fires(Literal(q, r), o, p)
  {
  }

  /** A text placed after `a` sits at positions |a| onwards. */
  lemma Placed(a: string, x: string, rest: string)
    ensures (a + (x + rest))[|a|..] == x + rest
    ensures (a + (x + rest))[|a|..|a| + |x|] == x
    ensures a + (x + rest) == (a + x) + rest
  {
  }

  /** Every protected match starts with the letter it was found at. */
  lemma ProtectHead(s: string, i: nat)
    requires i < |s|
    ensures Scan(LetterHyphen, s, i) != [] && Scan(LetterHyphen, s, i)[0] == s[i]
  {
    ScanHead(LetterHyphen, s, i);
  }

  /** A prefix of the protected text with no '[' after its first character was copied. */
  lemma {:induction false} ProtectPrefix(w: string, s: string, i: nat)
    requires i <= |s| && w != [] && '[' !in w[1..]
    requires IsPrefix(w, Scan(LetterHyphen, s, i))
    ensures IsPrefix(w, s[i..])
    decreases |w|
  {
    if i < |s| {
      var o := Scan(LetterHyphen, s, i);
      if Fires(LetterHyphen, s, i) {
        assert o == [s[i]] + HYPHEN_TOKEN + [s[i + 2]] + Scan(LetterHyphen, s, i + 3);
        assert o[1] == '[';
        assert forall k :: 0 <= k < |w| ==> w[k] == o[k];
        assert s[i..][..1] == [s[i]];
      } else {
        var rest := Scan(LetterHyphen, s, i + 1);
        assert o == [s[i]] + rest;
        if |w| == 1 {
          assert s[i..][..1] == [s[i]];
        } else {
          assert IsPrefix(w[1..], rest) by {
            assert w[1..] == o[1..|w|];
          }
          assert w[1..][1..] == w[2..];
          ProtectPrefix(w[1..], s, i + 1);
          PrefixCons(w, s, i);
        }
      }
    }
  }

  lemma NoTokenSuffix(s: string, i: nat, k: nat)
    requires i + k <= |s| && !Contains(s[i..], HYPHEN_TOKEN)
    ensures !Contains(s[i + k..], HYPHEN_TOKEN)
  {
    assert s[i..][k..] == s[i + k..];
    if Contains(s[i + k..], HYPHEN_TOKEN) {
      ContainsSuffix(s[i..], HYPHEN_TOKEN, k);
    }
  }

  lemma TokenFacts()
    ensures |HYPHEN_TOKEN| == 10 && HYPHEN_TOKEN[0] == '[' && '[' !in HYPHEN_TOKEN[2..]
    ensures HYPHEN_TOKEN[1..] != [] && HYPHEN_TOKEN[1..][1..] == HYPHEN_TOKEN[2..]
  {
  }

  /** A copied character cannot start a token: the rest of the token would have been copied
      too. */
  lemma CopiedPrefix(s: string, i: nat, t: string)
    requires i < |s| && |t| >= 2 && '[' !in t[2..] && t[1..][1..] == t[2..]
    requires IsPrefix(t, [s[i]] + Scan(LetterHyphen, s, i + 1))
    ensures IsPrefix(t, s[i..])
  {
    PrefixSplit(t, s[i], Scan(LetterHyphen, s, i + 1));
    ProtectPrefix(t[1..], s, i + 1);
    PrefixCons(t, s, i);
  }

  lemma PrefixSplit(t: string, c: char, rest: string)
    requires t != [] && IsPrefix(t, [c] + rest)
    ensures t[0] == c && IsPrefix(t[1..], rest)
  {
    assert t[1..] == ([c] + rest)[1..|t|];
  }

  /** Restoring copies a character that cannot start a token. */
  lemma RestoreOne(o: string, p: nat)
    requires p < |o| && o[p] != '['
    ensures Scan(RestoreHyphen, o, p) == [o[p]] + Scan(RestoreHyphen, o, p + 1)
  {
    TokenFacts();
    LiteralMisses(HYPHEN_TOKEN, "-", o, p, o[p..]);
    ScanCopy(RestoreHyphen, o, p);
  }

  /** Restoring turns a token back into '-'. */
  lemma RestoreToken(o: string, p: nat)
    requires p + |HYPHEN_TOKEN| <= |o| && o[p..p + |HYPHEN_TOKEN|] == HYPHEN_TOKEN
    ensures Scan(RestoreHyphen, o, p) == "-" + Scan(RestoreHyphen, o, p + |HYPHEN_TOKEN|)
  {
    TokenFacts();
    LiteralFires(HYPHEN_TOKEN, "-", o, p);
    ScanFire(RestoreHyphen, o, p);
  }

  /** Restoring over a letter, a token and a letter gives letter, '-', letter. */
  lemma RestoreTriple(o: string, p: nat)
    requires p + 12 <= |o| && o[p] != '[' && o[p + 11] != '[' && o[p + 1..p + 11] == HYPHEN_TOKEN
    ensures Scan(RestoreHyphen, o, p) == [o[p], '-', o[p + 11]] + Scan(RestoreHyphen, o, p + 12)
  {
    TokenFacts();
    RestoreOne(o, p);
    RestoreToken(o, p + 1);
    RestoreOne(o, p + 11);
  }

  /** Restoring over a protected match gives back the letter, '-' and letter it replaced. */
  lemma RestorePiece(s: string, i: nat, a: string)
    requires Fires(LetterHyphen, s, i)
    ensures var piece := [s[i]] + HYPHEN_TOKEN + [s[i + 2]];
      Scan(RestoreHyphen, a + Scan(LetterHyphen, s, i), |a|)
      == [s[i], '-', s[i + 2]] + Scan(RestoreHyphen, (a + piece) + Scan(LetterHyphen, s, i + 3), |a + piece|)
  {
    TokenFacts();
    var piece := [s[i]] + HYPHEN_TOKEN + [s[i + 2]];
    var rest := Scan(LetterHyphen, s, i + 3);
    ScanFire(LetterHyphen, s, i);
    assert LetterHyphen(s, i) == Some(Hit(3, piece));
    Placed(a, piece, rest);
    var o := (a + piece) + rest;
    var p := |a|;
    assert o[p..p + 12] == piece;
    assert o[p] == s[i] && o[p + 1..p + 11] == HYPHEN_TOKEN && o[p + 11] == s[i + 2];
    RestoreTriple(o, p);
  }

  /** Restoring over a copied character copies it back, when the input holds no token. */
  lemma RestoreCopied(s: string, i: nat, a: string)
    requires i < |s| && !Fires(LetterHyphen, s, i) && !Contains(s[i..], HYPHEN_TOKEN)
    ensures Scan(RestoreHyphen, a + Scan(LetterHyphen, s, i), |a|)
      == [s[i]] + Scan(RestoreHyphen, (a + [s[i]]) + Scan(LetterHyphen, s, i + 1), |a + [s[i]]|)
  {
    TokenFacts();
    var o := a + Scan(LetterHyphen, s, i);
    var rest := Scan(LetterHyphen, s, i + 1);
    ScanCopy(LetterHyphen, s, i);
    Placed(a, [s[i]], rest);
    var p := |a|;
    if IsPrefix(HYPHEN_TOKEN, [s[i]] + rest) {
      CopiedPrefix(s, i, HYPHEN_TOKEN);
      assert OccursAt(s[i..], HYPHEN_TOKEN, 0);
    }
    LiteralMisses(HYPHEN_TOKEN, "-", o, p, [s[i]] + rest);
    assert o[p] == s[i];
    ScanCopy(RestoreHyphen, o, p);
  }

  lemma JoinPiece(s: string, i: nat, n: nat, w: string)
    requires i + n <= |s| && |w| == n
    requires forall k :: 0 <= k < n ==> w[k] == s[i + k] || (w[k] == '-' && s[i + k] == '-')
    ensures w + s[i + n..] == s[i..]
  {
    assert s[i..] == s[i..i + n] + s[i + n..];
    assert w == s[i..i + n];
  }

  /** Restoring from the position where the protected scan from `i` was placed gives back the
      input from `i`, when the input holds no token. */
  lemma {:induction false} RestoreFrom(s: string, i: nat, a: string)
    requires i <= |s| && !Contains(s[i..], HYPHEN_TOKEN)
    ensures |a| <= |a + Scan(LetterHyphen, s, i)|
    ensures Scan(RestoreHyphen, a + Scan(LetterHyphen, s, i), |a|) == s[i..]
    decreases |s| - i, 1
  {
    if i == |s| {
      assert a + Scan(LetterHyphen, s, i) == a;
    } else if Fires(LetterHyphen, s, i) {
      RestoreFromPiece(s, i, a);
    } else {
      RestoreFromCopied(s, i, a);
    }
  }

  lemma {:induction false} RestoreFromPiece(s: string, i: nat, a: string)
    requires Fires(LetterHyphen, s, i) && !Contains(s[i..], HYPHEN_TOKEN)
    ensures Scan(RestoreHyphen, a + Scan(LetterHyphen, s, i), |a|) == s[i..]
    decreases |s| - i, 0
  {
    var piece := [s[i]] + HYPHEN_TOKEN + [s[i + 2]];
    var w := [s[i], '-', s[i + 2]];
    var rest := Scan(RestoreHyphen, (a + piece) + Scan(LetterHyphen, s, i + 3), |a + piece|);
    assert Scan(RestoreHyphen, a + Scan(LetterHyphen, s, i), |a|) == w + rest by {
      RestorePiece(s, i, a);
    }
    assert rest == s[i + 3..] by {
      NoTokenSuffix(s, i, 3);
      RestoreFrom(s, i + 3, a + piece);
    }
    assert w + s[i + 3..] == s[i..] by {
      JoinPiece(s, i, 3, w);
    }
  }

  lemma {:induction false} RestoreFromCopied(s: string, i: nat, a: string)
    requires i < |s| && !Fires(LetterHyphen, s, i) && !Contains(s[i..], HYPHEN_TOKEN)
    ensures Scan(RestoreHyphen, a + Scan(LetterHyphen, s, i), |a|) == s[i..]
    decreases |s| - i, 0
  {
    RestoreCopied(s, i, a);
    NoTokenSuffix(s, i, 1);
    RestoreFrom(s, i + 1, a + [s[i]]);
    JoinPiece(s, i, 1, [s[i]]);
  }

  /** Round trip: the hyphens `(\p{L})-(\p{L})` protects all come back as '-'. */
  lemma ProtectRestoreRoundTrip(s: string)
    requires !Contains(s, HYPHEN_TOKEN)
    ensures ReplaceAll(RestoreHyphen, ReplaceAll(LetterHyphen, s)) == s
  {
    assert s[0..] == s;
    RestoreFrom(s, 0, []);
    assert [] + ReplaceAll(LetterHyphen, s) == ReplaceAll(LetterHyphen, s);
  }

  // ---- which hyphens the protection reaches ----

  /** A letter, a hyphen and a letter at position `k`: a hyphen left unprotected. */
  predicate BareAt(t: string, k: nat)
    requires k + 2 < |t|
  {
    IsLetter(t[k]) && t[k + 1] == '-' && IsLetter(t[k + 2])
  }

  predicate NoBare(t: string) {
    forall k: nat :: k + 2 < |t| ==> !BareAt(t, k)
  }

  /** A letter-hyphen-letter-hyphen-letter chain at position `k`. */
  predicate ChainAt(s: string, k: nat)
    requires k + 4 < |s|
  {
    IsLetter(s[k]) && s[k + 1] == '-' && IsLetter(s[k + 2]) && s[k + 3] == '-' && IsLetter(s[k + 4])
  }

  predicate NoChain(s: string) {
    forall k: nat :: k + 4 < |s| ==> !ChainAt(s, k)
  }

  /** `c` followed by `t` starts with a letter-hyphen-letter. */
  predicate StartsBare(c: char, t: string) {
    |t| >= 2 && IsLetter(c) && t[0] == '-' && IsLetter(t[1])
  }

  lemma NoBareConcat(piece: string, rest: string)
    requires piece != [] && '-' !in piece[1..] && NoBare(rest)
    requires !StartsBare(piece[|piece| - 1], rest)
    ensures NoBare(piece + rest)
  {
    var u := piece + rest;
    forall k: nat | k + 2 < |u| ensures !BareAt(u, k) {
      if k + 1 < |piece| {
        assert u[k + 1] == piece[1..][k];
      } else if k + 1 == |piece| {
        assert u[k] == piece[|piece| - 1] && u[k + 1] == rest[0] && u[k + 2] == rest[1];
      } else {
        var j := k - |piece|;
        assert u[k] == rest[j] && u[k + 1] == rest[j + 1] && u[k + 2] == rest[j + 2];
        assert !BareAt(rest, j);
      }
    }
  }

  /** The protected text from `i` starts with a hyphen and a letter only when the input does. */
  lemma ProtectStart(s: string, i: nat, c: char)
    requires i < |s|
    requires StartsBare(c, Scan(LetterHyphen, s, i))
    ensures s[i] == '-' && i + 1 < |s| && IsLetter(s[i + 1])
  {
    ProtectHead(s, i);
    assert !Fires(LetterHyphen, s, i);
    ScanCopy(LetterHyphen, s, i);
    if i + 1 < |s| {
      ProtectHead(s, i + 1);
    }
  }

  /** What `(\p{L})-(\p{L})` matches at `i`. */
  lemma LetterHyphenMatch(s: string, i: nat)
    requires Fires(LetterHyphen, s, i)
    ensures i + 2 < |s| && IsLetter(s[i]) && s[i + 1] == '-' && IsLetter(s[i + 2])
    ensures LetterHyphen(s, i) == Some(Hit(3, [s[i]] + HYPHEN_TOKEN + [s[i + 2]]))
  {
  }

  /** The protected piece has no hyphen after its first character and ends with `d`. */
  lemma PieceFacts(c: char, d: char)
    requires d != '-'
    ensures var p := [c] + HYPHEN_TOKEN + [d]; '-' !in p[1..] && p[|p| - 1] == d
  {
    var p := [c] + HYPHEN_TOKEN + [d];
    assert p[1..] == HYPHEN_TOKEN + [d];
  }

  lemma NoChainAt(s: string, i: nat)
    requires NoChain(s) && Fires(LetterHyphen, s, i)
    ensures !(i + 4 < |s| && s[i + 3] == '-' && IsLetter(s[i + 4]))
  {
    LetterHyphenMatch(s, i);
    if i + 4 < |s| {
      assert !ChainAt(s, i);
    }
  }

  lemma NoBareFire(s: string, i: nat)
    requires Fires(LetterHyphen, s, i)
    requires !(i + 4 < |s| && s[i + 3] == '-' && IsLetter(s[i + 4]))
    requires NoBare(Scan(LetterHyphen, s, i + 3))
    ensures NoBare(Scan(LetterHyphen, s, i))
  {
    LetterHyphenMatch(s, i);
    ScanFire(LetterHyphen, s, i);
    PieceFacts(s[i], s[i + 2]);
    var rest := Scan(LetterHyphen, s, i + 3);
    if StartsBare(s[i + 2], rest) {
      ProtectStart(s, i + 3, s[i + 2]);
    }
    NoBareConcat([s[i]] + HYPHEN_TOKEN + [s[i + 2]], rest);
  }

  lemma NoBareCopy(s: string, i: nat)
    requires i < |s| && !Fires(LetterHyphen, s, i)
    requires NoBare(Scan(LetterHyphen, s, i + 1))
    ensures NoBare(Scan(LetterHyphen, s, i))
  {
    ScanCopy(LetterHyphen, s, i);
    var rest := Scan(LetterHyphen, s, i + 1);
    if StartsBare(s[i], rest) {
      ProtectStart(s, i + 1, s[i]);
    }
    NoBareConcat([s[i]], rest);
  }

  lemma {:induction false} NoBareFrom(s: string, i: nat)
    requires i <= |s| && NoChain(s)
    ensures NoBare(Scan(LetterHyphen, s, i))
    decreases |s| - i
  {
    if i < |s| {
      if Fires(LetterHyphen, s, i) {
        NoBareFrom(s, i + 3);
        NoChainAt(s, i);
        NoBareFire(s, i);
      } else {
        NoBareFrom(s, i + 1);
        NoBareCopy(s, i);
      }
    }
  }

  /** In a text without a letter-hyphen-letter-hyphen-letter chain, `(\p{L})-(\p{L})` protects
      every hyphen between two letters: none is left bare. */
  lemma ProtectLeavesNoBare(s: string)
    requires NoChain(s)
    ensures NoBare(ReplaceAll(LetterHyphen, s))
  {
    NoBareFrom(s, 0);
  }

  /** In a chain the matches do not overlap, so the second hyphen of `a-b-c` stays bare. */
  lemma ProtectChainExample()
    ensures ReplaceAll(LetterHyphen, "a-b-c") == "a" + HYPHEN_TOKEN + "b-c"
    ensures !NoBare(ReplaceAll(LetterHyphen, "a-b-c"))
  {
    var s := "a-b-c";
    assert LetterHyphen(s, 0) == Some(Hit(3, "a" + HYPHEN_TOKEN + "b"));
    ScanFire(LetterHyphen, s, 0);
    ScanCopy(LetterHyphen, s, 3);
    ScanCopy(LetterHyphen, s, 4);
    var t := "a" + HYPHEN_TOKEN + "b-c";
    assert t[11] == 'b' && t[12] == '-' && t[13] == 'c';
    assert BareAt(t, 11);
  }
}
