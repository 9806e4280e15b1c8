/** The JavaScript string operations the engine relies on, over `seq<char>`:
    `split`/`join` on one separator character, `trim`, and substring search. */
module Strings {
  import opened Chars

  /** Length of the maximal run of `p`-characters that starts at `i` (0 past the end). */
  function RunLen(s: string, i: nat, p: char -> bool): (n: nat)
    ensures n == 0 || i + n <= |s|
    ensures forall k :: i <= k < i + n ==> p(s[k])
    ensures i + n < |s| ==> !p(s[i + n])
    decreases |s| - i
  {
    if i < |s| && p(s[i]) then 1 + RunLen(s, i + 1, p) else 0
  }

  /** Every character of `s` satisfies `p`. */
  predicate All(s: string, p: char -> bool) {
    forall k :: 0 <= k < |s| ==> p(s[k])
  }

  predicate IsPrefix(p: string, s: string) {
    |p| <= |s| && s[..|p|] == p
  }

  predicate OccursAt(s: string, p: string, j: int) {
    0 <= j && j + |p| <= |s| && s[j..j + |p|] == p
  }

  /** `s.includes(p)` */
  predicate Contains(s: string, p: string) {
    exists j :: 0 <= j <= |s| && OccursAt(s, p, j)
  }

  /** Case-insensitive comparison of `lit` with the characters of `s` from `i` (the `i` flag). */
  predicate CiAt(s: string, i: nat, lit: string) {
    i + |lit| <= |s| && forall k :: 0 <= k < |lit| ==> Fold(s[i + k]) == Fold(lit[k])
  }

  /** Number of occurrences of `c`, i.e. `(s.match(/c/g) || []).length`. */
  function CountChar(s: string, c: char): nat {
    if s == [] then 0 else (if s[0] == c then 1 else 0) + CountChar(s[1..], c)
  }

  /** `s.split(sep)` for a one-character separator. */
  function Split(s: string, sep: char): (r: seq<string>)
    ensures |r| >= 1
    ensures forall k :: 0 <= k < |r| ==> sep !in r[k]
  {
    if s == [] then [[]]
    else
      var rest := Split(s[1..], sep);
      if s[0] == sep then [[]] + rest else [[s[0]] + rest[0]] + rest[1..]
  }

  /** `ls.join(sep)` */
  function Join(ls: seq<string>, sep: char): string {
    if |ls| == 0 then [] else if |ls| == 1 then ls[0] else ls[0] + [sep] + Join(ls[1..], sep)
  }

  /** Index just past the last non-whitespace character (0 when there is none). */
  function TrimEndIndex(s: string): (e: nat)
    ensures e <= |s|
    ensures forall k :: e <= k < |s| ==> IsWs(s[k])
    ensures e > 0 ==> !IsWs(s[e - 1])
  {
    if |s| > 0 && IsWs(s[|s| - 1]) then TrimEndIndex(s[..|s| - 1]) else |s|
  }

  /** `s.trim()` */
  function Trim(s: string): (r: string)
    ensures |r| <= |s|
    ensures r == [] <==> All(s, IsWs)
    ensures r != [] ==> !IsWs(r[0]) && !IsWs(r[|r| - 1])
    ensures forall c :: c in r ==> c in s
  {
    var a := RunLen(s, 0, IsWs);
    if a == |s| then [] else
      var e := TrimEndIndex(s);
      assert !IsWs(s[a]);
      assert a < e;
      s[a..e]
  }

  /** The indentation of a line: its maximal whitespace prefix (what the pattern `^[\s\t]*` matches). */
  function LeadingWs(s: string): (r: string)
    ensures IsPrefix(r, s) && All(r, IsWs)
    ensures |r| < |s| ==> !IsWs(s[|r|])
  {
    s[..RunLen(s, 0, IsWs)]
  }

  // ---- lemmas ----

  lemma {:induction false} JoinCons(x: string, ls: seq<string>, sep: char)
    requires |ls| >= 1
    ensures Join([x + ls[0]] + ls[1..], sep) == x + Join(ls, sep)
  {
    var l := [x + ls[0]] + ls[1..];
    assert l[1..] == ls[1..];
  }

  /** `s.split(sep).join(sep) == s` */
  lemma {:induction false} JoinSplit(s: string, sep: char)
    ensures Join(Split(s, sep), sep) == s
  {
    if s != [] {
      var rest := Split(s[1..], sep);
      JoinSplit(s[1..], sep);
      if s[0] == sep {
        assert ([[]] + rest)[1..] == rest;
      } else {
        JoinCons([s[0]], rest, sep);
      }
      assert s == [s[0]] + s[1..];
    }
  }

  lemma {:induction false} SplitNoSep(a: string, sep: char)
    requires sep !in a
    ensures Split(a, sep) == [a]
  {
    if a != [] {
      assert sep !in a[1..];
      SplitNoSep(a[1..], sep);
      assert a == [a[0]] + a[1..];
    }
  }

  lemma {:induction false} SplitAt(a: string, b: string, sep: char)
    requires sep !in a
    ensures Split(a + [sep] + b, sep) == [a] + Split(b, sep)
  {
    var s := a + [sep] + b;
    if a == [] {
      assert s[1..] == b;
    } else {
      assert s[1..] == a[1..] + [sep] + b;
      assert sep !in a[1..];
      SplitAt(a[1..], b, sep);
      assert a == [a[0]] + a[1..];
    }
  }

  /** Splitting a join of separator-free pieces gives the pieces back. */
  lemma {:induction false} SplitJoin(ls: seq<string>, sep: char)
    requires |ls| >= 1
    requires forall k :: 0 <= k < |ls| ==> sep !in ls[k]
    ensures Split(Join(ls, sep), sep) == ls
  {
    if |ls| == 1 {
      SplitNoSep(ls[0], sep);
    } else {
      SplitJoin(ls[1..], sep);
      SplitAt(ls[0], Join(ls[1..], sep), sep);
      assert ls == [ls[0]] + ls[1..];
    }
  }

  /** A text has one more line than it has separators. */
  lemma {:induction false} SplitCount(s: string, sep: char)
    ensures |Split(s, sep)| == CountChar(s, sep) + 1
  {
    if s != [] { SplitCount(s[1..], sep); }
  }

  lemma {:induction false} CountCharAppend(a: string, b: string, c: char)
    ensures CountChar(a + b, c) == CountChar(a, c) + CountChar(b, c)
  {
    if a != [] {
      assert (a + b)[0] == a[0];
      assert (a + b)[1..] == a[1..] + b;
      CountCharAppend(a[1..], b, c);
    } else {
      assert a + b == b;
    }
  }

  lemma {:induction false} CountCharAbsent(a: string, c: char)
    requires c !in a
    ensures CountChar(a, c) == 0
  {
    if a != [] {
      assert c !in a[1..];
      CountCharAbsent(a[1..], c);
    }
  }

  /** The number of separators in a join of separator-free pieces. */
  lemma {:induction false} CountJoin(ls: seq<string>, sep: char)
    requires |ls| >= 1
    requires forall k :: 0 <= k < |ls| ==> sep !in ls[k]
    ensures CountChar(Join(ls, sep), sep) == |ls| - 1
  {
    SplitJoin(ls, sep);
    SplitCount(Join(ls, sep), sep);
  }

  lemma ContainsSuffix(s: string, p: string, k: nat)
    requires k <= |s|
    requires Contains(s[k..], p)
    ensures Contains(s, p)
  {
    var j :| 0 <= j <= |s[k..]| && OccursAt(s[k..], p, j);
    assert s[k..][j..j + |p|] == s[k + j..k + j + |p|];
    assert OccursAt(s, p, k + j);
  }

  /** An occurrence in `a + b` either lies in `b` or starts inside `a`. */
  lemma ContainsConcat(a: string, b: string, p: string)
    requires Contains(a + b, p)
    ensures Contains(b, p) || exists j :: 0 <= j < |a| && OccursAt(a + b, p, j)
  {
    var j :| 0 <= j <= |a + b| && OccursAt(a + b, p, j);
    if j >= |a| {
      assert (a + b)[j..j + |p|] == b[j - |a|..j - |a| + |p|];
      assert OccursAt(b, p, j - |a|);
    }
  }

  /** A run that reaches the end of the text. */
  lemma {:induction false} RunLenToEnd(s: string, i: nat, p: char -> bool)
    requires i <= |s|
    requires forall k :: i <= k < |s| ==> p(s[k])
    ensures RunLen(s, i, p) == |s| - i
    decreases |s| - i
  {
    if i < |s| { RunLenToEnd(s, i + 1, p); }
  }

  /** Inside a run, the run from a later position is what is left of it. */
  lemma {:induction false} RunLenSuffix(s: string, i: nat, j: nat, p: char -> bool)
    requires i <= j <= i + RunLen(s, i, p)
    ensures RunLen(s, j, p) == RunLen(s, i, p) - (j - i)
    decreases j - i
  {
    if i < j { RunLenSuffix(s, i + 1, j, p); }
  }

  /** A run of exactly `n` characters: `n` of them, then one that is not, or the end. */
  lemma {:induction false} RunLenExact(s: string, i: nat, n: nat, p: char -> bool)
    requires i + n <= |s|
    requires forall k :: i <= k < i + n ==> p(s[k])
    requires i + n == |s| || !p(s[i + n])
    ensures RunLen(s, i, p) == n
    decreases n
  {
    if n > 0 { RunLenExact(s, i + 1, n - 1, p); }
  }

  /** A text with no whitespace at either end is its own trim and has no indentation. */
  lemma TrimNoEdges(s: string)
    requires s != [] && !IsWs(s[0]) && !IsWs(s[|s| - 1])
    ensures Trim(s) == s && LeadingWs(s) == []
  {
    assert RunLen(s, 0, IsWs) == 0;
    assert TrimEndIndex(s) == |s|;
    assert s[0..|s|] == s;
  }

  lemma AllSlice(s: string, x: nat, y: nat, p: char -> bool)
    requires x <= y <= |s| && forall k :: x <= k < y ==> p(s[k])
    ensures All(s[x..y], p)
  {
    forall k | 0 <= k < y - x ensures p(s[x..y][k]) {
      assert s[x..y][k] == s[x + k];
    }
  }

  lemma AllConcat(a: string, b: string, p: char -> bool)
    requires All(a, p) && All(b, p)
    ensures All(a + b, p)
  {
    forall k | 0 <= k < |a + b| ensures p((a + b)[k]) {
      if k >= |a| { assert (a + b)[k] == b[k - |a|]; }
    }
  }

  // ---- generic sequence identities, stated once so that callers need not rediscover them ----

  lemma Assoc<T>(a: seq<T>, b: seq<T>, c: seq<T>)
    ensures a + (b + c) == (a + b) + c
  {
  }

  lemma PrependEmpty<T>(a: seq<T>)
    ensures [] + a == a
  {
  }

  lemma AppendEmpty<T>(a: seq<T>)
    ensures a + [] == a
  {
  }

  lemma AppendHead<T>(a: seq<T>, b: seq<T>)
    requires b != []
    ensures a + [b[0]] + b[1..] == a + b
  {
    assert b == [b[0]] + b[1..];
  }
}
