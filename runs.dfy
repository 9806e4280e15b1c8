/** `parseRuns` of app/api/process/route.ts: the depth-first walk over the HTML of a
    paragraph that turns its text nodes into formatted runs, each element adding to the
    style it passes down. The HTML tree is given as a datatype. */
module Runs {
  import opened Wrappers
  import opened Chars
  import opened Strings


  /** A node of the parsed HTML: an element with its tag name, its `style` attribute and
      its children; a text node; or anything else (a comment, a directive). */
  datatype Node = Tag(name: string, styleAttr: Option<string>, children: seq<Node>) | Text(data: string) | Other

  /** The options `parseRuns` passes to `TextRun` besides the text; an attribute that was
      never set is `false` or `None`. */
  datatype RunStyle = RunStyle(bold: bool, italics: bool, underline: bool, color: Option<string>, size: Option<nat>)

  const NoStyle: RunStyle := RunStyle(false, false, false, None, None)

  datatype Run = Run(text: string, style: RunStyle)

  predicate NotSemicolon(c: char) { c != ';' }

  /** The match of `/color:\s*([^;]+)/i` that starts at `i`, as its captured value. */
  function ColorAt(s: string, i: nat): Option<string> {
    if i <= |s| then ColorMatch(s[i..]) else None
  }

  /** The match at the start of `t`. When no non-`;` character follows the spaces,
      backtracking hands the last space to the group. */
  function ColorMatch(t: string): Option<string> {
    if !CiAt(t, 0, "color:") then None
    else
      var w := RunLen(t, 6, IsWs);
      var v := RunLen(t, 6 + w, NotSemicolon);
      if v > 0 then Some(t[6 + w..6 + w + v])
      else if w > 0 then Some(t[6 + w - 1..6 + w])
      else None
  }

  /** The leftmost match from `i` on. */
  function FirstColor(s: string, i: nat): Option<string>
    decreases |s| - i
  {
    if i > |s| then None
    else if ColorAt(s, i).Some? then ColorAt(s, i)
    else FirstColor(s, i + 1)
  }

  function DigitsValue(ds: string): nat {
    if ds == [] then 0
    else
      var c := ds[|ds| - 1];
      DigitsValue(ds[..|ds| - 1]) * 10 + (if IsDigit(c) then c as int - '0' as int else 0)
  }

  /** The match of `/font-size:\s*(\d+)px/i` that starts at `i`, as `Number` of its group. */
  function SizeAt(s: string, i: nat): Option<nat> {
    if i <= |s| then SizeMatch(s[i..]) else None
  }

  /** The match at the start of `t`. */
  function SizeMatch(t: string): Option<nat> {
    if !CiAt(t, 0, "font-size:") then None
    else
      var w := RunLen(t, 10, IsWs);
      var d := RunLen(t, 10 + w, IsDigit);
      if d > 0 && CiAt(t, 10 + w + d, "px") then Some(DigitsValue(t[10 + w..10 + w + d])) else None
  }

  function FirstSize(s: string, i: nat): Option<nat>
    decreases |s| - i
  {
    if i > |s| then None
    else if SizeAt(s, i).Some? then SizeAt(s, i)
    else FirstSize(s, i + 1)
  }

  /** `s.replace('#', '')`: the first `#` removed. */
  function RemoveFirst(s: string, c: char): string {
    if s == [] then [] else if s[0] == c then s[1..] else [s[0]] + RemoveFirst(s[1..], c)
  }

  /** The style an element gives its content, from the style it inherits. */
  function TagStyle(name: string, styleAttr: Option<string>, parent: RunStyle): RunStyle {
    var s1 := if name == "b" || name == "strong" then parent.(bold := true) else parent;
    var s2 := if name == "i" || name == "em" then s1.(italics := true) else s1;
    var s3 := if name == "u" then s2.(underline := true) else s2;
    if name == "span" && styleAttr.Some? && styleAttr.value != [] then
      var attr := styleAttr.value;
      var c := FirstColor(attr, 0);
      var s4 := if c.Some? then s3.(color := Some(RemoveFirst(c.value, '#'))) else s3;
      var z := FirstSize(attr, 0);
      if z.Some? then s4.(size := Some(2 * z.value)) else s4
    else s3
  }

  /** The runs of one node under the inherited style `style`. */
  function NodeRuns(n: Node, style: RunStyle): seq<Run>
    decreases n, 1
  {
    match n
    case Tag(name, attr, children) => ChildRuns(children, TagStyle(name, attr, style))
    case Text(data) => if Trim(data) != [] then [Run(data, style)] else []
    case Other => []
  }

  /** The runs of a list of sibling nodes, in document order. */
  function ChildRuns(ns: seq<Node>, style: RunStyle): seq<Run>
    decreases ns, 0
  {
    if ns == [] then [] else NodeRuns(ns[0], style) + ChildRuns(ns[1..], style)
  }

  lemma {:induction false} ChildRunsSnoc(ns: seq<Node>, n: Node, style: RunStyle)
    ensures ChildRuns(ns + [n], style) == ChildRuns(ns, style) + NodeRuns(n, style)
    decreases |ns|
  {
    if ns == [] {
      assert ns + [n] == [n];
      assert [n][1..] == [];
    } else {
      assert (ns + [n])[0] == ns[0] && (ns + [n])[1..] == ns[1..] + [n];
      ChildRunsSnoc(ns[1..], n, style);
    }
  }

  /** `parseRuns`: the runs of an element's content, each node in turn, elements by a
      recursive call under the style they give. */
  method ParseRuns(nodes: seq<Node>, parentStyle: RunStyle) returns (runs: seq<Run>)
    ensures runs == ChildRuns(nodes, parentStyle)
    decreases nodes
  {
    runs := [];
    for i := 0 to |nodes|
      invariant runs == ChildRuns(nodes[..i], parentStyle)
    {
      var node := nodes[i];
      var style := parentStyle;
      assert nodes[..i + 1] == nodes[..i] + [node];
      ChildRunsSnoc(nodes[..i], node, parentStyle);
      match node {
        case Tag(name, attr, children) =>
          style := TagStyle(name, attr, style);
          var inner := ParseRuns(children, style);
          runs := runs + inner;
        case Text(data) =>
          if |Trim(data)| > 0 {
            runs := runs + [Run(data, style)];
          }
        case Other =>
      }
    }
    assert nodes[..|nodes|] == nodes;
  }

  // ---- what parseRuns keeps ----

  /** The data of the text nodes with non-whitespace content, in depth-first order. */
  function NodeTexts(n: Node): seq<string>
    decreases n, 1
  {
    match n
    case Tag(_, _, children) => ChildTexts(children)
    case Text(data) => if Trim(data) != [] then [data] else []
    case Other => []
  }

  function ChildTexts(ns: seq<Node>): seq<string>
    decreases ns, 0
  {
    if ns == [] then [] else NodeTexts(ns[0]) + ChildTexts(ns[1..])
  }

  function Texts(runs: seq<Run>): seq<string> {
    seq(|runs|, k requires 0 <= k < |runs| => runs[k].text)
  }

  lemma TextsAppend(a: seq<Run>, b: seq<Run>)
    ensures Texts(a + b) == Texts(a) + Texts(b)
  {
  }

  /** One run per text node with non-whitespace content, holding its data verbatim, in
      document order, whatever the styles. */
  lemma {:induction false} NodeRunsTexts(n: Node, style: RunStyle)
    ensures Texts(NodeRuns(n, style)) == NodeTexts(n)
    decreases n, 1
  {
    match n
    case Tag(name, attr, children) => ChildRunsTexts(children, TagStyle(name, attr, style));
    case Text(data) =>
    case Other =>
  }

  lemma {:induction false} ChildRunsTexts(ns: seq<Node>, style: RunStyle)
    ensures Texts(ChildRuns(ns, style)) == ChildTexts(ns)
    decreases ns, 0
  {
    if ns != [] {
      NodeRunsTexts(ns[0], style);
      ChildRunsTexts(ns[1..], style);
      TextsAppend(NodeRuns(ns[0], style), ChildRuns(ns[1..], style));
    }
  }

  /** `s` keeps every attribute `parent` has set: bold, italics and underline stay on, and
      a color or size, once set, may be replaced but never removed. */
  predicate Inherits(parent: RunStyle, s: RunStyle) {
    (parent.bold ==> s.bold) && (parent.italics ==> s.italics) && (parent.underline ==> s.underline)
    && (parent.color.Some? ==> s.color.Some?) && (parent.size.Some? ==> s.size.Some?)
  }

  /** What an element's tag sets: b/strong bold, i/em italics, u underline, on top of the
      inherited style. */
  lemma TagStyleSets(name: string, styleAttr: Option<string>, parent: RunStyle)
    ensures var s := TagStyle(name, styleAttr, parent);
      Inherits(parent, s)
      && ((name == "b" || name == "strong") ==> s.bold)
      && ((name == "i" || name == "em") ==> s.italics)
      && (name == "u" ==> s.underline)
      && (name != "span" ==> s.color == parent.color && s.size == parent.size)
  {
  }

  /** Every run under a node carries at least the style the node inherits. */
  lemma {:induction false} NodeRunsInherit(n: Node, style: RunStyle)
    ensures forall k :: 0 <= k < |NodeRuns(n, style)| ==> Inherits(style, NodeRuns(n, style)[k].style)
    decreases n, 1
  {
    match n
    case Tag(name, attr, children) =>
      var inner := TagStyle(name, attr, style);
      TagStyleSets(name, attr, style);
      ChildRunsInherit(children, inner);
    case Text(data) =>
    case Other =>
  }

  lemma {:induction false} ChildRunsInherit(ns: seq<Node>, style: RunStyle)
    ensures forall k :: 0 <= k < |ChildRuns(ns, style)| ==> Inherits(style, ChildRuns(ns, style)[k].style)
    decreases ns, 0
  {
    if ns != [] {
      NodeRunsInherit(ns[0], style);
      ChildRunsInherit(ns[1..], style);
    }
  }

  /** Every run under a b/strong element is bold, under i/em in italics, under u underlined. */
  lemma TagRuns(name: string, styleAttr: Option<string>, children: seq<Node>, style: RunStyle)
    ensures var runs := NodeRuns(Tag(name, styleAttr, children), style);
      forall k :: 0 <= k < |runs| ==>
        ((name == "b" || name == "strong") ==> runs[k].style.bold)
        && ((name == "i" || name == "em") ==> runs[k].style.italics)
        && (name == "u" ==> runs[k].style.underline)
  {
    TagStyleSets(name, styleAttr, style);
    ChildRunsInherit(children, TagStyle(name, styleAttr, style));
  }

  /** `p` has no case-insensitive occurrence of `lit`. */
  predicate CiFree(p: string, lit: string) {
    forall i :: 0 <= i && i + |lit| <= |p| ==> !CiAt(p, i, lit)
  }

  /** A literal whose first letter does not recur in it cannot start inside `p` when it starts
      right after `p`: an occurrence straddling the boundary would put that letter at a later
      place of the literal. */
  lemma CiFirstAt(p: string, t: string, lit: string)
    requires lit != [] && CiFree(p, lit) && CiAt(t, 0, lit)
    requires forall m :: 0 < m < |lit| ==> Fold(lit[m]) != Fold(lit[0])
    ensures forall i :: 0 <= i < |p| ==> !CiAt(p + t, i, lit)
  {
    var s := p + t;
    forall i | 0 <= i < |p| ensures !CiAt(s, i, lit) {
      if i + |lit| <= |p| {
        CiAtPrefix(p, t, i, lit);
      } else {
        var m := |p| - i;
        assert s[i + m] == t[0];
        assert Fold(t[0 + 0]) == Fold(lit[0]);
        assert Fold(lit[m]) != Fold(lit[0]);
      }
    }
  }

  /** Inside `p`, the text after it does not matter. */
  lemma CiAtPrefix(p: string, t: string, i: nat, lit: string)
    requires i + |lit| <= |p|
    ensures CiAt(p + t, i, lit) == CiAt(p, i, lit)
  {
    forall k | 0 <= k < |lit|
      ensures Fold((p + t)[i + k]) == Fold(lit[k]) <==> Fold(p[i + k]) == Fold(lit[k])
    {
      assert (p + t)[i + k] == p[i + k];
    }
  }

  /** A literal starts at `i` of `s` exactly when it starts what is left from `i`. */
  lemma CiAtDrop(s: string, i: nat, lit: string)
    requires i <= |s|
    ensures CiAt(s[i..], 0, lit) == CiAt(s, i, lit)
  {
    if i + |lit| <= |s| {
      forall n | 0 <= n < |lit|
        ensures Fold(s[i..][0 + n]) == Fold(lit[n]) <==> Fold(s[i + n]) == Fold(lit[n])
      {
        assert s[i..][0 + n] == s[i + n];
      }
    }
  }

  /** The leftmost size match skips positions where none starts. */
  lemma {:induction false} FirstSizeSkip(s: string, i: nat, e: nat)
    requires i <= e <= |s| && forall j :: i <= j < e ==> !CiAt(s, j, "font-size:")
    ensures FirstSize(s, i) == FirstSize(s, e)
    decreases e - i
  {
    if i < e {
      CiAtDrop(s, i, "font-size:");
      FirstSizeSkip(s, i + 1, e);
    }
  }

  lemma {:induction false} FirstColorSkip(s: string, i: nat, e: nat)
    requires i <= e <= |s| && forall j :: i <= j < e ==> !CiAt(s, j, "color:")
    ensures FirstColor(s, i) == FirstColor(s, e)
    decreases e - i
  {
    if i < e {
      CiAtDrop(s, i, "color:");
      FirstColorSkip(s, i + 1, e);
    }
  }

  lemma SizeLiteralBorderless()
    ensures forall m :: 0 < m < |"font-size:"| ==> Fold("font-size:"[m]) != Fold("font-size:"[0])
  {
    forall m | 0 < m < 10 ensures Fold("font-size:"[m]) != 'f' {
      assert "font-size:"[m] in "ont-size:";
    }
  }

  lemma ColorLiteralBorderless()
    ensures forall m :: 0 < m < |"color:"| ==> Fold("color:"[m]) != Fold("color:"[0])
  {
    forall m | 0 < m < 6 ensures Fold("color:"[m]) != 'c' {
      assert "color:"[m] in "olor:";
    }
  }

  /** A span whose style holds, after a part `p` without `font-size:`, the declaration
      `font-size:`, optional whitespace, a number and `px` gives its children the style size
      twice that number (half-points), whatever style it inherits and whatever follows. */
  lemma SpanFontSize(p: string, w: string, d: string, rest: string, parent: RunStyle)
    requires CiFree(p, "font-size:") && d != [] && All(d, IsDigit) && All(w, IsWs)
    ensures TagStyle("span", Some(p + "font-size:" + w + d + "px" + rest), parent).size
            == Some(2 * DigitsValue(d))
  {
    var t := "font-size:" + w + d + "px" + rest;
    assert p + t == p + "font-size:" + w + d + "px" + rest;
    FirstSizeAfter(p, t, w, d, rest);
  }

  /** The leftmost size match of `p + t` is the one that starts `t`. */
  lemma FirstSizeAfter(p: string, t: string, w: string, d: string, rest: string)
    requires CiFree(p, "font-size:") && d != [] && All(d, IsDigit) && All(w, IsWs)
    requires t == "font-size:" + w + d + "px" + rest
    ensures FirstSize(p + t, 0) == Some(DigitsValue(d))
  {
    var s := p + t;
    SizeAtFound(t, w, d, rest);
    SizeLiteralBorderless();
    CiFirstAt(p, t, "font-size:");
    FirstSizeSkip(s, 0, |p|);
    assert s[|p|..] == t;
    assert FirstSize(s, |p|) == SizeAt(s, |p|);
  }

  lemma SizeAtFound(t: string, w: string, d: string, rest: string)
    requires d != [] && All(d, IsDigit) && All(w, IsWs)
    requires t == "font-size:" + w + d + "px" + rest
    ensures CiAt(t, 0, "font-size:") && SizeMatch(t) == Some(DigitsValue(d))
  {
    SizeRuns(t, w, d, rest);
    SizeMatchOf(t, |w|, d);
  }

  lemma SizeRuns(t: string, w: string, d: string, rest: string)
    requires d != [] && All(d, IsDigit) && All(w, IsWs)
    requires t == "font-size:" + w + d + "px" + rest
    ensures SizePieces(t, |w|, d)
  {
    SizeTextParts(t, w, d, rest);
    RunLenExact(t, 10, |w|, IsWs);
    RunLenExact(t, 10 + |w|, |d|, IsDigit);
  }

  /** The size match at the start of `t`, from where its pieces end. */
  lemma SizeMatchOf(t: string, a: nat, d: string)
    requires SizePieces(t, a, d)
    ensures CiAt(t, 0, "font-size:") && SizeMatch(t) == Some(DigitsValue(d))
  {
  }

  /** `t` opens with `font-size:`, `a` white-space characters, the digits `d` and `px`. */
  predicate SizePieces(t: string, a: nat, d: string) {
    CiAt(t, 0, "font-size:") && RunLen(t, 10, IsWs) == a
    && 0 < |d| && RunLen(t, 10 + a, IsDigit) == |d| && CiAt(t, 10 + a + |d|, "px")
    && t[10 + a..10 + a + |d|] == d
  }

  /** Where the pieces of `font-size:` + `w` + `d` + `px` + `rest` sit. */
  lemma SizeTextParts(t: string, w: string, d: string, rest: string)
    requires d != [] && All(d, IsDigit) && All(w, IsWs)
    requires t == "font-size:" + w + d + "px" + rest
    ensures var j := 10 + |w|; var e := j + |d|;
      |t| == e + 2 + |rest| && CiAt(t, 0, "font-size:") && CiAt(t, e, "px")
      && (forall k :: 10 <= k < j ==> IsWs(t[k])) && !IsWs(t[j])
      && (forall k :: j <= k < e ==> IsDigit(t[k])) && !IsDigit(t[e])
      && t[j..e] == d
  {
    var j := 10 + |w|;
    var e := j + |d|;
    forall k | 0 <= k < 10 ensures t[k] == "font-size:"[k] { }
    forall k | 0 <= k < 2 ensures t[e + k] == "px"[k] { }
    forall k | 10 <= k < j ensures IsWs(t[k]) { assert t[k] == w[k - 10]; }
    forall k | j <= k < e ensures IsDigit(t[k]) { assert t[k] == d[k - j]; }
    assert t[j] == d[0];
    assert t[j..e] == d;
  }

  /** A span styled `font-size: 12px` gives its children size 24 (half-points). */
  lemma SpanFontSizeExample()
    ensures TagStyle("span", Some("font-size: 12px"), NoStyle).size == Some(24)
  {
    SizeExampleParts();
    TwelveValue();
    SpanFontSize([], " ", "12", [], NoStyle);
  }

  lemma SizeExampleParts()
    ensures All(" ", IsWs) && All("12", IsDigit) && CiFree([], "font-size:")
    ensures [] + "font-size:" + " " + "12" + "px" + [] == "font-size: 12px"
  {
  }

  lemma TwelveValue()
    ensures DigitsValue("12") == 12
  {
    assert "12"[..1] == "1";
    assert "1"[..0] == [];
  }

  /** A span whose style holds, after a part `p` without `color:`, the declaration `color:`,
      optional whitespace, then a value that starts with no whitespace and runs to the next
      `;` or the end gives its children that value with its first `#` removed as their color,
      whatever style it inherits. */
  lemma SpanColor(p: string, w: string, v: string, rest: string, parent: RunStyle)
    requires CiFree(p, "color:") && All(w, IsWs) && v != [] && !IsWs(v[0]) && All(v, NotSemicolon)
    requires rest == [] || rest[0] == ';'
    ensures TagStyle("span", Some(p + "color:" + w + v + rest), parent).color == Some(RemoveFirst(v, '#'))
  {
    var t := "color:" + w + v + rest;
    assert p + t == p + "color:" + w + v + rest;
    FirstColorAfter(p, t, w, v, rest);
  }

  /** The leftmost color match of `p + t` is the one that starts `t`. */
  lemma FirstColorAfter(p: string, t: string, w: string, v: string, rest: string)
    requires CiFree(p, "color:") && All(w, IsWs) && v != [] && !IsWs(v[0]) && All(v, NotSemicolon)
    requires rest == [] || rest[0] == ';'
    requires t == "color:" + w + v + rest
    ensures FirstColor(p + t, 0) == Some(v)
  {
    var s := p + t;
    ColorAtFound(t, w, v, rest);
    ColorLiteralBorderless();
    CiFirstAt(p, t, "color:");
    FirstColorSkip(s, 0, |p|);
    assert s[|p|..] == t;
    assert FirstColor(s, |p|) == ColorAt(s, |p|);
  }

  lemma ColorAtFound(t: string, w: string, v: string, rest: string)
    requires All(w, IsWs) && v != [] && !IsWs(v[0]) && All(v, NotSemicolon)
    requires rest == [] || rest[0] == ';'
    requires t == "color:" + w + v + rest
    ensures CiAt(t, 0, "color:") && ColorMatch(t) == Some(v)
  {
    ColorRuns(t, w, v, rest);
    ColorMatchOf(t, |w|, v);
  }

  lemma ColorRuns(t: string, w: string, v: string, rest: string)
    requires All(w, IsWs) && v != [] && !IsWs(v[0]) && All(v, NotSemicolon)
    requires rest == [] || rest[0] == ';'
    requires t == "color:" + w + v + rest
    ensures ColorPieces(t, |w|, v)
  {
    ColorTextParts(t, w, v, rest);
    RunLenExact(t, 6, |w|, IsWs);
    RunLenExact(t, 6 + |w|, |v|, NotSemicolon);
  }

  /** The color match at the start of `t`, from where its pieces end. */
  lemma ColorMatchOf(t: string, a: nat, v: string)
    requires ColorPieces(t, a, v)
    ensures CiAt(t, 0, "color:") && ColorMatch(t) == Some(v)
  {
  }

  /** `t` opens with `color:`, `a` white-space characters and the value `v`, which runs to the
      next `;` or the end. */
  predicate ColorPieces(t: string, a: nat, v: string) {
    CiAt(t, 0, "color:") && RunLen(t, 6, IsWs) == a
    && 0 < |v| && RunLen(t, 6 + a, NotSemicolon) == |v| && t[6 + a..6 + a + |v|] == v
  }

  /** Where the pieces of `color:` + `w` + `v` + `rest` sit. */
  lemma ColorTextParts(t: string, w: string, v: string, rest: string)
    requires All(w, IsWs) && v != [] && !IsWs(v[0]) && All(v, NotSemicolon)
    requires rest == [] || rest[0] == ';'
    requires t == "color:" + w + v + rest
    ensures var j := 6 + |w|; var e := j + |v|;
      e <= |t| && CiAt(t, 0, "color:")
      && (forall k :: 6 <= k < j ==> IsWs(t[k])) && !IsWs(t[j])
      && (forall k :: j <= k < e ==> NotSemicolon(t[k])) && (e == |t| || !NotSemicolon(t[e]))
      && t[j..e] == v
  {
    var j := 6 + |w|;
    var e := j + |v|;
    forall k | 0 <= k < 6 ensures t[k] == "color:"[k] { }
    forall k | 6 <= k < j ensures IsWs(t[k]) { assert t[k] == w[k - 6]; }
    forall k | j <= k < e ensures NotSemicolon(t[k]) { assert t[k] == v[k - j]; }
    assert t[j] == v[0];
    if e < |t| { assert t[e] == rest[0]; }
    assert t[j..e] == v;
  }

  /** A span styled `color: #FF0000` gives its children the color `FF0000`. */
  lemma SpanColorExample()
    ensures TagStyle("span", Some("color: #FF0000"), NoStyle).color == Some("FF0000")
  {
    ColorExampleParts();
    SpanColor([], " ", "#FF0000", [], NoStyle);
  }

  lemma ColorExampleParts()
    ensures All(" ", IsWs) && All("#FF0000", NotSemicolon) && CiFree([], "color:")
    ensures [] + "color:" + " " + "#FF0000" + [] == "color: #FF0000"
    ensures RemoveFirst("#FF0000", '#') == "FF0000"
  {
  }

  /** `color: red; font-size: 12px`: both declarations count, wherever they stand. */
  lemma SpanStyleExample()
    ensures var s := TagStyle("span", Some("color: red; font-size: 12px"), NoStyle);
      s.color == Some("red") && s.size == Some(24)
  {
    StyleExampleParts();
    TwelveValue();
    SpanColor([], " ", "red", "; font-size: 12px", NoStyle);
    StylePrefixFree();
    SpanFontSize("color: red; ", " ", "12", [], NoStyle);
  }

  lemma StyleExampleParts()
    ensures All(" ", IsWs) && All("red", NotSemicolon) && All("12", IsDigit) && CiFree([], "color:")
    ensures [] + "color:" + " " + "red" + "; font-size: 12px" == "color: red; font-size: 12px"
    ensures "color: red; " + "font-size:" + " " + "12" + "px" + [] == "color: red; font-size: 12px"
    ensures RemoveFirst("red", '#') == "red"
  {
    ColorFirstText();
    SizeSecondText();
  }

  lemma ColorFirstText()
    ensures [] + "color:" + " " + "red" + "; font-size: 12px" == "color: red; font-size: 12px"
  {
  }

  lemma SizeSecondText()
    ensures "color: red; " + "font-size:" + " " + "12" + "px" + [] == "color: red; font-size: 12px"
  {
  }

  lemma StylePrefixFree()
    ensures CiFree("color: red; ", "font-size:")
  {
    var p := "color: red; ";
    forall i | 0 <= i && i + 10 <= |p| ensures !CiAt(p, i, "font-size:") {
      assert Fold(p[i + 0]) != Fold("font-size:"[0]);
    }
  }
}
