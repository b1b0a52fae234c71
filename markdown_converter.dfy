/**
 * The minimal markdown-to-HTML converter of src/utils/markdownConverter.js: a fixed chain
 * of regular-expression replacements followed by a paragraph split.  Each replacement is a
 * function on strings that scans the text the way JavaScript's regular-expression engine
 * does (leftmost match, lazy or greedy quantifiers, `^`/`$` at line boundaries under the
 * `m` flag, `.` refusing line terminators unless the `s` flag is set).
 */
module MarkdownConverter {
  import opened Text

  // ---------------------------------------------------------------------------
  // Character classes of JavaScript regular expressions

  /** The characters `.` refuses and `^`/`$` treat as line boundaries under the `m` flag. */
  predicate IsLineTerminator(c: char) {
    c == '\n' || c == '\r' || c == '\U{2028}' || c == '\U{2029}'
  }

  /** The class `\s`, which is also what `String.prototype.trim` strips. */
  predicate IsJsSpace(c: char) {
    c == '\t' || c == '\n' || c == '\U{B}' || c == '\U{C}' || c == '\r' || c == ' '
    || c == '\U{A0}' || c == '\U{1680}' || ('\U{2000}' <= c <= '\U{200A}')
    || c == '\U{2028}' || c == '\U{2029}' || c == '\U{202F}' || c == '\U{205F}'
    || c == '\U{3000}' || c == '\U{FEFF}'
  }

  /** No line terminator in `s[j..k]`. */
  predicate LineClear(s: string, j: nat, k: nat)
    requires j <= k <= |s|
  {
    forall t :: j <= t < k ==> !IsLineTerminator(s[t])
  }

  predicate SingleLine(s: string) {
    forall i :: 0 <= i < |s| ==> !IsLineTerminator(s[i])
  }

  predicate Lacks(s: string, c: char) {
    forall i :: 0 <= i < |s| ==> s[i] != c
  }

  // ---------------------------------------------------------------------------
  // Line structure: `^` and `$` under the `m` flag

  /** Index of the first line terminator of `s`, or `|s|` when there is none. */
  function LineEnd(s: string): (k: nat)
    ensures k <= |s|
    ensures forall i :: 0 <= i < k ==> !IsLineTerminator(s[i])
    ensures k < |s| ==> IsLineTerminator(s[k])
  {
    if s == [] || IsLineTerminator(s[0]) then 0 else 1 + LineEnd(s[1..])
  }

  /** The lines of `s`: the text between line terminators, each terminator on its own. */
  function LinesOf(s: string): (ls: seq<string>)
    decreases |s|
  {
    var k := LineEnd(s);
    if k == |s| then [s] else [s[..k]] + LinesOf(s[k + 1..])
  }

  /** The line terminators of `s`, in order, each as a one-character string. */
  function BreaksOf(s: string): (bs: seq<string>)
    decreases |s|
  {
    var k := LineEnd(s);
    if k == |s| then [] else [[s[k]]] + BreaksOf(s[k + 1..])
  }

  /** Cutting a text into lines loses nothing: the lines, put back between the breaks, are the text. */
  lemma {:induction false} LinesReassemble(s: string)
    ensures |LinesOf(s)| == |BreaksOf(s)| + 1
    ensures Interleave(LinesOf(s), BreaksOf(s)) == s
    ensures forall i :: 0 <= i < |LinesOf(s)| ==> SingleLine(LinesOf(s)[i])
    decreases |s|
  {
    var k := LineEnd(s);
    if k < |s| {
      var rest := s[k + 1..];
      LinesReassemble(rest);
      LinesStep(s);
      InterleaveCons(s[..k], [s[k]], LinesOf(rest), BreaksOf(rest));
      SplitAround(s, k);
      SingleLinesCons(s[..k], LinesOf(rest));
    }
  }

  /** One step of cutting into lines: the first line and its terminator, then the rest. */
  lemma {:induction false} LinesStep(s: string)
    requires LineEnd(s) < |s|
    ensures var k := LineEnd(s);
      && LinesOf(s) == [s[..k]] + LinesOf(s[k + 1..])
      && BreaksOf(s) == [[s[k]]] + BreaksOf(s[k + 1..])
      && SingleLine(s[..k])
  {
    var k := LineEnd(s);
    LinesOfStep(s, k);
    BreaksOfStep(s, k);
    FirstLineSingle(s, k);
  }

  lemma {:induction false} LinesOfStep(s: string, k: nat)
    requires k == LineEnd(s) && k < |s|
    ensures LinesOf(s) == [s[..k]] + LinesOf(s[k + 1..])
  {
  }

  lemma {:induction false} BreaksOfStep(s: string, k: nat)
    requires k == LineEnd(s) && k < |s|
    ensures BreaksOf(s) == [[s[k]]] + BreaksOf(s[k + 1..])
  {
  }

  lemma {:induction false} FirstLineSingle(s: string, k: nat)
    requires k == LineEnd(s)
    ensures SingleLine(s[..k])
  {
    forall i | 0 <= i < k ensures !IsLineTerminator(s[..k][i]) {
      assert s[..k][i] == s[i];
    }
  }

  lemma {:induction false} InterleaveCons(p: string, b: string, ps: seq<string>, bs: seq<string>)
    requires |ps| == |bs| + 1
    ensures Interleave([p] + ps, [b] + bs) == p + b + Interleave(ps, bs)
  {
    assert ([p] + ps)[1..] == ps && ([b] + bs)[1..] == bs;
  }

  lemma {:induction false} SingleLinesCons(p: string, ps: seq<string>)
    requires SingleLine(p) && forall i :: 0 <= i < |ps| ==> SingleLine(ps[i])
    ensures forall i :: 0 <= i < |[p] + ps| ==> SingleLine(([p] + ps)[i])
  {
  }

  /** One `^marker(.*$)` replacement applied to a single line. */
  function RewriteLine(line: string, marker: string, open: string, close: string): string {
    if marker <= line then open + line[|marker|..] + close else line
  }

  function RewriteEach(lines: seq<string>, marker: string, open: string, close: string): (r: seq<string>)
    ensures |r| == |lines|
  {
    if lines == [] then [] else [RewriteLine(lines[0], marker, open, close)] + RewriteEach(lines[1..], marker, open, close)
  }

  /** `s.replace(/^marker(.*$)/gm, open + '$1' + close)`: the rule applied to every line of `s`. */
  function RewriteLines(s: string, marker: string, open: string, close: string): string
    decreases |s|
  {
    var k := LineEnd(s);
    if k == |s| then RewriteLine(s, marker, open, close)
    else RewriteLine(s[..k], marker, open, close) + [s[k]] + RewriteLines(s[k + 1..], marker, open, close)
  }

  /**
   * A line rule works line by line: the lines of the result are the rewritten lines of the
   * input, and the line terminators stay where they were.
   */
  lemma {:induction false} RewriteLinesByLine(s: string, marker: string, open: string, close: string)
    requires SingleLine(open) && SingleLine(close)
    ensures BreaksOf(RewriteLines(s, marker, open, close)) == BreaksOf(s)
    ensures LinesOf(RewriteLines(s, marker, open, close)) == RewriteEach(LinesOf(s), marker, open, close)
    decreases |s|
  {
    var k := LineEnd(s);
    var r := RewriteLines(s, marker, open, close);
    if k == |s| {
      RewritePreservesSingleLine(s, marker, open, close);
      SingleLineEnd(r);
    } else {
      var head := RewriteLine(s[..k], marker, open, close);
      var rest := s[k + 1..];
      RewritePreservesSingleLine(s[..k], marker, open, close);
      RewriteLinesByLine(rest, marker, open, close);
      var rr := RewriteLines(rest, marker, open, close);
      assert r == head + [s[k]] + rr;
      LineEndAfter(head, s[k], rr);
      assert r[|head| + 1..] == rr;
      assert r[..|head|] == head;
      assert LinesOf(s) == [s[..k]] + LinesOf(rest);
    }
  }

  lemma {:induction false} RewritePreservesSingleLine(line: string, marker: string, open: string, close: string)
    requires SingleLine(line) && SingleLine(open) && SingleLine(close)
    ensures SingleLine(RewriteLine(line, marker, open, close))
  {
  }

  lemma {:induction false} SingleLineEnd(s: string)
    requires SingleLine(s)
    ensures LineEnd(s) == |s|
    decreases |s|
  {
    if s != [] {
      SingleLineEnd(s[1..]);
    }
  }

  lemma {:induction false} LineEndAfter(head: string, t: char, rest: string)
    requires SingleLine(head) && IsLineTerminator(t)
    ensures LineEnd(head + [t] + rest) == |head|
  {
    var s := head + [t] + rest;
    var k := LineEnd(s);
    assert forall i :: 0 <= i < |head| ==> s[i] == head[i];
    assert s[|head|] == t;
  }

  /** A rule whose marker starts with a character that does not occur changes nothing. */
  lemma {:induction false} RewriteLinesAbsent(s: string, marker: string, open: string, close: string)
    requires marker != [] && Lacks(s, marker[0])
    ensures RewriteLines(s, marker, open, close) == s
    decreases |s|
  {
    var k := LineEnd(s);
    var line := s[..k];
    assert line == [] || line[0] == s[0];
    RewriteLineAbsent(line, marker, open, close);
    if k < |s| {
      var rest := s[k + 1..];
      LacksSuffix(s, marker[0], k + 1);
      RewriteLinesAbsent(rest, marker, open, close);
      RewriteLinesUnfold(s, marker, open, close);
      SplitAround(s, k);
    } else {
      assert line == s;
      assert RewriteLines(s, marker, open, close) == RewriteLine(line, marker, open, close);
    }
  }

  lemma {:induction false} LacksSuffix(s: string, c: char, j: nat)
    requires Lacks(s, c) && j <= |s|
    ensures Lacks(s[j..], c)
  {
    assert forall i :: 0 <= i < |s| - j ==> s[j..][i] == s[j + i];
  }

  /** One step of the line rule: the first line, its terminator, then the rest. */
  lemma {:induction false} RewriteLinesUnfold(s: string, marker: string, open: string, close: string)
    requires LineEnd(s) < |s|
    ensures var k := LineEnd(s);
      RewriteLines(s, marker, open, close)
        == RewriteLine(s[..k], marker, open, close) + [s[k]] + RewriteLines(s[k + 1..], marker, open, close)
  {
  }

  /** A text is its part before `k`, the character at `k`, and the part after it. */
  lemma {:induction false} SplitAround(s: string, k: nat)
    requires k < |s|
    ensures s == s[..k] + [s[k]] + s[k + 1..]
  {
  }

  lemma {:induction false} RewriteLineAbsent(line: string, marker: string, open: string, close: string)
    requires marker != [] && (line == [] || line[0] != marker[0])
    ensures RewriteLine(line, marker, open, close) == line
  {
    if line != [] {
      assert !(marker <= line);
    }
  }

  lemma {:induction false} RewriteLinesOneLine(s: string, marker: string, open: string, close: string)
    requires SingleLine(s)
    ensures RewriteLines(s, marker, open, close) == RewriteLine(s, marker, open, close)
  {
    SingleLineEnd(s);
  }

  // ---------------------------------------------------------------------------
  // Headers: /^# (.*$)/gm, /^## (.*$)/gm, /^### (.*$)/gm, in that order

  function Headers(s: string): string {
    var h1 := RewriteLines(s, "# ", "<h1>", "</h1>");
    var h2 := RewriteLines(h1, "## ", "<h2>", "</h2>");
    RewriteLines(h2, "### ", "<h3>", "</h3>")
  }

  /** The three header rules on a single line. */
  lemma {:induction false} HeadersOneLine(line: string)
    requires SingleLine(line)
    ensures var h1 := RewriteLine(line, "# ", "<h1>", "</h1>");
            var h2 := RewriteLine(h1, "## ", "<h2>", "</h2>");
            Headers(line) == RewriteLine(h2, "### ", "<h3>", "</h3>")
  {
    var h1 := RewriteLine(line, "# ", "<h1>", "</h1>");
    var h2 := RewriteLine(h1, "## ", "<h2>", "</h2>");
    RewriteLinesOneLine(line, "# ", "<h1>", "</h1>");
    RewritePreservesSingleLine(line, "# ", "<h1>", "</h1>");
    RewriteLinesOneLine(h1, "## ", "<h2>", "</h2>");
    RewritePreservesSingleLine(h1, "## ", "<h2>", "</h2>");
    RewriteLinesOneLine(h2, "### ", "<h3>", "</h3>");
  }

  /** A line that starts with the marker is rewritten to the tagged rest of the line. */
  lemma {:induction false} RewriteLineHit(marker: string, t: string, open: string, close: string)
    ensures RewriteLine(marker + t, marker, open, close) == open + t + close
  {
    assert (marker + t)[|marker|..] == t;
  }

  /** A line that differs from the marker at position `i` is left alone. */
  lemma {:induction false} RewriteLineMiss(line: string, marker: string, i: nat, open: string, close: string)
    requires i < |marker| && i < |line| && line[i] != marker[i]
    ensures RewriteLine(line, marker, open, close) == line
  {
  }

  /** A line `# T` becomes `<h1>T</h1>`. */
  lemma {:induction false} HeaderLevelOne(t: string)
    requires SingleLine(t)
    ensures Headers("# " + t) == "<h1>" + t + "</h1>"
  {
    var line := "# " + t;
    HeadersOneLine(line);
    RewriteLineHit("# ", t, "<h1>", "</h1>");
    var h1 := "<h1>" + t + "</h1>";
    assert h1[0] == '<';
    RewriteLineMiss(h1, "## ", 0, "<h2>", "</h2>");
    RewriteLineMiss(h1, "### ", 0, "<h3>", "</h3>");
  }

  /**
   * A line `## T` becomes `<h2>T</h2>`: the level-one rule needs a space right after a single
   * `#`, so it never turns a `##` line into `<h1>`.
   */
  lemma {:induction false} HeaderLevelTwo(t: string)
    requires SingleLine(t)
    ensures Headers("## " + t) == "<h2>" + t + "</h2>"
  {
    var line := "## " + t;
    HeadersOneLine(line);
    assert line[1] == '#';
    RewriteLineMiss(line, "# ", 1, "<h1>", "</h1>");
    RewriteLineHit("## ", t, "<h2>", "</h2>");
    var h2 := "<h2>" + t + "</h2>";
    assert h2[0] == '<';
    RewriteLineMiss(h2, "### ", 0, "<h3>", "</h3>");
  }

  /** A line `### T` becomes `<h3>T</h3>`, untouched by the two shorter rules. */
  lemma {:induction false} HeaderLevelThree(t: string)
    requires SingleLine(t)
    ensures Headers("### " + t) == "<h3>" + t + "</h3>"
  {
    var line := "### " + t;
    assert line[1] == '#';
    RewriteLineMiss(line, "# ", 1, "<h1>", "</h1>");
    assert line[2] == '#';
    RewriteLineMiss(line, "## ", 2, "<h2>", "</h2>");
    RewriteLineHit("### ", t, "<h3>", "</h3>");
    HeadersOneLine(line);
  }

  // ---------------------------------------------------------------------------
  // Matching inside suffixes

  /** A match in a suffix is a match in the whole text, shifted. */
  lemma {:induction false} StartsAtDrop(s: string, n: nat, pat: string)
    requires n <= |s|
    ensures forall k :: 0 <= k <= |s| - n ==> (StartsAt(s[n..], k, pat) <==> StartsAt(s, n + k, pat))
  {
    forall k | 0 <= k <= |s| - n ensures StartsAt(s[n..], k, pat) <==> StartsAt(s, n + k, pat) {
      assert s[n..][k..] == s[n + k..];
    }
  }

  // ---------------------------------------------------------------------------
  // Bold and italic: /\*\*(.*?)\*\*/g then /\*(.*?)\*/g

  /**
   * The leftmost `k >= j` at which `pat` starts without a line terminator in `s[j..k]`:
   * where a lazy `(.*?)` followed by `pat` stops.
   */
  function FindOnLine(s: string, j: nat, pat: string): (r: Option<nat>)
    requires j <= |s|
    decreases |s| - j
    ensures r.Some? ==> j <= r.value <= |s| && StartsAt(s, r.value, pat) && LineClear(s, j, r.value)
    ensures r.Some? ==> forall k :: j <= k < r.value ==> !StartsAt(s, k, pat)
    ensures r.None? ==> forall k :: j <= k <= |s| && StartsAt(s, k, pat) ==> !LineClear(s, j, k)
  {
    if StartsAt(s, j, pat) then Some(j)
    else if j < |s| && !IsLineTerminator(s[j]) then FindOnLine(s, j + 1, pat)
    else None
  }

  /** The leftmost match on the line is the first occurrence, when there is nothing before it. */
  lemma {:induction false} FindOnLineAt(s: string, j: nat, m: nat, pat: string)
    requires j <= m <= |s| && StartsAt(s, m, pat) && LineClear(s, j, m)
    requires forall k :: j <= k < m ==> !StartsAt(s, k, pat)
    ensures FindOnLine(s, j, pat) == Some(m)
  {
    var f := FindOnLine(s, j, pat);
  }

  /** `s.replace(/D(.*?)D/g, open + '$1' + close)` for a delimiter `D`. */
  function PairRule(s: string, delim: string, open: string, close: string): string
    requires delim != []
    decreases |s|
  {
    if s == [] then []
    else if delim <= s then
      match FindOnLine(s, |delim|, delim)
      case Some(k) => open + s[|delim|..k] + close + PairRule(s[k + |delim|..], delim, open, close)
      case None => [s[0]] + PairRule(s[1..], delim, open, close)
    else [s[0]] + PairRule(s[1..], delim, open, close)
  }

  function Strong(s: string): string {
    PairRule(s, "**", "<strong>", "</strong>")
  }

  function Emphasis(s: string): string {
    PairRule(s, "*", "<em>", "</em>")
  }

  /** A text without the delimiter's first character comes through a pair rule unchanged. */
  lemma {:induction false} PairRuleAbsent(s: string, delim: string, open: string, close: string)
    requires delim != [] && Lacks(s, delim[0])
    ensures PairRule(s, delim, open, close) == s
    decreases |s|
  {
    if s != [] {
      assert s[0] != delim[0];
      assert !(delim <= s);
      PairRuleAbsent(s[1..], delim, open, close);
    }
  }

  /**
   * A complete bold pair on one line becomes `<strong>`; since bold is rewritten before
   * italic, its stars are gone by the time the italic rule runs and no `<em>` appears.
   */
  lemma {:induction false} BoldBeforeItalic(x: string)
    requires SingleLine(x) && Lacks(x, '*')
    ensures Emphasis(Strong("**" + x + "**")) == "<strong>" + x + "</strong>"
  {
    StrongOfBold(x);
    var r := "<strong>" + x + "</strong>";
    forall i | 0 <= i < |r| ensures r[i] != '*' {
      if 8 <= i < 8 + |x| {
        assert r[i] == x[i - 8];
      }
    }
    PairRuleAbsent(r, "*", "<em>", "</em>");
  }

  /** The bold rule turns a whole `**x**` line into `<strong>x</strong>`. */
  lemma {:induction false} StrongOfBold(x: string)
    requires SingleLine(x) && Lacks(x, '*')
    ensures Strong("**" + x + "**") == "<strong>" + x + "</strong>"
  {
    var s := "**" + x + "**";
    var k := |x| + 2;
    assert s[k..] == "**";
    forall i | 2 <= i < k
      ensures !StartsAt(s, i, "**") && !IsLineTerminator(s[i])
    {
      assert s[i] == x[i - 2];
      assert s[i..][0] == s[i];
    }
    FindOnLineAt(s, 2, k, "**");
    assert s[2..k] == x;
    assert s[k + 2..] == [];
    assert "**" <= s;
    var r := "<strong>" + x + "</strong>";
    assert PairRule(s[k + 2..], "**", "<strong>", "</strong>") == [];
    assert Strong(s) == "<strong>" + s[2..k] + "</strong>" + PairRule(s[k + 2..], "**", "<strong>", "</strong>");
    assert Strong(s) == r;
  }

  // ---------------------------------------------------------------------------
  // Links: /\[(.*?)\]\((.*?)\)/g

  /**
   * Where the link pattern that starts with `[` at index 0 closes: the end `j` of the label
   * and the index `m` of the closing `)`.  The label `(.*?)` is extended one character at a
   * time, on one line, until `](` follows and the target `(.*?)` finds a `)` on that line.
   */
  function LinkMatch(s: string, j: nat): (r: Option<(nat, nat)>)
    requires 1 <= j <= |s|
    decreases |s| - j
    ensures r.Some? ==> j <= r.value.0 && r.value.0 + 2 <= r.value.1 < |s|
    ensures r.Some? ==> StartsAt(s, r.value.0, "](") && LineClear(s, j, r.value.0)
    ensures r.Some? ==> StartsAt(s, r.value.1, ")") && LineClear(s, r.value.0 + 2, r.value.1)
    ensures r.Some? ==> forall k :: r.value.0 + 2 <= k < r.value.1 ==> !StartsAt(s, k, ")")
  {
    if StartsAt(s, j, "](") && FindOnLine(s, j + 2, ")").Some? then
      Some((j, FindOnLine(s, j + 2, ")").value))
    else if j < |s| && !IsLineTerminator(s[j]) then LinkMatch(s, j + 1)
    else None
  }

  /** `s.replace(/\[(.*?)\]\((.*?)\)/g, '<a href="$2">$1</a>')`. */
  function Links(s: string): string
    decreases |s|
  {
    if s == [] then []
    else if s[0] == '[' && LinkMatch(s, 1).Some? then
      var j := LinkMatch(s, 1).value.0;
      var m := LinkMatch(s, 1).value.1;
      "<a href=\"" + s[j + 2..m] + "\">" + s[1..j] + "</a>" + Links(s[m + 1..])
    else [s[0]] + Links(s[1..])
  }

  lemma {:induction false} LinksAbsent(s: string)
    requires Lacks(s, '[')
    ensures Links(s) == s
    decreases |s|
  {
    if s != [] {
      LinksAbsent(s[1..]);
    }
  }

  /** `[l](t)` becomes `<a href="t">l</a>` when the label has no `]` and the target no `)`. */
  lemma {:induction false} LinkRule(l: string, t: string)
    requires SingleLine(l) && Lacks(l, ']') && SingleLine(t) && Lacks(t, ')')
    ensures Links("[" + l + "](" + t + ")") == "<a href=\"" + t + "\">" + l + "</a>"
  {
    var s := "[" + l + "](" + t + ")";
    var j := |l| + 1;
    var m := |l| + 3 + |t|;
    LinkRuleMatch(l, t);
    assert s[j + 2..m] == t;
    assert s[1..j] == l;
    assert s[m + 1..] == [];
    assert Links(s) == "<a href=\"" + s[j + 2..m] + "\">" + s[1..j] + "</a>" + Links(s[m + 1..]);
  }

  lemma {:induction false} LinkRuleMatch(l: string, t: string)
    requires SingleLine(l) && Lacks(l, ']') && SingleLine(t) && Lacks(t, ')')
    ensures var s := "[" + l + "](" + t + ")";
      s[0] == '[' && LinkMatch(s, 1) == Some((|l| + 1, |l| + 3 + |t|))
  {
    var s := "[" + l + "](" + t + ")";
    var j := |l| + 1;
    var m := |l| + 3 + |t|;
    LabelScan(s, l, t);
    TargetScan(s, l, t);
    assert StartsAt(s, j, "](") by {
      assert s[j..] == "](" + t + ")";
    }
    LinkMatchFinds(s, 1, j);
    FindOnLineAt(s, j + 2, m, ")");
  }

  lemma {:induction false} LabelScan(s: string, l: string, t: string)
    requires s == "[" + l + "](" + t + ")" && SingleLine(l) && Lacks(l, ']')
    ensures forall k :: 1 <= k < |l| + 1 ==> s[k] != ']' && !IsLineTerminator(s[k])
  {
    forall k | 1 <= k < |l| + 1 ensures s[k] != ']' && !IsLineTerminator(s[k]) {
      assert s[k] == l[k - 1];
    }
  }

  lemma {:induction false} TargetScan(s: string, l: string, t: string)
    requires s == "[" + l + "](" + t + ")" && SingleLine(t) && Lacks(t, ')')
    ensures StartsAt(s, |l| + 3 + |t|, ")") && LineClear(s, |l| + 3, |l| + 3 + |t|)
    ensures forall k :: |l| + 3 <= k < |l| + 3 + |t| ==> !StartsAt(s, k, ")")
  {
    var j := |l| + 1;
    var m := |l| + 3 + |t|;
    assert s[m..] == ")";
    forall k | j + 2 <= k < m ensures !StartsAt(s, k, ")") && !IsLineTerminator(s[k]) {
      assert s[k] == t[k - j - 2];
      assert s[k..][0] == s[k];
    }
  }

  /** With no `]` and no line break before index `j`, the backtracking reaches `j`. */
  lemma {:induction false} LinkMatchFinds(s: string, i: nat, j: nat)
    requires 1 <= i <= j < |s|
    requires forall k :: i <= k < j ==> s[k] != ']' && !IsLineTerminator(s[k])
    ensures LinkMatch(s, i) == LinkMatch(s, j)
    decreases j - i
  {
    if i < j {
      LinkMatchStep(s, i);
      LinkMatchFinds(s, i + 1, j);
    }
  }

  /** The label scan moves past a character that is neither `]` nor a line break. */
  lemma {:induction false} LinkMatchStep(s: string, i: nat)
    requires 1 <= i < |s| && s[i] != ']' && !IsLineTerminator(s[i])
    ensures LinkMatch(s, i) == LinkMatch(s, i + 1)
  {
    assert !StartsAt(s, i, "](") by {
      assert s[i..][0] == s[i];
    }
  }

  // ---------------------------------------------------------------------------
  // Lists: /^\* (.*$)/gm then /(<li>.*<\/li>)/gms

  function ListItems(s: string): string {
    RewriteLines(s, "* ", "<li>", "</li>")
  }

  /** Every line that starts with `* ` becomes a list item. */
  lemma {:induction false} ListItemLine(t: string)
    requires SingleLine(t)
    ensures ListItems("* " + t) == "<li>" + t + "</li>"
  {
    RewriteLinesOneLine("* " + t, "* ", "<li>", "</li>");
    assert ("* " + t)[2..] == t;
  }

  /** The last index `k <= hi` at which `pat` starts in `s`. */
  function LastStart(s: string, pat: string, hi: nat): Option<nat>
    requires hi <= |s|
    decreases hi
  {
    if StartsAt(s, hi, pat) then Some(hi)
    else if hi == 0 then None
    else LastStart(s, pat, hi - 1)
  }

  /** `LastStart` finds an occurrence with none after it up to the bound, or reports there is none. */
  lemma {:induction false} LastStartSpec(s: string, pat: string, hi: nat)
    requires hi <= |s|
    ensures var r := LastStart(s, pat, hi);
      && (r.Some? ==> r.value <= hi && StartsAt(s, r.value, pat))
      && (r.Some? ==> forall k :: r.value < k <= hi ==> !StartsAt(s, k, pat))
      && (r.None? ==> forall k :: 0 <= k <= hi ==> !StartsAt(s, k, pat))
    decreases hi
  {
    if !StartsAt(s, hi, pat) && hi > 0 {
      LastStartSpec(s, pat, hi - 1);
    }
  }

  /**
   * `s.replace(/(<li>.*<\/li>)/gms, '<ul>$1</ul>')`: the `s` flag lets `.` cross lines and
   * the greedy `.*` runs to the last `</li>` that starts after the opening tag.
   */
  function WrapList(s: string): string
    decreases |s|
  {
    if s == [] then []
    else match ListSpan(s)
      case Some(e) => "<ul>" + s[..e] + "</ul>" + WrapList(s[e..])
      case None => [s[0]] + WrapList(s[1..])
  }

  /**
   * Where the match of the list rule that starts at the beginning of `s` ends: just after
   * the last `</li>` that starts after the opening `<li>`; none when `s` does not start one.
   */
  function ListSpan(s: string): (r: Option<nat>)
    ensures r.Some? ==> 9 <= r.value <= |s|
  {
    var last := LastStart(s, "</li>", |s|);
    LastStartSpec(s, "</li>", |s|);
    if "<li>" <= s && last.Some? && last.value >= 4 then Some(last.value + 5) else None
  }

  /** Without any `</li>` there is nothing to wrap. */
  lemma {:induction false} WrapListNoClose(s: string)
    requires forall k :: 0 <= k <= |s| ==> !StartsAt(s, k, "</li>")
    ensures WrapList(s) == s
    decreases |s|
  {
    if s != [] {
      LastStartSpec(s, "</li>", |s|);
      StartsAtDrop(s, 1, "</li>");
      WrapListNoClose(s[1..]);
    }
  }

  /**
   * The wrap is greedy across lines: the span from the first `<li>` to the last `</li>`
   * gets exactly one `<ul>...</ul>`, and everything outside it is left alone.
   */
  lemma {:induction false} WrapListOnce(s: string, a: nat, b: nat)
    requires StartsAt(s, a, "<li>") && forall k :: 0 <= k < a ==> !StartsAt(s, k, "<li>")
    requires StartsAt(s, b, "</li>") && forall k :: b < k <= |s| ==> !StartsAt(s, k, "</li>")
    requires a + 4 <= b
    ensures WrapList(s) == s[..a] + "<ul>" + s[a..b + 5] + "</ul>" + s[b + 5..]
    decreases a
  {
    if a == 0 {
      WrapListAtStart(s, b);
      assert s[..a] == [] && s[a..b + 5] == s[..b + 5];
    } else {
      var t := s[1..];
      StartsAtDrop(s, 1, "<li>");
      StartsAtDrop(s, 1, "</li>");
      WrapListOnce(t, a - 1, b - 1);
      WrapListShift(s, a, b);
    }
  }

  /** The wrap of a text that does not start with `<li>` is its first character and the wrap of the rest. */
  lemma {:induction false} WrapListShift(s: string, a: nat, b: nat)
    requires 0 < a && a + 4 <= b && b + 5 <= |s| && !StartsAt(s, 0, "<li>")
    requires WrapList(s[1..]) == s[1..][..a - 1] + "<ul>" + s[1..][a - 1..b - 1 + 5] + "</ul>" + s[1..][b - 1 + 5..]
    ensures WrapList(s) == s[..a] + "<ul>" + s[a..b + 5] + "</ul>" + s[b + 5..]
  {
    var t := s[1..];
    assert t[a - 1..b - 1 + 5] == s[a..b + 5];
    assert t[b - 1 + 5..] == s[b + 5..];
    calc {
      WrapList(s);
    == { WrapListSkip(s); }
      [s[0]] + WrapList(t);
    ==
      [s[0]] + (t[..a - 1] + "<ul>" + s[a..b + 5] + "</ul>" + s[b + 5..]);
    == { WrappedCons(s[0], t[..a - 1], s[a..b + 5], s[b + 5..]); }
      ([s[0]] + t[..a - 1]) + "<ul>" + s[a..b + 5] + "</ul>" + s[b + 5..];
    == { assert [s[0]] + t[..a - 1] == s[..a]; }
      s[..a] + "<ul>" + s[a..b + 5] + "</ul>" + s[b + 5..];
    }
  }

  /** Putting a character in front of a wrapped text puts it in front of the part before `<ul>`. */
  lemma {:induction false} WrappedCons(c: char, pre: string, mid: string, post: string)
    ensures [c] + (pre + "<ul>" + mid + "</ul>" + post) == ([c] + pre) + "<ul>" + mid + "</ul>" + post
  {
  }

  /** One step of the list wrap when the text does not start with `<li>`. */
  lemma {:induction false} WrapListSkip(s: string)
    requires s != [] && !StartsAt(s, 0, "<li>")
    ensures WrapList(s) == [s[0]] + WrapList(s[1..])
  {
    assert s[0..] == s;
  }

  /** A text that starts with `<li>` is wrapped up to its last `</li>`, and the rest is left alone. */
  lemma {:induction false} WrapListAtStart(s: string, b: nat)
    requires StartsAt(s, 0, "<li>")
    requires StartsAt(s, b, "</li>") && forall k :: b < k <= |s| ==> !StartsAt(s, k, "</li>")
    requires 4 <= b
    ensures WrapList(s) == "<ul>" + s[..b + 5] + "</ul>" + s[b + 5..]
  {
    var e := b + 5;
    LastStartIs(s, "</li>", |s|, b);
    ListSpanAt(s, b);
    WrapListTake(s, e);
    NoCloseAfter(s, b, s[e..]);
    WrapListNoClose(s[e..]);
  }

  lemma {:induction false} ListSpanAt(s: string, b: nat)
    requires StartsAt(s, 0, "<li>") && LastStart(s, "</li>", |s|) == Some(b) && 4 <= b
    ensures s != [] && ListSpan(s) == Some(b + 5)
  {
    assert s[0..] == s;
  }

  /** Past the last `</li>` and its own five characters, no `</li>` starts. */
  lemma {:induction false} NoCloseAfter(s: string, b: nat, t: string)
    requires b + 5 <= |s| && t == s[b + 5..]
    requires forall k :: b < k <= |s| ==> !StartsAt(s, k, "</li>")
    ensures forall k :: 0 <= k <= |t| ==> !StartsAt(t, k, "</li>")
  {
    StartsAtDrop(s, b + 5, "</li>");
  }

  /** One step of the list wrap when the text starts with `<li>`. */
  lemma {:induction false} WrapListTake(s: string, e: nat)
    requires s != [] && ListSpan(s) == Some(e)
    ensures WrapList(s) == "<ul>" + s[..e] + "</ul>" + WrapList(s[e..])
  {
  }

  /** The last occurrence up to `hi` is the one after which no other starts. */
  lemma {:induction false} LastStartIs(s: string, pat: string, hi: nat, b: nat)
    requires b <= hi <= |s| && StartsAt(s, b, pat)
    requires forall k :: b < k <= hi ==> !StartsAt(s, k, pat)
    ensures LastStart(s, pat, hi) == Some(b)
    decreases hi
  {
    if hi > b {
      LastStartIs(s, pat, hi - 1, b);
    }
  }

  /** When no `</li>` follows a `<li>` far enough to close it, the list wrap changes nothing. */
  lemma {:induction false} WrapListNone(s: string)
    requires forall a, b :: 0 <= a <= |s| && 0 <= b <= |s| && StartsAt(s, a, "<li>") && StartsAt(s, b, "</li>") ==> b < a + 4
    ensures WrapList(s) == s
    decreases |s|
  {
    if s != [] {
      var last := LastStart(s, "</li>", |s|);
      LastStartSpec(s, "</li>", |s|);
      assert "<li>" <= s && last.Some? ==> StartsAt(s, 0, "<li>") && last.value < 4;
      StartsAtDrop(s, 1, "<li>");
      StartsAtDrop(s, 1, "</li>");
      WrapListNone(s[1..]);
    }
  }

  // ---------------------------------------------------------------------------
  // Paragraphs: split(/\n\s*\n/), wrap, join('\n')

  /** A match of `\n\s*\n`: a newline, whitespace, and a final newline. */
  predicate IsBlankSep(t: string) {
    |t| >= 2 && t[0] == '\n' && t[|t| - 1] == '\n' && forall i :: 0 <= i < |t| ==> IsJsSpace(t[i])
  }

  /** Index just past the run of `\s` characters that starts at `i`. */
  function SpaceRunEnd(s: string, i: nat): (e: nat)
    requires i <= |s|
    decreases |s| - i
    ensures i <= e <= |s| && (e < |s| ==> !IsJsSpace(s[e]))
    ensures forall k :: i <= k < e ==> IsJsSpace(s[k])
  {
    if i < |s| && IsJsSpace(s[i]) then SpaceRunEnd(s, i + 1) else i
  }

  /** The largest `c` in `[lo, hi]` with `s[c] == '\n'`, as the end `c + 1` of a match. */
  function NewlineDownFrom(s: string, lo: nat, hi: nat): (r: Option<nat>)
    requires hi <= |s|
    decreases hi
    ensures r.Some? ==> lo + 1 <= r.value <= hi + 1 && r.value - 1 < |s| && s[r.value - 1] == '\n'
    ensures r.Some? ==> forall c :: r.value <= c <= hi && c < |s| ==> s[c] != '\n'
    ensures r.None? ==> forall c :: lo <= c <= hi && c < |s| ==> s[c] != '\n'
  {
    if hi < lo then None
    else if hi < |s| && s[hi] == '\n' then Some(hi + 1)
    else if hi == lo then None
    else NewlineDownFrom(s, lo, hi - 1)
  }

  /**
   * The end of the `\n\s*\n` match that starts at `q`, if any: the greedy `\s*` takes the
   * whole whitespace run and gives characters back until a newline can close the match.
   */
  function BlankSepAt(s: string, q: nat): (r: Option<nat>)
    requires q <= |s|
    ensures r.Some? ==> q + 2 <= r.value <= |s| && IsBlankSep(s[q..r.value])
    ensures r.Some? ==> forall e :: r.value < e <= |s| ==> !IsBlankSep(s[q..e])
    ensures r.None? ==> forall e :: q <= e <= |s| ==> !IsBlankSep(s[q..e])
  {
    if q < |s| && s[q] == '\n' then
      var run := SpaceRunEnd(s, q + 1);
      var r := NewlineDownFrom(s, q + 1, run);
      BlankSepAtSpec(s, q, run, r);
      r
    else
      None
  }

  lemma {:induction false} BlankSepAtSpec(s: string, q: nat, run: nat, r: Option<nat>)
    requires q < |s| && s[q] == '\n' && run == SpaceRunEnd(s, q + 1) && r == NewlineDownFrom(s, q + 1, run)
    ensures r.Some? ==> q + 2 <= r.value <= |s| && IsBlankSep(s[q..r.value])
    ensures r.Some? ==> forall e :: r.value < e <= |s| ==> !IsBlankSep(s[q..e])
    ensures r.None? ==> forall e :: q <= e <= |s| ==> !IsBlankSep(s[q..e])
  {
    forall e | q < e <= |s| && IsBlankSep(s[q..e])
      ensures e <= run + 1 && r.Some? && e <= r.value
    {
      forall k | q <= k < e ensures IsJsSpace(s[k]) {
        assert s[q..e][k - q] == s[k];
      }
      assert s[e - 1] == s[q..e][e - q - 1];
    }
    if r.Some? {
      var t := s[q..r.value];
      forall i | 0 <= i < |t| ensures IsJsSpace(t[i]) {
        assert t[i] == s[q + i];
      }
    }
  }

  /**
   * `s.split(/\n\s*\n/)` from the JavaScript split loop: `p` is where the current piece
   * starts, `q` where the next match is tried.  Returns the pieces and, beside them, the
   * separators the split removed.
   */
  function SplitFrom(s: string, p: nat, q: nat): (r: (seq<string>, seq<string>))
    requires p <= q <= |s|
    decreases |s| - q
    ensures |r.0| == |r.1| + 1
  {
    if q >= |s| then ([s[p..]], [])
    else match BlankSepAt(s, q)
      case Some(e) =>
        var rest := SplitFrom(s, e, e);
        ([s[p..q]] + rest.0, [s[q..e]] + rest.1)
      case None => SplitFrom(s, p, q + 1)
  }

  /** Where each separator that SplitFrom removes starts in the text. */
  function SepStarts(s: string, p: nat, q: nat): (r: seq<nat>)
    requires p <= q <= |s|
    decreases |s| - q
    ensures |r| == |SplitFrom(s, p, q).1|
  {
    if q >= |s| then []
    else match BlankSepAt(s, q)
      case Some(e) => [q] + SepStarts(s, e, e)
      case None => SepStarts(s, p, q + 1)
  }

  /**
   * The leftmost-greedy search found `sep` at `a` after `piece`: the piece ends at `a`, the
   * separator is the longest match at `a`, and no match starts inside the piece.
   */
  predicate SepFound(s: string, a: nat, piece: string, sep: string) {
    && |piece| <= a && a + |sep| <= |s|
    && s[a - |piece|..a] == piece && s[a..a + |sep|] == sep
    && BlankSepAt(s, a) == Some(a + |sep|)
    && forall k :: a - |piece| <= k < a ==> BlankSepAt(s, k).None?
  }

  /** The pieces and separators are laid end to end from `p`, and each cut is the leftmost longest match. */
  predicate GreedyCuts(s: string, p: nat, pieces: seq<string>, seps: seq<string>, at: seq<nat>) {
    && |pieces| == |seps| + 1 && |at| == |seps|
    && (forall i :: 0 <= i < |seps| ==> SepFound(s, at[i], pieces[i], seps[i]))
    && (|seps| > 0 ==> at[0] == p + |pieces[0]|)
    && (forall i :: 0 <= i < |seps| - 1 ==> at[i + 1] == at[i] + |seps[i]| + |pieces[i + 1]|)
  }

  /**
   * The split is the leftmost-longest one: every separator is the match BlankSepAt gives at
   * its position, no match starts earlier in the piece before it, and the pieces and
   * separators follow each other without gaps.
   */
  lemma {:induction false} SplitGreedy(s: string, p: nat, q: nat)
    requires p <= q <= |s|
    requires forall k :: p <= k < q ==> BlankSepAt(s, k).None?
    ensures GreedyCuts(s, p, SplitFrom(s, p, q).0, SplitFrom(s, p, q).1, SepStarts(s, p, q))
    decreases |s| - q
  {
    if q < |s| {
      match BlankSepAt(s, q)
      case Some(e) =>
        SplitGreedy(s, e, e);
        SplitGreedyStep(s, p, q, e);
      case None =>
        SplitGreedy(s, p, q + 1);
    }
  }

  /** The step of SplitGreedy at a separator. */
  lemma {:induction false} SplitGreedyStep(s: string, p: nat, q: nat, e: nat)
    requires p <= q < |s| && BlankSepAt(s, q) == Some(e)
    requires forall k :: p <= k < q ==> BlankSepAt(s, k).None?
    requires GreedyCuts(s, e, SplitFrom(s, e, e).0, SplitFrom(s, e, e).1, SepStarts(s, e, e))
    ensures GreedyCuts(s, p, SplitFrom(s, p, q).0, SplitFrom(s, p, q).1, SepStarts(s, p, q))
  {
    var rest := SplitFrom(s, e, e);
    var ra := SepStarts(s, e, e);
    var pieces := [s[p..q]] + rest.0;
    var seps := [s[q..e]] + rest.1;
    var at := [q] + ra;
    assert SplitFrom(s, p, q) == (pieces, seps);
    assert SepStarts(s, p, q) == at;
    assert SepFound(s, q, s[p..q], s[q..e]);
    forall i | 1 <= i < |seps| ensures SepFound(s, at[i], pieces[i], seps[i]) {
      assert at[i] == ra[i - 1] && pieces[i] == rest.0[i - 1] && seps[i] == rest.1[i - 1];
    }
    forall i | 0 <= i < |seps| - 1 ensures at[i + 1] == at[i] + |seps[i]| + |pieces[i + 1]| {
      if i > 0 {
        assert at[i + 1] == ra[i] && at[i] == ra[i - 1] && seps[i] == rest.1[i - 1] && pieces[i + 1] == rest.0[i];
      }
    }
  }

  /** No blank-line separator starts anywhere in `t`. */
  predicate NoBlankLine(t: string) {
    forall i, j :: 0 <= i <= j <= |t| ==> !IsBlankSep(t[i..j])
  }

  /**
   * The split loses nothing and cuts only where it should: the pieces put back between the
   * separators are the text, every separator is a blank-line match, and no piece holds one.
   */
  lemma {:induction false} SplitCuts(s: string, p: nat, q: nat)
    requires p <= q <= |s|
    requires forall k :: p <= k < q ==> BlankSepAt(s, k).None?
    ensures Interleave(SplitFrom(s, p, q).0, SplitFrom(s, p, q).1) == s[p..]
    ensures forall i :: 0 <= i < |SplitFrom(s, p, q).1| ==> IsBlankSep(SplitFrom(s, p, q).1[i])
    ensures forall i :: 0 <= i < |SplitFrom(s, p, q).0| ==> NoBlankLine(SplitFrom(s, p, q).0[i])
    decreases |s| - q
  {
    var r := SplitFrom(s, p, q);
    if q >= |s| {
      NoBlankLineBetween(s, p, |s|);
      assert s[p..|s|] == s[p..];
    } else {
      match BlankSepAt(s, q)
      case Some(e) =>
        SplitCuts(s, e, e);
        NoBlankLineBetween(s, p, q);
        SplitCutsJoin(s, p, q, e);
      case None =>
        SplitCuts(s, p, q + 1);
    }
  }

  /** The step of SplitCuts at a separator: the piece before it joins the pieces after it. */
  lemma {:induction false} SplitCutsJoin(s: string, p: nat, q: nat, e: nat)
    requires p <= q < |s| && BlankSepAt(s, q) == Some(e)
    requires NoBlankLine(s[p..q])
    requires var rest := SplitFrom(s, e, e);
      && Interleave(rest.0, rest.1) == s[e..]
      && (forall i :: 0 <= i < |rest.1| ==> IsBlankSep(rest.1[i]))
      && (forall i :: 0 <= i < |rest.0| ==> NoBlankLine(rest.0[i]))
    ensures Interleave(SplitFrom(s, p, q).0, SplitFrom(s, p, q).1) == s[p..]
    ensures forall i :: 0 <= i < |SplitFrom(s, p, q).1| ==> IsBlankSep(SplitFrom(s, p, q).1[i])
    ensures forall i :: 0 <= i < |SplitFrom(s, p, q).0| ==> NoBlankLine(SplitFrom(s, p, q).0[i])
  {
    var r := SplitFrom(s, p, q);
    var rest := SplitFrom(s, e, e);
    assert r == ([s[p..q]] + rest.0, [s[q..e]] + rest.1);
    assert r.0[1..] == rest.0 && r.1[1..] == rest.1;
    assert s[p..] == s[p..q] + s[q..e] + s[e..];
  }

  lemma {:induction false} NoBlankLineBetween(s: string, p: nat, q: nat)
    requires p <= q <= |s|
    requires forall k :: p <= k < q ==> BlankSepAt(s, k).None?
    ensures NoBlankLine(s[p..q])
  {
    var t := s[p..q];
    forall i, j | 0 <= i <= j <= |t| ensures !IsBlankSep(t[i..j]) {
      var u := s[p + i..p + j];
      forall x | 0 <= x < j - i ensures t[i..j][x] == u[x] {
        assert t[i..j][x] == t[i + x] == s[p + i + x];
      }
      assert t[i..j] == u;
      if i < |t| {
        assert BlankSepAt(s, p + i).None?;
      }
    }
  }

  /** Without a blank line the text is one piece. */
  lemma {:induction false} SplitWhole(s: string, p: nat, q: nat)
    requires p <= q <= |s| && NoBlankLine(s)
    ensures SplitFrom(s, p, q) == ([s[p..]], [])
    decreases |s| - q
  {
    if q < |s| {
      SplitWhole(s, p, q + 1);
    }
  }

  /** A text on one line has no blank line. */
  lemma {:induction false} SingleLineNoBlank(s: string)
    requires SingleLine(s)
    ensures NoBlankLine(s)
  {
    forall i, j | 0 <= i <= j <= |s| ensures !IsBlankSep(s[i..j]) {
      assert i < j ==> s[i..j][0] == s[i];
    }
  }

  /** `String.prototype.trimStart`. */
  function TrimStart(s: string): (r: string)
    ensures |r| <= |s| && r == s[|s| - |r|..]
    ensures r != [] ==> !IsJsSpace(r[0])
    ensures forall i :: 0 <= i < |s| - |r| ==> IsJsSpace(s[i])
  {
    if s != [] && IsJsSpace(s[0]) then TrimStart(s[1..]) else s
  }

  /** `String.prototype.trimEnd`. */
  function TrimEnd(s: string): (r: string)
    ensures |r| <= |s| && r == s[..|r|]
    ensures r != [] ==> !IsJsSpace(r[|r| - 1])
    ensures forall i :: |r| <= i < |s| ==> IsJsSpace(s[i])
  {
    if s != [] && IsJsSpace(s[|s| - 1]) then TrimEnd(s[..|s| - 1]) else s
  }

  /** `String.prototype.trim`: the leading and trailing `\s` characters removed. */
  function Trim(s: string): (r: string)
    ensures r == [] <==> forall i :: 0 <= i < |s| ==> IsJsSpace(s[i])
    ensures r != [] ==> !IsJsSpace(r[0]) && !IsJsSpace(r[|r| - 1])
    ensures forall i :: 0 <= i < |r| ==> r[i] in s
    ensures s != [] && !IsJsSpace(s[0]) && !IsJsSpace(s[|s| - 1]) ==> r == s
  {
    TrimEmpty(s);
    TrimInside(s);
    TrimEnds(s);
    TrimKeeps(s);
    TrimEnd(TrimStart(s))
  }

  lemma {:induction false} TrimEnds(s: string)
    ensures var r := TrimEnd(TrimStart(s));
      r != [] ==> !IsJsSpace(r[0]) && !IsJsSpace(r[|r| - 1])
  {
    var a := TrimStart(s);
    var b := TrimEnd(a);
    if b != [] {
      assert b[0] == a[0];
    }
  }

  lemma {:induction false} TrimKeeps(s: string)
    ensures s != [] && !IsJsSpace(s[0]) && !IsJsSpace(s[|s| - 1]) ==> TrimEnd(TrimStart(s)) == s
  {
    if s != [] && !IsJsSpace(s[0]) && !IsJsSpace(s[|s| - 1]) {
      assert TrimStart(s) == s;
      assert TrimEnd(s) == s;
    }
  }

  lemma {:induction false} TrimEmpty(s: string)
    ensures TrimEnd(TrimStart(s)) == [] <==> forall i :: 0 <= i < |s| ==> IsJsSpace(s[i])
  {
    var a := TrimStart(s);
    if a != [] {
      assert a[0] == s[|s| - |a|];
      assert !IsJsSpace(a[0]);
      var b := TrimEnd(a);
      assert |b| > 0;
    }
  }

  lemma {:induction false} TrimInside(s: string)
    ensures var r := TrimEnd(TrimStart(s));
      forall i :: 0 <= i < |r| ==> r[i] in s
  {
    var a := TrimStart(s);
    var b := TrimEnd(a);
    var lo := |s| - |a|;
    SliceOfSlice(s, lo, a, b);
    SliceIn(s, b, lo);
  }

  /** A prefix of a suffix is a slice. */
  lemma {:induction false} SliceOfSlice(s: string, lo: nat, a: string, b: string)
    requires lo <= |s| && a == s[lo..] && |b| <= |a| && b == a[..|b|]
    ensures lo + |b| <= |s| && forall i :: 0 <= i < |b| ==> b[i] == s[lo + i]
  {
  }

  /** Every character of a slice occurs in the text. */
  lemma {:induction false} SliceIn(s: string, t: string, lo: nat)
    requires lo + |t| <= |s| && forall i :: 0 <= i < |t| ==> t[i] == s[lo + i]
    ensures forall i :: 0 <= i < |t| ==> t[i] in s
  {
    forall i | 0 <= i < |t| ensures t[i] in s {
      assert t[i] == s[lo + i];
    }
  }

  /** A piece is wrapped in `<p>` unless it is blank or starts with a heading or list tag. */
  function WrapChunk(p: string): string {
    var t := Trim(p);
    if !("<h" <= t) && !("<ul" <= t) && t != "" then "<p>" + p + "</p>" else p
  }

  function WrapAll(ps: seq<string>): (r: seq<string>)
    ensures |r| == |ps| && forall i :: 0 <= i < |ps| ==> r[i] == WrapChunk(ps[i])
  {
    seq(|ps|, i requires 0 <= i < |ps| => WrapChunk(ps[i]))
  }

  function Paragraphs(s: string): string {
    Join(WrapAll(SplitFrom(s, 0, 0).0), "\n")
  }

  /**
   * The paragraph step: the text is cut at its blank-line separators into pieces with no
   * blank line inside, each piece is wrapped or not by WrapChunk, and the results are joined
   * by a single newline.
   */
  lemma {:induction false} ParagraphsShape(s: string)
    ensures var (pieces, seps) := SplitFrom(s, 0, 0);
      && Interleave(pieces, seps) == s
      && (forall i :: 0 <= i < |seps| ==> IsBlankSep(seps[i]))
      && (forall i :: 0 <= i < |pieces| ==> NoBlankLine(pieces[i]))
      && GreedyCuts(s, 0, pieces, seps, SepStarts(s, 0, 0))
      && Paragraphs(s) == Join(WrapAll(pieces), "\n")
  {
    SplitCuts(s, 0, 0);
    SplitGreedy(s, 0, 0);
  }

  /** A text without a blank line is a single chunk of the paragraph step. */
  lemma {:induction false} ParagraphsOneChunk(s: string)
    requires NoBlankLine(s)
    ensures Paragraphs(s) == WrapChunk(s)
  {
    SplitWhole(s, 0, 0);
    assert WrapAll([s]) == [WrapChunk(s)];
  }

  // ---------------------------------------------------------------------------
  // The converter

  /** The inline rules, in the order the converter applies them. */
  function Inline(s: string): string {
    Links(Emphasis(Strong(s)))
  }

  /** The list rules and the paragraph step. */
  function Blocks(s: string): string {
    Paragraphs(WrapList(ListItems(s)))
  }

  /** The chain of replacements and the paragraph step, without the guard for empty input. */
  function Pipeline(md: string): string {
    Blocks(Inline(Headers(md)))
  }

  /** `convertMarkdownToHtml`: empty input gives the empty string, anything else runs the chain. */
  function ConvertMarkdownToHtml(md: string): string {
    if md == "" then "" else Pipeline(md)
  }

  /** The chain also maps the empty string to itself, so the guard only short-circuits. */
  lemma {:induction false} PipelineEmpty()
    ensures Pipeline("") == ""
  {
    assert Headers("") == "";
    assert Inline("") == "";
    assert ListItems("") == "" && WrapList("") == "";
    SingleLineNoBlank("");
    ParagraphsOneChunk("");
  }

  /** Characters that take part in none of the rules. */
  predicate Inert(s: string) {
    Lacks(s, '#') && Lacks(s, '*') && Lacks(s, '[') && Lacks(s, '<')
  }

  /** The inline rules leave a text without `*` and `[` alone. */
  lemma {:induction false} InlineUntouched(s: string)
    requires Lacks(s, '*') && Lacks(s, '[')
    ensures Inline(s) == s
  {
    PairRuleAbsent(s, "**", "<strong>", "</strong>");
    PairRuleAbsent(s, "*", "<em>", "</em>");
    LinksAbsent(s);
  }

  /** A text without `*`, without `<li>` and without a blank line is one chunk of the paragraph step. */
  lemma {:induction false} BlockUntouched(s: string)
    requires Lacks(s, '*') && NoBlankLine(s)
    requires forall a :: 0 <= a <= |s| ==> !StartsAt(s, a, "<li>")
    ensures Blocks(s) == WrapChunk(s)
  {
    RewriteLinesAbsent(s, "* ", "<li>", "</li>");
    WrapListNone(s);
    ParagraphsOneChunk(s);
  }

  /** A text lacking one character of `pat` holds no occurrence of `pat`. */
  lemma {:induction false} NoMatchWithout(s: string, pat: string, i: nat)
    requires i < |pat| && Lacks(s, pat[i])
    ensures forall a :: 0 <= a <= |s| ==> !StartsAt(s, a, pat)
  {
    forall a | 0 <= a <= |s| ensures !StartsAt(s, a, pat) {
      if a + i < |s| {
        assert s[a..][i] == s[a + i];
      }
    }
  }

  /**
   * A text with no `#`, `*`, `[` or `<`, no blank line and at least one non-space character
   * comes back as a single paragraph: `<p>` + text + `</p>`.
   */
  lemma {:induction false} PlainText(s: string)
    requires Inert(s) && NoBlankLine(s)
    requires exists i :: 0 <= i < |s| && !IsJsSpace(s[i])
    ensures ConvertMarkdownToHtml(s) == "<p>" + s + "</p>"
  {
    HeadersAbsent(s);
    InlineUntouched(s);
    NoMatchWithout(s, "<li>", 0);
    BlockUntouched(s);
    WrapChunkPlain(s);
    ConvertThrough(s, s);
  }

  /** The header rules leave a text without `#` alone. */
  lemma {:induction false} HeadersAbsent(s: string)
    requires Lacks(s, '#')
    ensures Headers(s) == s
  {
    RewriteLinesAbsent(s, "# ", "<h1>", "</h1>");
    RewriteLinesAbsent(s, "## ", "<h2>", "</h2>");
    RewriteLinesAbsent(s, "### ", "<h3>", "</h3>");
  }

  /** A piece with some non-space character and no `<` is wrapped in `<p>`. */
  lemma {:induction false} WrapChunkPlain(s: string)
    requires Lacks(s, '<') && exists i :: 0 <= i < |s| && !IsJsSpace(s[i])
    ensures WrapChunk(s) == "<p>" + s + "</p>"
  {
    var t := Trim(s);
    assert t != [];
    assert t[0] in s;
    assert t[0] != '<';
  }

  /** `<hN>` + t + `</hN>`, the shape the header rules produce. */
  function HeadingTag(n: char, t: string): string {
    "<h" + [n] + ">" + t + "</h" + [n] + ">"
  }

  lemma {:induction false} HeadingTagIs(n: char, t: string, open: string, close: string)
    requires open == "<h" + [n] + ">" && close == "</h" + [n] + ">"
    ensures HeadingTag(n, t) == open + t + close
  {
  }

  /** A heading tag around inert one-line text uses no `*`, `[`, `<li>` or line break. */
  lemma {:induction false} HeadingTagChars(n: char, t: string)
    requires n == '1' || n == '2' || n == '3'
    requires SingleLine(t) && Inert(t)
    ensures var h := HeadingTag(n, t);
      && Lacks(h, '*') && Lacks(h, '[') && SingleLine(h)
      && (forall a :: 0 <= a <= |h| ==> !StartsAt(h, a, "<li>"))
      && "<h" <= h && !IsJsSpace(h[|h| - 1])
  {
    var pre := "<h" + [n] + ">";
    var post := "</h" + [n] + ">";
    var h := HeadingTag(n, t);
    assert h == pre + t + post;
    forall i | 0 <= i < |h|
      ensures h[i] == if i < 4 then pre[i] else if i < 4 + |t| then t[i - 4] else post[i - 4 - |t|]
    {
    }
    forall a | 0 <= a <= |h| ensures !StartsAt(h, a, "<li>") {
      if a + 1 < |h| {
        assert h[a..][0] == h[a] && h[a..][1] == h[a + 1];
      }
    }
  }

  /**
   * A one-line block that starts with `<h`, ends in a non-space character and has no `*`,
   * `[` or `<li>` passes the inline rules, the list rules and the paragraph step unchanged.
   */
  lemma {:induction false} HeadingBlock(h: string)
    requires Lacks(h, '*') && Lacks(h, '[') && SingleLine(h)
    requires forall a :: 0 <= a <= |h| ==> !StartsAt(h, a, "<li>")
    requires "<h" <= h && !IsJsSpace(h[|h| - 1])
    ensures Blocks(Inline(h)) == h
  {
    InlineUntouched(h);
    SingleLineNoBlank(h);
    BlockUntouched(h);
    WrapChunkHeading(h);
  }

  /** A piece that starts with `<h` and ends in a non-space character is not wrapped. */
  lemma {:induction false} WrapChunkHeading(p: string)
    requires "<h" <= p && !IsJsSpace(p[|p| - 1])
    ensures WrapChunk(p) == p
  {
    assert p[0] == '<';
    assert Trim(p) == p;
  }

  /**
   * A heading line whose text uses none of the inline rules converts to exactly that
   * heading: the inline rules leave it alone and the paragraph step does not wrap it.
   */
  lemma {:induction false} HeadingOne(t: string)
    requires SingleLine(t) && Inert(t)
    ensures ConvertMarkdownToHtml("# " + t) == "<h1>" + t + "</h1>"
  {
    var md := "# " + t;
    var h := HeadingTag('1', t);
    HeaderLevelOne(t);
    HeadingTagIs('1', t, "<h1>", "</h1>");
    HeadingTagBlock('1', t);
    ConvertThrough(md, h);
  }

  lemma {:induction false} HeadingTwo(t: string)
    requires SingleLine(t) && Inert(t)
    ensures ConvertMarkdownToHtml("## " + t) == "<h2>" + t + "</h2>"
  {
    var md := "## " + t;
    var h := HeadingTag('2', t);
    HeaderLevelTwo(t);
    HeadingTagIs('2', t, "<h2>", "</h2>");
    HeadingTagBlock('2', t);
    ConvertThrough(md, h);
  }

  lemma {:induction false} HeadingThree(t: string)
    requires SingleLine(t) && Inert(t)
    ensures ConvertMarkdownToHtml("### " + t) == "<h3>" + t + "</h3>"
  {
    var md := "### " + t;
    var h := HeadingTag('3', t);
    HeaderLevelThree(t);
    HeadingTagIs('3', t, "<h3>", "</h3>");
    HeadingTagBlock('3', t);
    ConvertThrough(md, h);
  }

  /** A heading tag around inert one-line text passes the rest of the chain unchanged. */
  lemma {:induction false} HeadingTagBlock(n: char, t: string)
    requires n == '1' || n == '2' || n == '3'
    requires SingleLine(t) && Inert(t)
    ensures Blocks(Inline(HeadingTag(n, t))) == HeadingTag(n, t)
  {
    HeadingTagChars(n, t);
    HeadingBlock(HeadingTag(n, t));
  }

  /** A non-empty input runs the whole chain; once the header rules give `h`, the rest works on `h`. */
  lemma {:induction false} ConvertThrough(md: string, h: string)
    requires md != [] && Headers(md) == h
    ensures ConvertMarkdownToHtml(md) == Blocks(Inline(h))
  {
  }

  /** `<strong>` + x + `</strong>`, the shape the bold rule produces. */
  function StrongTag(x: string): string {
    "<strong>" + x + "</strong>"
  }

  lemma {:induction false} StrongTagChars(x: string)
    requires SingleLine(x) && Inert(x)
    ensures var h := StrongTag(x);
      && Lacks(h, '*') && Lacks(h, '[') && SingleLine(h)
      && (forall a :: 0 <= a <= |h| ==> !StartsAt(h, a, "<li>"))
      && h[0] == '<' && h[1] == 's' && !IsJsSpace(h[|h| - 1])
  {
    var pre := "<strong>";
    var post := "</strong>";
    var h := StrongTag(x);
    forall i | 0 <= i < |h|
      ensures h[i] == if i < 8 then pre[i] else if i < 8 + |x| then x[i - 8] else post[i - 8 - |x|]
    {
    }
    forall a | 0 <= a <= |h| ensures !StartsAt(h, a, "<li>") {
      if a + 1 < |h| {
        assert h[a..][0] == h[a] && h[a..][1] == h[a + 1];
      }
    }
  }

  /**
   * A bold line whose text uses none of the rules converts to a bold paragraph: the header
   * rules skip it, the bold rule tags it, and the paragraph step wraps it in `<p>`.
   */
  lemma {:induction false} BoldParagraph(x: string)
    requires SingleLine(x) && Inert(x)
    ensures ConvertMarkdownToHtml("**" + x + "**") == "<p><strong>" + x + "</strong></p>"
  {
    var md := "**" + x + "**";
    var h := StrongTag(x);
    BoldLineNoHeader(x);
    BoldInline(x);
    StrongTagChars(x);
    StrongBlock(h);
    StrongParagraphText(x);
    assert |md| > 0;
    assert ConvertMarkdownToHtml(md) == Blocks(h);
  }

  lemma {:induction false} StrongParagraphText(x: string)
    ensures "<p>" + StrongTag(x) + "</p>" == "<p><strong>" + x + "</strong></p>"
  {
    var a := "<p>" + StrongTag(x) + "</p>";
    var b := "<p><strong>" + x + "</strong></p>";
    forall i | 0 <= i < |a| ensures a[i] == b[i] {
      if 11 <= i < 11 + |x| {
        assert a[i] == x[i - 11] == b[i];
      }
    }
  }

  lemma {:induction false} BoldInline(x: string)
    requires SingleLine(x) && Inert(x)
    ensures Inline("**" + x + "**") == StrongTag(x)
  {
    BoldBeforeItalic(x);
    StrongTagChars(x);
    LinksAbsent(StrongTag(x));
  }

  lemma {:induction false} BoldLineNoHeader(x: string)
    requires Inert(x)
    ensures Headers("**" + x + "**") == "**" + x + "**"
  {
    var md := "**" + x + "**";
    forall i | 0 <= i < |md| ensures md[i] != '#' {
      if 2 <= i < 2 + |x| {
        assert md[i] == x[i - 2];
      }
    }
    RewriteLinesAbsent(md, "# ", "<h1>", "</h1>");
    RewriteLinesAbsent(md, "## ", "<h2>", "</h2>");
    RewriteLinesAbsent(md, "### ", "<h3>", "</h3>");
  }

  /** A one-line block that starts with `<s` and has no `*` or `<li>` becomes one paragraph. */
  lemma {:induction false} StrongBlock(h: string)
    requires Lacks(h, '*') && SingleLine(h)
    requires forall a :: 0 <= a <= |h| ==> !StartsAt(h, a, "<li>")
    requires |h| >= 2 && h[0] == '<' && h[1] == 's' && !IsJsSpace(h[|h| - 1])
    ensures Blocks(h) == "<p>" + h + "</p>"
  {
    SingleLineNoBlank(h);
    BlockUntouched(h);
    WrapChunkStrong(h);
  }

  /** A piece that starts with `<s` and ends in a non-space character is wrapped in `<p>`. */
  lemma {:induction false} WrapChunkStrong(p: string)
    requires |p| >= 2 && p[0] == '<' && p[1] == 's' && !IsJsSpace(p[|p| - 1])
    ensures WrapChunk(p) == "<p>" + p + "</p>"
  {
    NotPrefix(p, "<h", 1);
    NotPrefix(p, "<ul", 1);
    assert Trim(p) == p;
  }

  /** A text that differs from `pre` at position `i` does not start with `pre`. */
  lemma {:induction false} NotPrefix(p: string, pre: string, i: nat)
    requires i < |pre| && i < |p| && p[i] != pre[i]
    ensures !(pre <= p)
  {
  }
}
