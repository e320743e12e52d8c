/** The HTML/CSS code editor shared by EditorModal and EditorPreview: a
    document is split line by line into an HTML part and a CSS part by a small
    state machine that watches for `<style>` and `</style>`, and every edit is
    recombined by `combineCode`, handed to the parent as the new document and
    split again. */
module Editor {
  import opened Common
  import opened Text

  const StyleOpen: string := "<style>"
  const StyleClose: string := "</style>"
  const HeadClose: string := "</head>"

  predicate OpensStyle(line: string) {
    Contains(line, StyleOpen)
  }

  predicate ClosesStyle(line: string) {
    Contains(line, StyleClose)
  }

  /** A line the split drops: it mentions either style tag. */
  predicate IsTagLine(line: string) {
    OpensStyle(line) || ClosesStyle(line)
  }

  predicate AllUntagged(lines: seq<string>) {
    forall k :: 0 <= k < |lines| ==> !IsTagLine(lines[k])
  }

  /** No line of `s` mentions a style tag. */
  predicate NoTagLines(s: string) {
    AllUntagged(Lines(s))
  }

  // ---------------------------------------------------------------------------
  // The split

  /** The variables of the split loop: the two line lists and `inStyleTag`. */
  datatype Scan = Scan(html: seq<string>, css: seq<string>, inStyle: bool)

  const Start: Scan := Scan([], [], false)

  /** One pass of the loop body: `<style>` is tested before `</style>`, and a
      tag line is dropped. */
  function Step(st: Scan, line: string): Scan {
    if OpensStyle(line) then st.(inStyle := true)
    else if ClosesStyle(line) then st.(inStyle := false)
    else if st.inStyle then st.(css := st.css + [line])
    else st.(html := st.html + [line])
  }

  /** The loop state after the body has run on every line of `lines`. */
  function Run(st: Scan, lines: seq<string>): Scan {
    if lines == [] then st
    else Step(Run(st, lines[..|lines| - 1]), lines[|lines| - 1])
  }

  /** The HTML and CSS texts the split produces for a whole document. */
  function SplitDocument(code: string): (string, string) {
    var st := Run(Start, Lines(code));
    (Join(st.html, "\n"), Join(st.css, "\n"))
  }

  /** The split loop of EditorModal's effect and `handleReset` and of
      EditorPreview's effect. */
  method SplitCode(code: string) returns (html: string, css: string)
    ensures (html, css) == SplitDocument(code)
  {
    var lines := Lines(code);
    var htmlLines: seq<string> := [];
    var cssLines: seq<string> := [];
    var inStyleTag := false;
    for i := 0 to |lines|
      invariant Scan(htmlLines, cssLines, inStyleTag) == Run(Start, lines[..i])
    {
      var line := lines[i];
      assert lines[..i + 1][..i] == lines[..i];
      if Contains(line, StyleOpen) {
        inStyleTag := true;
        continue;
      }
      if Contains(line, StyleClose) {
        inStyleTag := false;
        continue;
      }
      if inStyleTag {
        cssLines := cssLines + [line];
      } else {
        htmlLines := htmlLines + [line];
      }
    }
    assert lines[..|lines|] == lines;
    html := Join(htmlLines, "\n");
    css := Join(cssLines, "\n");
  }

  // ---------------------------------------------------------------------------
  // What the split does

  /** The lines the split keeps, in document order. */
  function Untagged(lines: seq<string>): (r: seq<string>)
    ensures forall l :: l in r <==> l in lines && !IsTagLine(l)
  {
    if lines == [] then []
    else
      var last := lines[|lines| - 1];
      assert lines == lines[..|lines| - 1] + [last];
      Untagged(lines[..|lines| - 1]) + (if IsTagLine(last) then [] else [last])
  }

  /** `s` is `a` and `b` shuffled together, each kept in its own order. */
  ghost predicate Interleaving(s: seq<string>, a: seq<string>, b: seq<string>)
    decreases |s|
  {
    if s == [] then a == [] && b == []
    else
      var x, p := s[|s| - 1], s[..|s| - 1];
      (a != [] && a[|a| - 1] == x && Interleaving(p, a[..|a| - 1], b)) ||
      (b != [] && b[|b| - 1] == x && Interleaving(p, a, b[..|b| - 1]))
  }

  lemma {:induction false} InterleavingPartitions(s: seq<string>, a: seq<string>, b: seq<string>)
    requires Interleaving(s, a, b)
    ensures multiset(s) == multiset(a) + multiset(b)
    ensures |s| == |a| + |b|
    decreases |s|
  {
    if s != [] {
      var x, p := s[|s| - 1], s[..|s| - 1];
      assert s == p + [x];
      if a != [] && a[|a| - 1] == x && Interleaving(p, a[..|a| - 1], b) {
        InterleavingPartitions(p, a[..|a| - 1], b);
        assert a == a[..|a| - 1] + [x];
      } else {
        InterleavingPartitions(p, a, b[..|b| - 1]);
        assert b == b[..|b| - 1] + [x];
      }
    }
  }

  /** Every line the split keeps goes to exactly one of the two outputs, and
      each output keeps document order; the tag lines go nowhere. */
  lemma {:induction false} SplitInterleaves(lines: seq<string>)
    ensures Interleaving(Untagged(lines), Run(Start, lines).html, Run(Start, lines).css)
    ensures forall l :: l in Run(Start, lines).html ==> !IsTagLine(l)
    ensures forall l :: l in Run(Start, lines).css ==> !IsTagLine(l)
  {
    if lines != [] {
      var p, x := lines[..|lines| - 1], lines[|lines| - 1];
      SplitInterleaves(p);
      var st := Run(Start, p);
      var u, r := Untagged(lines), Run(Start, lines);
      if !IsTagLine(x) {
        assert u[..|u| - 1] == Untagged(p) && u[|u| - 1] == x;
        if st.inStyle {
          assert r.css[..|r.css| - 1] == st.css && r.css[|r.css| - 1] == x && r.html == st.html;
        } else {
          assert r.html[..|r.html| - 1] == st.html && r.html[|r.html| - 1] == x && r.css == st.css;
        }
      } else {
        assert u == Untagged(p) && r.html == st.html && r.css == st.css;
      }
    }
  }

  /** Some line of `xs` passes `opens` and no later line passes `tagged`. */
  ghost predicate LastMarked(xs: seq<string>, opens: string -> bool, tagged: string -> bool) {
    exists j :: 0 <= j < |xs| && opens(xs[j]) && forall k :: j < k < |xs| ==> !tagged(xs[k])
  }

  /** The last line of `lines` that mentions a style tag mentions `<style>`
      (a line with both tags counts as opening). */
  ghost predicate LastTagOpens(lines: seq<string>) {
    LastMarked(lines, OpensStyle, IsTagLine)
  }

  /** `inStyleTag` holds after a prefix exactly when its last tag line
      opens a style block. */
  lemma {:induction false} InStyleIffLastTagOpens(lines: seq<string>)
    ensures Run(Start, lines).inStyle <==> LastTagOpens(lines)
  {
    if lines != [] {
      var n := |lines| - 1;
      var p, x := lines[..n], lines[n];
      InStyleIffLastTagOpens(p);
      assert Run(Start, lines) == Step(Run(Start, p), x);
      if OpensStyle(x) {
        LastOpens(lines, OpensStyle, IsTagLine);
      } else if ClosesStyle(x) {
        LastCloses(lines, OpensStyle, IsTagLine);
      } else {
        LastUnmarked(lines, OpensStyle, IsTagLine);
      }
    }
  }

  lemma LastOpens(xs: seq<string>, opens: string -> bool, tagged: string -> bool)
    requires xs != [] && opens(xs[|xs| - 1])
    ensures LastMarked(xs, opens, tagged)
  {
    assert opens(xs[|xs| - 1]);
  }

  /** A tagged last line that does not open means the last mark is gone. */
  lemma LastCloses(xs: seq<string>, opens: string -> bool, tagged: string -> bool)
    requires xs != [] && tagged(xs[|xs| - 1]) && !opens(xs[|xs| - 1])
    ensures !LastMarked(xs, opens, tagged)
  {
    var n := |xs| - 1;
    forall j | 0 <= j < |xs| && opens(xs[j])
      ensures exists k :: j < k < |xs| && tagged(xs[k])
    {
      assert j < n && tagged(xs[n]);
    }
  }

  /** An untagged last line does not change which tagged line is last. */
  lemma LastUnmarked(xs: seq<string>, opens: string -> bool, tagged: string -> bool)
    requires xs != [] && !tagged(xs[|xs| - 1]) && !opens(xs[|xs| - 1])
    ensures LastMarked(xs, opens, tagged) <==> LastMarked(xs[..|xs| - 1], opens, tagged)
  {
    var n := |xs| - 1;
    var p := xs[..n];
    if LastMarked(p, opens, tagged) {
      var j :| 0 <= j < n && opens(p[j]) && forall k :: j < k < n ==> !tagged(p[k]);
      assert forall k :: j < k < n ==> p[k] == xs[k];
      assert opens(xs[j]) && forall k :: j < k < |xs| ==> !tagged(xs[k]);
    }
    if LastMarked(xs, opens, tagged) {
      var j :| 0 <= j < |xs| && opens(xs[j]) && forall k :: j < k < |xs| ==> !tagged(xs[k]);
      assert j < n && p[j] == xs[j];
      assert forall k :: j < k < n ==> p[k] == xs[k];
    }
  }

  /** Running the loop on lines that mention no style tag appends them all to
      the output the current mode selects. */
  lemma {:induction false} RunUntagged(st: Scan, lines: seq<string>)
    requires AllUntagged(lines)
    ensures Run(st, lines) ==
      if st.inStyle then st.(css := st.css + lines) else st.(html := st.html + lines)
  {
    if lines != [] {
      var p := lines[..|lines| - 1];
      assert AllUntagged(p) by {
        forall k | 0 <= k < |p| ensures !IsTagLine(p[k]) { assert p[k] == lines[k]; }
      }
      RunUntagged(st, p);
      assert !IsTagLine(lines[|lines| - 1]);
      assert p + [lines[|lines| - 1]] == lines;
    }
  }

  lemma {:induction false} RunAppend(st: Scan, a: seq<string>, b: seq<string>)
    ensures Run(st, a + b) == Run(Run(st, a), b)
  {
    if b == [] {
      assert a + b == a;
    } else {
      assert (a + b)[..|a + b| - 1] == a + b[..|b| - 1];
      RunAppend(st, a, b[..|b| - 1]);
    }
  }

  /** A document without tag lines is all HTML, and the CSS part is empty. */
  lemma NoTagsAllHtml(code: string)
    requires NoTagLines(code)
    ensures SplitDocument(code) == (code, "")
  {
    var l := Lines(code);
    RunUntagged(Start, l);
    assert [] + l == l;
    assert Run(Start, l) == Scan(l, [], false);
    JoinLines(code);
  }

  // ---------------------------------------------------------------------------
  // combineCode

  /** `combineCode(html, css)`: unchanged HTML for blank CSS; otherwise the
      CSS goes inside an indented style block in place of the first `</head>`,
      or, without one, in a style block appended after a newline. The
      replacement is a string pattern, so `$` patterns in `css` are expanded. */
  function CombineCode(html: string, css: string): string {
    if Trim(css) == "" then html
    else if Contains(html, HeadClose) then
      JsReplace(html, HeadClose, "  <style>\n" + css + "\n  </style>\n</head>")
    else html + "\n<style>\n" + css + "\n</style>"
  }

  /** The indented style block `combineCode` puts before `</head>`. */
  function HeadStyleBlock(css: string): string {
    "  <style>\n" + css + "\n  </style>\n"
  }

  lemma CombineBlank(html: string, css: string)
    requires IsBlank(css)
    ensures CombineCode(html, css) == html
  {
    TrimEmptyIffBlank(css);
  }

  lemma CombineAppends(html: string, css: string)
    requires !IsBlank(css) && !Contains(html, HeadClose)
    ensures CombineCode(html, css) == html + "\n<style>\n" + css + "\n</style>"
  {
    TrimEmptyIffBlank(css);
  }

  /** With a `</head>`, the block goes in front of its first occurrence and
      the rest of the HTML is kept, provided `css` has no `$`. */
  lemma CombineInsertsBeforeFirstHead(html: string, css: string, i: nat)
    requires !IsBlank(css) && '$' !in css
    requires IndexOf(html, HeadClose) == Some(i)
    ensures CombineCode(html, css) == html[..i] + HeadStyleBlock(css) + html[i..]
  {
    var rep := "  <style>\n" + css + "\n  </style>\n</head>";
    CombineReplaces(html, css, i);
    HeadReplacement(css);
    SubstituteLiteral(rep, HeadClose, html, i);
    HeadSplit(html, i);
    var before, after := html[..i], html[i + |HeadClose|..];
    calc {
      CombineCode(html, css);
      before + Substitute(rep, HeadClose, html, i) + after;
      before + (HeadStyleBlock(css) + HeadClose) + after;
      { assert html[i..] == HeadClose + after; }
      before + HeadStyleBlock(css) + html[i..];
    }
  }

  /** With a `</head>` at `i`, `combineCode` is the JS replace of it. */
  lemma CombineReplaces(html: string, css: string, i: nat)
    requires !IsBlank(css) && IndexOf(html, HeadClose) == Some(i)
    ensures CombineCode(html, css) == html[..i]
      + Substitute("  <style>\n" + css + "\n  </style>\n</head>", HeadClose, html, i)
      + html[i + |HeadClose|..]
  {
    TrimEmptyIffBlank(css);
    OccursContains(html, HeadClose, i);
  }

  /** The text that replaces `</head>` is the block and `</head>` again, and
      has no `$` when `css` has none. */
  lemma HeadReplacement(css: string)
    requires '$' !in css
    ensures var rep := "  <style>\n" + css + "\n  </style>\n</head>";
      rep == HeadStyleBlock(css) + HeadClose && '$' !in rep
  {
    assert '$' !in "  <style>\n" && '$' !in "\n  </style>\n</head>";
  }

  /** `html` from a `</head>` at `i` on is `</head>` and what follows it. */
  lemma HeadSplit(html: string, i: nat)
    requires Occurs(html, HeadClose, i)
    ensures html[i..] == HeadClose + html[i + |HeadClose|..]
  {
  }

  // ---------------------------------------------------------------------------
  // The round trip

  /** The first `</head>` of `html`, if any, begins a line. */
  predicate HeadStartsLine(html: string) {
    match IndexOf(html, HeadClose)
    case None => true
    case Some(i) => i == 0 || html[i - 1] == '\n'
  }

  /** The tag lines `combineCode` writes when it appends the block. */
  lemma PlainTagLines()
    ensures OpensStyle("<style>") && !OpensStyle("</style>") && ClosesStyle("</style>")
  {
    OccursContains("<style>", StyleOpen, 0);
    OccursContains("</style>", StyleClose, 0);
    NoOpenIn("</style>");
  }

  /** The tag lines `combineCode` writes when it inserts the block before
      `</head>`. */
  lemma IndentedTagLines()
    ensures OpensStyle("  <style>") && !OpensStyle("  </style>") && ClosesStyle("  </style>")
  {
    OccursContains("  <style>", StyleOpen, 2);
    OccursContains("  </style>", StyleClose, 2);
    NoOpenIn("  </style>");
  }

  /** A line where no `<` is followed by `s` does not mention `<style>`. */
  lemma NoOpenIn(line: string)
    requires forall k :: 0 <= k < |line| - 1 ==> line[k] != '<' || line[k + 1] != 's'
    ensures !OpensStyle(line)
  {
    forall k: nat ensures !Occurs(line, StyleOpen, k) {
      if k + 7 <= |line| {
        assert line[k..k + 7][0] == line[k] && line[k..k + 7][1] == line[k + 1];
      }
    }
  }

  lemma AllUntaggedAppend(a: seq<string>, b: seq<string>)
    ensures AllUntagged(a + b) <==> AllUntagged(a) && AllUntagged(b)
  {
    assert forall k :: 0 <= k < |a| ==> (a + b)[k] == a[k];
    assert forall k :: 0 <= k < |b| ==> (a + b)[|a| + k] == b[k];
  }

  /** The loop on a style block, opening line, CSS lines and closing line,
      outside style mode: the CSS lines go to the CSS output. */
  lemma {:induction false} RunStyleBlock(st: Scan, open: string, lc: seq<string>, close: string)
    requires !st.inStyle && OpensStyle(open) && !OpensStyle(close) && ClosesStyle(close)
    requires AllUntagged(lc)
    ensures Run(st, [open] + lc + [close]) == st.(css := st.css + lc)
  {
    RunAppend(st, [open] + lc, [close]);
    RunAppend(st, [open], lc);
    assert Run(st, [open]) == st.(inStyle := true) by {
      assert [open][..0] == [];
    }
    RunUntagged(st.(inStyle := true), lc);
    assert Run(Run(st, [open] + lc), [close]) == Step(Run(st, [open] + lc), close) by {
      assert [close][..0] == [];
    }
  }

  /** A style block whose tag lines hold no newline: its lines are the
      opening line, the CSS lines and the closing line. */
  lemma LinesOfBlock(open: string, css: string, close: string)
    requires '\n' !in open && '\n' !in close
    ensures Lines(open + "\n" + css + "\n" + close) == [open] + Lines(css) + [close]
  {
    var rest := css + "\n" + close;
    assert open + "\n" + css + "\n" + close == open + "\n" + rest;
    calc {
      Lines(open + "\n" + rest);
      { LinesAround(open, rest); }
      Lines(open) + Lines(rest);
      { LinesOfLine(open); LinesAround(css, close); LinesOfLine(close); }
      [open] + (Lines(css) + [close]);
      [open] + Lines(css) + [close];
    }
  }

  /** Splitting HTML, a style block and more HTML. */
  lemma SplitAroundBlock(pre: string, open: string, css: string, close: string, tail: string)
    requires '\n' !in open && '\n' !in close
    requires OpensStyle(open) && !OpensStyle(close) && ClosesStyle(close)
    requires NoTagLines(pre) && NoTagLines(css) && NoTagLines(tail)
    ensures SplitDocument(pre + "\n" + (open + "\n" + css + "\n" + close) + "\n" + tail)
      == (pre + "\n" + tail, css)
  {
    var block := open + "\n" + css + "\n" + close;
    var lp, lc, lt := Lines(pre), Lines(css), Lines(tail);
    LinesOfBlock(open, css, close);
    LinesAround(block, tail);
    LinesAround(pre, block + "\n" + tail);
    assert pre + "\n" + block + "\n" + tail == pre + "\n" + (block + "\n" + tail);
    assert Lines(pre + "\n" + block + "\n" + tail) == lp + ([open] + lc + [close]) + lt;
    RunAroundBlock(lp, open, lc, close, lt);
    JoinAppend(lp, lt, "\n");
    JoinLines(pre);
    JoinLines(tail);
    JoinLines(css);
  }

  /** The scan of untagged lines, a style block and more untagged lines. */
  lemma RunAroundBlock(lp: seq<string>, open: string, lc: seq<string>, close: string, lt: seq<string>)
    requires OpensStyle(open) && !OpensStyle(close) && ClosesStyle(close)
    requires AllUntagged(lp) && AllUntagged(lc) && AllUntagged(lt)
    ensures Run(Start, lp + ([open] + lc + [close]) + lt) == Scan(lp + lt, lc, false)
  {
    var lb := [open] + lc + [close];
    RunAppend(Start, lp + lb, lt);
    RunAppend(Start, lp, lb);
    RunUntagged(Start, lp);
    assert [] + lp == lp;
    RunStyleBlock(Scan(lp, [], false), open, lc, close);
    assert [] + lc == lc;
    RunUntagged(Scan(lp, lc, false), lt);
  }

  /** Splitting HTML followed by a style block. */
  lemma SplitBlockAfter(html: string, open: string, css: string, close: string)
    requires '\n' !in open && '\n' !in close
    requires OpensStyle(open) && !OpensStyle(close) && ClosesStyle(close)
    requires NoTagLines(html) && NoTagLines(css)
    ensures SplitDocument(html + "\n" + (open + "\n" + css + "\n" + close)) == (html, css)
  {
    var block := open + "\n" + css + "\n" + close;
    var lh, lc := Lines(html), Lines(css);
    LinesOfBlock(open, css, close);
    LinesAround(html, block);
    var lb := [open] + lc + [close];
    RunAppend(Start, lh, lb);
    RunUntagged(Start, lh);
    assert [] + lh == lh;
    RunStyleBlock(Scan(lh, [], false), open, lc, close);
    assert [] + lc == lc;
    JoinLines(html);
    JoinLines(css);
  }

  /** Splitting a style block followed by HTML. */
  lemma SplitBlockBefore(open: string, css: string, close: string, html: string)
    requires '\n' !in open && '\n' !in close
    requires OpensStyle(open) && !OpensStyle(close) && ClosesStyle(close)
    requires NoTagLines(html) && NoTagLines(css)
    ensures SplitDocument((open + "\n" + css + "\n" + close) + "\n" + html) == (html, css)
  {
    var block := open + "\n" + css + "\n" + close;
    var lh, lc := Lines(html), Lines(css);
    LinesOfBlock(open, css, close);
    LinesAround(block, html);
    var lb := [open] + lc + [close];
    RunAppend(Start, lb, lh);
    RunStyleBlock(Start, open, lc, close);
    assert [] + lc == lc;
    RunUntagged(Scan([], lc, false), lh);
    assert [] + lh == lh;
    JoinLines(html);
    JoinLines(css);
  }

  /** The appended block, written as HTML, newline, style block. */
  lemma AppendedShape(html: string, css: string)
    requires !IsBlank(css) && !Contains(html, HeadClose)
    ensures CombineCode(html, css) == html + "\n" + ("<style>" + "\n" + css + "\n" + "</style>")
  {
    CombineAppends(html, css);
    assert html + "\n<style>\n" + css + "\n</style>"
      == html + "\n" + ("<style>" + "\n" + css + "\n" + "</style>");
  }

  /** The block put in front of a `</head>` that starts the document. */
  lemma HeadFirstShape(html: string, css: string)
    requires !IsBlank(css) && '$' !in css && IndexOf(html, HeadClose) == Some(0)
    ensures CombineCode(html, css) == ("  <style>" + "\n" + css + "\n" + "  </style>") + "\n" + html
  {
    CombineInsertsBeforeFirstHead(html, css, 0);
    assert html[..0] + HeadStyleBlock(css) + html[0..]
      == ("  <style>" + "\n" + css + "\n" + "  </style>") + "\n" + html;
  }

  /** The block put in front of a `</head>` that starts a later line. */
  lemma HeadLaterShape(html: string, css: string, i: nat)
    requires !IsBlank(css) && '$' !in css && IndexOf(html, HeadClose) == Some(i)
    requires 0 < i && html[i - 1] == '\n'
    ensures html == html[..i - 1] + "\n" + html[i..]
    ensures CombineCode(html, css)
      == html[..i - 1] + "\n" + ("  <style>" + "\n" + css + "\n" + "  </style>") + "\n" + html[i..]
  {
    CombineInsertsBeforeFirstHead(html, css, i);
    var pre, tail := html[..i - 1], html[i..];
    assert html[..i] == pre + "\n";
    assert html == pre + "\n" + tail;
    assert html[..i] + HeadStyleBlock(css) + html[i..]
      == pre + "\n" + ("  <style>" + "\n" + css + "\n" + "  </style>") + "\n" + tail;
  }

  lemma SplitAppended(html: string, css: string)
    requires NoTagLines(html) && NoTagLines(css)
    ensures SplitDocument(html + "\n" + ("<style>" + "\n" + css + "\n" + "</style>")) == (html, css)
  {
    PlainTagLines();
    SplitBlockAfter(html, "<style>", css, "</style>");
  }

  lemma SplitHeadFirst(html: string, css: string)
    requires NoTagLines(html) && NoTagLines(css)
    ensures SplitDocument(("  <style>" + "\n" + css + "\n" + "  </style>") + "\n" + html) == (html, css)
  {
    IndentedTagLines();
    SplitBlockBefore("  <style>", css, "  </style>", html);
  }

  lemma SplitHeadLater(pre: string, css: string, tail: string)
    requires NoTagLines(pre + "\n" + tail) && NoTagLines(css)
    ensures SplitDocument(pre + "\n" + ("  <style>" + "\n" + css + "\n" + "  </style>") + "\n" + tail)
      == (pre + "\n" + tail, css)
  {
    IndentedTagLines();
    LinesAround(pre, tail);
    AllUntaggedAppend(Lines(pre), Lines(tail));
    SplitAroundBlock(pre, "  <style>", css, "  </style>", tail);
  }

  /** Splitting what `combineCode` produced gives back the HTML and the CSS
      that went in, when the CSS is not blank, neither part has a line that
      mentions a style tag, the first `</head>` (if any) begins a line, and the
      CSS carries no `$` that `replace` would expand. */
  lemma RoundTrip(html: string, css: string)
    requires !IsBlank(css)
    requires NoTagLines(html) && NoTagLines(css)
    requires HeadStartsLine(html)
    requires Contains(html, HeadClose) ==> '$' !in css
    ensures SplitDocument(CombineCode(html, css)) == (html, css)
  {
    match IndexOf(html, HeadClose)
    case None =>
      AppendedShape(html, css);
      SplitAppended(html, css);
    case Some(i) =>
      if i == 0 {
        HeadFirstShape(html, css);
        SplitHeadFirst(html, css);
      } else {
        HeadLaterShape(html, css, i);
        SplitHeadLater(html[..i - 1], css, html[i..]);
      }
  }

  /** The conditions under which the round trip holds. */
  predicate RoundTripSafe(html: string, css: string) {
    !IsBlank(css) && NoTagLines(html) && NoTagLines(css) && HeadStartsLine(html) &&
    (Contains(html, HeadClose) ==> '$' !in css)
  }

  /** The replacement pattern `$&`, which stands for the matched text. */
  predicate IsDollarAmp(s: string) {
    |s| == 2 && s[0] == '$' && s[1] == '&'
  }

  /** What goes wrong without the `$` condition: CSS that is just `$&`
      becomes the matched `</head>`, so a document whose first line is
      `</head>` reads back `</head>` as its CSS. */
  lemma DollarBreaksRoundTrip(html: string, css: string)
    requires IsDollarAmp(css) && IndexOf(html, HeadClose) == Some(0) && NoTagLines(html)
    ensures SplitDocument(CombineCode(html, css)) == (html, HeadClose)
    ensures HeadClose != css
  {
    HeadCloseUntagged();
    DollarCombine(html, css);
    SplitHeadFirst(html, HeadClose);
  }

  lemma HeadCloseUntagged()
    ensures NoTagLines(HeadClose)
  {
    LinesOfLine(HeadClose);
    assert !Occurs(HeadClose, StyleOpen, 0) && !Occurs(HeadClose, StyleClose, 0);
  }

  /** `combineCode(html, '$&')` for an HTML document starting with `</head>`. */
  lemma DollarCombine(html: string, css: string)
    requires IsDollarAmp(css) && IndexOf(html, HeadClose) == Some(0)
    ensures CombineCode(html, css)
      == ("  <style>" + "\n" + HeadClose + "\n" + "  </style>") + "\n" + html
  {
    assert !IsBlank(css) by { assert !IsJsWhitespace(css[0]); }
    CombineReplacesHead(html, css);
    var rep := "  <style>\n" + css + "\n  </style>\n</head>";
    ReplaceLeadingHead(html, rep);
    SubstituteDollarBlock(html, css);
    RegroupDollarBlock(html);
  }

  lemma CombineReplacesHead(html: string, css: string)
    requires Contains(html, HeadClose) && !IsBlank(css)
    ensures CombineCode(html, css) == JsReplace(html, HeadClose, "  <style>\n" + css + "\n  </style>\n</head>")
  {
    TrimEmptyIffBlank(css);
  }

  lemma ReplaceLeadingHead(html: string, rep: string)
    requires IndexOf(html, HeadClose) == Some(0)
    ensures JsReplace(html, HeadClose, rep) == Substitute(rep, HeadClose, html, 0) + html[7..]
  {}

  lemma SubstituteDollarBlock(html: string, css: string)
    requires IsDollarAmp(css) && IndexOf(html, HeadClose) == Some(0)
    ensures Substitute("  <style>\n" + css + "\n  </style>\n</head>", HeadClose, html, 0)
      == "  <style>\n" + HeadClose + "\n  </style>\n</head>"
  {
    var head, tail := "  <style>\n", "\n  </style>\n</head>";
    BlockEndsLiteral();
    assert "  <style>\n" + css + "\n  </style>\n</head>" == head + (css + tail);
    SubstituteAfterLiteral(head, css + tail, HeadClose, html, 0);
    SubstituteMatched(html, css, tail);
    assert head + (HeadClose + tail) == "  <style>\n" + HeadClose + "\n  </style>\n</head>";
  }

  /** The fixed text around the CSS in the inserted block has no `$`. */
  lemma BlockEndsLiteral()
    ensures '$' !in "  <style>\n" && '$' !in "\n  </style>\n</head>"
  {
  }

  lemma RegroupDollarBlock(html: string)
    requires IndexOf(html, HeadClose) == Some(0)
    ensures "  <style>\n" + HeadClose + "\n  </style>\n</head>" + html[7..]
      == ("  <style>" + "\n" + HeadClose + "\n" + "  </style>") + "\n" + html
  {
    assert html == HeadClose + html[7..];
  }

  /** `$&` followed by literal text expands to the matched text. */
  lemma SubstituteMatched(html: string, css: string, tail: string)
    requires IsDollarAmp(css) && 7 <= |html| && '$' !in tail
    ensures Substitute(css + tail, HeadClose, html, 0) == HeadClose + tail
  {
    assert (css + tail)[0] == '$' && (css + tail)[1] == '&' && (css + tail)[2..] == tail;
    SubstituteLiteral(tail, HeadClose, html, 0);
  }

  // ---------------------------------------------------------------------------
  // The editor component

  /** The state of EditorModal (and EditorPreview): the two editor buffers and
      the counter that forces the preview frame to reload. */
  class EditorPane {
    var htmlCode: string
    var cssCode: string
    var previewKey: nat

    constructor ()
      ensures htmlCode == "" && cssCode == "" && previewKey == 0
    {
      htmlCode := "";
      cssCode := "";
      previewKey := 0;
    }

    /** The effect on the `code` prop: an empty document leaves the buffers
        as they are; any other document is split into them. */
    method SyncFromCode(code: string)
      modifies this
      ensures code == "" ==> htmlCode == old(htmlCode) && cssCode == old(cssCode)
      ensures code != "" ==> (htmlCode, cssCode) == SplitDocument(code)
      ensures previewKey == old(previewKey)
    {
      if code != "" {
        htmlCode, cssCode := SplitCode(code);
      }
    }

    /** `handleReset`: once confirmed, the current `code` prop is split again,
        even when it is empty. In the lesson viewer that prop is the last
        document an edit handed back, not the lesson's original content (see
        `ResetAfterEdit`). */
    method Reset(code: string, confirmed: bool)
      modifies this
      ensures confirmed ==> (htmlCode, cssCode) == SplitDocument(code)
      ensures !confirmed ==> htmlCode == old(htmlCode) && cssCode == old(cssCode)
      ensures previewKey == old(previewKey)
    {
      if confirmed {
        htmlCode, cssCode := SplitCode(code);
      }
    }

    /** `handleHtmlChange`: a null editor value counts as ''; the preview is
        bumped and, when a listener is attached, the combined document is
        handed to it. */
    method HtmlChanged(value: Option<string>, hasListener: bool) returns (emitted: Option<string>)
      modifies this
      ensures htmlCode == OrEmpty(value) && cssCode == old(cssCode)
      ensures previewKey == old(previewKey) + 1
      ensures emitted == if hasListener then Some(CombineCode(OrEmpty(value), old(cssCode))) else None
    {
      htmlCode := OrEmpty(value);
      previewKey := previewKey + 1;
      emitted := None;
      if hasListener {
        emitted := Some(CombineCode(OrEmpty(value), cssCode));
      }
    }

    /** `handleCssChange`, the same for the CSS buffer. */
    method CssChanged(value: Option<string>, hasListener: bool) returns (emitted: Option<string>)
      modifies this
      ensures cssCode == OrEmpty(value) && htmlCode == old(htmlCode)
      ensures previewKey == old(previewKey) + 1
      ensures emitted == if hasListener then Some(CombineCode(old(htmlCode), OrEmpty(value))) else None
    {
      cssCode := OrEmpty(value);
      previewKey := previewKey + 1;
      emitted := None;
      if hasListener {
        emitted := Some(CombineCode(htmlCode, OrEmpty(value)));
      }
    }

    /** `getPreviewContent`: the document the preview frame shows, which splits
        back into the buffers whenever the round trip conditions hold. */
    function PreviewContent(): (r: string)
      reads this
      ensures IsBlank(cssCode) ==> r == htmlCode
      ensures RoundTripSafe(htmlCode, cssCode) ==> SplitDocument(r) == (htmlCode, cssCode)
    {
      CombineBlankOrSafe(htmlCode, cssCode);
      CombineCode(htmlCode, cssCode)
    }

    /** An HTML edit in the lesson viewer: the document the pane hands over
        becomes the viewer's `code`, and the effect re-splits it when it
        differs from the previous `code` and is not empty. A `<style>` line
        typed into the HTML thus moves the lines after it into the CSS
        buffer; when the round trip conditions hold, the buffers end as the
        edit left them. */
    method EditHtml(value: Option<string>, parentCode: string) returns (newCode: string)
      modifies this
      ensures newCode == CombineCode(OrEmpty(value), old(cssCode))
      ensures previewKey == old(previewKey) + 1
      ensures (htmlCode, cssCode) ==
        if newCode == parentCode || newCode == "" then (OrEmpty(value), old(cssCode))
        else SplitDocument(newCode)
      ensures RoundTripSafe(OrEmpty(value), old(cssCode)) ==>
        htmlCode == OrEmpty(value) && cssCode == old(cssCode)
    {
      var emitted := HtmlChanged(value, true);
      newCode := emitted.value;
      if newCode != parentCode {
        SyncFromCode(newCode);
        CombineBlankOrSafe(OrEmpty(value), old(cssCode));
      }
    }

    /** A CSS edit in the lesson viewer, as for `EditHtml`. */
    method EditCss(value: Option<string>, parentCode: string) returns (newCode: string)
      modifies this
      ensures newCode == CombineCode(old(htmlCode), OrEmpty(value))
      ensures previewKey == old(previewKey) + 1
      ensures (htmlCode, cssCode) ==
        if newCode == parentCode || newCode == "" then (old(htmlCode), OrEmpty(value))
        else SplitDocument(newCode)
      ensures RoundTripSafe(old(htmlCode), OrEmpty(value)) ==>
        htmlCode == old(htmlCode) && cssCode == OrEmpty(value)
    {
      var emitted := CssChanged(value, true);
      newCode := emitted.value;
      if newCode != parentCode {
        SyncFromCode(newCode);
        CombineBlankOrSafe(old(htmlCode), OrEmpty(value));
      }
    }
  }

  /** An HTML edit followed by a confirmed reset: the reset splits the
      document the edit handed back, so under the round trip conditions it
      leaves the buffers as the edit left them instead of restoring the
      lesson. */
  method ResetAfterEdit(pane: EditorPane, value: Option<string>, parentCode: string)
    modifies pane
    ensures RoundTripSafe(OrEmpty(value), old(pane.cssCode)) ==>
      pane.htmlCode == OrEmpty(value) && pane.cssCode == old(pane.cssCode)
    ensures pane.previewKey == old(pane.previewKey) + 1
  {
    var code := pane.EditHtml(value, parentCode);
    pane.Reset(code, true);
    CombineBlankOrSafe(OrEmpty(value), old(pane.cssCode));
  }

  /** The two facts the pane relies on: blank CSS is not inserted, and under
      the round trip conditions the combined document is not empty and splits
      back. */
  lemma CombineBlankOrSafe(html: string, css: string)
    ensures IsBlank(css) ==> CombineCode(html, css) == html
    ensures RoundTripSafe(html, css) ==>
      CombineCode(html, css) != "" && SplitDocument(CombineCode(html, css)) == (html, css)
  {
    if IsBlank(css) {
      CombineBlank(html, css);
    }
    if RoundTripSafe(html, css) {
      RoundTrip(html, css);
    }
  }
}
