/**
 Splitting highlighted code into lines: spans open at a line break are closed before it and opened
 again on the next line.
 */
module CodeLines {
  datatype Span = Line | Highlight(tag: string)

  /** Pieces of markup.  Line spans and blanks occur only in what the splitter writes. */
  datatype Token = Open(span: Span) | Close | Ch(c: char) | Blank | Break

  /** A visible character within its enclosing spans, outermost first. */
  datatype Glyph = Glyph(c: char, spans: seq<Span>)

  // ---- reading markup ----

  /** The spans open after one more piece; a close without an open does nothing. */
  function Step(stack: seq<Span>, t: Token): seq<Span>
  {
    match t
    case Open(span) => stack + [span]
    case Close => if stack == [] then [] else stack[..|stack| - 1]
    case _ => stack
  }

  function After(stack: seq<Span>, text: seq<Token>): seq<Span>
    decreases text
  {
    if text == [] then stack else After(Step(stack, text[0]), text[1..])
  }

  /** Every close finds a span to close. */
  predicate Matched(stack: seq<Span>, text: seq<Token>)
    decreases text
  {
    text == [] || ((text[0].Close? ==> stack != []) && Matched(Step(stack, text[0]), text[1..]))
  }

  predicate WellNested(text: seq<Token>)
  {
    Matched([], text) && After([], text) == []
  }

  function Visible(stack: seq<Span>, text: seq<Token>): seq<Glyph>
    decreases text
  {
    if text == [] then []
    else (if text[0].Ch? then [Glyph(text[0].c, stack)] else []) + Visible(Step(stack, text[0]), text[1..])
  }

  lemma {:induction false} Concat(stack: seq<Span>, a: seq<Token>, b: seq<Token>)
    ensures After(stack, a + b) == After(After(stack, a), b)
    ensures Matched(stack, a + b) <==> Matched(stack, a) && Matched(After(stack, a), b)
    ensures Visible(stack, a + b) == Visible(stack, a) + Visible(After(stack, a), b)
  {
    AfterConcat(stack, a, b);
    VisibleConcat(stack, a, b);
  }

  lemma {:induction false} AfterConcat(stack: seq<Span>, a: seq<Token>, b: seq<Token>)
    ensures After(stack, a + b) == After(After(stack, a), b)
    ensures Matched(stack, a + b) <==> Matched(stack, a) && Matched(After(stack, a), b)
    decreases a
  {
    if a == [] {
      assert a + b == b;
    } else {
      assert (a + b)[1..] == a[1..] + b;
      AfterConcat(Step(stack, a[0]), a[1..], b);
    }
  }

  lemma {:induction false} VisibleConcat(stack: seq<Span>, a: seq<Token>, b: seq<Token>)
    ensures Visible(stack, a + b) == Visible(stack, a) + Visible(After(stack, a), b)
    decreases a
  {
    if a == [] {
      assert a + b == b;
    } else {
      var next := Step(stack, a[0]);
      assert (a + b)[1..] == a[1..] + b;
      VisibleConcat(next, a[1..], b);
      var first := if a[0].Ch? then [Glyph(a[0].c, stack)] else [];
      assert Visible(stack, a + b) == first + (Visible(next, a[1..]) + Visible(After(next, a[1..]), b));
    }
  }

  // ---- the splitter ----

  function Openings(stack: seq<Span>): (r: seq<Token>)
  {
    seq(|stack|, i requires 0 <= i < |stack| => Open(stack[i]))
  }

  function Closings(n: nat): (r: seq<Token>)
  {
    seq(n, _ => Close)
  }

  /** What one line becomes when the given spans are open at its start. */
  function LineOf(open: seq<Span>, text: seq<Token>): seq<Token>
  {
    if text == [] then [Open(Line), Blank, Close]
    else [Open(Line)] + (Openings(open) + text + Closings(|After(open, text)|)) + [Close]
  }

  /** An empty line holds a blank and nothing else, whatever is open; no line has a break. */
  lemma {:induction false} LineIs(open: seq<Span>, text: seq<Token>)
    requires Break !in text
    ensures Break !in LineOf(open, text)
    ensures text == [] ==> LineOf(open, text) == [Open(Line), Blank, Close] && After(open, text) == open
    ensures text != [] && open == [] && After(open, text) == [] ==>
              LineOf(open, text) == [Open(Line)] + text + [Close]
  {
    assert Openings([]) + text + Closings(0) == text;
  }

  /** No break is left but those in the text behind the last. */
  lemma {:induction false} BreaksGone(open: seq<Span>, text: seq<Token>)
    ensures Break !in Output(open, text)
    decreases |text|
  {
    var i := FirstBreak(text);
    if i == |text| {
      OutputRest(open, text);
    } else {
      var line, more := text[..i], text[i + 1..];
      assert text == line + [Break] + more;
      OutputFirst(open, line, more);
      LineIs(open, line);
      BreaksGone(After(open, line), more);
    }
  }

  function FirstBreak(text: seq<Token>): (i: nat)
    ensures i <= |text| && (i < |text| ==> text[i] == Break)
    ensures forall j :: 0 <= j < i ==> text[j] != Break
  {
    if text == [] || text[0].Break? then 0 else 1 + FirstBreak(text[1..])
  }

  function LinesOf(open: seq<Span>, text: seq<Token>): seq<seq<Token>>
    decreases text
  {
    var i := FirstBreak(text);
    if i == |text| then [] else [LineOf(open, text[..i])] + LinesOf(After(open, text[..i]), text[i + 1..])
  }

  function HeadLength(text: seq<Token>): (n: nat)
    ensures n <= |text|
  {
    var i := FirstBreak(text);
    if i == |text| then 0 else i + 1 + HeadLength(text[i + 1..])
  }

  /** The text up to and with the last line break. */
  function Head(text: seq<Token>): seq<Token>
  {
    text[..HeadLength(text)]
  }

  /** What follows the last line break stays as it is. */
  function Rest(text: seq<Token>): seq<Token>
  {
    text[HeadLength(text)..]
  }

  function Joined(lines: seq<seq<Token>>): seq<Token>
  {
    if lines == [] then [] else lines[0] + Joined(lines[1..])
  }

  /** The replacement of one matched line; openTags goes on to the next one. */
  method ReplaceLine(text: seq<Token>, openTags: seq<Span>) returns (html: seq<Token>, stillOpen: seq<Span>)
    ensures html == LineOf(openTags, text) && stillOpen == After(openTags, text)
  {
    stillOpen := openTags;
    if text == [] {
      return [Open(Line), Blank, Close], stillOpen;
    }
    var prepend := [];
    if |stillOpen| > 0 {
      prepend := Openings(stillOpen);
    }
    assert prepend == Openings(openTags);
    for i := 0 to |text|
      invariant stillOpen == After(openTags, text[..i])
    {
      assert text[..i + 1] == text[..i] + [text[i]];
      Concat(openTags, text[..i], [text[i]]);
      if text[i].Close? {
        stillOpen := if stillOpen == [] then [] else stillOpen[..|stillOpen| - 1];
      } else if text[i].Open? {
        stillOpen := stillOpen + [text[i].span];
      }
    }
    assert text[..|text|] == text;
    var closed := text;
    if |stillOpen| > 0 {
      closed := closed + Closings(|stillOpen|);
    }
    assert closed == text + Closings(|stillOpen|);
    if |prepend| > 0 {
      closed := prepend + closed;
    }
    assert closed == Openings(openTags) + text + Closings(|stillOpen|);
    html := [Open(Line)] + closed + [Close];
  }

  /** What text becomes when the given spans are open at its start. */
  function Output(open: seq<Span>, text: seq<Token>): seq<Token>
  {
    Joined(LinesOf(open, text)) + Rest(text)
  }

  method NextBreak(text: seq<Token>, n: nat) returns (end: nat)
    requires n <= |text|
    ensures n <= end <= |text| && (end < |text| ==> text[end] == Break)
    ensures Break !in text[n..end]
  {
    end := n;
    while end < |text| && text[end] != Break
      invariant n <= end <= |text| && Break !in text[n..end]
    {
      end := end + 1;
    }
  }

  method AppendLine(text: seq<Token>, html: seq<Token>, openTags: seq<Span>, n: nat, end: nat)
    returns (longer: seq<Token>, stillOpen: seq<Span>)
    requires n <= end < |text| && text[end] == Break && Break !in text[n..end] && Written(text, html, openTags, n)
    ensures Written(text, longer, stillOpen, end + 1)
  {
    WrittenLine(text, html, openTags, n, end);
    var line;
    line, stillOpen := ReplaceLine(text[n..end], openTags);
    longer := html + line;
  }

  method SplitLines(text: seq<Token>) returns (html: seq<Token>)
    ensures html == Output([], text)
  {
    html := [];
    var openTags, n := [], 0;
    var end := NextBreak(text, n);
    WrittenNothing(text);
    while end < |text|
      invariant 0 <= n <= end <= |text| && (end < |text| ==> text[end] == Break) && Break !in text[n..end]
      invariant Written(text, html, openTags, n)
      decreases |text| - n
    {
      html, openTags := AppendLine(text, html, openTags, n, end);
      n := end + 1;
      end := NextBreak(text, n);
    }
    html := AppendRest(text, html, openTags, n);
  }

  method AppendRest(text: seq<Token>, html: seq<Token>, ghost open: seq<Span>, n: nat) returns (longer: seq<Token>)
    requires n <= |text| && Break !in text[n..|text|] && Written(text, html, open, n)
    ensures longer == Output([], text)
  {
    WrittenRest(text, html, open, n);
    longer := html + text[n..];
  }

  lemma {:induction false} WrittenNothing(text: seq<Token>)
    ensures Written(text, [], [], 0)
  {
    assert text[0..] == text;
  }

  /** What is written so far, and what the rest will become. */
  ghost predicate Written(text: seq<Token>, html: seq<Token>, open: seq<Span>, n: nat)
    requires n <= |text|
  {
    html + Output(open, text[n..]) == Output([], text)
  }

  lemma {:induction false} WrittenLine(text: seq<Token>, html: seq<Token>, open: seq<Span>, n: nat, end: nat)
    requires n <= end < |text| && text[end] == Break && Break !in text[n..end]
    requires Written(text, html, open, n)
    ensures Written(text, html + LineOf(open, text[n..end]), After(open, text[n..end]), end + 1)
  {
    var line, more := text[n..end], text[end + 1..];
    OutputAt(open, text, n, end);
    Associative(html, LineOf(open, line), Output(After(open, line), more));
  }

  lemma {:induction false} OutputAt(open: seq<Span>, text: seq<Token>, n: nat, end: nat)
    requires n <= end < |text| && text[end] == Break && Break !in text[n..end]
    ensures Output(open, text[n..]) == LineOf(open, text[n..end]) + Output(After(open, text[n..end]), text[end + 1..])
  {
    assert text[n..] == text[n..end] + [Break] + text[end + 1..];
    OutputFirst(open, text[n..end], text[end + 1..]);
  }

  lemma {:induction false} Associative(a: seq<Token>, b: seq<Token>, c: seq<Token>)
    ensures a + (b + c) == a + b + c
  {
  }

  lemma {:induction false} WrittenRest(text: seq<Token>, html: seq<Token>, open: seq<Span>, n: nat)
    requires n <= |text| && Break !in text[n..|text|]
    requires Written(text, html, open, n)
    ensures html + text[n..] == Output([], text)
  {
    assert text[n..|text|] == text[n..];
    OutputRest(open, text[n..]);
  }

  lemma {:induction false} OutputRest(open: seq<Span>, text: seq<Token>)
    requires Break !in text
    ensures Output(open, text) == text
  {
    FirstBreakAt(text, |text|);
  }

  lemma {:induction false} OutputFirst(open: seq<Span>, line: seq<Token>, more: seq<Token>)
    requires Break !in line
    ensures Output(open, line + [Break] + more) == LineOf(open, line) + Output(After(open, line), more)
  {
    var text := line + [Break] + more;
    FirstBreakAt(text, |line|);
    assert text[..|line|] == line && text[|line| + 1..] == more;
    var lines := LinesOf(After(open, line), more);
    JoinedFirst(LineOf(open, line), lines);
    assert Rest(text) == Rest(more);
    Associative(LineOf(open, line), Joined(lines), Rest(more));
  }

  lemma {:induction false} FirstBreakAt(text: seq<Token>, i: nat)
    requires i <= |text| && (i < |text| ==> text[i] == Break)
    requires forall j :: 0 <= j < i ==> text[j] != Break
    ensures FirstBreak(text) == i
  {
    if i > 0 {
      FirstBreakAt(text[1..], i - 1);
    }
  }

  lemma {:induction false} JoinedFirst(line: seq<Token>, lines: seq<seq<Token>>)
    ensures Joined([line] + lines) == line + Joined(lines)
  {
    assert ([line] + lines)[1..] == lines;
  }

  // ---- what a line keeps ----

  /** The same characters, each in the same spans but perhaps for a line span around them. */
  ghost predicate SameSpans(after: seq<Glyph>, before: seq<Glyph>)
  {
    && |after| == |before|
    && forall i :: 0 <= i < |after| ==>
         after[i] == before[i] || after[i] == Glyph(before[i].c, [Line] + before[i].spans)
  }

  /** The same characters, all in one more line span. */
  ghost predicate InLine(after: seq<Glyph>, before: seq<Glyph>)
  {
    && |after| == |before|
    && forall i :: 0 <= i < |after| ==> after[i] == Glyph(before[i].c, [Line] + before[i].spans)
  }

  /** Reading with a line span below the stack: an unmatched close takes the line span, and no more. */
  lemma {:induction false} WithLine(stack: seq<Span>, text: seq<Token>)
    ensures After([Line] + stack, text) == (if Matched(stack, text) then [Line] else []) + After(stack, text)
    ensures Matched(stack, text) ==> Matched([Line] + stack, text)
    ensures SameSpans(Visible([Line] + stack, text), Visible(stack, text))
    ensures Matched(stack, text) ==> InLine(Visible([Line] + stack, text), Visible(stack, text))
    decreases text
  {
    if text != [] {
      var t := text[0];
      if t.Close? && stack == [] {
        assert Step([Line] + stack, t) == [] == Step(stack, t);
        assert Visible([Line] + stack, text) == Visible([], text[1..]) == Visible(stack, text);
      } else {
        assert Step([Line] + stack, t) == [Line] + Step(stack, t);
        WithLine(Step(stack, t), text[1..]);
      }
    }
  }

  lemma {:induction false} Opened(stack: seq<Span>, open: seq<Span>)
    ensures After(stack, Openings(open)) == stack + open
    ensures Matched(stack, Openings(open)) && Visible(stack, Openings(open)) == []
    decreases open
  {
    if open == [] {
      assert stack + open == stack;
    } else {
      assert Openings(open)[1..] == Openings(open[1..]);
      assert stack + [open[0]] + open[1..] == stack + open;
      Opened(stack + [open[0]], open[1..]);
    }
  }

  lemma {:induction false} Closed(stack: seq<Span>, n: nat)
    ensures After(stack, Closings(n)) == if n <= |stack| then stack[..|stack| - n] else []
    ensures Matched(stack, Closings(n)) <==> n <= |stack|
    ensures Visible(stack, Closings(n)) == []
  {
    if n > 0 {
      assert Closings(n)[1..] == Closings(n - 1);
      Closed(Step(stack, Close), n - 1);
    }
  }

  /** A line is well nested on its own exactly when no close in it is unmatched; its spans are kept in any case. */
  lemma {:induction false} LineKeeps(open: seq<Span>, text: seq<Token>)
    ensures After([], LineOf(open, text)) == []
    ensures WellNested(LineOf(open, text)) <==> Matched(open, text)
    ensures SameSpans(Visible([], LineOf(open, text)), Visible(open, text))
    ensures Matched(open, text) ==> InLine(Visible([], LineOf(open, text)), Visible(open, text))
  {
    if text == [] {
      BlankLine();
    } else {
      LineReads(open, text);
      WithLine(open, text);
      Ending(Matched(open, text), After(open, text));
    }
  }

  lemma {:induction false} LineReads(open: seq<Span>, text: seq<Token>)
    requires text != []
    ensures var ending := Closings(|After(open, text)|) + [Close];
      var stack := After([Line] + open, text);
      && After([], LineOf(open, text)) == After(stack, ending)
      && (Matched([], LineOf(open, text)) <==> Matched([Line] + open, text) && Matched(stack, ending))
      && Visible([], LineOf(open, text)) == Visible([Line] + open, text) + Visible(stack, ending)
  {
    var ending := Closings(|After(open, text)|) + [Close];
    assert LineOf(open, text) == ([Open(Line)] + Openings(open)) + (text + ending);
    Opening(open);
    Concat([], [Open(Line)] + Openings(open), text + ending);
    Concat([Line] + open, text, ending);
  }

  lemma {:induction false} Opening(open: seq<Span>)
    ensures var opening := [Open(Line)] + Openings(open);
      After([], opening) == [Line] + open && Matched([], opening) && Visible([], opening) == []
  {
    assert [Open(Line)] + Openings(open) == Openings([Line] + open);
    Opened([], [Line] + open);
  }

  lemma {:induction false} BlankLine()
    ensures WellNested([Open(Line), Blank, Close]) && Visible([], [Open(Line), Blank, Close]) == []
  {
    var line := [Open(Line), Blank, Close];
    assert line[1..] == [Blank, Close] && line[1..][1..] == [Close] && line[1..][1..][1..] == [];
    assert Step([], Open(Line)) == [Line] && Step([Line], Blank) == [Line] && Step([Line], Close) == [];
  }

  lemma {:induction false} Ending(matched: bool, open: seq<Span>)
    ensures var stack := (if matched then [Line] else []) + open;
      var ending := Closings(|open|) + [Close];
      After(stack, ending) == [] && Visible(stack, ending) == [] && (Matched(stack, ending) <==> matched)
  {
    var stack := (if matched then [Line] else []) + open;
    Closed(stack, |open|);
    Concat(stack, Closings(|open|), [Close]);
    assert stack[..|stack| - |open|] == if matched then [Line] else [];
  }

  // ---- what the whole text keeps ----

  /** Every emitted line is well nested exactly when no close before the last line break is unmatched. */
  lemma {:induction false} LinesNested(open: seq<Span>, text: seq<Token>)
    ensures (forall l :: l in LinesOf(open, text) ==> WellNested(l)) <==> Matched(open, Head(text))
    decreases text
  {
    var i := FirstBreak(text);
    if i < |text| {
      var line, more := text[..i], text[i + 1..];
      LineKeeps(open, line);
      LinesNested(After(open, line), more);
      HeadSplits(open, text);
      NestedFirst(LineOf(open, line), LinesOf(After(open, line), more));
    }
  }

  lemma {:induction false} NestedFirst(line: seq<Token>, lines: seq<seq<Token>>)
    ensures (forall l :: l in [line] + lines ==> WellNested(l))
       <==> WellNested(line) && forall l :: l in lines ==> WellNested(l)
  {
    assert line in [line] + lines;
    assert forall l :: l in lines ==> l in [line] + lines;
  }

  lemma {:induction false} HeadIs(text: seq<Token>)
    requires FirstBreak(text) < |text|
    ensures Head(text) == text[..FirstBreak(text)] + ([Break] + Head(text[FirstBreak(text) + 1..]))
  {
    var i := FirstBreak(text);
    var n := HeadLength(text[i + 1..]);
    assert text[..i + 1 + n] == text[..i] + ([text[i]] + text[i + 1..][..n]);
  }

  lemma {:induction false} HeadSplits(open: seq<Span>, text: seq<Token>)
    requires FirstBreak(text) < |text|
    ensures var line, more := text[..FirstBreak(text)], text[FirstBreak(text) + 1..];
      && (Matched(open, Head(text)) <==> Matched(open, line) && Matched(After(open, line), Head(more)))
      && Visible(open, Head(text)) == Visible(open, line) + Visible(After(open, line), Head(more))
  {
    var i := FirstBreak(text);
    var line, more := text[..i], text[i + 1..];
    HeadIs(text);
    AcrossBreak(open, line, Head(more));
  }

  lemma {:induction false} AcrossBreak(open: seq<Span>, line: seq<Token>, more: seq<Token>)
    ensures Matched(open, line + ([Break] + more)) <==> Matched(open, line) && Matched(After(open, line), more)
    ensures Visible(open, line + ([Break] + more)) == Visible(open, line) + Visible(After(open, line), more)
  {
    Concat(open, line, [Break] + more);
    Concat(After(open, line), [Break], more);
  }

  /** Every visible character before the last line break keeps its spans, for any text. */
  lemma {:induction false} HeadKept(open: seq<Span>, text: seq<Token>)
    ensures After([], Joined(LinesOf(open, text))) == []
    ensures SameSpans(Visible([], Joined(LinesOf(open, text))), Visible(open, Head(text)))
    ensures Matched(open, Head(text)) ==> InLine(Visible([], Joined(LinesOf(open, text))), Visible(open, Head(text)))
    decreases text
  {
    var i := FirstBreak(text);
    if i < |text| {
      var line, more := text[..i], text[i + 1..];
      LineKeeps(open, line);
      HeadKept(After(open, line), more);
      HeadSplits(open, text);
      var first, rest := LineOf(open, line), Joined(LinesOf(After(open, line), more));
      JoinedAt(open, text);
      Concat([], first, rest);
      SameConcat(Visible([], first), Visible(open, line), Visible([], rest), Visible(After(open, line), Head(more)));
    }
  }

  lemma {:induction false} JoinedAt(open: seq<Span>, text: seq<Token>)
    requires FirstBreak(text) < |text|
    ensures var line, more := text[..FirstBreak(text)], text[FirstBreak(text) + 1..];
      Joined(LinesOf(open, text)) == LineOf(open, line) + Joined(LinesOf(After(open, line), more))
  {
    var line, more := text[..FirstBreak(text)], text[FirstBreak(text) + 1..];
    JoinedFirst(LineOf(open, line), LinesOf(After(open, line), more));
  }

  lemma {:induction false} SameConcat(a: seq<Glyph>, a': seq<Glyph>, b: seq<Glyph>, b': seq<Glyph>)
    ensures SameSpans(a, a') && SameSpans(b, b') ==> SameSpans(a + b, a' + b')
    ensures InLine(a, a') && InLine(b, b') ==> InLine(a + b, a' + b')
  {
  }

  /**
   Well-nested text that ends in a line break: every line is well nested and every character keeps its spans,
   in a line.
   */
  lemma {:induction false} SplitKeeps(text: seq<Token>)
    requires Matched([], text) && text != [] && text[|text| - 1] == Break
    ensures Rest(text) == [] && forall l :: l in LinesOf([], text) ==> WellNested(l)
    ensures InLine(Visible([], Joined(LinesOf([], text))), Visible([], text))
  {
    HeadAll(text);
    assert Head(text) == text;
    LinesNested([], text);
    HeadKept([], text);
  }

  lemma {:induction false} HeadAll(text: seq<Token>)
    requires text != [] ==> text[|text| - 1] == Break
    ensures HeadLength(text) == |text|
  {
    if text != [] {
      HeadAll(text[FirstBreak(text) + 1..]);
    }
  }

  // ---- the text after the last line break ----

  /** How many spans opened before the text are closed in it before its first visible character. */
  function Taken(depth: nat, text: seq<Token>): (n: nat)
    decreases text
  {
    if text == [] || text[0].Ch? then 0
    else if text[0].Open? then Taken(depth + 1, text[1..])
    else if !text[0].Close? then Taken(depth, text[1..])
    else if depth == 0 then 1 + Taken(0, text[1..])
    else Taken(depth - 1, text[1..])
  }

  lemma {:induction false} Unseen(stack: seq<Span>, text: seq<Token>)
    requires text != [] && !text[0].Ch?
    ensures Visible(stack, text) == Visible(Step(stack, text[0]), text[1..])
  {
  }

  lemma {:induction false} SeenIn(carried: seq<Span>, stack: seq<Span>, text: seq<Token>)
    requires carried != [] && text != [] && text[0].Ch?
    ensures Visible(carried + stack, text) != Visible(stack, text) && Visible(stack, text) != []
  {
    assert |carried + stack| != |stack|;
    assert Visible(carried + stack, text)[0].spans == carried + stack && Visible(stack, text)[0].spans == stack;
  }

  /** Reading from two stacks, one having the given spans below the other. */
  lemma {:induction false} ReadFrom(carried: seq<Span>, stack: seq<Span>, text: seq<Token>)
    ensures Visible(carried + stack, text) == Visible(stack, text) <==>
            Visible(stack, text) == [] || |carried| <= Taken(|stack|, text)
    decreases text
  {
    if carried == [] {
      assert carried + stack == stack;
    } else if text != [] {
      if text[0].Ch? {
        SeenIn(carried, stack, text);
      } else {
        Unseen(carried + stack, text);
        Unseen(stack, text);
        var taken := text[0].Close? && stack == [];
        var carried', stack' := if taken then carried[..|carried| - 1] else carried, Step(stack, text[0]);
        assert Step(carried + stack, text[0]) == carried' + stack';
        ReadFrom(carried', stack', text[1..]);
      }
    }
  }

  /**
   Text after the last line break is left outside any line and without reopened spans: its characters
   keep their spans exactly when all spans open at that break are closed again before the first of them.
   */
  lemma {:induction false} RestKept(text: seq<Token>)
    ensures var rest, open := Rest(text), After([], Head(text));
      && Visible([], Output([], text)) == Visible([], Joined(LinesOf([], text))) + Visible([], rest)
      && Visible([], text) == Visible([], Head(text)) + Visible(open, rest)
      && (Visible([], rest) == Visible(open, rest) <==> Visible([], rest) == [] || |open| <= Taken(0, rest))
  {
    var rest, open := Rest(text), After([], Head(text));
    HeadKept([], text);
    Concat([], Joined(LinesOf([], text)), rest);
    assert text == Head(text) + rest;
    Concat([], Head(text), rest);
    assert open + [] == open;
    ReadFrom(open, [], rest);
  }

  /** One line for every line break. */
  lemma {:induction false} LineCount(open: seq<Span>, text: seq<Token>)
    ensures |LinesOf(open, text)| == multiset(text)[Break]
    decreases text
  {
    var i := FirstBreak(text);
    if i < |text| {
      LineCount(After(open, text[..i]), text[i + 1..]);
      assert text == text[..i] + [Break] + text[i + 1..];
      BreakCount(text[..i], text[i + 1..]);
    } else {
      assert Break !in text;
    }
  }

  lemma {:induction false} BreakCount(line: seq<Token>, more: seq<Token>)
    requires Break !in line
    ensures multiset(line + [Break] + more)[Break] == 1 + multiset(more)[Break]
  {
    assert Break !in multiset(line);
  }
}
