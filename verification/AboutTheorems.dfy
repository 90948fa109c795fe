/** Greedy filling uses as few lines as possible, and justified lines are exactly as wide as
    the box, with the words unchanged. */
module AboutTheorems {
  import opened About

  // ----- Widths -----

  lemma {:induction false} TextLengthAppend(a: seq<Word>, b: seq<Word>)
    ensures TextLength(a + b) == TextLength(a) + TextLength(b)
  {
    if a == [] {
      assert a + b == b;
    } else {
      assert (a + b)[1..] == a[1..] + b;
      TextLengthAppend(a[1..], b);
    }
  }

  lemma NaturalAppend(cur: seq<Word>, w: Word)
    requires cur != []
    ensures Natural(cur + [w]) == Natural(cur) + 1 + |w|
  {
    TextLengthAppend(cur, [w]);
    assert TextLength([w]) == |w| + TextLength([]);
  }

  lemma NaturalSuffix(a: seq<Word>, b: seq<Word>)
    requires b != []
    ensures Natural(b) <= Natural(a + b)
  {
    TextLengthAppend(a, b);
  }

  lemma {:induction false} WordsAreLong(ws: seq<Word>)
    requires AllWords(ws)
    ensures |ws| <= TextLength(ws)
  {
    if ws != [] {
      assert IsWord(ws[0]);
      WordsAreLong(ws[1..]);
    }
  }

  /** A line that is not too wide holds at most twelve words. */
  lemma TwelveWords(line: seq<Word>)
    requires AllWords(line) && Fits(line)
    ensures |line| <= WIDTH / 2
  {
    WordsAreLong(line);
  }

  // ----- Greedy filling -----

  lemma {:induction false} JoinAppend(xs: seq<seq<Word>>, ys: seq<seq<Word>>)
    ensures Join(xs + ys) == Join(xs) + Join(ys)
  {
    if xs == [] {
      assert xs + ys == ys;
    } else {
      assert (xs + ys)[1..] == xs[1..] + ys;
      JoinAppend(xs[1..], ys);
    }
  }

  /** The lines are a split of the words, and every line fits. */
  lemma {:induction false} LinesSplit(cur: seq<Word>, rest: seq<Word>)
    requires cur == [] || Fits(cur)
    ensures Join(Lines(cur, rest)) == cur + rest && AllFit(Lines(cur, rest))
    decreases |rest|
  {
    if rest == [] {
      assert cur + rest == cur && Join([]) == [];
      if cur != [] { assert [cur][1..] == [] && cur + [] == cur; }
    } else {
      var w := rest[0];
      assert rest == [w] + rest[1..];
      if cur != [] && Natural(cur) + 1 + |w| > WIDTH {
        LinesSplit([w], rest[1..]);
        var more := Lines([w], rest[1..]);
        assert ([cur] + more)[1..] == more;
      } else {
        if cur != [] { NaturalAppend(cur, w); }
        LinesSplit(cur + [w], rest[1..]);
        assert cur + [w] + rest[1..] == cur + rest;
      }
    }
  }

  /** A shorter current line never needs more lines, and at most one fewer. */
  lemma {:induction false} Ahead(a: seq<Word>, b: seq<Word>, rest: seq<Word>)
    requires b != []
    ensures |Lines(b, rest)| <= |Lines(a + b, rest)| <= 1 + |Lines(b, rest)|
    decreases |rest|
  {
    if rest != [] {
      var w := rest[0];
      NaturalSuffix(a, b);
      if Natural(a + b) + 1 + |w| > WIDTH {
        if Natural(b) + 1 + |w| <= WIDTH { Ahead(b, [w], rest[1..]); }
      } else {
        assert a + b + [w] == a + (b + [w]);
        Ahead(a, b + [w], rest[1..]);
      }
    }
  }

  lemma {:induction false} FitsPrefix(x: seq<Word>, w: Word, y: seq<Word>)
    requires x != [] && Fits(x + [w] + y)
    ensures Natural(x) + 1 + |w| <= WIDTH
  {
    TextLengthAppend(x + [w], y);
    NaturalAppend(x, w);
  }

  /** What the words of a text are: none in the empty one, a text without spaces is one, and a
      space separates. */
  lemma {:induction false} WordsAre(p: string, q: string)
    ensures Words("") == [] && (IsWord(p) ==> Words(p) == [p])
    ensures Words(p + " " + q) == Words(p) + Words(q)
    decreases |p|
  {
    var t := p + " " + q;
    if p == "" {
      assert t[1..] == q && Words(p) == [];
      assert [] + Words(q) == Words(q);
    } else if p[0] == ' ' {
      assert t[1..] == p[1..] + " " + q;
      WordsAre(p[1..], q);
    } else {
      var n := LeadLen(p);
      LeadIs(p, q);
      assert t[..n] == p[..n] && t[n..] == p[n..] + " " + q;
      WordsAre(p[n..], q);
      assert [p[..n]] + (Words(p[n..]) + Words(q)) == [p[..n]] + Words(p[n..]) + Words(q);
      if IsWord(p) {
        assert n == |p| && p[..n] == p && p[n..] == "";
      }
    }
  }

  lemma {:induction false} LeadIs(p: string, q: string)
    requires p != "" && p[0] != ' '
    ensures LeadLen(p + " " + q) == LeadLen(p) > 0
    decreases |p|
  {
    var t := p + " " + q;
    assert t[1..] == p[1..] + " " + q;
    if |p| > 1 && p[1] != ' ' {
      LeadIs(p[1..], q);
    }
  }

  predicate Closed(line: seq<Word>, next: seq<Word>) {
    line != [] && next != [] && Natural(line) + 1 + |next[0]| > 24
  }

  /** Filling is greedy: the word that starts a line would not have fitted on the one before. */
  lemma {:induction false} LinesAreFull(cur: seq<Word>, rest: seq<Word>)
    requires cur == [] || Fits(cur)
    ensures var lines := Lines(cur, rest);
            && (cur != [] ==> lines != [] && cur <= lines[0])
            && forall i, j | 0 <= i && j == i + 1 < |lines| :: Closed(lines[i], lines[j])
    decreases |rest|
  {
    if rest != [] {
      var w := rest[0];
      if cur != [] && Natural(cur) + 1 + |w| > WIDTH {
        LinesAreFull([w], rest[1..]);
        var more := Lines([w], rest[1..]);
        assert more[0][0] == w;
        var lines := [cur] + more;
        forall i, j | 0 <= i && j == i + 1 < |lines| ensures Closed(lines[i], lines[j]) {
          if i > 0 { assert lines[j] == more[j - 1] && lines[i] == more[i - 1]; }
        }
      } else {
        if cur != [] { NaturalAppend(cur, w); }
        LinesAreFull(cur + [w], rest[1..]);
      }
    }
  }

  /** Any other split whose first line already holds x + cur needs at least as many lines. */
  lemma {:induction false} Fewest(x: seq<Word>, cur: seq<Word>, rest: seq<Word>, lines: seq<seq<Word>>)
    requires cur != [] && lines != [] && AllFit(lines) && Join(lines) == x + cur + rest
    requires x + cur <= lines[0]
    ensures |Lines(cur, rest)| <= |lines|
    decreases |rest|
  {
    if rest != [] {
      var w := rest[0];
      var n := |x + cur|;
      var first := lines[0];
      assert first <= Join(lines) && Join(lines)[n..] == rest;
      if |first| > n {
        assert first[n] == w && first == x + cur + [w] + first[n + 1..];
        FitsPrefix(x + cur, w, first[n + 1..]);
        NaturalSuffix(x, cur);
        assert x + (cur + [w]) == x + cur + [w] && x + cur + [w] + rest[1..] == x + cur + rest;
        Fewest(x, cur + [w], rest[1..], lines);
      } else {
        NextLine(x, cur, rest, lines);
        assert [] + [w] + rest[1..] == rest && [] + [w] == [w];
        Fewest([], [w], rest[1..], lines[1..]);
        Ahead(cur, [w], rest[1..]);
      }
    }
  }

  lemma NextLine(x: seq<Word>, cur: seq<Word>, rest: seq<Word>, lines: seq<seq<Word>>)
    requires lines != [] && AllFit(lines) && Join(lines) == x + cur + rest && lines[0] == x + cur && rest != []
    ensures |lines| > 1 && Join(lines[1..]) == rest && [rest[0]] <= lines[1] && AllFit(lines[1..])
  {
    assert Join(lines)[|x + cur|..] == rest;
    assert Join(lines[1..]) == rest;
    if |lines| > 1 { assert Fits(lines[1]) && Join(lines[1..]) == lines[1] + Join(lines[1..][1..]); }
  }

  /** Optimality: no split of the words into fitting lines has fewer lines than the greedy one. */
  lemma GreedyIsOptimal(ws: seq<Word>, lines: seq<seq<Word>>)
    requires AllFit(lines) && Join(lines) == ws
    ensures Join(Lines([], ws)) == ws && AllFit(Lines([], ws))
    ensures |Lines([], ws)| <= |lines|
  {
    LinesSplit([], ws);
    assert [] + ws == ws;
    if ws != [] {
      assert lines != [] && Fits(lines[0]);
      assert Join(lines) == lines[0] + Join(lines[1..]);
      assert [] + [ws[0]] == [ws[0]] && [] + [ws[0]] + ws[1..] == ws;
      Fewest([], [ws[0]], ws[1..], lines);
    }
  }

  // ----- Gaps -----

  function Sum(gaps: seq<nat>): nat {
    if gaps == [] then 0 else gaps[0] + Sum(gaps[1..])
  }

  /** As even as possible: gaps differ by at most one, and the wider ones come first. */
  predicate Balanced(gaps: seq<nat>) {
    forall i, j | 0 <= i < j < |gaps| :: gaps[j] <= gaps[i] <= gaps[j] + 1
  }

  /** The first e gaps have width b + 1, the others width b. */
  predicate Stepped(gaps: seq<nat>, b: nat, e: nat) {
    forall i | 0 <= i < |gaps| :: gaps[i] == b + (if i < e then 1 else 0)
  }

  lemma {:induction false} SteppedSum(gaps: seq<nat>, b: nat, e: nat)
    requires Stepped(gaps, b, e) && e <= |gaps|
    ensures Sum(gaps) == |gaps| * b + e
  {
    if gaps != [] {
      SteppedSum(gaps[1..], b, if e > 0 then e - 1 else 0);
      assert |gaps| * b == b + (|gaps| - 1) * b;
    }
  }

  lemma {:induction false} BalancedIsStepped(gaps: seq<nat>, b: nat) returns (e: nat)
    requires Balanced(gaps) && forall i | 0 <= i < |gaps| :: b <= gaps[i] <= b + 1
    ensures e <= |gaps| && Stepped(gaps, b, e)
  {
    if gaps == [] {
      e := 0;
    } else {
      e := BalancedIsStepped(gaps[1..], b);
      if gaps[0] == b + 1 {
        forall i | 0 <= i < |gaps| ensures gaps[i] == b + (if i < e + 1 then 1 else 0) {
          if i > 0 { assert gaps[i] == gaps[1..][i - 1]; }
        }
        e := e + 1;
      } else {
        forall i | 0 < i < |gaps| ensures gaps[i] == b {
          assert gaps[i] <= gaps[0];
        }
        e := 0;
      }
    }
  }

  lemma {:induction false} AtLeastOnce(n: nat, d: nat)
    requires d >= 1
    ensures n * d >= n
  {
    if d > 1 { AtLeastOnce(n, d - 1); }
  }

  lemma SmallerQuotient(n: nat, b: nat, e: nat, q: nat, r: nat)
    requires e < n && r < n && n * b + e == n * q + r
    ensures b <= q
  {
    if q < b {
      AtLeastOnce(n, b - q);
    }
  }

  lemma DivisionIsUnique(n: nat, b: nat, e: nat, x: nat)
    requires e < n && x == n * b + e
    ensures x / n == b && x % n == e
  {
    var q, r := x / n, x % n;
    assert n * q + r == x;
    SmallerQuotient(n, b, e, q, r);
    SmallerQuotient(n, q, r, b, e);
  }

  lemma BalancedTotal(gaps: seq<nat>)
    requires gaps != [] && Balanced(gaps)
    ensures Stepped(gaps, Sum(gaps) / |gaps|, Sum(gaps) % |gaps|)
  {
    var n := |gaps|;
    var b := gaps[n - 1];
    forall i | 0 <= i < n ensures b <= gaps[i] <= b + 1 {
      if i < n - 1 { assert gaps[n - 1] <= gaps[i] <= gaps[n - 1] + 1; }
    }
    var e := BalancedIsStepped(gaps, b);
    SteppedSum(gaps, b, e);
    assert e < n by { assert gaps[n - 1] == b + (if n - 1 < e then 1 else 0); }
    DivisionIsUnique(n, b, e, Sum(gaps));
  }

  lemma SteppedIsBalanced(gaps: seq<nat>, b: nat, e: nat, total: nat)
    requires Stepped(gaps, b, e) && e <= |gaps| && total == |gaps| * b + e
    ensures Balanced(gaps) && Sum(gaps) == total
  {
    SteppedSum(gaps, b, e);
  }

  /** Quotient and remainder give the balanced gaps, and there are no others of that total. */
  lemma BalancedGaps(gaps: seq<nat>, total: nat)
    requires gaps != []
    ensures Balanced(gaps) && Sum(gaps) == total <==> Stepped(gaps, total / |gaps|, total % |gaps|)
  {
    if Stepped(gaps, total / |gaps|, total % |gaps|) {
      var n := |gaps|;
      assert total == n * (total / n) + total % n;
      SteppedIsBalanced(gaps, total / n, total % n, total);
    } else if Balanced(gaps) && Sum(gaps) == total {
      BalancedTotal(gaps);
    }
  }

  /** The gaps of a justified line that fits: at least one space each, as even as possible
      with the wider ones first, and together they fill the line. */
  lemma JustifiedGaps(ws: seq<Word>)
    requires |ws| > 1 && Fits(ws)
    ensures var gaps := LineGaps(ws, true);
            && Balanced(gaps) && Sum(gaps) == WIDTH - TextLength(ws)
            && forall i | 0 <= i < |gaps| :: gaps[i] >= 1
  {
    var gaps := LineGaps(ws, true);
    var n, total := |gaps|, WIDTH - TextLength(ws);
    assert n <= total;
    if n < total {
      assert total / n >= 1;
    } else {
      DivisionIsUnique(n, 1, 0, total);
    }
    assert Stepped(gaps, total / n, total % n);
    BalancedGaps(gaps, total);
  }

  // ----- Rendered lines -----

  lemma {:induction false} InterleaveWidth(ws: seq<Word>, gaps: seq<nat>)
    requires ws != [] && |gaps| == |ws| - 1
    ensures |Interleave(ws, gaps)| == TextLength(ws) + Sum(gaps)
  {
    if |ws| > 1 {
      InterleaveWidth(ws[1..], gaps[1..]);
    } else {
      assert TextLength(ws) == |ws[0]| + TextLength(ws[1..]);
    }
  }

  lemma {:induction false} BlanksAre(s: string)
    requires forall i | 0 <= i < |s| :: s[i] == ' '
    ensures s == Spaces(|s|)
  {
    if s != "" { BlanksAre(s[1..]); }
  }

  /** Between the words k and k + 1 of a line there are gaps[k] blanks and nothing else. */
  lemma {:induction false} GapAt(ws: seq<Word>, gaps: seq<nat>, k: nat, blanks: string)
    requires |gaps| == |ws| - 1 && k < |gaps|
    requires |blanks| == gaps[k] && forall i | 0 <= i < |blanks| :: blanks[i] == ' '
    ensures Interleave(ws, gaps) == Interleave(ws[..k + 1], gaps[..k]) + blanks + Interleave(ws[k + 1..], gaps[k + 1..])
  {
    if k == 0 {
      BlanksAre(blanks);
      assert ws[..1] == [ws[0]];
    } else {
      var left, right := Interleave(ws[1..][..k], gaps[1..][..k - 1]), Interleave(ws[k + 1..], gaps[k + 1..]);
      assert ws[1..][k..] == ws[k + 1..] && gaps[1..][k..] == gaps[k + 1..];
      GapAt(ws[1..], gaps[1..], k - 1, blanks);
      assert ws[..k + 1][1..] == ws[1..][..k] && gaps[..k][1..] == gaps[1..][..k - 1];
      assert Interleave(ws[..k + 1], gaps[..k]) == ws[0] + Spaces(gaps[0]) + left;
      assert ws[0] + Spaces(gaps[0]) + (left + blanks + right) == ws[0] + Spaces(gaps[0]) + left + blanks + right;
    }
  }

  lemma {:induction false} EndsInNewline(lines: seq<seq<Word>>)
    ensures lines != [] ==> RenderLines(lines) != "" && RenderLines(lines)[|RenderLines(lines)| - 1] == '\n'
  {
    if lines != [] {
      EndsInNewline(lines[1..]);
      assert lines[1..] == [] ==> RenderLines(lines[1..]) == "";
    }
  }

  lemma {:induction false} LeadingWord(w: Word, tail: string)
    requires ' ' !in w && (tail == "" || tail[0] == ' ')
    ensures LeadLen(w + tail) == |w|
  {
    if w != "" {
      assert (w + tail)[0] == w[0] && (w + tail)[1..] == w[1..] + tail;
      LeadingWord(w[1..], tail);
    } else {
      assert w + tail == tail;
    }
  }

  lemma {:induction false} SkipSpaces(n: nat, tail: string)
    ensures Words(Spaces(n) + tail) == Words(tail)
  {
    if n == 0 {
      assert Spaces(n) + tail == tail;
    } else {
      assert (Spaces(n) + tail)[1..] == Spaces(n - 1) + tail;
      SkipSpaces(n - 1, tail);
    }
  }

  lemma FirstWord(w: Word, tail: string)
    requires IsWord(w) && (tail == "" || tail[0] == ' ')
    ensures Words(w + tail) == [w] + Words(tail)
  {
    LeadingWord(w, tail);
    assert (w + tail)[..|w|] == w && (w + tail)[|w|..] == tail;
    assert (w + tail)[0] == w[0];
  }

  /** Nothing is lost in a line: reading it back gives its words. */
  lemma {:induction false} InterleaveKeepsWords(ws: seq<Word>, gaps: seq<nat>)
    requires AllWords(ws) && ws != [] && |gaps| == |ws| - 1 && forall i | 0 <= i < |gaps| :: gaps[i] >= 1
    ensures Words(Interleave(ws, gaps)) == ws
  {
    if |ws| == 1 {
      FirstWord(ws[0], "");
      assert ws[0] + "" == ws[0];
    } else {
      var rest := Interleave(ws[1..], gaps[1..]);
      FirstWord(ws[0], Spaces(gaps[0]) + rest);
      SkipSpaces(gaps[0], rest);
      InterleaveKeepsWords(ws[1..], gaps[1..]);
      assert ws[0] + Spaces(gaps[0]) + rest == ws[0] + (Spaces(gaps[0]) + rest);
    }
  }

  /** A rendered line reads back as its words; a justified one of two or more words is
      exactly as wide as the box. */
  lemma RenderedLine(ws: seq<Word>, justify: bool)
    requires AllWords(ws) && Fits(ws)
    ensures Words(RenderLine(ws, justify)) == ws
    ensures |ws| > 1 && justify ==> |RenderLine(ws, justify)| == WIDTH
    ensures |ws| == 1 || !justify ==> |RenderLine(ws, justify)| == Natural(ws)
  {
    var gaps := LineGaps(ws, justify);
    if |ws| > 1 && justify {
      JustifiedGaps(ws);
    } else {
      assert Stepped(gaps, 1, 0);
      SteppedSum(gaps, 1, 0);
    }
    InterleaveWidth(ws, gaps);
    InterleaveKeepsWords(ws, gaps);
  }

  // ----- Paragraphs -----

  function LineLen(t: string): (n: nat)
    ensures n <= |t| && '\n' !in t[..n] && (n == |t| || t[n] == '\n')
  {
    if t == "" || t[0] == '\n' then 0 else 1 + LineLen(t[1..])
  }

  /** The lines of a text, each without its newline. */
  function TextLines(t: string): seq<string>
    decreases |t|
  {
    if t == "" then []
    else
      var n := LineLen(t);
      [t[..n]] + if n < |t| then TextLines(t[n + 1..]) else []
  }

  function Rendered(lines: seq<seq<Word>>): seq<string> {
    if lines == [] then [] else [RenderLine(lines[0], |lines| > 1)] + Rendered(lines[1..])
  }

  predicate NoNewline(ws: seq<Word>) {
    forall i | 0 <= i < |ws| :: '\n' !in ws[i]
  }

  lemma {:induction false} InterleaveNoNewline(ws: seq<Word>, gaps: seq<nat>)
    requires NoNewline(ws) && (ws != [] ==> |gaps| == |ws| - 1)
    ensures '\n' !in Interleave(ws, gaps)
  {
    if |ws| > 1 {
      InterleaveNoNewline(ws[1..], gaps[1..]);
      SpacesNoNewline(gaps[0]);
    }
  }

  lemma {:induction false} SpacesNoNewline(n: nat)
    ensures '\n' !in Spaces(n)
  {
    if n > 0 { SpacesNoNewline(n - 1); }
  }

  lemma {:induction false} FirstLine(line: string, tail: string)
    requires '\n' !in line
    ensures LineLen(line + "\n" + tail) == |line|
  {
    var t := line + "\n" + tail;
    if line != "" {
      assert t[0] == line[0] && t[1..] == line[1..] + "\n" + tail;
      FirstLine(line[1..], tail);
    } else {
      assert t[0] == '\n';
    }
  }

  lemma {:induction false} RenderedLines(lines: seq<seq<Word>>)
    requires forall i | 0 <= i < |lines| :: NoNewline(lines[i])
    ensures TextLines(RenderLines(lines)) == Rendered(lines)
  {
    if lines != [] {
      var line, tail := RenderLine(lines[0], |lines| > 1), RenderLines(lines[1..]);
      InterleaveNoNewline(lines[0], LineGaps(lines[0], |lines| > 1));
      FirstLine(line, tail);
      RenderedLines(lines[1..]);
      var t := line + "\n" + tail;
      assert t[..|line|] == line && t[|line| + 1..] == tail;
    }
  }

  lemma {:induction false} WordsOfText(p: string)
    ensures AllWords(Words(p)) && ('\n' !in p ==> NoNewline(Words(p)))
    decreases |p|
  {
    if p != "" {
      if p[0] == ' ' { WordsOfText(p[1..]); } else { WordsOfText(p[LeadLen(p)..]); }
    }
  }

  lemma {:induction false} LinesOfWords(lines: seq<seq<Word>>, i: nat)
    requires i < |lines| && AllWords(Join(lines))
    ensures AllWords(lines[i]) && (NoNewline(Join(lines)) ==> NoNewline(lines[i]))
  {
    var all := Join(lines);
    assert all == lines[0] + Join(lines[1..]);
    assert lines[0] == all[..|lines[0]|];
    if i > 0 {
      assert Join(lines[1..]) == all[|lines[0]|..];
      LinesOfWords(lines[1..], i - 1);
    }
  }

  lemma {:induction false} RenderedAt(lines: seq<seq<Word>>, i: nat)
    requires i < |lines|
    ensures |Rendered(lines)| == |lines| && Rendered(lines)[i] == RenderLine(lines[i], i < |lines| - 1)
  {
    RenderedLength(lines);
    if i > 0 { RenderedAt(lines[1..], i - 1); }
  }

  lemma {:induction false} RenderedLength(lines: seq<seq<Word>>)
    ensures |Rendered(lines)| == |lines|
  {
    if lines != [] { RenderedLength(lines[1..]); }
  }

  /** The text of a paragraph, read back line by line: its words are the paragraph's words in
      order; every line but the last that has two or more words is exactly as wide as the
      box; the others have their natural width; and no other way of breaking the words into
      lines that fit has fewer lines. */
  lemma ParagraphText(p: string)
    requires '\n' !in p
    ensures var lines := Lines([], Words(p));
            var text := TextLines(RenderLines(lines));
            && Join(lines) == Words(p) && |text| == |lines|
            && (lines != [] ==> RenderLines(lines) != "" && RenderLines(lines)[|RenderLines(lines)| - 1] == '\n')
            && (forall i | 0 <= i < |lines| ::
                  && Words(text[i]) == lines[i] && Fits(lines[i])
                  && |text[i]| == if i < |lines| - 1 && |lines[i]| > 1 then 24 else Natural(lines[i]))
            && forall other: seq<seq<Word>> | AllFit(other) && Join(other) == Words(p) :: |text| <= |other|
  {
    hide Lines, Words, RenderLines, TextLines, Join, Rendered, Fits;
    var ws := Words(p);
    var lines := Lines([], ws);
    WordsOfText(p);
    LinesSplit([], ws);
    assert [] + ws == ws;
    forall i | 0 <= i < |lines| ensures AllWords(lines[i]) && NoNewline(lines[i]) {
      LinesOfWords(lines, i);
    }
    RenderedLines(lines);
    RenderedLength(lines);
    EndsInNewline(lines);
    forall i | 0 <= i < |lines|
      ensures Words(Rendered(lines)[i]) == lines[i]
      ensures |Rendered(lines)[i]| == if i < |lines| - 1 && |lines[i]| > 1 then WIDTH else Natural(lines[i])
    {
      RenderedAt(lines, i);
      RenderedLine(lines[i], i < |lines| - 1);
    }
    forall other: seq<seq<Word>> | AllFit(other) && Join(other) == ws ensures |lines| <= |other| {
      GreedyIsOptimal(ws, other);
    }
  }
}
