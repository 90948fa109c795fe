/** The loops that build the about text, proved against its meaning. */
module AboutText {
  import opened About
  import opened AboutTheorems

  /** The output string, appended to in place. */
  class Text {
    var content: string

    constructor ()
      ensures content == ""
    {
      content := "";
    }

    method Cat(s: string)
      modifies this
      ensures content == old(content) + s
    {
      content := content + s;
    }

    method PushBack(c: char)
      modifies this
      ensures content == old(content) + [c]
    {
      content := content + [c];
    }
  }

  method WordLen(p: string, at: nat) returns (length: nat)
    requires at <= |p|
    ensures length == LeadLen(p[at..])
  {
    length := 0;
    while at + length < |p| && p[at + length] != ' '
      invariant at + length <= |p| && LeadLen(p[at..]) == length + LeadLen(p[at + length..])
    {
      assert p[at + length..][1..] == p[at + length + 1..];
      length := length + 1;
    }
  }

  /** Each word lies inside the paragraph. */
  ghost predicate Inside(p: string, starts: seq<nat>, lengths: seq<nat>) {
    |starts| == |lengths| && forall i | 0 <= i < |starts| :: starts[i] + lengths[i] <= |p|
  }

  ghost function WordsAt(p: string, starts: seq<nat>, lengths: seq<nat>): (ws: seq<Word>)
    requires Inside(p, starts, lengths)
    ensures |ws| == |starts|
  {
    seq(|starts|, i requires 0 <= i < |starts| => p[starts[i]..starts[i] + lengths[i]])
  }

  /** The next word goes into the arrays, at an index that is inside them. */
  method StoreWord(ghost p: string, starts: array<nat>, lengths: array<nat>, count: nat, at: nat, n: nat)
    requires starts != lengths && count < starts.Length && count < lengths.Length && at + n <= |p|
    requires Inside(p, starts[..count], lengths[..count])
    modifies starts, lengths
    ensures Inside(p, starts[..count + 1], lengths[..count + 1])
    ensures WordsAt(p, starts[..count + 1], lengths[..count + 1])
         == WordsAt(p, old(starts[..count]), old(lengths[..count])) + [p[at..at + n]]
  {
    starts[count], lengths[count] := at, n;
    assert starts[..count + 1] == old(starts[..count]) + [at];
    assert lengths[..count + 1] == old(lengths[..count]) + [n];
  }

  method AppendSpaces(output: Text, n: nat)
    modifies output
    ensures output.content == old(output.content) + Spaces(n)
  {
    ghost var before := output.content;
    for j := 0 to n
      invariant output.content == before + Spaces(j)
    {
      output.PushBack(' ');
      SpacesSnoc(j);
    }
  }

  lemma {:induction false} SpacesSnoc(n: nat)
    ensures Spaces(n + 1) == Spaces(n) + " "
  {
    if n > 0 { SpacesSnoc(n - 1); }
  }

  method LengthOfWords(lengths: array<nat>, count: nat, ghost ws: seq<Word>) returns (n: nat)
    requires count == |ws| <= lengths.Length && forall i | 0 <= i < count :: |ws[i]| == lengths[i]
    ensures n == TextLength(ws)
  {
    n := 0;
    for i := 0 to count
      invariant n == TextLength(ws[..i])
    {
      assert ws[..i + 1] == ws[..i] + [ws[i]];
      TextLengthAppend(ws[..i], [ws[i]]);
      assert TextLength([ws[i]]) == |ws[i]| + TextLength([]);
      n := n + lengths[i];
    }
    assert ws[..count] == ws;
  }

  /** Quotient and remainder of the spaces over the gaps. */
  method SpreadSpaces(textLength: nat, gaps: nat, justify: bool, ghost ws: seq<Word>)
    returns (baseSpaces: nat, extraSpaces: nat)
    requires textLength == TextLength(ws) && gaps == if ws == [] then 0 else |ws| - 1
    ensures forall i | 0 <= i < gaps :: LineGaps(ws, justify)[i] == baseSpaces + if i < extraSpaces then 1 else 0
  {
    baseSpaces, extraSpaces := if gaps > 0 then 1 else 0, 0;
    if justify && gaps > 0 && textLength + gaps < WIDTH {
      var spaces := WIDTH - textLength;
      baseSpaces, extraSpaces := spaces / gaps, spaces % gaps;
    }
  }

  method AppendLine(output: Text, p: string, starts: array<nat>, lengths: array<nat>, count: nat, justify: bool,
                    ghost ws: seq<Word>)
    requires count <= starts.Length && count <= lengths.Length && Inside(p, starts[..count], lengths[..count])
    requires ws == WordsAt(p, starts[..count], lengths[..count])
    modifies output
    ensures output.content == old(output.content) + RenderLine(ws, justify) + "\n"
  {
    hide LineGaps, Interleave, TextLength, Spaces;
    ghost var widths := LineGaps(ws, justify);
    ghost var before := output.content;
    var textLength := LengthOfWords(lengths, count, ws);
    var gaps := if count > 0 then count - 1 else 0;
    var baseSpaces, extraSpaces := SpreadSpaces(textLength, gaps, justify, ws);
    AllRemains(ws, widths);
    for i := 0 to count
      invariant output.content + Remaining(ws, widths, i) == before + Interleave(ws, widths)
    {
      output.Cat(p[starts[i]..starts[i] + lengths[i]]);
      if i < gaps {
        AppendSpaces(output, baseSpaces + (if i < extraSpaces then 1 else 0));
      }
      RemainingStep(ws, widths, i);
    }
    output.PushBack('\n');
  }

  /** What is still to be written of a line after i words. */
  ghost function Remaining(ws: seq<Word>, gaps: seq<nat>, i: nat): string
    requires i <= |ws| && (ws != [] ==> |gaps| == |ws| - 1)
  {
    if i == |ws| then "" else Interleave(ws[i..], gaps[i..])
  }

  lemma AllRemains(ws: seq<Word>, gaps: seq<nat>)
    requires ws != [] ==> |gaps| == |ws| - 1
    ensures Remaining(ws, gaps, 0) == Interleave(ws, gaps)
  {
    assert ws[0..] == ws && gaps[0..] == gaps;
  }

  lemma RemainingStep(ws: seq<Word>, gaps: seq<nat>, i: nat)
    requires i < |ws| && |gaps| == |ws| - 1
    ensures Remaining(ws, gaps, i)
         == ws[i] + (if i < |gaps| then Spaces(gaps[i]) else "") + Remaining(ws, gaps, i + 1)
  {
    if i < |gaps| {
      assert ws[i..][1..] == ws[i + 1..] && gaps[i..][1..] == gaps[i + 1..];
    }
  }

  /** The line being filled: its words are in the arrays, it fits, and its width is known. */
  ghost predicate Filling(p: string, starts: seq<nat>, lengths: seq<nat>, lineLength: nat, cur: seq<Word>) {
    && Inside(p, starts, lengths) && cur == WordsAt(p, starts, lengths)
    && AllWords(cur) && |cur| <= WIDTH / 2
    && (cur != [] ==> Fits(cur) && lineLength == Natural(cur))
  }

  /** The body of the paragraph loop: take the next word, closing the current line first if
      the word does not fit. */
  method TakeWord(output: Text, p: string, starts: array<nat>, lengths: array<nat>, count0: nat, lineLength0: nat,
                  cursor: nat, ghost cur0: seq<Word>)
    returns (count: nat, lineLength: nat, next: nat, ghost cur: seq<Word>)
    requires starts != lengths && starts.Length == lengths.Length == WIDTH && count0 <= WIDTH
    requires cursor < |p| && p[cursor] != ' '
    requires Filling(p, starts[..count0], lengths[..count0], lineLength0, cur0)
    modifies output, starts, lengths
    ensures cursor < next <= |p| && count <= WIDTH && Filling(p, starts[..count], lengths[..count], lineLength, cur)
    ensures output.content + RenderLines(Lines(cur, Words(p[next..])))
         == old(output.content) + RenderLines(Lines(cur0, Words(p[cursor..])))
  {
    hide Lines, Words, RenderLines, RenderLine, Natural, LeadLen, Fits, IsWord;
    count, lineLength, cur := count0, lineLength0, cur0;
    var wordLength := WordLen(p, cursor);
    ghost var w := p[cursor..cursor + wordLength];
    NextWord(p, cursor, wordLength);
    var nextLength := if count == 0 then wordLength else lineLength + 1 + wordLength;
    if count > 0 && nextLength > WIDTH {
      AppendLine(output, p, starts, lengths, count, true, cur);
      Flush(old(output.content), cur, w, Words(p[cursor + wordLength..]));
      count, lineLength, cur := 0, 0, [];
    }
    ExtendLine(cur, w, Words(p[cursor + wordLength..]));
    StoreWord(p, starts, lengths, count, cursor, wordLength);
    count := count + 1;
    lineLength := if count == 1 then wordLength else lineLength + 1 + wordLength;
    next := cursor + wordLength;
    cur := cur + [w];
  }

  method AppendParagraph(output: Text, p: string)
    modifies output
    ensures output.content == old(output.content) + RenderLines(Lines([], Words(p)))
  {
    hide Lines, Words, RenderLines, RenderLine, Natural, Fits, IsWord;
    var starts, lengths := new nat[WIDTH], new nat[WIDTH];
    var count: nat, lineLength: nat, cursor: nat := 0, 0, 0;
    ghost var cur: seq<Word> := [];
    ghost var goal := output.content + RenderLines(Lines([], Words(p)));
    assert p[0..] == p;
    while cursor < |p|
      invariant cursor <= |p| && count <= WIDTH && Filling(p, starts[..count], lengths[..count], lineLength, cur)
      invariant output.content + RenderLines(Lines(cur, Words(p[cursor..]))) == goal
    {
      while cursor < |p| && p[cursor] == ' '
        invariant cursor <= |p|
        invariant output.content + RenderLines(Lines(cur, Words(p[cursor..]))) == goal
        modifies {}
      {
        SkipSpace(p, cursor);
        cursor := cursor + 1;
      }
      if cursor == |p| {
        break;
      }
      count, lineLength, cursor, cur := TakeWord(output, p, starts, lengths, count, lineLength, cursor, cur);
    }
    LastLine(output.content, cur, p[cursor..]);
    if count > 0 {
      AppendLine(output, p, starts, lengths, count, false, cur);
    }
  }

  lemma SkipSpace(p: string, cursor: nat)
    requires cursor < |p| && p[cursor] == ' '
    ensures Words(p[cursor..]) == Words(p[cursor + 1..])
  {
    assert p[cursor..][1..] == p[cursor + 1..];
  }

  /** At the end of the paragraph the current line is the last, and stays as it is. */
  lemma LastLine(before: string, cur: seq<Word>, rest: string)
    requires rest == ""
    ensures before + RenderLines(Lines(cur, Words(rest)))
         == if cur == [] then before else before + RenderLine(cur, false) + "\n"
  {
    if cur == [] {
      assert before + RenderLines(Lines(cur, Words(rest))) == before;
    } else {
      assert [cur][1..] == [] && RenderLine(cur, false) + "\n" + "" == RenderLine(cur, false) + "\n";
      assert before + (RenderLine(cur, false) + "\n") == before + RenderLine(cur, false) + "\n";
    }
  }

  lemma NextWord(p: string, cursor: nat, n: nat)
    requires cursor < |p| && p[cursor] != ' ' && n == LeadLen(p[cursor..])
    ensures 0 < n <= |p| - cursor && IsWord(p[cursor..cursor + n])
    ensures Words(p[cursor..]) == [p[cursor..cursor + n]] + Words(p[cursor + n..])
  {
    var rest := p[cursor..];
    assert rest[..n] == p[cursor..cursor + n] && rest[n..] == p[cursor + n..];
  }

  /** A word that no longer fits closes the current line, which is then not the last one. */
  lemma Flush(before: string, cur: seq<Word>, w: Word, rest: seq<Word>)
    requires cur != [] && Natural(cur) + 1 + |w| > WIDTH
    ensures before + RenderLine(cur, true) + "\n" + RenderLines(Lines([], [w] + rest))
         == before + RenderLines(Lines(cur, [w] + rest))
  {
    assert ([w] + rest)[1..] == rest && [] + [w] == [w];
    var more := Lines([w], rest);
    LinesSplit([w], rest);
    assert more != [];
    assert ([cur] + more)[1..] == more;
    assert RenderLines([cur] + more) == RenderLine(cur, true) + "\n" + RenderLines(more);
  }

  lemma ExtendLine(cur: seq<Word>, w: Word, rest: seq<Word>)
    requires AllWords(cur) && IsWord(w) && (cur == [] || Natural(cur) + 1 + |w| <= WIDTH)
    ensures Lines(cur, [w] + rest) == Lines(cur + [w], rest)
    ensures AllWords(cur + [w]) && Fits(cur + [w]) && |cur + [w]| <= WIDTH / 2
    ensures Natural(cur + [w]) == if cur == [] then |w| else Natural(cur) + 1 + |w|
  {
    assert ([w] + rest)[1..] == rest;
    if cur == [] {
      assert cur + [w] == [w] && TextLength([w]) == |w| + TextLength([]);
    } else {
      NaturalAppend(cur, w);
    }
    TwelveWords(cur + [w]);
  }
}
