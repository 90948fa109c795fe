/** What the about text is: words, lines filled greedily, and spaces spread so that every
    line but the last is as wide as the box. */
module About {

  type Word = string

  /** DFC_ABOUT_LINE_WIDTH. */
  const WIDTH := 24

  // ----- Words and lines -----

  /** The length of the word a text starts with. */
  function LeadLen(p: string): (n: nat)
    ensures n <= |p| && ' ' !in p[..n] && (n == |p| || p[n] == ' ')
  {
    if p == "" || p[0] == ' ' then 0 else 1 + LeadLen(p[1..])
  }

  /** The words of a text, in order. */
  function Words(p: string): seq<Word>
    decreases |p|
  {
    if p == "" then []
    else if p[0] == ' ' then Words(p[1..])
    else [p[..LeadLen(p)]] + Words(p[LeadLen(p)..])
  }

  predicate IsWord(w: Word) {
    w != "" && ' ' !in w
  }

  predicate AllWords(ws: seq<Word>) {
    forall i | 0 <= i < |ws| :: IsWord(ws[i])
  }

  function TextLength(line: seq<Word>): nat {
    if line == [] then 0 else |line[0]| + TextLength(line[1..])
  }

  /** The width of a line with single spaces. */
  function Natural(line: seq<Word>): nat {
    TextLength(line) + if line == [] then 0 else |line| - 1
  }

  /** A line is a single word, or it is not too wide. */
  predicate Fits(line: seq<Word>) {
    |line| == 1 || (line != [] && Natural(line) <= WIDTH)
  }

  predicate AllFit(lines: seq<seq<Word>>) {
    forall i | 0 <= i < |lines| :: Fits(lines[i])
  }

  function Join(lines: seq<seq<Word>>): seq<Word> {
    if lines == [] then [] else lines[0] + Join(lines[1..])
  }

  /** Greedy filling: cur is the line being filled. */
  function Lines(cur: seq<Word>, rest: seq<Word>): seq<seq<Word>>
    decreases |rest|
  {
    if rest == [] then if cur == [] then [] else [cur]
    else if cur != [] && Natural(cur) + 1 + |rest[0]| > WIDTH then [cur] + Lines([rest[0]], rest[1..])
    else Lines(cur + [rest[0]], rest[1..])
  }

  // ----- Justification -----

  function Spaces(n: nat): (s: string)
    ensures |s| == n
  {
    if n == 0 then "" else " " + Spaces(n - 1)
  }

  /** Words with the given gaps between them. */
  function Interleave(ws: seq<Word>, gaps: seq<nat>): string
    requires ws != [] ==> |gaps| == |ws| - 1
  {
    if ws == [] then ""
    else if |ws| == 1 then ws[0]
    else ws[0] + Spaces(gaps[0]) + Interleave(ws[1..], gaps[1..])
  }

  /** The width of the i-th gap: the line's spaces spread evenly over its gaps if it is short
      and to be justified, a single space otherwise. */
  function Gap(ws: seq<Word>, justify: bool, i: nat): nat
    requires |ws| > 1
  {
    var n := |ws| - 1;
    if justify && TextLength(ws) + n < WIDTH then
      var spaces := WIDTH - TextLength(ws);
      spaces / n + (if i < spaces % n then 1 else 0)
    else 1
  }

  function LineGaps(ws: seq<Word>, justify: bool): (gaps: seq<nat>)
    ensures ws != [] ==> |gaps| == |ws| - 1
  {
    if ws == [] then [] else seq(|ws| - 1, i requires 0 <= i < |ws| - 1 => Gap(ws, justify, i))
  }

  function RenderLine(ws: seq<Word>, justify: bool): string {
    Interleave(ws, LineGaps(ws, justify))
  }

  /** All lines but the last are justified. */
  function RenderLines(lines: seq<seq<Word>>): string {
    if lines == [] then "" else RenderLine(lines[0], |lines| > 1) + "\n" + RenderLines(lines[1..])
  }
}
