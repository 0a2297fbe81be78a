/** The file-preserves-lines expectation: every nonblank source line reappears, in order and without overlap. */
module PreservedLines {
  import opened Common

  /** String.prototype.indexOf(part, from); -1 when absent. */
  function IndexOf(text: string, part: string, from: nat): (at: int)
    requires from <= |text|
    ensures at >= 0 ==> from <= at && OccursAt(text, part, at)
    ensures at >= 0 ==> forall k: nat | from <= k < at :: !OccursAt(text, part, k)
    ensures at < 0 ==> at == -1 && forall k: nat | from <= k :: !OccursAt(text, part, k)
    decreases |text| - from
  {
    if OccursAt(text, part, from) then from
    else if from == |text| then -1
    else IndexOf(text, part, from + 1)
  }

  /** String.prototype.includes, by search. */
  predicate Includes(text: string, part: string)
    ensures Includes(text, part) <==> Contains(text, part)
  {
    IndexOf(text, part, 0) >= 0
  }

  /** text.split(/\r?\n/u) */
  function SplitLines(text: string): (lines: seq<string>)
    ensures lines != []
  {
    if text == [] then [""]
    else if text[0] == '\n' then [""] + SplitLines(text[1..])
    else if |text| >= 2 && text[0] == '\r' && text[1] == '\n' then [""] + SplitLines(text[2..])
    else
      var rest := SplitLines(text[1..]);
      [[text[0]] + rest[0]] + rest[1..]
  }

  function DropBlank(lines: seq<string>): (kept: seq<string>)
    ensures forall i | 0 <= i < |kept| :: kept[i] != "" && !Blank(kept[i])
  {
    if lines == [] then []
    else if Blank(lines[0]) then DropBlank(lines[1..])
    else [lines[0]] + DropBlank(lines[1..])
  }

  function NonblankLines(text: string): seq<string> {
    DropBlank(SplitLines(text))
  }

  /** Every line occurs at its position, no earlier than the end of the line before it. */
  ghost predicate Placement(content: string, lines: seq<string>, at: seq<nat>) {
    && |at| == |lines|
    && (forall i | 0 <= i < |at| :: OccursAt(content, lines[i], at[i]))
    && (forall i | 0 < i < |at| :: at[i - 1] + |lines[i - 1]| <= at[i])
  }

  ghost predicate Preserved(content: string, lines: seq<string>) {
    exists at: seq<nat> :: Placement(content, lines, at)
  }

  /** The lines can be placed from a position on. */
  ghost predicate PlacedFrom(content: string, lines: seq<string>, from: nat) {
    lines == [] || exists at: nat :: from <= at && OccursAt(content, lines[0], at)
                                     && PlacedFrom(content, lines[1..], at + |lines[0]|)
  }

  lemma PlacedEarlier(content: string, lines: seq<string>, from: nat, earlier: nat)
    requires PlacedFrom(content, lines, from) && earlier <= from
    ensures PlacedFrom(content, lines, earlier)
  {
  }

  lemma {:induction false} PlacedFromPositions(content: string, lines: seq<string>, from: nat) returns (at: seq<nat>)
    requires PlacedFrom(content, lines, from)
    ensures Placement(content, lines, at)
    ensures at != [] ==> from <= at[0]
  {
    if lines == [] {
      at := [];
    } else {
      var first: nat :| from <= first && OccursAt(content, lines[0], first)
                        && PlacedFrom(content, lines[1..], first + |lines[0]|);
      var rest := PlacedFromPositions(content, lines[1..], first + |lines[0]|);
      at := [first] + rest;
      forall i | 0 < i < |at|
        ensures OccursAt(content, lines[i], at[i]) && at[i - 1] + |lines[i - 1]| <= at[i]
      {
        assert OccursAt(content, lines[1..][i - 1], rest[i - 1]);
        assert i > 1 ==> rest[i - 2] + |lines[1..][i - 2]| <= rest[i - 1];
      }
    }
  }

  lemma {:induction false} PositionsPlacedFrom(content: string, lines: seq<string>, at: seq<nat>, from: nat)
    requires Placement(content, lines, at)
    requires at != [] ==> from <= at[0]
    ensures PlacedFrom(content, lines, from)
  {
    if lines != [] {
      forall i | 0 <= i < |at[1..]|
        ensures OccursAt(content, lines[1..][i], at[1..][i])
        ensures i > 0 ==> at[1..][i - 1] + |lines[1..][i - 1]| <= at[1..][i]
      {
        assert OccursAt(content, lines[i + 1], at[i + 1]);
        assert at[i] + |lines[i]| <= at[i + 1];
      }
      PositionsPlacedFrom(content, lines[1..], at[1..], at[0] + |lines[0]|);
    }
  }

  lemma PreservedMeansPlaced(content: string, lines: seq<string>)
    ensures Preserved(content, lines) <==> PlacedFrom(content, lines, 0)
  {
    if Preserved(content, lines) {
      var at: seq<nat> :| Placement(content, lines, at);
      PositionsPlacedFrom(content, lines, at, 0);
    }
    if PlacedFrom(content, lines, 0) {
      var at := PlacedFromPositions(content, lines, 0);
    }
  }

  /** Placing the first line as early as possible never hurts. */
  lemma GreedyStep(content: string, lines: seq<string>, offset: nat)
    requires lines != [] && offset <= |content|
    ensures var found := IndexOf(content, lines[0], offset);
            PlacedFrom(content, lines, offset) <==> found >= 0 && PlacedFrom(content, lines[1..], found + |lines[0]|)
  {
    var found := IndexOf(content, lines[0], offset);
    if PlacedFrom(content, lines, offset) {
      var at: nat :| offset <= at && OccursAt(content, lines[0], at)
                     && PlacedFrom(content, lines[1..], at + |lines[0]|);
      PlacedEarlier(content, lines[1..], at + |lines[0]|, found + |lines[0]|);
    }
  }

  /** The greedy leftmost scan decides whether any placement at all exists. */
  method PreservesLines(content: string, text: string) returns (preserved: bool)
    ensures preserved <==> Preserved(content, NonblankLines(text))
  {
    var lines := NonblankLines(text);
    PreservedMeansPlaced(content, lines);
    var offset: nat := 0;
    for i := 0 to |lines|
      invariant offset <= |content|
      invariant PlacedFrom(content, lines, 0) <==> PlacedFrom(content, lines[i..], offset)
    {
      GreedyStep(content, lines[i..], offset);
      assert lines[i..][1..] == lines[i + 1..];
      var found := IndexOf(content, lines[i], offset);
      if found < 0 {
        return false;
      }
      offset := found + |lines[i]|;
    }
    return true;
  }

  // ----- A verbatim copy always passes -----

  /** Where the second line begins, or the end of a text of one line. */
  function NextLine(text: string): (k: nat)
    ensures k <= |text|
  {
    if text == [] then 0
    else if text[0] == '\n' then 1
    else if |text| >= 2 && text[0] == '\r' && text[1] == '\n' then 2
    else 1 + NextLine(text[1..])
  }

  lemma {:induction false} FirstLineLeads(text: string)
    ensures SplitLines(text)[0] <= text
    ensures |SplitLines(text)| > 1 ==> |SplitLines(text)[0]| < NextLine(text)
  {
    if text != [] && text[0] != '\n' && !(|text| >= 2 && text[0] == '\r' && text[1] == '\n') {
      FirstLineLeads(text[1..]);
      assert text == [text[0]] + text[1..];
    }
  }

  lemma {:induction false} OtherLines(text: string)
    requires |SplitLines(text)| > 1
    ensures SplitLines(text)[1..] == SplitLines(text[NextLine(text)..])
  {
    if text[0] != '\n' && !(|text| >= 2 && text[0] == '\r' && text[1] == '\n') {
      var rest := SplitLines(text[1..]);
      assert SplitLines(text)[1..] == rest[1..];
      OtherLines(text[1..]);
      assert text[1..][NextLine(text[1..])..] == text[NextLine(text)..];
    }
  }

  lemma PlacedFirst(content: string, line: string, others: seq<string>, from: nat)
    requires OccursAt(content, line, from) && PlacedFrom(content, others, from + |line|)
    ensures PlacedFrom(content, [line] + others, from)
  {
    var lines := [line] + others;
    assert lines[1..] == others;
    assert OccursAt(content, lines[0], from) && PlacedFrom(content, lines[1..], from + |lines[0]|);
  }

  lemma OccursInside(content: string, text: string, part: string, k: nat, i: nat)
    requires OccursAt(content, text, k) && OccursAt(text, part, i)
    ensures OccursAt(content, part, k + i)
  {
    var whole := content[k..k + |text|];
    forall j | 0 <= j < |part|
      ensures content[k + i + j] == part[j]
    {
      assert whole[i + j] == content[k + i + j];
      assert text[i..i + |part|][j] == text[i + j];
    }
  }

  lemma KeepFirst(content: string, lines: seq<string>, k: nat)
    requires lines != [] && OccursAt(content, lines[0], k)
    requires PlacedFrom(content, DropBlank(lines[1..]), k + |lines[0]|)
    ensures PlacedFrom(content, DropBlank(lines), k)
  {
    if Blank(lines[0]) {
      PlacedEarlier(content, DropBlank(lines[1..]), k + |lines[0]|, k);
    } else {
      PlacedFirst(content, lines[0], DropBlank(lines[1..]), k);
    }
  }

  lemma {:induction false} VerbatimPlaced(content: string, text: string, k: nat)
    requires OccursAt(content, text, k)
    ensures PlacedFrom(content, NonblankLines(text), k)
    decreases |text|
  {
    var lines := SplitLines(text);
    FirstLineLeads(text);
    assert text[0..|lines[0]|] == lines[0];
    OccursInside(content, text, lines[0], k, 0);
    if |lines| == 1 {
      assert lines[1..] == [];
    } else {
      var next := NextLine(text);
      OccursInside(content, text, text[next..], k, next);
      VerbatimPlaced(content, text[next..], k + next);
      OtherLines(text);
      PlacedEarlier(content, DropBlank(lines[1..]), k + next, k + |lines[0]|);
    }
    KeepFirst(content, lines, k);
  }

  /** Whatever surrounds it, an unchanged copy of the source satisfies the expectation. */
  lemma VerbatimCopyPasses(before: string, text: string, after: string)
    ensures Preserved(before + text + after, NonblankLines(text))
  {
    var content := before + text + after;
    assert content[|before|..|before| + |text|] == text;
    VerbatimPlaced(content, text, |before|);
    PlacedEarlier(content, NonblankLines(text), |before|, 0);
    PreservedMeansPlaced(content, NonblankLines(text));
  }

  lemma {:induction false} LineBreak(line: string, text: string)
    requires '\n' !in line && '\r' !in line
    ensures SplitLines(line + "\n" + text) == [line] + SplitLines(text)
    ensures SplitLines(line) == [line]
  {
    var whole := line + "\n" + text;
    if line == [] {
      assert whole[1..] == text;
    } else {
      LineBreak(line[1..], text);
      assert whole[1..] == line[1..] + "\n" + text;
      assert line == [line[0]] + line[1..];
    }
  }

  /** Overlapping occurrences do not count: the line aa twice is not found in the output aaa. */
  lemma OverlapRejected()
    ensures NonblankLines("aa\naa") == ["aa", "aa"]
    ensures !Preserved("aaa", NonblankLines("aa\naa"))
  {
    LineBreak("aa", "aa");
    LineBreak("aa", "");
    assert "aa" + "\n" + "aa" == "aa\naa";
    assert !IsSpace("aa"[0]);
    assert !Blank("aa");
    assert DropBlank(["aa", "aa"]) == ["aa", "aa"] by {
      assert ["aa", "aa"][1..] == ["aa"];
      assert ["aa"][1..] == [];
      assert DropBlank(["aa"]) == ["aa"];
    }
    forall at: seq<nat> | Placement("aaa", ["aa", "aa"], at)
      ensures false
    {
    }
  }

  // ----- What the lines of a text are -----

  function Mark(crlf: bool): string {
    if crlf then "\r\n" else "\n"
  }

  /** The lines with their breaks, a carriage return before the line feed where crlf says so. */
  function Laid(lines: seq<string>, crlf: seq<bool>): string
    requires |lines| == |crlf| + 1
  {
    if crlf == [] then lines[0] else lines[0] + (Mark(crlf[0]) + Laid(lines[1..], crlf[1..]))
  }

  /** What follows the first line. */
  function Tail(lines: seq<string>, crlf: seq<bool>): string
    requires |lines| == |crlf| + 1
  {
    if crlf == [] then "" else Mark(crlf[0]) + Laid(lines[1..], crlf[1..])
  }

  lemma FirstLine(lines: seq<string>, crlf: seq<bool>)
    requires |lines| == |crlf| + 1
    ensures Laid(lines, crlf) == lines[0] + Tail(lines, crlf)
  {
  }

  ghost predicate GoodLines(lines: seq<string>, crlf: seq<bool>) {
    && |lines| == |crlf| + 1
    && (forall i | 0 <= i < |lines| :: '\n' !in lines[i])
    && (forall i | 0 <= i < |crlf| && !crlf[i] && lines[i] != "" :: lines[i][|lines[i]| - 1] != '\r')
  }

  /** No line holds a line feed, or ends with a carriage return that belongs to the break. */
  ghost predicate LaidOut(text: string, lines: seq<string>, crlf: seq<bool>) {
    GoodLines(lines, crlf) && text == Laid(lines, crlf)
  }

  lemma EmptyLineFirst(text: string, mark: bool, rest: string, lines: seq<string>, crlf: seq<bool>)
    requires text == Mark(mark) + rest && LaidOut(rest, lines, crlf)
    ensures LaidOut(text, [""] + lines, [mark] + crlf)
  {
    var longer, marks := [""] + lines, [mark] + crlf;
    assert longer[1..] == lines && marks[1..] == crlf;
    assert Tail(longer, marks) == text;
    assert "" + text == text;
    FirstLine(longer, marks);
  }

  lemma {:induction false} LinesLaidOut(text: string) returns (crlf: seq<bool>)
    ensures LaidOut(text, SplitLines(text), crlf)
  {
    if text == [] {
      crlf := [];
    } else if text[0] == '\n' {
      var rest := LinesLaidOut(text[1..]);
      assert text == Mark(false) + text[1..];
      EmptyLineFirst(text, false, text[1..], SplitLines(text[1..]), rest);
      crlf := [false] + rest;
    } else if |text| >= 2 && text[0] == '\r' && text[1] == '\n' {
      var rest := LinesLaidOut(text[2..]);
      assert text == Mark(true) + text[2..];
      EmptyLineFirst(text, true, text[2..], SplitLines(text[2..]), rest);
      crlf := [true] + rest;
    } else {
      crlf := LinesLaidOut(text[1..]);
      var lines := SplitLines(text[1..]);
      OneMoreChar(text, text[0], text[1..], lines, crlf, [[text[0]] + lines[0]] + lines[1..]);
    }
  }

  lemma NoBreakHere(c: char, rest: string, lines: seq<string>, crlf: seq<bool>)
    requires LaidOut(rest, lines, crlf) && !(rest != "" && c == '\r' && rest[0] == '\n')
    ensures crlf != [] && !crlf[0] && lines[0] == "" ==> c != '\r'
  {
    FirstLine(lines, crlf);
    if crlf != [] && !crlf[0] && lines[0] == "" {
      assert rest == "" + Tail(lines, crlf);
      assert rest[0] == Mark(false)[0];
    }
  }

  lemma LongerIsGood(c: char, lines: seq<string>, crlf: seq<bool>, longer: seq<string>)
    requires GoodLines(lines, crlf) && longer == [[c] + lines[0]] + lines[1..] && c != '\n'
    requires crlf != [] && !crlf[0] && lines[0] == "" ==> c != '\r'
    ensures GoodLines(longer, crlf)
  {
    forall i | 0 <= i < |longer|
      ensures '\n' !in longer[i]
    {
      assert i > 0 ==> longer[i] == lines[i];
    }
    forall i | 0 <= i < |crlf| && !crlf[i] && longer[i] != ""
      ensures longer[i][|longer[i]| - 1] != '\r'
    {
      assert i > 0 ==> longer[i] == lines[i];
    }
  }

  lemma Associated(c: char, a: string, b: string)
    ensures [c] + (a + b) == ([c] + a) + b
  {
  }

  lemma LaidLonger(c: char, lines: seq<string>, crlf: seq<bool>, longer: seq<string>)
    requires |lines| == |crlf| + 1 == |longer| && longer[0] == [c] + lines[0] && longer[1..] == lines[1..]
    ensures Laid(longer, crlf) == [c] + Laid(lines, crlf)
  {
    var tail := Tail(lines, crlf);
    assert Tail(longer, crlf) == tail;
    FirstLine(lines, crlf);
    FirstLine(longer, crlf);
    Associated(c, lines[0], tail);
  }

  /** A character in front of a text is in front of its first line, unless the two make a line break. */
  lemma OneMoreChar(text: string, c: char, rest: string, lines: seq<string>, crlf: seq<bool>, longer: seq<string>)
    requires text == [c] + rest && c != '\n' && !(rest != "" && c == '\r' && rest[0] == '\n')
    requires LaidOut(rest, lines, crlf) && longer == [[c] + lines[0]] + lines[1..]
    ensures LaidOut(text, longer, crlf)
  {
    NoBreakHere(c, rest, lines, crlf);
    LongerIsGood(c, lines, crlf, longer);
    LaidLonger(c, lines, crlf, longer);
  }

  lemma SplitsChar(text: string, c: char, shorter: seq<string>)
    requires text != [] && text[0] == c && c != '\n' && !(|text| >= 2 && c == '\r' && text[1] == '\n')
    requires SplitLines(text[1..]) == shorter
    ensures SplitLines(text) == [[c] + shorter[0]] + shorter[1..]
  {
  }

  lemma SplitsBreak(text: string, crlf: bool, rest: string)
    requires text == Mark(crlf) + rest
    ensures SplitLines(text) == [""] + SplitLines(rest)
  {
    assert text[|Mark(crlf)|..] == rest;
  }

  lemma OtherLinesGood(lines: seq<string>, crlf: seq<bool>)
    requires GoodLines(lines, crlf) && crlf != []
    ensures GoodLines(lines[1..], crlf[1..])
  {
    assert forall i | 0 <= i < |crlf| - 1 :: lines[1..][i] == lines[i + 1] && crlf[1..][i] == crlf[i + 1];
  }

  lemma Rejoined(lines: seq<string>)
    requires lines != [] && lines[0] != ""
    ensures var shorter := [lines[0][1..]] + lines[1..]; [[lines[0][0]] + shorter[0]] + shorter[1..] == lines
  {
    var line, rest := lines[0], lines[1..];
    assert [line[0]] + line[1..] == line;
    assert ([line[1..]] + rest)[1..] == rest;
    assert [line] + rest == lines;
  }

  lemma {:induction false} LaidOutSplits(text: string, lines: seq<string>, crlf: seq<bool>)
    requires LaidOut(text, lines, crlf)
    ensures SplitLines(text) == lines
    decreases |text|
  {
    if lines[0] != "" {
      var shorter := [lines[0][1..]] + lines[1..];
      ShorterLaidOut(text, lines, crlf, shorter);
      LaidOutSplits(text[1..], shorter, crlf);
      SplitsChar(text, lines[0][0], shorter);
      Rejoined(lines);
    } else if crlf == [] {
      assert lines == [""];
    } else {
      EmptyLineLeads(text, lines, crlf);
      LaidOutSplits(Laid(lines[1..], crlf[1..]), lines[1..], crlf[1..]);
      SplitsBreak(text, crlf[0], Laid(lines[1..], crlf[1..]));
    }
  }

  lemma EmptyLineLeads(text: string, lines: seq<string>, crlf: seq<bool>)
    requires LaidOut(text, lines, crlf) && lines[0] == "" && crlf != []
    ensures text == Mark(crlf[0]) + Laid(lines[1..], crlf[1..])
    ensures LaidOut(Laid(lines[1..], crlf[1..]), lines[1..], crlf[1..]) && lines == [""] + lines[1..]
  {
    OtherLinesGood(lines, crlf);
  }

  lemma ShorterLaidOut(text: string, lines: seq<string>, crlf: seq<bool>, shorter: seq<string>)
    requires LaidOut(text, lines, crlf) && lines[0] != "" && shorter == [lines[0][1..]] + lines[1..]
    ensures text != [] && text[0] == lines[0][0] && LaidOut(text[1..], shorter, crlf)
    ensures text[0] != '\n' && !(|text| >= 2 && text[0] == '\r' && text[1] == '\n')
  {
    var tail := Tail(lines, crlf);
    FirstLine(lines, crlf);
    FirstLine(shorter, crlf);
    assert shorter[1..] == lines[1..];
    assert text[1..] == lines[0][1..] + tail;
    if |lines[0]| == 1 && text[0] == '\r' && crlf != [] {
      assert crlf[0] && text[1] == tail[0];
    }
    if |lines[0]| > 1 {
      assert text[1] == lines[0][1];
    }
  }

  /** The lines of a text are the one way to lay it out. */
  lemma LinesMeaning(text: string, lines: seq<string>)
    ensures lines == SplitLines(text) <==> exists crlf :: LaidOut(text, lines, crlf)
  {
    var crlf := LinesLaidOut(text);
    if other :| LaidOut(text, lines, other) {
      LaidOutSplits(text, lines, other);
    }
  }

  /** Of a single line nothing is dropped unless it is blank, and lines are kept one after another. */
  lemma {:induction false} KeptLines(line: string, before: seq<string>, after: seq<string>)
    ensures DropBlank([line]) == if Blank(line) then [] else [line]
    ensures DropBlank(before + after) == DropBlank(before) + DropBlank(after)
    decreases |before|
  {
    assert [line][1..] == [] && DropBlank([]) == [];
    if before == [] {
      assert before + after == after;
    } else {
      KeptLines(line, before[1..], after);
      assert (before + after)[1..] == before[1..] + after;
    }
  }
}
