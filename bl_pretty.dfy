/*
 * Statement.prettyPrint: a BL statement written to an output stream as
 * indented lines, one keyword line per IF/IF_ELSE/WHILE part and one line per
 * CALL, the bodies Program.INDENT_SIZE spaces further in.
 */
module BLPretty {

  import opened BLStatement
  import opened BLUnparse
  import Folds

  /** Program.INDENT_SIZE. */
  const IndentSize: nat := 4

  /** A line of output: its left margin and the words written on it. */
  datatype Line = Line(offset: nat, words: seq<string>)

  /** n spaces. */
  function Spaces(n: nat): (r: string)
    ensures |r| == n && forall i :: 0 <= i < n ==> r[i] == ' '
  {
    if n == 0 then "" else Spaces(n - 1) + " "
  }

  /** A line as printSpaces and println write it. */
  function Rendered(line: Line): string
  {
    Spaces(line.offset) + Folds.Joined(line.words, " ") + "\n"
  }

  /** The text of a sequence of lines. */
  function Text(lines: seq<Line>): string
  {
    if |lines| == 0 then "" else Text(lines[..|lines| - 1]) + Rendered(lines[|lines| - 1])
  }

  /** The lines prettyPrint writes for s at the given offset. */
  function Lines(s: Statement, offset: nat): seq<Line>
    decreases s, 1
  {
    match s
    case Block(ch) => BlockLines(ch, offset)
    case If(c, b) =>
      [Line(offset, ["IF", ConditionToken(c), "THEN"])] + Lines(b, offset + IndentSize)
      + [Line(offset, ["END", "IF"])]
    case IfElse(c, b1, b2) =>
      [Line(offset, ["IF", ConditionToken(c), "THEN"])] + Lines(b1, offset + IndentSize)
      + [Line(offset, ["ELSE"])] + Lines(b2, offset + IndentSize)
      + [Line(offset, ["END", "IF"])]
    case While(c, b) =>
      [Line(offset, ["WHILE", ConditionToken(c), "DO"])] + Lines(b, offset + IndentSize)
      + [Line(offset, ["END", "WHILE"])]
    case Call(name) => [Line(offset, [name])]
  }

  /** The lines of a block's children, in order, all at the block's offset. */
  function BlockLines(ch: seq<Statement>, offset: nat): seq<Line>
    decreases ch, 0
  {
    if |ch| == 0 then [] else BlockLines(ch[..|ch| - 1], offset) + Lines(ch[|ch| - 1], offset)
  }

  /** The words of the lines, in order. */
  function Words(lines: seq<Line>): seq<string>
  {
    if |lines| == 0 then [] else Words(lines[..|lines| - 1]) + lines[|lines| - 1].words
  }

  // ---------------------------------------------------------------------------
  // Properties
  // ---------------------------------------------------------------------------

  lemma {:induction false} TextConcat(a: seq<Line>, b: seq<Line>)
    ensures Text(a + b) == Text(a) + Text(b)
    decreases |b|
  {
    if |b| == 0 {
      assert a + b == a;
    } else {
      var front, last := b[..|b| - 1], b[|b| - 1];
      assert (a + b)[..|a + b| - 1] == a + front;
      assert (a + b)[|a + b| - 1] == last;
      assert Text(a + b) == Text(a + front) + Rendered(last);
      TextConcat(a, front);
      Associative(Text(a), Text(front), Rendered(last));
    }
  }

  lemma {:induction false} WordsConcat(a: seq<Line>, b: seq<Line>)
    ensures Words(a + b) == Words(a) + Words(b)
    decreases |b|
  {
    if |b| == 0 {
      assert a + b == a;
    } else {
      var front, last := b[..|b| - 1], b[|b| - 1];
      assert (a + b)[..|a + b| - 1] == a + front;
      assert (a + b)[|a + b| - 1] == last;
      assert Words(a + b) == Words(a + front) + last.words;
      WordsConcat(a, front);
      Associative(Words(a), Words(front), last.words);
    }
  }

  lemma {:induction false} ChildrenTokensSnoc(ch: seq<Statement>)
    requires |ch| > 0
    ensures ChildrenTokens(ch) == ChildrenTokens(ch[..|ch| - 1]) + StatementTokens(ch[|ch| - 1])
  {
    if |ch| > 1 {
      ChildrenTokensSnoc(ch[1..]);
      assert ch[1..][..|ch| - 2] == ch[..|ch| - 1][1..];
    }
  }

  /**
   * The words printed are exactly the tokens of the statement in the order
   * the parser reads them.
   */
  lemma {:induction false} PrettyWords(s: Statement, offset: nat)
    ensures Words(Lines(s, offset)) == StatementTokens(s)
    decreases s, 1
  {
    match s
    case Block(ch) => BlockWords(ch, offset);
    case If(c, b) =>
      PrettyWords(b, offset + IndentSize);
      var head := [Line(offset, ["IF", ConditionToken(c), "THEN"])];
      WordsConcat(head, Lines(b, offset + IndentSize));
      WordsConcat(head + Lines(b, offset + IndentSize), [Line(offset, ["END", "IF"])]);
      assert Words(head) == ["IF", ConditionToken(c), "THEN"];
    case IfElse(c, b1, b2) =>
      PrettyWords(b1, offset + IndentSize);
      PrettyWords(b2, offset + IndentSize);
      var head := [Line(offset, ["IF", ConditionToken(c), "THEN"])];
      var l1 := Lines(b1, offset + IndentSize);
      var l2 := Lines(b2, offset + IndentSize);
      WordsConcat(head, l1);
      WordsConcat(head + l1, [Line(offset, ["ELSE"])]);
      WordsConcat(head + l1 + [Line(offset, ["ELSE"])], l2);
      WordsConcat(head + l1 + [Line(offset, ["ELSE"])] + l2, [Line(offset, ["END", "IF"])]);
      assert Words(head) == ["IF", ConditionToken(c), "THEN"];
    case While(c, b) =>
      PrettyWords(b, offset + IndentSize);
      var head := [Line(offset, ["WHILE", ConditionToken(c), "DO"])];
      WordsConcat(head, Lines(b, offset + IndentSize));
      WordsConcat(head + Lines(b, offset + IndentSize), [Line(offset, ["END", "WHILE"])]);
      assert Words(head) == ["WHILE", ConditionToken(c), "DO"];
    case Call(name) =>
      assert Words([Line(offset, [name])]) == Words([]) + [name];
  }

  lemma {:induction false} BlockWords(ch: seq<Statement>, offset: nat)
    ensures Words(BlockLines(ch, offset)) == ChildrenTokens(ch)
    decreases ch, 0
  {
    if |ch| > 0 {
      BlockWords(ch[..|ch| - 1], offset);
      PrettyWords(ch[|ch| - 1], offset);
      WordsConcat(BlockLines(ch[..|ch| - 1], offset), Lines(ch[|ch| - 1], offset));
      ChildrenTokensSnoc(ch);
    }
  }

  /** Every line is indented by the offset plus a whole number of indentation levels. */
  predicate IndentedFrom(lines: seq<Line>, offset: nat)
  {
    forall i :: 0 <= i < |lines| ==>
      lines[i].offset >= offset && (lines[i].offset - offset) % IndentSize == 0
  }

  lemma IndentedFromDeeper(lines: seq<Line>, offset: nat)
    requires IndentedFrom(lines, offset + IndentSize)
    ensures IndentedFrom(lines, offset)
  {
    forall i | 0 <= i < |lines|
      ensures lines[i].offset >= offset && (lines[i].offset - offset) % IndentSize == 0
    {
      var k := lines[i].offset - offset - IndentSize;
      assert lines[i].offset - offset == k + IndentSize;
    }
  }

  /**
   * Every line is written at least offset spaces in, a whole number of
   * indentation levels deeper, and the keyword lines of IF, IF_ELSE and
   * WHILE at exactly offset.
   */
  lemma {:induction false} LinesIndented(s: Statement, offset: nat)
    ensures IndentedFrom(Lines(s, offset), offset)
    ensures !s.Block? ==> |Lines(s, offset)| > 0 && Lines(s, offset)[0].offset == offset
    ensures !s.Block? ==> Lines(s, offset)[|Lines(s, offset)| - 1].offset == offset
    decreases s, 1
  {
    match s
    case Block(ch) => BlockIndented(ch, offset);
    case If(c, b) =>
      BodyIndented(b, offset);
      KeywordIndented([Line(offset, ["IF", ConditionToken(c), "THEN"])], Lines(b, offset + IndentSize),
                      [Line(offset, ["END", "IF"])], offset);
    case IfElse(c, b1, b2) =>
      BodyIndented(b1, offset);
      BodyIndented(b2, offset);
      var front := [Line(offset, ["IF", ConditionToken(c), "THEN"])] + Lines(b1, offset + IndentSize);
      KeywordIndented([Line(offset, ["IF", ConditionToken(c), "THEN"])], Lines(b1, offset + IndentSize),
                      [Line(offset, ["ELSE"])], offset);
      KeywordIndented(front + [Line(offset, ["ELSE"])], Lines(b2, offset + IndentSize),
                      [Line(offset, ["END", "IF"])], offset);
    case While(c, b) =>
      BodyIndented(b, offset);
      KeywordIndented([Line(offset, ["WHILE", ConditionToken(c), "DO"])], Lines(b, offset + IndentSize),
                      [Line(offset, ["END", "WHILE"])], offset);
    case Call(name) =>
      assert Lines(s, offset) == [Line(offset, [name])];
  }

  /** A body is indented from one level deeper, hence from the statement's offset too. */
  lemma {:induction false} BodyIndented(b: Statement, offset: nat)
    ensures IndentedFrom(Lines(b, offset + IndentSize), offset)
    decreases b, 2
  {
    LinesIndented(b, offset + IndentSize);
    IndentedFromDeeper(Lines(b, offset + IndentSize), offset);
  }

  lemma IndentedConcat(a: seq<Line>, b: seq<Line>, offset: nat)
    requires IndentedFrom(a, offset) && IndentedFrom(b, offset)
    ensures IndentedFrom(a + b, offset)
  {
    forall i | 0 <= i < |a + b|
      ensures (a + b)[i].offset >= offset && ((a + b)[i].offset - offset) % IndentSize == 0
    {
      if i >= |a| {
        assert (a + b)[i] == b[i - |a|];
      }
    }
  }

  /** A body between lines that are indented from offset. */
  lemma KeywordIndented(head: seq<Line>, body: seq<Line>, tail: seq<Line>, offset: nat)
    requires IndentedFrom(head, offset) && IndentedFrom(body, offset) && IndentedFrom(tail, offset)
    ensures IndentedFrom(head + body + tail, offset)
  {
    IndentedConcat(head, body, offset);
    IndentedConcat(head + body, tail, offset);
  }

  lemma {:induction false} BlockIndented(ch: seq<Statement>, offset: nat)
    ensures IndentedFrom(BlockLines(ch, offset), offset)
    decreases ch, 0
  {
    if |ch| > 0 {
      BlockIndented(ch[..|ch| - 1], offset);
      LinesIndented(ch[|ch| - 1], offset);
    }
  }

  /** An empty block prints nothing; a CALL prints its name alone on a line. */
  lemma EmptyBlockAndCall(offset: nat, name: string)
    ensures Text(Lines(Block([]), offset)) == ""
    ensures Text(Lines(Call(name), offset)) == Spaces(offset) + name + "\n"
  {
    assert [Line(offset, [name])][..0] == [];
  }

  // ---------------------------------------------------------------------------
  // The output stream and the source's procedure
  // ---------------------------------------------------------------------------

  /** A SimpleWriter: what has been written so far. */
  class Writer {
    var content: string

    constructor ()
      ensures content == ""
    {
      content := "";
    }

    /** out.print(text) */
    method Print(text: string)
      modifies this
      ensures content == old(content) + text
    {
      content := content + text;
    }

    /** out.println(text) */
    method PrintLn(text: string)
      modifies this
      ensures content == old(content) + text + "\n"
    {
      content := content + text + "\n";
    }
  }

  /** printSpaces: offset spaces, one at a time. */
  method PrintSpaces(out: Writer, offset: nat)
    modifies out
    ensures out.content == old(out.content) + Spaces(offset)
  {
    for i := 0 to offset
      invariant out.content == old(out.content) + Spaces(i)
    {
      out.Print(" ");
    }
  }

  /** prettyPrint: appends the pretty-printed text of s to out. */
  method PrettyPrint(s: Statement, out: Writer, offset: nat)
    modifies out
    ensures out.content == old(out.content) + Text(Lines(s, offset))
    decreases s, 2
  {
    match s
    case Block(ch) => PrettyPrintBlock(ch, out, offset);
    case If(c, b) => PrettyPrintIf(c, b, out, offset);
    case IfElse(c, b1, b2) => PrettyPrintIfElse(c, b1, b2, out, offset);
    case While(c, b) => PrettyPrintWhile(c, b, out, offset);
    case Call(name) =>
      ghost var start := out.content;
      PrintSpaces(out, offset);
      out.PrintLn(name);
      LineWritten(start, Line(offset, [name]), name);
      TextOne(Line(offset, [name]));
  }

  /** The children of a block, one after the other at the block's offset. */
  method PrettyPrintBlock(ch: seq<Statement>, out: Writer, offset: nat)
    modifies out
    ensures out.content == old(out.content) + Text(Lines(Block(ch), offset))
    decreases Block(ch), 0
  {
    for i := 0 to |ch|
      invariant out.content == old(out.content) + Text(BlockLines(ch[..i], offset))
    {
      ghost var before := out.content;
      PrettyPrint(ch[i], out, offset);
      ChildPrinted(ch, i, offset, old(out.content), before, out.content);
    }
    assert ch[..|ch|] == ch;
  }

  /** IF c THEN, the body one level in, END IF (the margin of END IF printed space by space). */
  method PrettyPrintIf(c: Condition, b: Statement, out: Writer, offset: nat)
    modifies out
    ensures out.content == old(out.content) + Text(Lines(If(c, b), offset))
    decreases If(c, b), 0
  {
    var word := ConditionToken(c);
    ghost var start := out.content;
    PrintSpaces(out, offset);
    out.PrintLn("IF " + word + " THEN");
    LineWritten(start, Line(offset, ["IF", word, "THEN"]), "IF " + word + " THEN") by { IfWords(word); }
    PrettyPrint(b, out, offset + IndentSize);
    ghost var printed := out.content;
    for i := 0 to offset
      invariant out.content == printed + Spaces(i)
    {
      out.Print(" ");
    }
    out.PrintLn("END IF");
    LineWritten(printed, Line(offset, ["END", "IF"]), "END IF") by { EndIfWords(); }
    IfPrinted(c, b, offset, start, out.content);
  }

  /** IF c THEN, the then-body, ELSE, the else-body, END IF; bodies one level in. */
  method PrettyPrintIfElse(c: Condition, b1: Statement, b2: Statement, out: Writer, offset: nat)
    modifies out
    ensures out.content == old(out.content) + Text(Lines(IfElse(c, b1, b2), offset))
    decreases IfElse(c, b1, b2), 1
  {
    var word := ConditionToken(c);
    ghost var s0 := out.content;
    PrettyPrintThenPart(word, b1, out, offset);
    ghost var s2 := out.content;
    PrettyPrintElsePart(b2, out, offset);
    IfElsePrinted(c, b1, b2, offset, s0, s2, out.content);
  }

  /** The IF c THEN line and the then-body of an IF_ELSE. */
  method PrettyPrintThenPart(word: string, b1: Statement, out: Writer, offset: nat)
    modifies out
    ensures out.content == old(out.content) + Rendered(Line(offset, ["IF", word, "THEN"]))
                           + Text(Lines(b1, offset + IndentSize))
    decreases b1, 3
  {
    PrintIfLine(out, offset, word);
    PrettyPrint(b1, out, offset + IndentSize);
  }

  /** The ELSE line, the else-body and the END IF line of an IF_ELSE. */
  method PrettyPrintElsePart(b2: Statement, out: Writer, offset: nat)
    modifies out
    ensures out.content == old(out.content) + Rendered(Line(offset, ["ELSE"]))
                           + Text(Lines(b2, offset + IndentSize)) + Rendered(Line(offset, ["END", "IF"]))
    decreases b2, 3
  {
    PrintElseLine(out, offset);
    PrettyPrint(b2, out, offset + IndentSize);
    PrintEndIfLine(out, offset);
  }

  /** The IF c THEN line. */
  method PrintIfLine(out: Writer, offset: nat, word: string)
    modifies out
    ensures out.content == old(out.content) + Rendered(Line(offset, ["IF", word, "THEN"]))
  {
    IfWords(word);
    PrintLine(out, offset, "IF " + word + " THEN", ["IF", word, "THEN"]);
  }

  /** The ELSE line. */
  method PrintElseLine(out: Writer, offset: nat)
    modifies out
    ensures out.content == old(out.content) + Rendered(Line(offset, ["ELSE"]))
  {
    PrintLine(out, offset, "ELSE", ["ELSE"]);
  }

  /** The END IF line. */
  method PrintEndIfLine(out: Writer, offset: nat)
    modifies out
    ensures out.content == old(out.content) + Rendered(Line(offset, ["END", "IF"]))
  {
    EndIfWords();
    PrintLine(out, offset, "END IF", ["END", "IF"]);
  }

  /** WHILE c DO, the body one level in, END WHILE. */
  method PrettyPrintWhile(c: Condition, b: Statement, out: Writer, offset: nat)
    modifies out
    ensures out.content == old(out.content) + Text(Lines(While(c, b), offset))
    decreases While(c, b), 0
  {
    var word := ConditionToken(c);
    ghost var start := out.content;
    WhileWords(word);
    PrintLine(out, offset, "WHILE " + word + " DO", ["WHILE", word, "DO"]);
    PrettyPrint(b, out, offset + IndentSize);
    EndWhileWords();
    PrintLine(out, offset, "END WHILE", ["END", "WHILE"]);
    WhilePrinted(c, b, offset, start, out.content);
  }

  /** printSpaces(out, offset) and then out.println(text): one whole line of output. */
  method PrintLine(out: Writer, offset: nat, text: string, ghost words: seq<string>)
    requires text == Folds.Joined(words, " ")
    modifies out
    ensures out.content == old(out.content) + Rendered(Line(offset, words))
  {
    PrintSpaces(out, offset);
    out.PrintLn(text);
    LineWritten(old(out.content), Line(offset, words), text);
  }

  /** printSpaces followed by println of the line's words writes the rendered line. */
  lemma LineWritten(before: string, line: Line, text: string)
    requires text == Folds.Joined(line.words, " ")
    ensures before + Spaces(line.offset) + text + "\n" == before + Rendered(line)
  {
  }

  /** One more child printed extends the block's text by the child's lines. */
  lemma ChildPrinted(ch: seq<Statement>, i: nat, offset: nat, start: string, before: string, after: string)
    requires i < |ch|
    requires before == start + Text(BlockLines(ch[..i], offset))
    requires after == before + Text(Lines(ch[i], offset))
    ensures after == start + Text(BlockLines(ch[..i + 1], offset))
  {
    assert ch[..i + 1][..i] == ch[..i];
    TextConcat(BlockLines(ch[..i], offset), Lines(ch[i], offset));
    Associative(start, Text(BlockLines(ch[..i], offset)), Text(Lines(ch[i], offset)));
  }

  lemma IfPrinted(c: Condition, b: Statement, offset: nat, start: string, content: string)
    requires content == start + Rendered(Line(offset, ["IF", ConditionToken(c), "THEN"]))
                      + Text(Lines(b, offset + IndentSize)) + Rendered(Line(offset, ["END", "IF"]))
    ensures content == start + Text(Lines(If(c, b), offset))
  {
    var head, body, tail :=
      Line(offset, ["IF", ConditionToken(c), "THEN"]), Lines(b, offset + IndentSize), Line(offset, ["END", "IF"]);
    TextAround(head, body, tail);
    Associative3(start, Rendered(head), Text(body), Rendered(tail));
  }

  lemma IfElsePrinted(c: Condition, b1: Statement, b2: Statement, offset: nat, s0: string, s2: string, s5: string)
    requires s2 == s0 + Rendered(Line(offset, ["IF", ConditionToken(c), "THEN"])) + Text(Lines(b1, offset + IndentSize))
    requires s5 == s2 + Rendered(Line(offset, ["ELSE"])) + Text(Lines(b2, offset + IndentSize))
                       + Rendered(Line(offset, ["END", "IF"]))
    ensures s5 == s0 + Text(Lines(IfElse(c, b1, b2), offset))
  {
    var head, body1, middle, body2, tail :=
      Line(offset, ["IF", ConditionToken(c), "THEN"]), Lines(b1, offset + IndentSize),
      Line(offset, ["ELSE"]), Lines(b2, offset + IndentSize), Line(offset, ["END", "IF"]);
    TextAroundTwo(head, body1, middle, body2, tail);
    Associative5(s0, Rendered(head), Text(body1), Rendered(middle), Text(body2), Rendered(tail));
  }

  lemma Associative<T>(p: seq<T>, a: seq<T>, b: seq<T>)
    ensures p + a + b == p + (a + b)
  {
  }

  lemma Associative3<T>(p: seq<T>, a: seq<T>, b: seq<T>, c: seq<T>)
    ensures p + a + b + c == p + (a + b + c)
  {
  }

  lemma Associative5<T>(p: seq<T>, a: seq<T>, b: seq<T>, c: seq<T>, d: seq<T>, e: seq<T>)
    ensures p + a + b + c + d + e == p + (a + b + c + d + e)
  {
  }

  lemma WhilePrinted(c: Condition, b: Statement, offset: nat, start: string, content: string)
    requires content == start + Rendered(Line(offset, ["WHILE", ConditionToken(c), "DO"]))
                      + Text(Lines(b, offset + IndentSize)) + Rendered(Line(offset, ["END", "WHILE"]))
    ensures content == start + Text(Lines(While(c, b), offset))
  {
    var head, body, tail :=
      Line(offset, ["WHILE", ConditionToken(c), "DO"]), Lines(b, offset + IndentSize), Line(offset, ["END", "WHILE"]);
    TextAround(head, body, tail);
    Associative3(start, Rendered(head), Text(body), Rendered(tail));
  }

  lemma JoinedTwo(a: string, b: string)
    ensures Folds.Joined([a, b], " ") == a + " " + b
  {
    assert [a, b][..1] == [a];
  }

  lemma JoinedThree(a: string, b: string, c: string)
    ensures Folds.Joined([a, b, c], " ") == a + " " + b + " " + c
  {
    assert [a, b, c][..2] == [a, b];
    JoinedTwo(a, b);
  }

  /** The words of IF c THEN as println writes them. */
  lemma IfWords(word: string)
    ensures Folds.Joined(["IF", word, "THEN"], " ") == "IF " + word + " THEN"
  {
    JoinedThree("IF", word, "THEN");
    assert "IF " == "IF" + " ";
    assert " THEN" == " " + "THEN";
  }

  /** The words of WHILE c DO as println writes them. */
  lemma WhileWords(word: string)
    ensures Folds.Joined(["WHILE", word, "DO"], " ") == "WHILE " + word + " DO"
  {
    JoinedThree("WHILE", word, "DO");
    assert "WHILE " == "WHILE" + " ";
    assert " DO" == " " + "DO";
  }

  lemma EndIfWords()
    ensures Folds.Joined(["END", "IF"], " ") == "END IF"
  {
    JoinedTwo("END", "IF");
  }

  lemma EndWhileWords()
    ensures Folds.Joined(["END", "WHILE"], " ") == "END WHILE"
  {
    JoinedTwo("END", "WHILE");
  }

  lemma TextOne(line: Line)
    ensures Text([line]) == Rendered(line)
  {
    assert [line][..0] == [];
  }

  /** The text of a body between two keyword lines. */
  lemma TextAround(head: Line, body: seq<Line>, tail: Line)
    ensures Text([head] + body + [tail]) == Rendered(head) + Text(body) + Rendered(tail)
  {
    TextConcat([head], body);
    TextConcat([head] + body, [tail]);
    TextOne(head);
    TextOne(tail);
  }

  /** The text of two bodies between three keyword lines. */
  lemma TextAroundTwo(head: Line, body1: seq<Line>, middle: Line, body2: seq<Line>, tail: Line)
    ensures Text([head] + body1 + [middle] + body2 + [tail])
         == Rendered(head) + Text(body1) + Rendered(middle) + Text(body2) + Rendered(tail)
  {
    TextAround(head, body1, middle);
    TextConcat([head] + body1 + [middle], body2);
    TextConcat([head] + body1 + [middle] + body2, [tail]);
    TextOne(tail);
  }
}
