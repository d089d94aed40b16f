/*
 * Recursive-descent parser for BL statements (Statement1Parse1.parse and
 * parseBlock with their helpers parseIf, parseWhile and parseCall).
 *
 * The token queue is a sequence of strings consumed from the front; a parser
 * step yields the statement it built together with the tokens left in the
 * queue, or the fatal error the source reports before terminating.
 *
 * The functions Parsed* state the grammar the code implements. They take a
 * Dialect: AsWritten is the code as it stands, where parseWhile never dequeues
 * the WHILE of a closing "END WHILE"; EndWhileChecked dequeues and checks it,
 * as the IF case does for "END IF". The methods Parse, ParseIf, ParseWhile,
 * ParseCall and ParseBlock follow the source step by step and are proved equal
 * to the AsWritten functions.
 */
module BLParser {

  import opened Wrappers
  import opened BLStatement

  datatype ParseResult = Parsed(s: Statement, rest: seq<string>) | Failed(message: string)

  datatype Dialect = AsWritten | EndWhileChecked

  /** The queue still holds the end-of-input marker as its last token. */
  predicate EndsWithEndOfInput(tokens: seq<string>)
  {
    |tokens| > 0 && tokens[|tokens| - 1] == EndOfInput
  }

  /** The tokens at which parseBlock stops. */
  predicate IsBlockEnd(token: string)
  {
    token == "ELSE" || token == "END" || token == EndOfInput
  }

  /**
   * parseCondition: the Condition named by the token once '-' is replaced by
   * '_' and the result upper-cased.
   */
  function ParseCondition(c: string): (r: Condition)
    requires IsCondition(c)
    ensures ConditionToken(r) == c
  {
    ConditionOfToken(c);
    ConditionNamed(Upper(Replace(c, '-', '_'))).value
  }

  lemma ConditionOfToken(token: string)
    requires IsCondition(token)
    ensures ConditionNamed(Upper(Replace(token, '-', '_'))).Some?
    ensures ConditionToken(ConditionNamed(Upper(Replace(token, '-', '_'))).value) == token
  {
    var c :=
      if token == "next-is-empty" then NextIsEmpty
      else if token == "next-is-not-empty" then NextIsNotEmpty
      else if token == "next-is-wall" then NextIsWall
      else if token == "next-is-not-wall" then NextIsNotWall
      else if token == "next-is-friend" then NextIsFriend
      else if token == "next-is-not-friend" then NextIsNotFriend
      else if token == "next-is-enemy" then NextIsEnemy
      else if token == "next-is-not-enemy" then NextIsNotEnemy
      else if token == "random" then Random
      else True;
    assert token == ConditionToken(c);
    ConditionTokenFromName(c);
    ConditionNameIsUpperSnake(c);
    UpperSnakeRoundTrip(ConditionName(c));
    ConditionNamedName(c);
  }

  /** parseCondition undoes the source form of every condition. */
  lemma ParseConditionToken(c: Condition)
    ensures IsCondition(ConditionToken(c)) && ParseCondition(ConditionToken(c)) == c
  {
    ConditionIsConditionToken(c);
    ConditionTokenInjective(ParseCondition(ConditionToken(c)), c);
  }

  // ---------------------------------------------------------------------------
  // The grammar as functions
  // ---------------------------------------------------------------------------

  /** parse: dispatch on the front token. */
  function ParsedStatement(tokens: seq<string>, d: Dialect): (r: ParseResult)
    requires EndsWithEndOfInput(tokens)
    ensures r.Parsed? ==> |r.rest| < |tokens| && EndsWithEndOfInput(r.rest)
    ensures r.Parsed? ==> !r.s.Block?
    ensures !(tokens[0] == "IF" || tokens[0] == "WHILE" || IsIdentifier(tokens[0])) ==> r.Failed?
    ensures r.Parsed? && tokens[0] == "IF" ==> r.s.If? || r.s.IfElse?
    ensures r.Parsed? && tokens[0] == "WHILE" ==> r.s.While?
    ensures IsIdentifier(tokens[0]) ==> r == Parsed(Call(tokens[0]), tokens[1..])
    decreases |tokens|, 1
  {
    var front := tokens[0];
    if !(front == "IF" || front == "WHILE" || IsIdentifier(front)) then
      Failed("Error: Expect a IF, WHILE, or Identifier, found: " + front)
    else if front == "IF" then ParsedIf(tokens, d)
    else if front == "WHILE" then ParsedWhile(tokens, d)
    else Parsed(Call(front), tokens[1..])
  }

  /** parseIf: IF c THEN block [ELSE block] END IF. */
  function ParsedIf(tokens: seq<string>, d: Dialect): (r: ParseResult)
    requires EndsWithEndOfInput(tokens) && tokens[0] == "IF"
    ensures r.Parsed? ==> |r.rest| < |tokens| && EndsWithEndOfInput(r.rest)
    ensures r.Parsed? ==> r.s.If? || r.s.IfElse?
    decreases |tokens|, 0
  {
    var t1 := tokens[1..];
    if !IsCondition(t1[0]) then Failed("Wrong condition")
    else
      var c := ParseCondition(t1[0]);
      var t2 := t1[1..];
      if t2[0] != "THEN" then Failed("Error: Expected THEN, found: \"" + t2[0] + "\"")
      else
        var t3 := t2[1..];
        ParsedIfBlocks(c, t3, d)
  }

  /** The blocks of an IF after its THEN, and the closing END IF. */
  function ParsedIfBlocks(c: Condition, tokens: seq<string>, d: Dialect): (r: ParseResult)
    requires EndsWithEndOfInput(tokens)
    ensures r.Parsed? ==> |r.rest| < |tokens| && EndsWithEndOfInput(r.rest)
    ensures r.Parsed? ==> r.s.If? || r.s.IfElse?
    decreases |tokens|, 3
  {
    match ParsedBlock(tokens, [], d)
    case Failed(m) => Failed(m)
    case Parsed(thenBlock, t4) =>
      if !(t4[0] == "ELSE" || t4[0] == "END") then Failed("expecting 'END' or 'ELSE'")
      else if t4[0] == "ELSE" then
        ParsedElseBlock(c, thenBlock, t4[1..], d)
      else
        ClosedIf(If(c, thenBlock), t4[1..])
  }

  /** The ELSE block of an IF_ELSE and the closing END IF. */
  function ParsedElseBlock(c: Condition, thenBlock: Statement, tokens: seq<string>, d: Dialect): (r: ParseResult)
    requires EndsWithEndOfInput(tokens)
    ensures r.Parsed? ==> |r.rest| < |tokens| && EndsWithEndOfInput(r.rest)
    ensures r.Parsed? ==> r.s.IfElse? && r.s.cond == c && r.s.thenBody == thenBlock
    decreases |tokens|, 3
  {
    match ParsedBlock(tokens, [], d)
    case Failed(m) => Failed(m)
    case Parsed(elseBlock, t6) =>
      if t6[0] != "END" then Failed("expecting 'END'")
      else
        ClosedIf(IfElse(c, thenBlock, elseBlock), t6[1..])
  }

  /** The closing IF of END IF (the END is already dequeued). */
  function ClosedIf(s: Statement, tokens: seq<string>): (r: ParseResult)
    requires EndsWithEndOfInput(tokens)
    ensures r.Parsed? ==> r.s == s && r.rest == tokens[1..] && EndsWithEndOfInput(r.rest)
  {
    if tokens[0] != "IF" then Failed("Expecting end 'IF'") else Parsed(s, tokens[1..])
  }

  /** parseWhile: WHILE c DO block END, and END WHILE's WHILE when the dialect checks it. */
  function ParsedWhile(tokens: seq<string>, d: Dialect): (r: ParseResult)
    requires EndsWithEndOfInput(tokens) && tokens[0] == "WHILE"
    ensures r.Parsed? ==> |r.rest| < |tokens| && EndsWithEndOfInput(r.rest)
    ensures r.Parsed? ==> r.s.While?
    decreases |tokens|, 0
  {
    var t1 := tokens[1..];
    if !IsCondition(t1[0]) then Failed("Unepecting condition here")
    else
      var c := ParseCondition(t1[0]);
      var t2 := t1[1..];
      if t2[0] != "DO" then Failed("expecting 'DO'")
      else
        ParsedWhileBlock(c, t2[1..], d)
  }

  /** The body of a WHILE after its DO, and the closing END (and WHILE). */
  function ParsedWhileBlock(c: Condition, tokens: seq<string>, d: Dialect): (r: ParseResult)
    requires EndsWithEndOfInput(tokens)
    ensures r.Parsed? ==> |r.rest| < |tokens| && EndsWithEndOfInput(r.rest)
    ensures r.Parsed? ==> r.s.While? && r.s.cond == c
    decreases |tokens|, 3
  {
    match ParsedBlock(tokens, [], d)
    case Failed(m) => Failed(m)
    case Parsed(body, t4) =>
      if t4[0] != "END" then Failed("expecting 'END'")
      else
        var t5 := t4[1..];
        if d == AsWritten then Parsed(While(c, body), t5)
        else if t5[0] != "WHILE" then Failed("expecting 'WHILE'")
        else Parsed(While(c, body), t5[1..])
  }

  /** parseBlock: statements up to ELSE, END or END_OF_INPUT, appended after acc. */
  function ParsedBlock(tokens: seq<string>, acc: seq<Statement>, d: Dialect): (r: ParseResult)
    requires EndsWithEndOfInput(tokens)
    ensures r.Parsed? ==> |r.rest| <= |tokens| && EndsWithEndOfInput(r.rest)
    ensures r.Parsed? ==> IsBlockEnd(r.rest[0])
    ensures r.Parsed? ==> r.s.Block? && |acc| <= |r.s.children| && r.s.children[..|acc|] == acc
    ensures IsBlockEnd(tokens[0]) ==> r == Parsed(Block(acc), tokens)
    decreases |tokens|, 2
  {
    if IsBlockEnd(tokens[0]) then Parsed(Block(acc), tokens)
    else
      match ParsedStatement(tokens, d)
      case Failed(m) => Failed(m)
      case Parsed(s, rest) =>
        var r := ParsedBlock(rest, acc + [s], d);
        assert r.Parsed? ==> r.s.children[..|acc|] == (acc + [s])[..|acc|];
        r
  }

  // ---------------------------------------------------------------------------
  // The source's procedures
  // ---------------------------------------------------------------------------

  method Parse(tokens: seq<string>) returns (r: ParseResult)
    requires EndsWithEndOfInput(tokens)
    ensures r == ParsedStatement(tokens, AsWritten)
    decreases |tokens|, 1
  {
    if !(tokens[0] == "IF" || tokens[0] == "WHILE" || IsIdentifier(tokens[0])) {
      return Failed("Error: Expect a IF, WHILE, or Identifier, found: " + tokens[0]);
    }
    if tokens[0] == "IF" {
      r := ParseIf(tokens);
    } else if tokens[0] == "WHILE" {
      r := ParseWhile(tokens);
    } else {
      r := ParseCall(tokens);
    }
  }

  method ParseCall(tokens: seq<string>) returns (r: ParseResult)
    requires EndsWithEndOfInput(tokens) && IsIdentifier(tokens[0])
    ensures r == Parsed(Call(tokens[0]), tokens[1..])
  {
    var queue := tokens;
    var call := queue[0];
    queue := queue[1..];
    r := Parsed(Call(call), queue);
  }

  method ParseIf(tokens: seq<string>) returns (r: ParseResult)
    requires EndsWithEndOfInput(tokens) && tokens[0] == "IF"
    ensures r == ParsedIf(tokens, AsWritten)
    decreases |tokens|, 0
  {
    var queue := tokens[1..];
    if !IsCondition(queue[0]) {
      return Failed("Wrong condition");
    }
    var condition := ParseCondition(queue[0]);
    queue := queue[1..];
    if queue[0] != "THEN" {
      return Failed("Error: Expected THEN, found: \"" + queue[0] + "\"");
    }
    queue := queue[1..];
    r := ParseIfBlocks(condition, queue);
  }

  /** The rest of parseIf, from the THEN block to the closing END IF. */
  method ParseIfBlocks(condition: Condition, tokens: seq<string>) returns (r: ParseResult)
    requires EndsWithEndOfInput(tokens)
    ensures r == ParsedIfBlocks(condition, tokens, AsWritten)
    decreases |tokens|, 3
  {
    var ifBlock := ParseBlock(tokens);
    IfBlocksCases(condition, tokens, ifBlock);
    if ifBlock.Failed? {
      return Failed(ifBlock.message);
    }
    var queue := ifBlock.rest;
    if !(queue[0] == "ELSE" || queue[0] == "END") {
      return Failed("expecting 'END' or 'ELSE'");
    }
    if queue[0] == "ELSE" {
      r := ParseElseBlock(condition, ifBlock.s, queue[1..]);
    } else {
      r := CloseIf(If(condition, ifBlock.s), queue[1..]);
    }
  }

  /** How the IF goes on once its THEN block is read. */
  lemma IfBlocksCases(c: Condition, tokens: seq<string>, block: ParseResult)
    requires EndsWithEndOfInput(tokens) && block == ParsedBlock(tokens, [], AsWritten)
    ensures block.Failed? ==> ParsedIfBlocks(c, tokens, AsWritten) == Failed(block.message)
    ensures block.Parsed? && !(block.rest[0] == "ELSE" || block.rest[0] == "END")
            ==> ParsedIfBlocks(c, tokens, AsWritten) == Failed("expecting 'END' or 'ELSE'")
    ensures block.Parsed? && block.rest[0] == "ELSE"
            ==> ParsedIfBlocks(c, tokens, AsWritten) == ParsedElseBlock(c, block.s, block.rest[1..], AsWritten)
    ensures block.Parsed? && block.rest[0] == "END" && block.rest[0] != "ELSE"
            ==> ParsedIfBlocks(c, tokens, AsWritten) == ClosedIf(If(c, block.s), block.rest[1..])
  {
  }

  /** The ELSE block of parseIf and the closing END IF. */
  method ParseElseBlock(condition: Condition, thenBlock: Statement, tokens: seq<string>) returns (r: ParseResult)
    requires EndsWithEndOfInput(tokens)
    ensures r == ParsedElseBlock(condition, thenBlock, tokens, AsWritten)
    decreases |tokens|, 3
  {
    var elseBlock := ParseBlock(tokens);
    if elseBlock.Failed? {
      return Failed(elseBlock.message);
    }
    var queue := elseBlock.rest;
    if queue[0] != "END" {
      return Failed("expecting 'END'");
    }
    r := CloseIf(IfElse(condition, thenBlock, elseBlock.s), queue[1..]);
  }

  /** The IF of END IF. */
  method CloseIf(s: Statement, tokens: seq<string>) returns (r: ParseResult)
    requires EndsWithEndOfInput(tokens)
    ensures r == ClosedIf(s, tokens)
  {
    var endIfWord := tokens[0];
    var queue := tokens[1..];
    if endIfWord != "IF" {
      return Failed("Expecting end 'IF'");
    }
    r := Parsed(s, queue);
  }

  method ParseWhile(tokens: seq<string>) returns (r: ParseResult)
    requires EndsWithEndOfInput(tokens) && tokens[0] == "WHILE"
    ensures r == ParsedWhile(tokens, AsWritten)
    decreases |tokens|, 0
  {
    var whileWord := tokens[0];
    var queue := tokens[1..];
    if !IsCondition(queue[0]) {
      return Failed("Unepecting condition here");
    }
    var condition := ParseCondition(queue[0]);
    queue := queue[1..];
    var doWord := queue[0];
    queue := queue[1..];
    if doWord != "DO" {
      return Failed("expecting 'DO'");
    }
    r := ParseWhileBlock(condition, queue);
    // the source re-checks the WHILE it dequeued first, which always holds
    if r.Parsed? && whileWord != "WHILE" {
      return Failed("expecting 'WHILE'");
    }
  }

  /** The rest of parseWhile, from the body to the closing END. */
  method ParseWhileBlock(condition: Condition, tokens: seq<string>) returns (r: ParseResult)
    requires EndsWithEndOfInput(tokens)
    ensures r == ParsedWhileBlock(condition, tokens, AsWritten)
    decreases |tokens|, 3
  {
    var whileBlock := ParseBlock(tokens);
    if whileBlock.Failed? {
      return Failed(whileBlock.message);
    }
    var s := While(condition, whileBlock.s);
    var queue := whileBlock.rest;
    var endWord := queue[0];
    queue := queue[1..];
    if endWord != "END" {
      return Failed("expecting 'END'");
    }
    r := Parsed(s, queue);
  }

  method ParseBlock(tokens: seq<string>) returns (r: ParseResult)
    requires EndsWithEndOfInput(tokens)
    ensures r == ParsedBlock(tokens, [], AsWritten)
    decreases |tokens|, 2
  {
    var queue := tokens;
    var children: seq<Statement> := [];
    while !IsBlockEnd(queue[0])
      invariant EndsWithEndOfInput(queue) && |queue| <= |tokens|
      invariant ParsedBlock(queue, children, AsWritten) == ParsedBlock(tokens, [], AsWritten)
      decreases |queue|
    {
      var s := Parse(queue);
      if s.Failed? {
        return Failed(s.message);
      }
      children := children + [s.s];
      queue := s.rest;
    }
    r := Parsed(Block(children), queue);
  }
}

/*
 * The concrete syntax of statements, and the round trip through the parser.
 */
module BLUnparse {

  import opened BLStatement
  import opened BLParser

  /** The tokens of a statement as the tokenizer would deliver them. */
  function StatementTokens(s: Statement): seq<string>
    decreases s, 1
  {
    match s
    case Block(ch) => ChildrenTokens(ch)
    case If(c, b) => ["IF", ConditionToken(c), "THEN"] + StatementTokens(b) + ["END", "IF"]
    case IfElse(c, b1, b2) =>
      ["IF", ConditionToken(c), "THEN"] + StatementTokens(b1) + ["ELSE"]
      + StatementTokens(b2) + ["END", "IF"]
    case While(c, b) => ["WHILE", ConditionToken(c), "DO"] + StatementTokens(b) + ["END", "WHILE"]
    case Call(n) => [n]
  }

  /** The tokens of a block's children, in order. */
  function ChildrenTokens(ch: seq<Statement>): seq<string>
    decreases ch, 0
  {
    if |ch| == 0 then [] else StatementTokens(ch[0]) + ChildrenTokens(ch[1..])
  }

  /**
   * The statements the grammar describes: a CALL of an identifier, or an
   * IF, IF_ELSE or WHILE whose bodies are blocks of such statements. WHILE
   * is only read back by a dialect that consumes its closing WHILE.
   */
  predicate Parsable(s: Statement, d: Dialect)
  {
    match s
    case Block(_) => false
    case Call(n) => IsIdentifier(n)
    case If(_, b) => b.Block? && (forall i :: 0 <= i < |b.children| ==> Parsable(b.children[i], d))
    case IfElse(_, b1, b2) =>
      && b1.Block? && (forall i :: 0 <= i < |b1.children| ==> Parsable(b1.children[i], d))
      && b2.Block? && (forall i :: 0 <= i < |b2.children| ==> Parsable(b2.children[i], d))
    case While(_, b) =>
      && d == EndWhileChecked
      && b.Block? && (forall i :: 0 <= i < |b.children| ==> Parsable(b.children[i], d))
  }

  predicate AllParsable(ch: seq<Statement>, d: Dialect)
  {
    forall i :: 0 <= i < |ch| ==> Parsable(ch[i], d)
  }

  lemma EndOfInputIsNotIdentifier()
    ensures !IsIdentifier(EndOfInput)
  {
    assert !IsLetter(EndOfInput[0]);
  }

  /** A parsable statement starts with a token that does not end a block. */
  lemma FirstTokenStartsStatement(s: Statement, d: Dialect)
    requires Parsable(s, d)
    ensures |StatementTokens(s)| > 0
    ensures !IsBlockEnd(StatementTokens(s)[0])
    ensures StatementTokens(s)[0] == "IF" || StatementTokens(s)[0] == "WHILE"
            || IsIdentifier(StatementTokens(s)[0])
  {
    EndOfInputIsNotIdentifier();
  }

  /** An IF's header is consumed and its blocks follow. */
  lemma StatementIf(c: Condition, t3: seq<string>, d: Dialect)
    requires EndsWithEndOfInput(t3)
    ensures EndsWithEndOfInput(["IF", ConditionToken(c), "THEN"] + t3)
    ensures ParsedStatement(["IF", ConditionToken(c), "THEN"] + t3, d) == ParsedIfBlocks(c, t3, d)
  {
    var tokens := ["IF", ConditionToken(c), "THEN"] + t3;
    assert tokens[|tokens| - 1] == t3[|t3| - 1];
    ParseConditionToken(c);
    assert tokens[1..][1..][1..] == t3;
  }

  /** A WHILE's header is consumed and its body follows. */
  lemma StatementWhile(c: Condition, t3: seq<string>, d: Dialect)
    requires EndsWithEndOfInput(t3)
    ensures EndsWithEndOfInput(["WHILE", ConditionToken(c), "DO"] + t3)
    ensures ParsedStatement(["WHILE", ConditionToken(c), "DO"] + t3, d) == ParsedWhileBlock(c, t3, d)
  {
    var tokens := ["WHILE", ConditionToken(c), "DO"] + t3;
    assert tokens[|tokens| - 1] == t3[|t3| - 1];
    ParseConditionToken(c);
    assert tokens[1..][1..][1..] == t3;
  }

  /** A one-token CALL. */
  lemma StatementCall(n: string, rest: seq<string>, d: Dialect)
    requires IsIdentifier(n) && EndsWithEndOfInput(rest)
    ensures EndsWithEndOfInput([n] + rest)
    ensures ParsedStatement([n] + rest, d) == Parsed(Call(n), rest)
  {
    var tokens := [n] + rest;
    assert tokens[|tokens| - 1] == rest[|rest| - 1];
    assert tokens[1..] == rest;
  }

  /** IF c THEN block END IF, once the then-block has been read. */
  lemma IfBlocksThen(c: Condition, t3: seq<string>, b: Statement, rest: seq<string>, d: Dialect)
    requires EndsWithEndOfInput(t3) && EndsWithEndOfInput(rest)
    requires ParsedBlock(t3, [], d) == Parsed(b, ["END", "IF"] + rest)
    ensures ParsedIfBlocks(c, t3, d) == Parsed(If(c, b), rest)
  {
    var t4 := ["END", "IF"] + rest;
    assert t4[1..][1..] == rest;
  }

  /** IF c THEN block ELSE block END IF, once both blocks have been read. */
  lemma IfBlocksElse(c: Condition, t3: seq<string>, b1: Statement, t5: seq<string>, b2: Statement,
                     rest: seq<string>, d: Dialect)
    requires EndsWithEndOfInput(t3) && EndsWithEndOfInput(t5) && EndsWithEndOfInput(rest)
    requires ParsedBlock(t3, [], d) == Parsed(b1, ["ELSE"] + t5)
    requires ParsedBlock(t5, [], d) == Parsed(b2, ["END", "IF"] + rest)
    ensures ParsedIfBlocks(c, t3, d) == Parsed(IfElse(c, b1, b2), rest)
  {
    var t4 := ["ELSE"] + t5;
    assert t4[1..] == t5;
    var t6 := ["END", "IF"] + rest;
    assert t6[1..][1..] == rest;
  }

  /** WHILE c DO block END [WHILE], once the body has been read. */
  lemma WhileBlockRead(c: Condition, t3: seq<string>, b: Statement, rest: seq<string>, d: Dialect)
    requires EndsWithEndOfInput(t3) && EndsWithEndOfInput(rest)
    requires ParsedBlock(t3, [], d) == Parsed(b, ["END", "WHILE"] + rest)
    ensures d == EndWhileChecked ==> ParsedWhileBlock(c, t3, d) == Parsed(While(c, b), rest)
    ensures d == AsWritten ==> ParsedWhileBlock(c, t3, d) == Parsed(While(c, b), ["WHILE"] + rest)
  {
    var t4 := ["END", "WHILE"] + rest;
    assert t4[1..] == ["WHILE"] + rest;
    assert t4[1..][1..] == rest;
  }

  /** parseBlock reads one statement and carries on after it. */
  lemma BlockStep(tokens: seq<string>, acc: seq<Statement>, s: Statement, tail: seq<string>, d: Dialect)
    requires EndsWithEndOfInput(tokens) && !IsBlockEnd(tokens[0])
    requires ParsedStatement(tokens, d) == Parsed(s, tail)
    ensures EndsWithEndOfInput(tail)
    ensures ParsedBlock(tokens, acc, d) == ParsedBlock(tail, acc + [s], d)
  {
  }

  /** Parsing the tokens of a parsable statement gives the statement back. */
  lemma {:induction false} ParseUnparse(s: Statement, rest: seq<string>, d: Dialect)
    requires Parsable(s, d) && EndsWithEndOfInput(rest)
    ensures EndsWithEndOfInput(StatementTokens(s) + rest)
    ensures ParsedStatement(StatementTokens(s) + rest, d) == Parsed(s, rest)
    decreases s, 1
  {
    match s
    case Call(n) => StatementCall(n, rest, d);
    case If(_, _) => ParseUnparseIf(s, rest, d);
    case IfElse(_, _, _) => ParseUnparseIfElse(s, rest, d);
    case While(_, _) => ParseUnparseWhile(s, rest, d);
  }

  lemma {:induction false} ParseUnparseIf(s: Statement, rest: seq<string>, d: Dialect)
    requires s.If? && Parsable(s, d) && EndsWithEndOfInput(rest)
    ensures EndsWithEndOfInput(StatementTokens(s) + rest)
    ensures ParsedStatement(StatementTokens(s) + rest, d) == Parsed(s, rest)
    decreases s, 0
  {
    var inner := ["END", "IF"] + rest;
    assert inner[|inner| - 1] == rest[|rest| - 1];
    ParseUnparseBlock(s.body.children, [], inner, d);
    var t3 := ChildrenTokens(s.body.children) + inner;
    IfBlocksThen(s.cond, t3, s.body, rest, d);
    StatementIf(s.cond, t3, d);
    TokensOfIf(s, rest);
  }

  lemma TokensOfIf(s: Statement, rest: seq<string>)
    requires s.If? && s.body.Block?
    ensures StatementTokens(s) + rest
            == ["IF", ConditionToken(s.cond), "THEN"] + (ChildrenTokens(s.body.children) + (["END", "IF"] + rest))
  {
  }

  lemma {:induction false} ParseUnparseIfElse(s: Statement, rest: seq<string>, d: Dialect)
    requires s.IfElse? && Parsable(s, d) && EndsWithEndOfInput(rest)
    ensures EndsWithEndOfInput(StatementTokens(s) + rest)
    ensures ParsedStatement(StatementTokens(s) + rest, d) == Parsed(s, rest)
    decreases s, 0
  {
    var elseRest := ["END", "IF"] + rest;
    assert elseRest[|elseRest| - 1] == rest[|rest| - 1];
    ParseUnparseBlock(s.elseBody.children, [], elseRest, d);
    var t5 := ChildrenTokens(s.elseBody.children) + elseRest;
    var inner := ["ELSE"] + t5;
    assert inner[|inner| - 1] == t5[|t5| - 1];
    ParseUnparseBlock(s.thenBody.children, [], inner, d);
    var t3 := ChildrenTokens(s.thenBody.children) + inner;
    IfBlocksElse(s.cond, t3, s.thenBody, t5, s.elseBody, rest, d);
    StatementIf(s.cond, t3, d);
    TokensOfIfElse(s, rest);
  }

  lemma TokensOfIfElse(s: Statement, rest: seq<string>)
    requires s.IfElse? && s.thenBody.Block? && s.elseBody.Block?
    ensures StatementTokens(s) + rest
            == ["IF", ConditionToken(s.cond), "THEN"]
               + (ChildrenTokens(s.thenBody.children)
                  + (["ELSE"] + (ChildrenTokens(s.elseBody.children) + (["END", "IF"] + rest))))
  {
  }

  lemma {:induction false} ParseUnparseWhile(s: Statement, rest: seq<string>, d: Dialect)
    requires s.While? && Parsable(s, d) && EndsWithEndOfInput(rest)
    ensures EndsWithEndOfInput(StatementTokens(s) + rest)
    ensures ParsedStatement(StatementTokens(s) + rest, d) == Parsed(s, rest)
    decreases s, 0
  {
    var inner := ["END", "WHILE"] + rest;
    assert inner[|inner| - 1] == rest[|rest| - 1];
    ParseUnparseBlock(s.body.children, [], inner, d);
    var t3 := ChildrenTokens(s.body.children) + inner;
    WhileBlockRead(s.cond, t3, s.body, rest, d);
    StatementWhile(s.cond, t3, d);
    TokensOfWhile(s, rest);
  }

  lemma TokensOfWhile(s: Statement, rest: seq<string>)
    requires s.While? && s.body.Block?
    ensures StatementTokens(s) + rest
            == ["WHILE", ConditionToken(s.cond), "DO"] + (ChildrenTokens(s.body.children) + (["END", "WHILE"] + rest))
  {
  }

  /** parseBlock reads back the children's tokens up to the block's end. */
  lemma {:induction false} ParseUnparseBlock(ch: seq<Statement>, acc: seq<Statement>,
                                             rest: seq<string>, d: Dialect)
    requires AllParsable(ch, d) && EndsWithEndOfInput(rest) && IsBlockEnd(rest[0])
    ensures EndsWithEndOfInput(ChildrenTokens(ch) + rest)
    ensures ParsedBlock(ChildrenTokens(ch) + rest, acc, d) == Parsed(Block(acc + ch), rest)
    decreases ch, 1
  {
    if |ch| == 0 {
      assert ChildrenTokens(ch) + rest == rest;
      assert acc + ch == acc;
    } else {
      ParseUnparseChildren(ch, acc, rest, d);
    }
  }

  lemma {:induction false} ParseUnparseChildren(ch: seq<Statement>, acc: seq<Statement>,
                                                rest: seq<string>, d: Dialect)
    requires |ch| > 0 && AllParsable(ch, d) && EndsWithEndOfInput(rest) && IsBlockEnd(rest[0])
    ensures EndsWithEndOfInput(ChildrenTokens(ch) + rest)
    ensures ParsedBlock(ChildrenTokens(ch) + rest, acc, d) == Parsed(Block(acc + ch), rest)
    decreases ch, 0
  {
    AllParsableTail(ch, d);
    ParseUnparseBlock(ch[1..], acc + [ch[0]], rest, d);
    ParseUnparse(ch[0], ChildrenTokens(ch[1..]) + rest, d);
    ChildrenRead(ch, acc, rest, d);
  }

  lemma AllParsableTail(ch: seq<Statement>, d: Dialect)
    requires |ch| > 0 && AllParsable(ch, d)
    ensures Parsable(ch[0], d) && AllParsable(ch[1..], d)
  {
    forall i | 0 <= i < |ch[1..]| ensures Parsable(ch[1..][i], d) {
      assert ch[1..][i] == ch[i + 1];
    }
  }

  /** The first child read back, then the others, is the whole block read back. */
  lemma ChildrenRead(ch: seq<Statement>, acc: seq<Statement>, rest: seq<string>, d: Dialect)
    requires |ch| > 0 && Parsable(ch[0], d) && EndsWithEndOfInput(rest)
    requires EndsWithEndOfInput(ChildrenTokens(ch[1..]) + rest)
    requires EndsWithEndOfInput(StatementTokens(ch[0]) + (ChildrenTokens(ch[1..]) + rest))
    requires ParsedStatement(StatementTokens(ch[0]) + (ChildrenTokens(ch[1..]) + rest), d)
             == Parsed(ch[0], ChildrenTokens(ch[1..]) + rest)
    requires ParsedBlock(ChildrenTokens(ch[1..]) + rest, acc + [ch[0]], d)
             == Parsed(Block(acc + [ch[0]] + ch[1..]), rest)
    ensures EndsWithEndOfInput(ChildrenTokens(ch) + rest)
    ensures ParsedBlock(ChildrenTokens(ch) + rest, acc, d) == Parsed(Block(acc + ch), rest)
  {
    var tail := ChildrenTokens(ch[1..]) + rest;
    TokensOfChildren(ch, rest);
    FirstChildRead(ch[0], ChildrenTokens(ch) + rest, tail, acc, acc + [ch[0]] + ch[1..], rest, d);
    assert acc + [ch[0]] + ch[1..] == acc + ch;
  }

  /** Reading the first child and then the others reads the whole block. */
  lemma FirstChildRead(s: Statement, tokens: seq<string>, tail: seq<string>, acc: seq<Statement>,
                       all: seq<Statement>, rest: seq<string>, d: Dialect)
    requires Parsable(s, d) && tokens == StatementTokens(s) + tail
    requires EndsWithEndOfInput(tail) && EndsWithEndOfInput(tokens)
    requires ParsedStatement(tokens, d) == Parsed(s, tail)
    requires ParsedBlock(tail, acc + [s], d) == Parsed(Block(all), rest)
    ensures ParsedBlock(tokens, acc, d) == Parsed(Block(all), rest)
  {
    FirstTokenStartsStatement(s, d);
    BlockStep(tokens, acc, s, tail, d);
  }

  lemma TokensOfChildren(ch: seq<Statement>, rest: seq<string>)
    requires |ch| > 0
    ensures ChildrenTokens(ch) + rest == StatementTokens(ch[0]) + (ChildrenTokens(ch[1..]) + rest)
  {
  }

  /**
   * As written, parseWhile leaves the WHILE of END WHILE at the front of the
   * queue.
   */
  lemma WhileLeavesClosingWhile(c: Condition, ch: seq<Statement>, rest: seq<string>)
    requires AllParsable(ch, AsWritten) && EndsWithEndOfInput(rest)
    ensures ParsedStatement(StatementTokens(While(c, Block(ch))) + rest, AsWritten)
            == Parsed(While(c, Block(ch)), ["WHILE"] + rest)
  {
    var inner := ["END", "WHILE"] + rest;
    assert inner[|inner| - 1] == rest[|rest| - 1];
    ParseUnparseBlock(ch, [], inner, AsWritten);
    var t3 := ChildrenTokens(ch) + inner;
    WhileBlockRead(c, t3, Block(ch), rest, AsWritten);
    StatementWhile(c, t3, AsWritten);
    TokensOfWhile(While(c, Block(ch)), rest);
  }

  /** A WHILE left in front of the end of input is read as the start of another loop. */
  lemma LoneWhileFails(acc: seq<Statement>, d: Dialect)
    ensures ParsedBlock(["WHILE", EndOfInput], acc, d) == Failed("Unepecting condition here")
  {
    var tokens := ["WHILE", EndOfInput];
    assert !IsCondition(EndOfInput);
    assert tokens[1..] == [EndOfInput];
    assert ParsedWhile(tokens, d) == Failed("Unepecting condition here");
    assert ParsedStatement(tokens, d) == Failed("Unepecting condition here");
  }

  /**
   * As written, the smallest loop, WHILE true DO END WHILE, does not parse as
   * a block: the WHILE left behind starts another loop.
   */
  lemma EmptyWhileBlockFails()
    ensures ParsedBlock(["WHILE", "true", "DO", "END", "WHILE", EndOfInput], [], AsWritten)
            == Failed("Unepecting condition here")
  {
    var tokens := ["WHILE", "true", "DO", "END", "WHILE", EndOfInput];
    var loop := While(True, Block([]));
    assert StatementTokens(loop) + [EndOfInput] == tokens by { SmallestLoopTokens(); }
    assert ParsedStatement(tokens, AsWritten) == Parsed(loop, ["WHILE", EndOfInput]) by {
      WhileLeavesClosingWhile(True, [], [EndOfInput]);
    }
    BlockStep(tokens, [], loop, ["WHILE", EndOfInput], AsWritten);
    LoneWhileFails([loop], AsWritten);
  }

  lemma SmallestLoopTokens()
    ensures StatementTokens(While(True, Block([]))) == ["WHILE", "true", "DO", "END", "WHILE"]
  {
    assert ChildrenTokens([]) == [];
    assert ConditionToken(True) == "true";
  }

  /** Consuming the closing WHILE reads the smallest loop back. */
  lemma EmptyWhileBlockParses()
    ensures ParsedBlock(["WHILE", "true", "DO", "END", "WHILE", EndOfInput], [], EndWhileChecked)
            == Parsed(Block([While(True, Block([]))]), [EndOfInput])
  {
    var tokens := ["WHILE", "true", "DO", "END", "WHILE", EndOfInput];
    var loop := While(True, Block([]));
    ParseUnparseBlock([loop], [], [EndOfInput], EndWhileChecked);
    assert ChildrenTokens([loop]) == StatementTokens(loop) + ChildrenTokens([]);
    assert ChildrenTokens([loop]) + [EndOfInput] == tokens;
  }

  // ---------------------------------------------------------------------------
  // Soundness: what a successful parse consumes
  // ---------------------------------------------------------------------------

  /** The closing tokens of a WHILE that parseWhile dequeues. */
  function EndWhileTokens(d: Dialect): seq<string>
  {
    if d == AsWritten then ["END"] else ["END", "WHILE"]
  }

  /**
   * The tokens a successful parse of s dequeues: the tokens of s, except that
   * as written parseWhile leaves the WHILE of each END WHILE in the queue.
   */
  function ConsumedTokens(s: Statement, d: Dialect): seq<string>
    decreases s, 1
  {
    match s
    case Block(ch) => ConsumedChildren(ch, d)
    case If(c, b) => ["IF", ConditionToken(c), "THEN"] + ConsumedTokens(b, d) + ["END", "IF"]
    case IfElse(c, b1, b2) =>
      ["IF", ConditionToken(c), "THEN"] + ConsumedTokens(b1, d) + ["ELSE"]
      + ConsumedTokens(b2, d) + ["END", "IF"]
    case While(c, b) => ["WHILE", ConditionToken(c), "DO"] + ConsumedTokens(b, d) + EndWhileTokens(d)
    case Call(n) => [n]
  }

  function ConsumedChildren(ch: seq<Statement>, d: Dialect): seq<string>
    decreases ch, 0
  {
    if |ch| == 0 then [] else ConsumedTokens(ch[0], d) + ConsumedChildren(ch[1..], d)
  }

  /** When the closing WHILE is checked, a parse consumes exactly the statement's tokens. */
  lemma {:induction false} ConsumedTokensChecked(s: Statement)
    ensures ConsumedTokens(s, EndWhileChecked) == StatementTokens(s)
    decreases s, 1
  {
    match s
    case Block(ch) => ConsumedChildrenChecked(ch);
    case If(_, b) => ConsumedTokensChecked(b);
    case IfElse(_, b1, b2) => ConsumedTokensChecked(b1); ConsumedTokensChecked(b2);
    case While(_, b) => ConsumedTokensChecked(b);
    case Call(_) =>
  }

  lemma {:induction false} ConsumedChildrenChecked(ch: seq<Statement>)
    ensures ConsumedChildren(ch, EndWhileChecked) == ChildrenTokens(ch)
    decreases ch, 0
  {
    if |ch| > 0 {
      ConsumedTokensChecked(ch[0]);
      ConsumedChildrenChecked(ch[1..]);
    }
  }

  /** parse: the tokens in front of the rest are exactly those of the statement built. */
  lemma {:induction false} StatementSound(tokens: seq<string>, d: Dialect, s: Statement, rest: seq<string>)
    requires EndsWithEndOfInput(tokens) && ParsedStatement(tokens, d) == Parsed(s, rest)
    ensures tokens == ConsumedTokens(s, d) + rest
    decreases |tokens|, 1
  {
    if tokens[0] == "IF" {
      IfSound(tokens, d, s, rest);
    } else if tokens[0] == "WHILE" {
      WhileSound(tokens, d, s, rest);
    } else {
      assert s == Call(tokens[0]) && rest == tokens[1..];
      assert tokens == [tokens[0]] + rest;
    }
  }

  /** parseIf consumes the tokens of the IF or IF_ELSE it builds. */
  lemma {:induction false} IfSound(tokens: seq<string>, d: Dialect, s: Statement, rest: seq<string>)
    requires EndsWithEndOfInput(tokens) && tokens[0] == "IF" && ParsedIf(tokens, d) == Parsed(s, rest)
    ensures tokens == ConsumedTokens(s, d) + rest
    decreases |tokens|, 0
  {
    var c, t3 := IfHeader(tokens, d, s, rest);
    IfBlocksSound(c, t3, d, s, rest);
  }

  /** The header IF c THEN that parseIf reads before its blocks. */
  lemma IfHeader(tokens: seq<string>, d: Dialect, s: Statement, rest: seq<string>) returns (c: Condition, t3: seq<string>)
    requires EndsWithEndOfInput(tokens) && tokens[0] == "IF" && ParsedIf(tokens, d) == Parsed(s, rest)
    ensures EndsWithEndOfInput(t3) && |t3| < |tokens| && ParsedIfBlocks(c, t3, d) == Parsed(s, rest)
    ensures tokens == ["IF", ConditionToken(c), "THEN"] + t3
  {
    c := ParseCondition(tokens[1]);
    t3 := tokens[3..];
    assert tokens[1..][1..][1..] == t3;
    assert tokens == ["IF", ConditionToken(c), "THEN"] + t3;
  }

  lemma {:induction false} IfBlocksSound(c: Condition, tokens: seq<string>, d: Dialect, s: Statement, rest: seq<string>)
    requires EndsWithEndOfInput(tokens) && ParsedIfBlocks(c, tokens, d) == Parsed(s, rest)
    ensures ["IF", ConditionToken(c), "THEN"] + tokens == ConsumedTokens(s, d) + rest
    decreases |tokens|, 4
  {
    var thenBlock, t4 := IfBlocksParts(c, tokens, d, s, rest);
    BlockConsumed(tokens, d, thenBlock, t4);
    if t4[0] == "ELSE" {
      ElseBlockSound(c, thenBlock, t4[1..], d, s, rest);
      ThenPartRead(["IF", ConditionToken(c), "THEN"], ConsumedTokens(thenBlock, d), t4[1..], tokens);
    } else {
      ClosedIfTokens(c, thenBlock, d, tokens, t4, rest);
    }
  }

  /** The THEN block that parseIf reads, and what follows it: an ELSE block, or END IF. */
  lemma IfBlocksParts(c: Condition, tokens: seq<string>, d: Dialect, s: Statement, rest: seq<string>)
      returns (thenBlock: Statement, t4: seq<string>)
    requires EndsWithEndOfInput(tokens) && ParsedIfBlocks(c, tokens, d) == Parsed(s, rest)
    ensures EndsWithEndOfInput(t4) && |t4| <= |tokens| && ParsedBlock(tokens, [], d) == Parsed(thenBlock, t4)
    ensures t4[0] == "ELSE" ==> EndsWithEndOfInput(t4[1..]) && ParsedElseBlock(c, thenBlock, t4[1..], d) == Parsed(s, rest)
    ensures t4[0] != "ELSE" ==> s == If(c, thenBlock) && t4 == ["END", "IF"] + rest
  {
    var b := ParsedBlock(tokens, [], d);
    thenBlock, t4 := b.s, b.rest;
    if t4[0] != "ELSE" {
      assert t4 == ["END", "IF"] + rest;
    }
  }

  lemma ClosedIfTokens(c: Condition, b: Statement, d: Dialect, tokens: seq<string>, t4: seq<string>, rest: seq<string>)
    requires tokens == ConsumedTokens(b, d) + t4 && t4 == ["END", "IF"] + rest
    ensures ["IF", ConditionToken(c), "THEN"] + tokens == ConsumedTokens(If(c, b), d) + rest
  {
  }

  lemma ClosedIfElseTokens(c: Condition, b1: Statement, b2: Statement, d: Dialect, tokens: seq<string>,
                           t6: seq<string>, rest: seq<string>)
    requires tokens == ConsumedTokens(b2, d) + t6 && t6 == ["END", "IF"] + rest
    ensures ["IF", ConditionToken(c), "THEN"] + ConsumedTokens(b1, d) + ["ELSE"] + tokens
            == ConsumedTokens(IfElse(c, b1, b2), d) + rest
  {
  }

  lemma ClosedWhileTokens(c: Condition, b: Statement, d: Dialect, tokens: seq<string>, t4: seq<string>, rest: seq<string>)
    requires tokens == ConsumedTokens(b, d) + t4 && t4 == EndWhileTokens(d) + rest
    ensures ["WHILE", ConditionToken(c), "DO"] + tokens == ConsumedTokens(While(c, b), d) + rest
  {
  }

  /** The THEN part's tokens, then ELSE, then the rest. */
  lemma ThenPartRead(head: seq<string>, thenTokens: seq<string>, t5: seq<string>, tokens: seq<string>)
    requires |tokens| > |thenTokens| && tokens == thenTokens + tokens[|thenTokens|..]
    requires tokens[|thenTokens|] == "ELSE" && tokens[|thenTokens|..][1..] == t5
    ensures head + tokens == head + thenTokens + ["ELSE"] + t5
  {
    assert tokens[|thenTokens|..] == ["ELSE"] + t5;
  }

  lemma {:induction false} ElseBlockSound(c: Condition, thenBlock: Statement, tokens: seq<string>, d: Dialect,
                                          s: Statement, rest: seq<string>)
    requires EndsWithEndOfInput(tokens) && ParsedElseBlock(c, thenBlock, tokens, d) == Parsed(s, rest)
    ensures ["IF", ConditionToken(c), "THEN"] + ConsumedTokens(thenBlock, d) + ["ELSE"] + tokens
            == ConsumedTokens(s, d) + rest
    decreases |tokens|, 4
  {
    var elseBlock, t6 := ElseBlockParts(c, thenBlock, tokens, d, s, rest);
    BlockConsumed(tokens, d, elseBlock, t6);
    ClosedIfElseTokens(c, thenBlock, elseBlock, d, tokens, t6, rest);
  }

  /** The ELSE block that parseIf reads, followed by END IF. */
  lemma ElseBlockParts(c: Condition, thenBlock: Statement, tokens: seq<string>, d: Dialect, s: Statement, rest: seq<string>)
      returns (elseBlock: Statement, t6: seq<string>)
    requires EndsWithEndOfInput(tokens) && ParsedElseBlock(c, thenBlock, tokens, d) == Parsed(s, rest)
    ensures EndsWithEndOfInput(t6) && |t6| <= |tokens| && ParsedBlock(tokens, [], d) == Parsed(elseBlock, t6)
    ensures s == IfElse(c, thenBlock, elseBlock) && t6 == ["END", "IF"] + rest
  {
    var b := ParsedBlock(tokens, [], d);
    elseBlock, t6 := b.s, b.rest;
    assert t6 == ["END", "IF"] + rest;
  }

  /** parseWhile consumes the tokens of the WHILE it builds, up to its END (and WHILE when checked). */
  lemma {:induction false} WhileSound(tokens: seq<string>, d: Dialect, s: Statement, rest: seq<string>)
    requires EndsWithEndOfInput(tokens) && tokens[0] == "WHILE" && ParsedWhile(tokens, d) == Parsed(s, rest)
    ensures tokens == ConsumedTokens(s, d) + rest
    decreases |tokens|, 0
  {
    var c, t3 := WhileHeader(tokens, d, s, rest);
    WhileBlockSound(c, t3, d, s, rest);
  }

  /** The header WHILE c DO that parseWhile reads before its body. */
  lemma WhileHeader(tokens: seq<string>, d: Dialect, s: Statement, rest: seq<string>) returns (c: Condition, t3: seq<string>)
    requires EndsWithEndOfInput(tokens) && tokens[0] == "WHILE" && ParsedWhile(tokens, d) == Parsed(s, rest)
    ensures EndsWithEndOfInput(t3) && |t3| < |tokens| && ParsedWhileBlock(c, t3, d) == Parsed(s, rest)
    ensures tokens == ["WHILE", ConditionToken(c), "DO"] + t3
  {
    c := ParseCondition(tokens[1]);
    t3 := tokens[3..];
    assert tokens[1..][1..][1..] == t3;
    assert tokens == ["WHILE", ConditionToken(c), "DO"] + t3;
  }

  lemma {:induction false} WhileBlockSound(c: Condition, tokens: seq<string>, d: Dialect, s: Statement, rest: seq<string>)
    requires EndsWithEndOfInput(tokens) && ParsedWhileBlock(c, tokens, d) == Parsed(s, rest)
    ensures ["WHILE", ConditionToken(c), "DO"] + tokens == ConsumedTokens(s, d) + rest
    decreases |tokens|, 4
  {
    var body, t4 := WhileBlockParts(c, tokens, d, s, rest);
    BlockConsumed(tokens, d, body, t4);
    ClosedWhileTokens(c, body, d, tokens, t4, rest);
  }

  /** The body that parseWhile reads, followed by END (and WHILE when checked). */
  lemma WhileBlockParts(c: Condition, tokens: seq<string>, d: Dialect, s: Statement, rest: seq<string>)
      returns (body: Statement, t4: seq<string>)
    requires EndsWithEndOfInput(tokens) && ParsedWhileBlock(c, tokens, d) == Parsed(s, rest)
    ensures EndsWithEndOfInput(t4) && |t4| <= |tokens| && ParsedBlock(tokens, [], d) == Parsed(body, t4)
    ensures s == While(c, body) && t4 == EndWhileTokens(d) + rest
  {
    var b := ParsedBlock(tokens, [], d);
    body, t4 := b.s, b.rest;
    assert t4 == EndWhileTokens(d) + rest;
  }

  /** A block read from the start consumes its children's tokens. */
  lemma BlockConsumed(tokens: seq<string>, d: Dialect, b: Statement, rest: seq<string>)
    requires EndsWithEndOfInput(tokens) && ParsedBlock(tokens, [], d) == Parsed(b, rest)
    ensures tokens == ConsumedTokens(b, d) + rest
    decreases |tokens|, 3
  {
    BlockSound(tokens, [], d, b.children, rest);
    assert b.children[0..] == b.children;
  }

  /** parseBlock consumes the tokens of the children it appends after acc. */
  lemma {:induction false} BlockSound(tokens: seq<string>, acc: seq<Statement>, d: Dialect,
                                      ch: seq<Statement>, rest: seq<string>)
    requires EndsWithEndOfInput(tokens) && ParsedBlock(tokens, acc, d) == Parsed(Block(ch), rest)
    ensures |acc| <= |ch| && tokens == ConsumedChildren(ch[|acc|..], d) + rest
    decreases |tokens|, 2
  {
    if IsBlockEnd(tokens[0]) {
      BlockEnds(tokens, acc, d, ch, rest);
    } else {
      var s, mid := BlockTurn(tokens, acc, d, ch, rest);
      StatementSound(tokens, d, s, mid);
      BlockSound(mid, acc + [s], d, ch, rest);
      ChildrenConsumedStep(acc, s, ch, tokens, mid, rest, d);
    }
  }

  /** parseBlock at a block-end token appends nothing and consumes nothing. */
  lemma BlockEnds(tokens: seq<string>, acc: seq<Statement>, d: Dialect, ch: seq<Statement>, rest: seq<string>)
    requires EndsWithEndOfInput(tokens) && IsBlockEnd(tokens[0])
    requires ParsedBlock(tokens, acc, d) == Parsed(Block(ch), rest)
    ensures |acc| <= |ch| && tokens == ConsumedChildren(ch[|acc|..], d) + rest
  {
    assert ch[|acc|..] == [];
  }

  /** One turn of parseBlock: the statement read at the front, and the block read after it. */
  lemma BlockTurn(tokens: seq<string>, acc: seq<Statement>, d: Dialect, ch: seq<Statement>, rest: seq<string>)
      returns (s: Statement, mid: seq<string>)
    requires EndsWithEndOfInput(tokens) && !IsBlockEnd(tokens[0])
    requires ParsedBlock(tokens, acc, d) == Parsed(Block(ch), rest)
    ensures ParsedStatement(tokens, d) == Parsed(s, mid) && |mid| < |tokens| && EndsWithEndOfInput(mid)
    ensures ParsedBlock(mid, acc + [s], d) == Parsed(Block(ch), rest)
    ensures |acc| < |ch| && ch[..|acc| + 1] == acc + [s]
  {
    var p := ParsedStatement(tokens, d);
    s, mid := p.s, p.rest;
  }

  /** The tokens of the child appended after acc, then those of the children after it, are those of the children from |acc| on. */
  lemma ChildrenConsumedStep(acc: seq<Statement>, s: Statement, ch: seq<Statement>, tokens: seq<string>,
                             mid: seq<string>, rest: seq<string>, d: Dialect)
    requires |acc| < |ch| && ch[..|acc| + 1] == acc + [s]
    requires tokens == ConsumedTokens(s, d) + mid
    requires mid == ConsumedChildren(ch[|acc + [s]|..], d) + rest
    ensures tokens == ConsumedChildren(ch[|acc|..], d) + rest
  {
    var k := |acc|;
    assert ch[k] == ch[..k + 1][k] == s;
    assert ch[k..][1..] == ch[k + 1..];
  }

  /**
   * parse returns the statement spelled by the tokens it consumed and leaves
   * a suffix of the queue: #tokens = consumed prefix * tokens. With the
   * closing WHILE checked, the consumed prefix is the statement's own tokens,
   * so parsing inverts StatementTokens in both directions (see ParseUnparse).
   */
  lemma ParsedStatementSound(tokens: seq<string>, s: Statement, rest: seq<string>, d: Dialect)
    requires EndsWithEndOfInput(tokens) && ParsedStatement(tokens, d) == Parsed(s, rest)
    ensures tokens == ConsumedTokens(s, d) + rest
    ensures rest == tokens[|tokens| - |rest|..]
    ensures d == EndWhileChecked ==> tokens == StatementTokens(s) + rest
  {
    StatementSound(tokens, d, s, rest);
    ConsumedTokensChecked(s);
  }
}
