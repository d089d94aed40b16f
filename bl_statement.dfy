/*
 * The BL language's abstract syntax: conditions, statements, programs and the
 * virtual machine's instruction set, together with the lexical facts that the
 * tokenizer and the condition/instruction enumerations supply.
 */
module BLStatement {

  import opened Wrappers

  /** The test conditions of BL, in the enumeration's declaration order. */
  datatype Condition =
    | NextIsEmpty | NextIsNotEmpty
    | NextIsWall | NextIsNotWall
    | NextIsFriend | NextIsNotFriend
    | NextIsEnemy | NextIsNotEnemy
    | Random | True

  /** A BL statement: the five kinds BLOCK, IF, IF_ELSE, WHILE and CALL. */
  datatype Statement =
    | Block(children: seq<Statement>)
    | If(cond: Condition, body: Statement)
    | IfElse(cond: Condition, thenBody: Statement, elseBody: Statement)
    | While(cond: Condition, body: Statement)
    | Call(name: string)

  /** A BL program: its name, its context of user-defined instructions and its body. */
  datatype Program = Program(name: string, context: map<string, Statement>, body: Statement)

  /** The instructions of the BL virtual machine. */
  datatype Instruction =
    | Move | TurnLeft | TurnRight | Infect | Skip | Halt | Jump
    | JumpIfNot(c: Condition)

  // ---------------------------------------------------------------------------
  // ASCII character and string helpers (Java's toUpperCase, toLowerCase, replace)
  // ---------------------------------------------------------------------------

  predicate IsUpperLetter(ch: char) { 'A' <= ch <= 'Z' }

  predicate IsLowerLetter(ch: char) { 'a' <= ch <= 'z' }

  predicate IsLetter(ch: char) { IsUpperLetter(ch) || IsLowerLetter(ch) }

  predicate IsDigit(ch: char) { '0' <= ch <= '9' }

  function UpperChar(ch: char): (r: char)
    ensures IsLowerLetter(ch) ==> IsUpperLetter(r) && LowerChar(r) == ch
    ensures !IsLowerLetter(ch) ==> r == ch
  {
    if IsLowerLetter(ch) then ch - 'a' + 'A' else ch
  }

  function LowerChar(ch: char): (r: char)
    ensures IsUpperLetter(ch) ==> IsLowerLetter(r)
    ensures !IsUpperLetter(ch) ==> r == ch
  {
    if IsUpperLetter(ch) then ch - 'A' + 'a' else ch
  }

  /** String.toUpperCase on ASCII text. */
  function Upper(s: string): (r: string)
    ensures |r| == |s|
  {
    seq(|s|, i requires 0 <= i < |s| => UpperChar(s[i]))
  }

  /** String.toLowerCase on ASCII text. */
  function Lower(s: string): (r: string)
    ensures |r| == |s|
  {
    seq(|s|, i requires 0 <= i < |s| => LowerChar(s[i]))
  }

  /** String.replace(from, to) on characters. */
  function Replace(s: string, from: char, to: char): (r: string)
    ensures |r| == |s|
  {
    seq(|s|, i requires 0 <= i < |s| => if s[i] == from then to else s[i])
  }

  // ---------------------------------------------------------------------------
  // Condition names
  // ---------------------------------------------------------------------------

  /** The name of the enumeration constant (Condition.name()). */
  function ConditionName(c: Condition): string
  {
    match c
    case NextIsEmpty => "NEXT_IS_EMPTY"
    case NextIsNotEmpty => "NEXT_IS_NOT_EMPTY"
    case NextIsWall => "NEXT_IS_WALL"
    case NextIsNotWall => "NEXT_IS_NOT_WALL"
    case NextIsFriend => "NEXT_IS_FRIEND"
    case NextIsNotFriend => "NEXT_IS_NOT_FRIEND"
    case NextIsEnemy => "NEXT_IS_ENEMY"
    case NextIsNotEnemy => "NEXT_IS_NOT_ENEMY"
    case Random => "RANDOM"
    case True => "TRUE"
  }

  /** Condition.valueOf: the constant with the given name, if any. */
  function ConditionNamed(name: string): (r: Option<Condition>)
    ensures r.Some? ==> ConditionName(r.value) == name
  {
    if name == "NEXT_IS_EMPTY" then Some(NextIsEmpty)
    else if name == "NEXT_IS_NOT_EMPTY" then Some(NextIsNotEmpty)
    else if name == "NEXT_IS_WALL" then Some(NextIsWall)
    else if name == "NEXT_IS_NOT_WALL" then Some(NextIsNotWall)
    else if name == "NEXT_IS_FRIEND" then Some(NextIsFriend)
    else if name == "NEXT_IS_NOT_FRIEND" then Some(NextIsNotFriend)
    else if name == "NEXT_IS_ENEMY" then Some(NextIsEnemy)
    else if name == "NEXT_IS_NOT_ENEMY" then Some(NextIsNotEnemy)
    else if name == "RANDOM" then Some(Random)
    else if name == "TRUE" then Some(True)
    else None
  }

  /** The source-text form of a condition, e.g. "next-is-not-wall" (toStringCondition). */
  function ConditionToken(c: Condition): string
  {
    TokenSpelling(c)
  }

  /** Each spelling is the constant's name lower-cased with '_' replaced by '-'. */
  lemma ConditionTokenFromName(c: Condition)
    ensures ConditionToken(c) == Lower(Replace(ConditionName(c), '_', '-'))
  {
    match c
    case NextIsEmpty => SpelledEmpty(false);
    case NextIsNotEmpty => SpelledEmpty(true);
    case NextIsWall => SpelledWall(false);
    case NextIsNotWall => SpelledWall(true);
    case NextIsFriend => SpelledFriend(false);
    case NextIsNotFriend => SpelledFriend(true);
    case NextIsEnemy => SpelledEnemy(false);
    case NextIsNotEnemy => SpelledEnemy(true);
    case Random => SpelledRandomOrTrue(false);
    case True => SpelledRandomOrTrue(true);
  }

  lemma SpelledEmpty(second: bool)
    ensures var c := if second then NextIsNotEmpty else NextIsEmpty;
            TokenSpelling(c) == Lower(Replace(ConditionName(c), '_', '-'))
  {
  }

  lemma SpelledWall(second: bool)
    ensures var c := if second then NextIsNotWall else NextIsWall;
            TokenSpelling(c) == Lower(Replace(ConditionName(c), '_', '-'))
  {
  }

  lemma SpelledFriend(second: bool)
    ensures var c := if second then NextIsNotFriend else NextIsFriend;
            TokenSpelling(c) == Lower(Replace(ConditionName(c), '_', '-'))
  {
  }

  lemma SpelledEnemy(second: bool)
    ensures var c := if second then NextIsNotEnemy else NextIsEnemy;
            TokenSpelling(c) == Lower(Replace(ConditionName(c), '_', '-'))
  {
  }

  lemma SpelledRandomOrTrue(second: bool)
    ensures var c := if second then True else Random;
            TokenSpelling(c) == Lower(Replace(ConditionName(c), '_', '-'))
  {
  }

  /** The spelling of each condition token. */
  function TokenSpelling(c: Condition): string
  {
    match c
    case NextIsEmpty => "next-is-empty"
    case NextIsNotEmpty => "next-is-not-empty"
    case NextIsWall => "next-is-wall"
    case NextIsNotWall => "next-is-not-wall"
    case NextIsFriend => "next-is-friend"
    case NextIsNotFriend => "next-is-not-friend"
    case NextIsEnemy => "next-is-enemy"
    case NextIsNotEnemy => "next-is-not-enemy"
    case Random => "random"
    case True => "true"
  }

  /** The condition strings the tokenizer recognises (Tokenizer.isCondition). */
  predicate IsCondition(token: string)
  {
    token in ["next-is-empty", "next-is-not-empty", "next-is-wall", "next-is-not-wall",
              "next-is-friend", "next-is-not-friend", "next-is-enemy", "next-is-not-enemy",
              "random", "true"]
  }

  /** A condition name uses only upper-case letters and underscores. */
  predicate IsUpperSnake(s: string)
  {
    forall i :: 0 <= i < |s| ==> IsUpperLetter(s[i]) || s[i] == '_'
  }

  lemma ConditionNameIsUpperSnake(c: Condition)
    ensures IsUpperSnake(ConditionName(c))
  {
  }

  /** Undoing toStringCondition's lower-casing and '_' to '-' recovers an upper-snake name. */
  lemma UpperSnakeRoundTrip(s: string)
    requires IsUpperSnake(s)
    ensures Upper(Replace(Lower(Replace(s, '_', '-')), '-', '_')) == s
  {
  }

  lemma ConditionIsConditionToken(c: Condition)
    ensures IsCondition(ConditionToken(c))
  {
  }

  lemma ConditionNamedName(c: Condition)
    ensures ConditionNamed(ConditionName(c)) == Some(c)
  {
  }

  /** Different conditions have different source-text forms. */
  lemma ConditionTokenInjective(c: Condition, d: Condition)
    requires ConditionToken(c) == ConditionToken(d)
    ensures c == d
  {
    ConditionNameIsUpperSnake(c);
    ConditionNameIsUpperSnake(d);
    UpperSnakeRoundTrip(ConditionName(c));
    UpperSnakeRoundTrip(ConditionName(d));
    ConditionNamedName(c);
    ConditionNamedName(d);
  }

  // ---------------------------------------------------------------------------
  // Tokens
  // ---------------------------------------------------------------------------

  /** The tokenizer's end-of-input marker (Tokenizer.END_OF_INPUT). */
  const EndOfInput: string := "### END OF INPUT ###"

  /** The reserved words of BL. */
  predicate IsKeyword(token: string)
  {
    token in ["PROGRAM", "IS", "BEGIN", "END", "INSTRUCTION",
              "IF", "THEN", "ELSE", "WHILE", "DO"]
  }

  /**
   * Tokenizer.isIdentifier: a letter followed by letters, digits and '-',
   * that is neither a keyword nor a condition.
   */
  predicate IsIdentifier(token: string)
  {
    && |token| > 0
    && IsLetter(token[0])
    && (forall i :: 0 <= i < |token| ==> IsLetter(token[i]) || IsDigit(token[i]) || token[i] == '-')
    && !IsKeyword(token)
    && !IsCondition(token)
  }

  // ---------------------------------------------------------------------------
  // Instructions
  // ---------------------------------------------------------------------------

  /** The name of an instruction constant (Instruction.name()). */
  function InstructionName(i: Instruction): string
  {
    match i
    case Move => "MOVE"
    case TurnLeft => "TURNLEFT"
    case TurnRight => "TURNRIGHT"
    case Infect => "INFECT"
    case Skip => "SKIP"
    case Halt => "HALT"
    case Jump => "JUMP"
    case JumpIfNot(c) => "JUMP_IF_NOT_" + ConditionName(c)
  }

  /** Instruction.valueOf: the constant with the given name, if any. */
  function InstructionNamed(name: string): (r: Option<Instruction>)
    ensures r.Some? ==> InstructionName(r.value) == name
  {
    if name == "MOVE" then Some(Move)
    else if name == "TURNLEFT" then Some(TurnLeft)
    else if name == "TURNRIGHT" then Some(TurnRight)
    else if name == "INFECT" then Some(Infect)
    else if name == "SKIP" then Some(Skip)
    else if name == "HALT" then Some(Halt)
    else if name == "JUMP" then Some(Jump)
    else if |name| >= 12 && name[..12] == "JUMP_IF_NOT_" then
      match ConditionNamed(name[12..])
      case Some(c) => Some(JumpIfNot(c))
      case None => None
    else None
  }

  function ConditionIndex(c: Condition): nat
  {
    match c
    case NextIsEmpty => 0
    case NextIsNotEmpty => 1
    case NextIsWall => 2
    case NextIsNotWall => 3
    case NextIsFriend => 4
    case NextIsNotFriend => 5
    case NextIsEnemy => 6
    case NextIsNotEnemy => 7
    case Random => 8
    case True => 9
  }

  /** The byte code of an instruction, in declaration order. */
  function ByteCode(i: Instruction): (r: nat)
    ensures r < 17
  {
    match i
    case Move => 0
    case TurnLeft => 1
    case TurnRight => 2
    case Infect => 3
    case Skip => 4
    case Halt => 5
    case Jump => 6
    case JumpIfNot(c) => 7 + ConditionIndex(c)
  }

  /** Program.conditionalJump: the jump taken when the condition is false. */
  function ConditionalJump(c: Condition): (r: Instruction)
    ensures r.JumpIfNot? && r.c == c
  {
    JumpIfNot(c)
  }

  /** Different instructions have different byte codes. */
  lemma ByteCodeInjective(i: Instruction, j: Instruction)
    requires ByteCode(i) == ByteCode(j)
    ensures i == j
  {
  }
}
