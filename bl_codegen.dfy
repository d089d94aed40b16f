/*
 * Code generation for BL (generateCodeForStatement and Program.generatedCode).
 *
 * Code(s, ctx, start) is the byte code of statement s when its first
 * instruction lands at index start of the program: jump targets are absolute
 * indices. A CALL of a name in the context is inlined as its body compiled
 * with an empty context, so only one level of user instructions is expanded;
 * any other name must be the name of a machine instruction once upper-cased.
 * Expanded and IntendedProgramCode, at the end, inline through the whole
 * context instead, as the method's contract describes.
 */
module BLCodeGen {

  import opened Wrappers
  import opened BLStatement
  import BLCount

  /** The byte code of the conditional jump taken when c does not hold. */
  function CondJumpCode(c: Condition): (r: int)
    ensures ByteCode(Jump) < r < 17
  {
    ByteCode(ConditionalJump(c))
  }

  /** The error Instruction.valueOf raises for an unknown name. */
  function UnknownInstruction(name: string): string
  {
    "No enum constant Instruction." + name
  }

  /**
   * Which names a CALL outside the context may compile to. AnyInstruction is
   * the code as written: Instruction.valueOf accepts every instruction name,
   * JUMP and HALT included. PrimitivesOnly accepts only BL's primitive
   * instructions move, turnleft, turnright, infect and skip.
   */
  datatype Calls = AnyInstruction | PrimitivesOnly

  /** The names of BL's primitive instructions, upper-cased. */
  predicate IsPrimitiveName(upper: string)
  {
    upper in ["MOVE", "TURNLEFT", "TURNRIGHT", "INFECT", "SKIP"]
  }

  function Code(s: Statement, ctx: map<string, Statement>, start: nat, calls: Calls): (r: Result<seq<int>>)
    decreases ctx, s, 1
  {
    match s
    case Block(ch) => BlockCode(ch, ctx, start, calls)
    case If(c, b) =>
      (match Code(b, ctx, start + 2, calls)
       case Fatal(m) => Fatal(m)
       case Ok(body) => Ok([CondJumpCode(c), start + 2 + |body|] + body))
    case IfElse(c, b1, b2) =>
      (match Code(b1, ctx, start + 2, calls)
       case Fatal(m) => Fatal(m)
       case Ok(code1) => IfElseAssembled(c, code1, Code(b2, ctx, start + 2 + |code1| + 2, calls), start))
    case While(c, b) =>
      (match Code(b, ctx, start + 2, calls)
       case Fatal(m) => Fatal(m)
       case Ok(body) => Ok([CondJumpCode(c), start + 2 + |body| + 2] + body + [ByteCode(Jump), start]))
    case Call(name) => CallCode(name, ctx, start, calls)
  }

  /**
   * A CALL: the body of a user instruction compiled with an empty context, or
   * the machine instruction of the name.
   */
  function CallCode(name: string, ctx: map<string, Statement>, start: nat, calls: Calls): (r: Result<seq<int>>)
    decreases ctx, Call(name), 0
  {
    if name in ctx then Code(ctx[name], map[], start, calls) else PrimitiveCode(name, calls)
  }

  /**
   * The IF_ELSE code at start once the THEN part's code is known and the ELSE
   * part's code has been generated after it.
   */
  function IfElseAssembled(c: Condition, code1: seq<int>, r2: Result<seq<int>>, start: nat): (r: Result<seq<int>>)
  {
    match r2
    case Fatal(m) => Fatal(m)
    case Ok(code2) =>
      var elseStart := start + 2 + |code1| + 2;
      Ok([CondJumpCode(c), elseStart] + code1 + [ByteCode(Jump), elseStart + |code2|] + code2)
  }

  /** A call of a name outside the context: the instruction of its upper-cased name. */
  function PrimitiveCode(name: string, calls: Calls): (r: Result<seq<int>>)
  {
    var upper := Upper(name);
    if calls == PrimitivesOnly && !IsPrimitiveName(upper) then Fatal(UnknownInstruction(upper))
    else
      match InstructionNamed(upper)
      case None => Fatal(UnknownInstruction(upper))
      case Some(i) => Ok([ByteCode(i)])
  }

  /** The code of a block's children, in order, the last child's code last. */
  function BlockCode(ch: seq<Statement>, ctx: map<string, Statement>, start: nat, calls: Calls): (r: Result<seq<int>>)
    decreases ctx, ch, 0
  {
    if |ch| == 0 then Ok([])
    else
      match BlockCode(ch[..|ch| - 1], ctx, start, calls)
      case Fatal(m) => Fatal(m)
      case Ok(front) => Appended(front, Code(ch[|ch| - 1], ctx, start + |front|, calls))
  }

  /** The outcome of appending a statement's code to cp. */
  function Appended(cp: seq<int>, code: Result<seq<int>>): (r: Result<seq<int>>)
    ensures r.Ok? <==> code.Ok?
    ensures r.Ok? ==> r.value == cp + code.value
    ensures r.Fatal? ==> r == code
  {
    match code
    case Fatal(m) => Fatal(m)
    case Ok(c) => Ok(cp + c)
  }

  /** The statement as generateCodeForStatement reassembles it. */
  function Restored(s: Statement, ctx: map<string, Statement>): (r: Statement)
  {
    match s
    case Block(ch) => Block(seq(|ch|, i requires 0 <= i < |ch| => Restored(ch[i], ctx)))
    case If(c, b) => If(c, Restored(b, ctx))
    case IfElse(c, b1, b2) => IfElse(c, Restored(b1, ctx), Restored(b2, ctx))
    case While(c, b) => While(c, Restored(b, ctx))
    case Call(name) => if name in ctx then Call(name) else Call(Lower(Upper(name)))
  }

  /** The whole program's code: the body's code followed by HALT. */
  function ProgramCode(p: Program, calls: Calls): (r: Result<seq<int>>)
  {
    match Code(p.body, p.context, 0, calls)
    case Fatal(m) => Fatal(m)
    case Ok(code) => Ok(code + [ByteCode(Halt)])
  }

  // ---------------------------------------------------------------------------
  // Shape of the generated code
  // ---------------------------------------------------------------------------

  /**
   * The code decodes as a sequence of instructions, each jump followed by a
   * target in [lo, hi].
   */
  predicate WellFormed(code: seq<int>, lo: int, hi: int)
    decreases |code|
  {
    if |code| == 0 then true
    else if !(0 <= code[0] < 17) then false
    else if code[0] < ByteCode(Jump) then WellFormed(code[1..], lo, hi)
    else |code| >= 2 && lo <= code[1] <= hi && WellFormed(code[2..], lo, hi)
  }

  lemma {:induction false} WellFormedConcat(a: seq<int>, b: seq<int>, lo: int, hi: int)
    requires WellFormed(a, lo, hi) && WellFormed(b, lo, hi)
    ensures WellFormed(a + b, lo, hi)
    decreases |a|
  {
    if |a| == 0 {
      assert a + b == b;
    } else if a[0] < ByteCode(Jump) {
      WellFormedConcat(a[1..], b, lo, hi);
      assert (a + b)[1..] == a[1..] + b;
    } else {
      WellFormedConcat(a[2..], b, lo, hi);
      assert (a + b)[2..] == a[2..] + b;
    }
  }

  lemma {:induction false} WellFormedWiden(a: seq<int>, lo: int, hi: int, lo': int, hi': int)
    requires WellFormed(a, lo, hi) && lo' <= lo && hi <= hi'
    ensures WellFormed(a, lo', hi')
    decreases |a|
  {
    if |a| == 0 {
    } else if a[0] < ByteCode(Jump) {
      WellFormedWiden(a[1..], lo, hi, lo', hi');
    } else {
      WellFormedWiden(a[2..], lo, hi, lo', hi');
    }
  }

  /** A jump instruction and its target. */
  lemma JumpWellFormed(op: int, target: int, lo: int, hi: int)
    requires ByteCode(Jump) <= op < 17 && lo <= target <= hi
    ensures WellFormed([op, target], lo, hi)
  {
    assert [op, target][2..] == [];
  }

  lemma IfShapeWellFormed(cj: int, body: seq<int>, start: nat)
    requires ByteCode(Jump) < cj < 17
    requires WellFormed(body, start + 2, start + 2 + |body|)
    ensures WellFormed([cj, start + 2 + |body|] + body, start, start + 2 + |body|)
  {
    var hi := start + 2 + |body|;
    WellFormedWiden(body, start + 2, hi, start, hi);
    JumpWellFormed(cj, hi, start, hi);
    WellFormedConcat([cj, hi], body, start, hi);
  }

  lemma IfElseShapeWellFormed(cj: int, code1: seq<int>, code2: seq<int>, start: nat)
    requires ByteCode(Jump) < cj < 17
    requires WellFormed(code1, start + 2, start + 2 + |code1|)
    requires WellFormed(code2, start + 4 + |code1|, start + 4 + |code1| + |code2|)
    ensures var elseStart := start + 4 + |code1|;
            WellFormed([cj, elseStart] + code1 + [ByteCode(Jump), elseStart + |code2|] + code2,
                       start, elseStart + |code2|)
  {
    var elseStart := start + 4 + |code1|;
    var hi := elseStart + |code2|;
    WellFormedWiden(code1, start + 2, start + 2 + |code1|, start, hi);
    WellFormedWiden(code2, elseStart, hi, start, hi);
    JumpWellFormed(cj, elseStart, start, hi);
    JumpWellFormed(ByteCode(Jump), hi, start, hi);
    WellFormedConcat3([cj, elseStart], code1, [ByteCode(Jump), hi], start, hi);
    WellFormedConcat([cj, elseStart] + code1 + [ByteCode(Jump), hi], code2, start, hi);
  }

  lemma WhileShapeWellFormed(cj: int, body: seq<int>, start: nat)
    requires ByteCode(Jump) < cj < 17
    requires WellFormed(body, start + 2, start + 2 + |body|)
    ensures WellFormed([cj, start + 4 + |body|] + body + [ByteCode(Jump), start],
                       start, start + 4 + |body|)
  {
    var hi := start + 4 + |body|;
    WellFormedWiden(body, start + 2, start + 2 + |body|, start, hi);
    JumpWellFormed(cj, hi, start, hi);
    JumpWellFormed(ByteCode(Jump), start, start, hi);
    WellFormedConcat3([cj, hi], body, [ByteCode(Jump), start], start, hi);
  }

  lemma WellFormedConcat3(a: seq<int>, b: seq<int>, c: seq<int>, lo: int, hi: int)
    requires WellFormed(a, lo, hi) && WellFormed(b, lo, hi) && WellFormed(c, lo, hi)
    ensures WellFormed(a + b + c, lo, hi)
  {
    WellFormedConcat(a, b, lo, hi);
    WellFormedConcat(a + b, c, lo, hi);
  }

  /** A primitive instruction is one byte code that is not a jump. */
  lemma PrimitiveCodeWellFormed(name: string, start: nat)
    requires PrimitiveCode(name, PrimitivesOnly).Ok?
    ensures |PrimitiveCode(name, PrimitivesOnly).value| == 1
    ensures WellFormed(PrimitiveCode(name, PrimitivesOnly).value, start, start + 1)
  {
    var code := PrimitiveCode(name, PrimitivesOnly).value;
    assert code[0] < ByteCode(Jump);
    assert code[1..] == [];
  }

  /**
   * When only primitive instructions may be called, every instruction of the
   * generated code is a machine instruction and every jump target lies within
   * the code, the index just past it included.
   */
  lemma {:induction false} CodeWellFormed(s: Statement, ctx: map<string, Statement>, start: nat)
    requires Code(s, ctx, start, PrimitivesOnly).Ok?
    ensures var code := Code(s, ctx, start, PrimitivesOnly).value;
            WellFormed(code, start, start + |code|)
    decreases ctx, s, 1
  {
    match s
    case Block(ch) =>
      BlockCodeWellFormed(ch, ctx, start);
    case If(c, b) =>
      IfWellFormed(c, b, ctx, start);
    case IfElse(c, b1, b2) =>
      IfElseWellFormed(c, b1, b2, ctx, start);
    case While(c, b) =>
      WhileWellFormed(c, b, ctx, start);
    case Call(name) =>
      CallWellFormed(name, ctx, start);
  }

  lemma {:induction false} CallWellFormed(name: string, ctx: map<string, Statement>, start: nat)
    requires Code(Call(name), ctx, start, PrimitivesOnly).Ok?
    ensures var code := Code(Call(name), ctx, start, PrimitivesOnly).value;
            WellFormed(code, start, start + |code|)
    decreases ctx, Call(name), 0
  {
    if name in ctx {
      CodeWellFormed(ctx[name], map[], start);
    } else {
      PrimitiveCodeWellFormed(name, start);
    }
  }

  lemma {:induction false} IfWellFormed(c: Condition, b: Statement, ctx: map<string, Statement>, start: nat)
    requires Code(If(c, b), ctx, start, PrimitivesOnly).Ok?
    ensures var code := Code(If(c, b), ctx, start, PrimitivesOnly).value;
            WellFormed(code, start, start + |code|)
    decreases ctx, If(c, b), 0
  {
    CodeWellFormed(b, ctx, start + 2);
    IfShapeWellFormed(CondJumpCode(c), Code(b, ctx, start + 2, PrimitivesOnly).value, start);
  }

  lemma {:induction false} WhileWellFormed(c: Condition, b: Statement, ctx: map<string, Statement>, start: nat)
    requires Code(While(c, b), ctx, start, PrimitivesOnly).Ok?
    ensures var code := Code(While(c, b), ctx, start, PrimitivesOnly).value;
            WellFormed(code, start, start + |code|)
    decreases ctx, While(c, b), 0
  {
    CodeWellFormed(b, ctx, start + 2);
    WhileShapeWellFormed(CondJumpCode(c), Code(b, ctx, start + 2, PrimitivesOnly).value, start);
  }

  lemma {:induction false} IfElseWellFormed(c: Condition, b1: Statement, b2: Statement, ctx: map<string, Statement>, start: nat)
    requires Code(IfElse(c, b1, b2), ctx, start, PrimitivesOnly).Ok?
    ensures var code := Code(IfElse(c, b1, b2), ctx, start, PrimitivesOnly).value;
            WellFormed(code, start, start + |code|)
    decreases ctx, IfElse(c, b1, b2), 0
  {
    CodeWellFormed(b1, ctx, start + 2);
    IfElseUnfolded(c, b1, b2, ctx, start, PrimitivesOnly);
    CodeWellFormed(b2, ctx, start + 2 + |Code(b1, ctx, start + 2, PrimitivesOnly).value| + 2);
    AssembledWellFormed(c, Code(b1, ctx, start + 2, PrimitivesOnly).value,
                        Code(b2, ctx, start + 2 + |Code(b1, ctx, start + 2, PrimitivesOnly).value| + 2, PrimitivesOnly),
                        start);
  }

  /** The IF_ELSE code once the THEN part has compiled. */
  lemma IfElseUnfolded(c: Condition, b1: Statement, b2: Statement, ctx: map<string, Statement>, start: nat, calls: Calls)
    requires Code(b1, ctx, start + 2, calls).Ok?
    ensures var code1 := Code(b1, ctx, start + 2, calls).value;
            Code(IfElse(c, b1, b2), ctx, start, calls)
            == IfElseAssembled(c, code1, Code(b2, ctx, start + 2 + |code1| + 2, calls), start)
  {
  }

  lemma AssembledWellFormed(c: Condition, code1: seq<int>, r2: Result<seq<int>>, start: nat)
    requires r2.Ok?
    requires WellFormed(code1, start + 2, start + 2 + |code1|)
    requires WellFormed(r2.value, start + 2 + |code1| + 2, start + 2 + |code1| + 2 + |r2.value|)
    ensures var code := IfElseAssembled(c, code1, r2, start).value;
            WellFormed(code, start, start + |code|)
  {
    IfElseShapeWellFormed(CondJumpCode(c), code1, r2.value, start);
  }

  lemma {:induction false} BlockCodeWellFormed(ch: seq<Statement>, ctx: map<string, Statement>, start: nat)
    requires BlockCode(ch, ctx, start, PrimitivesOnly).Ok?
    ensures var code := BlockCode(ch, ctx, start, PrimitivesOnly).value;
            WellFormed(code, start, start + |code|)
    decreases ctx, ch, 0
  {
    if |ch| > 0 {
      var fr, la := ch[..|ch| - 1], ch[|ch| - 1];
      BlockCodeLast(ch, ctx, start, PrimitivesOnly);
      var front := BlockCode(fr, ctx, start, PrimitivesOnly).value;
      BlockCodeWellFormed(fr, ctx, start);
      CodeWellFormed(la, ctx, start + |front|);
      SnocWellFormed(front, Code(la, ctx, start + |front|, PrimitivesOnly).value, start);
    }
  }

  /** A block compiles when its front compiles and then its last child does. */
  lemma BlockCodeLast(ch: seq<Statement>, ctx: map<string, Statement>, start: nat, calls: Calls)
    requires |ch| > 0 && BlockCode(ch, ctx, start, calls).Ok?
    ensures BlockCode(ch[..|ch| - 1], ctx, start, calls).Ok?
    ensures var front := BlockCode(ch[..|ch| - 1], ctx, start, calls).value;
            && Code(ch[|ch| - 1], ctx, start + |front|, calls).Ok?
            && BlockCode(ch, ctx, start, calls).value == front + Code(ch[|ch| - 1], ctx, start + |front|, calls).value
  {
  }

  lemma SnocWellFormed(front: seq<int>, last: seq<int>, start: int)
    requires WellFormed(front, start, start + |front|)
    requires WellFormed(last, start + |front|, start + |front| + |last|)
    ensures WellFormed(front + last, start, start + |front + last|)
  {
    var hi := start + |front| + |last|;
    WellFormedWiden(front, start, start + |front|, start, hi);
    WellFormedWiden(last, start + |front|, hi, start, hi);
    WellFormedConcat(front, last, start, hi);
  }

  /**
   * When only primitive instructions may be called, the program's code ends
   * with HALT and every jump in it targets an index of the program, HALT's
   * included.
   */
  lemma ProgramCodeWellFormed(p: Program)
    requires ProgramCode(p, PrimitivesOnly).Ok?
    ensures var code := ProgramCode(p, PrimitivesOnly).value;
            |code| > 0 && code[|code| - 1] == ByteCode(Halt) && WellFormed(code, 0, |code| - 1)
  {
    var body := Code(p.body, p.context, 0, PrimitivesOnly).value;
    CodeWellFormed(p.body, p.context, 0);
    assert [ByteCode(Halt)][1..] == [];
    WellFormedConcat(body, [ByteCode(Halt)], 0, |body|);
  }

  /**
   * As written, a call of an undefined instruction named jump compiles to a
   * JUMP without a target: the program's HALT is read as its target.
   */
  lemma JumpCallIsMalformed()
    ensures ProgramCode(Program("p", map[], Call("jump")), AnyInstruction) == Ok([6, 5])
    ensures !WellFormed([6, 5], 0, 1)
    ensures ProgramCode(Program("p", map[], Call("jump")), PrimitivesOnly).Fatal?
  {
    assert Upper("jump") == "JUMP";
    assert !IsPrimitiveName("JUMP");
    assert InstructionNamed("JUMP") == Some(Jump);
    assert Code(Call("jump"), map[], 0, AnyInstruction) == Ok([6]);
    assert [6] + [ByteCode(Halt)] == [6, 5];
    assert [6, 5][2..] == [];
  }

  /** Only one level of user instructions is inlined. */
  lemma OneLevelOfInlining(calls: Calls)
    ensures Code(Call("outer"), map["outer" := Call("inner"), "inner" := Call("move")], 0, calls)
            == Fatal(UnknownInstruction("INNER"))
  {
    assert Upper("inner") == "INNER";
    assert !IsPrimitiveName("INNER");
    assert InstructionNamed("INNER") == None;
  }

  /** A primitive call compiles to its one instruction whatever the case of its name. */
  lemma PrimitiveCallCode(calls: Calls)
    ensures Code(Call("turnleft"), map[], 0, calls) == Ok([ByteCode(TurnLeft)])
    ensures Code(Call("TurnLeft"), map[], 0, calls) == Ok([ByteCode(TurnLeft)])
  {
    assert Upper("turnleft") == "TURNLEFT";
    assert Upper("TurnLeft") == "TURNLEFT";
  }

  /** A primitive call is accepted under both policies, with the same code. */
  lemma PrimitivesAgree(name: string)
    requires IsPrimitiveName(Upper(name))
    ensures PrimitiveCode(name, PrimitivesOnly) == PrimitiveCode(name, AnyInstruction)
    ensures PrimitiveCode(name, AnyInstruction).Ok?
  {
  }

  /**
   * Whatever compiles when only primitives may be called compiles to the same
   * code as written: the code's own generator agrees with the corrected one
   * on every statement the corrected one accepts.
   */
  lemma {:induction false} DialectsAgree(s: Statement, ctx: map<string, Statement>, start: nat)
    requires Code(s, ctx, start, PrimitivesOnly).Ok?
    ensures Code(s, ctx, start, AnyInstruction) == Code(s, ctx, start, PrimitivesOnly)
    decreases ctx, s, 1
  {
    match s
    case Block(ch) =>
      BlockDialectsAgree(ch, ctx, start);
    case If(_, b) =>
      DialectsAgree(b, ctx, start + 2);
    case While(_, b) =>
      DialectsAgree(b, ctx, start + 2);
    case IfElse(c, b1, b2) =>
      DialectsAgree(b1, ctx, start + 2);
      IfElseUnfolded(c, b1, b2, ctx, start, PrimitivesOnly);
      IfElseUnfolded(c, b1, b2, ctx, start, AnyInstruction);
      DialectsAgree(b2, ctx, start + 2 + |Code(b1, ctx, start + 2, PrimitivesOnly).value| + 2);
    case Call(name) =>
      if name in ctx {
        DialectsAgree(ctx[name], map[], start);
      }
  }

  lemma {:induction false} BlockDialectsAgree(ch: seq<Statement>, ctx: map<string, Statement>, start: nat)
    requires BlockCode(ch, ctx, start, PrimitivesOnly).Ok?
    ensures BlockCode(ch, ctx, start, AnyInstruction) == BlockCode(ch, ctx, start, PrimitivesOnly)
    decreases ctx, ch, 0
  {
    if |ch| > 0 {
      BlockCodeLast(ch, ctx, start, PrimitivesOnly);
      BlockDialectsAgree(ch[..|ch| - 1], ctx, start);
      DialectsAgree(ch[|ch| - 1], ctx, start + |BlockCode(ch[..|ch| - 1], ctx, start, PrimitivesOnly).value|);
    }
  }

  /**
   * Every program the corrected generator accepts gets the same code as
   * written, and that code ends with HALT and jumps only inside the program.
   */
  lemma ProgramDialectsAgree(p: Program)
    requires ProgramCode(p, PrimitivesOnly).Ok?
    ensures ProgramCode(p, AnyInstruction) == ProgramCode(p, PrimitivesOnly)
    ensures var code := ProgramCode(p, AnyInstruction).value;
            |code| > 0 && code[|code| - 1] == ByteCode(Halt) && WellFormed(code, 0, |code| - 1)
  {
    DialectsAgree(p.body, p.context, 0);
    ProgramCodeWellFormed(p);
  }

  // ---------------------------------------------------------------------------
  // Relocation
  // ---------------------------------------------------------------------------

  /** Both succeed with code of the same length, or both fail with the same message. */
  predicate SameOutcome(r1: Result<seq<int>>, r2: Result<seq<int>>)
  {
    && r1.Ok? == r2.Ok?
    && (r1.Ok? ==> |r1.value| == |r2.value|)
    && (r1.Fatal? ==> r1 == r2)
  }

  lemma AppendedSameOutcome(cp: seq<int>, cq: seq<int>, r1: Result<seq<int>>, r2: Result<seq<int>>)
    requires |cp| == |cq| && SameOutcome(r1, r2)
    ensures SameOutcome(Appended(cp, r1), Appended(cq, r2))
  {
  }

  /** Where the code is placed changes neither whether it can be generated nor its length. */
  lemma {:induction false} CodeRelocatable(s: Statement, ctx: map<string, Statement>, p: nat, q: nat, calls: Calls)
    ensures SameOutcome(Code(s, ctx, p, calls), Code(s, ctx, q, calls))
    decreases ctx, s, 1
  {
    match s
    case Block(ch) => BlockCodeRelocatable(ch, ctx, p, q, calls);
    case If(_, _) => IfRelocatable(s, ctx, p, q, calls);
    case IfElse(c, b1, b2) => IfElseRelocatable(c, b1, b2, ctx, p, q, calls);
    case While(_, _) => WhileRelocatable(s, ctx, p, q, calls);
    case Call(name) =>
      if name in ctx {
        CodeRelocatable(ctx[name], map[], p, q, calls);
      }
  }

  lemma {:induction false} IfRelocatable(s: Statement, ctx: map<string, Statement>, p: nat, q: nat, calls: Calls)
    requires s.If?
    ensures SameOutcome(Code(s, ctx, p, calls), Code(s, ctx, q, calls))
    decreases ctx, s, 0
  {
    CodeRelocatable(s.body, ctx, p + 2, q + 2, calls);
  }

  lemma {:induction false} WhileRelocatable(s: Statement, ctx: map<string, Statement>, p: nat, q: nat, calls: Calls)
    requires s.While?
    ensures SameOutcome(Code(s, ctx, p, calls), Code(s, ctx, q, calls))
    decreases ctx, s, 0
  {
    CodeRelocatable(s.body, ctx, p + 2, q + 2, calls);
  }

  lemma {:induction false} IfElseRelocatable(c: Condition, b1: Statement, b2: Statement, ctx: map<string, Statement>, p: nat, q: nat, calls: Calls)
    ensures SameOutcome(Code(IfElse(c, b1, b2), ctx, p, calls), Code(IfElse(c, b1, b2), ctx, q, calls))
    decreases ctx, IfElse(c, b1, b2), 0
  {
    CodeRelocatable(b1, ctx, p + 2, q + 2, calls);
    if Code(b1, ctx, p + 2, calls).Ok? {
      CodeRelocatable(b2, ctx, p + 2 + |Code(b1, ctx, p + 2, calls).value| + 2,
                      q + 2 + |Code(b1, ctx, q + 2, calls).value| + 2, calls);
      IfElseOutcomes(c, b1, b2, ctx, p, q, calls);
    }
  }

  lemma IfElseOutcomes(c: Condition, b1: Statement, b2: Statement, ctx: map<string, Statement>, p: nat, q: nat, calls: Calls)
    requires SameOutcome(Code(b1, ctx, p + 2, calls), Code(b1, ctx, q + 2, calls))
    requires Code(b1, ctx, p + 2, calls).Ok?
    requires SameOutcome(Code(b2, ctx, p + 2 + |Code(b1, ctx, p + 2, calls).value| + 2, calls),
                         Code(b2, ctx, q + 2 + |Code(b1, ctx, q + 2, calls).value| + 2, calls))
    ensures SameOutcome(Code(IfElse(c, b1, b2), ctx, p, calls), Code(IfElse(c, b1, b2), ctx, q, calls))
  {
    IfElseUnfolded(c, b1, b2, ctx, p, calls);
    IfElseUnfolded(c, b1, b2, ctx, q, calls);
    AssembledSameOutcome(c, Code(b1, ctx, p + 2, calls).value, Code(b1, ctx, q + 2, calls).value,
                         Code(b2, ctx, p + 2 + |Code(b1, ctx, p + 2, calls).value| + 2, calls),
                         Code(b2, ctx, q + 2 + |Code(b1, ctx, q + 2, calls).value| + 2, calls), p, q);
  }

  lemma AssembledSameOutcome(c: Condition, code1p: seq<int>, code1q: seq<int>,
                             r2p: Result<seq<int>>, r2q: Result<seq<int>>, p: nat, q: nat)
    requires |code1p| == |code1q| && SameOutcome(r2p, r2q)
    ensures SameOutcome(IfElseAssembled(c, code1p, r2p, p), IfElseAssembled(c, code1q, r2q, q))
  {
  }

  lemma {:induction false} BlockCodeRelocatable(ch: seq<Statement>, ctx: map<string, Statement>, p: nat, q: nat, calls: Calls)
    ensures SameOutcome(BlockCode(ch, ctx, p, calls), BlockCode(ch, ctx, q, calls))
    decreases ctx, ch, 0
  {
    if |ch| > 0 {
      var front, last := ch[..|ch| - 1], ch[|ch| - 1];
      BlockCodeRelocatable(front, ctx, p, q, calls);
      var fp, fq := BlockCode(front, ctx, p, calls), BlockCode(front, ctx, q, calls);
      if fp.Ok? {
        var n := |fp.value|;
        CodeRelocatable(last, ctx, p + n, q + n, calls);
        AppendedSameOutcome(fp.value, fq.value, Code(last, ctx, p + n, calls), Code(last, ctx, q + n, calls));
      }
    }
  }

  // ---------------------------------------------------------------------------
  // The restored statement
  // ---------------------------------------------------------------------------

  /** The CALL names that are not user instructions are already lower case. */
  predicate PrimitiveNamesLower(s: Statement, ctx: map<string, Statement>)
  {
    match s
    case Block(ch) => forall i :: 0 <= i < |ch| ==> PrimitiveNamesLower(ch[i], ctx)
    case If(_, b) => PrimitiveNamesLower(b, ctx)
    case IfElse(_, b1, b2) => PrimitiveNamesLower(b1, ctx) && PrimitiveNamesLower(b2, ctx)
    case While(_, b) => PrimitiveNamesLower(b, ctx)
    case Call(name) => name in ctx || Lower(Upper(name)) == name
  }

  /** Restoring changes nothing when every primitive CALL is already lower case. */
  lemma {:induction false} RestoredUnchanged(s: Statement, ctx: map<string, Statement>)
    requires PrimitiveNamesLower(s, ctx)
    ensures Restored(s, ctx) == s
  {
    match s
    case Block(ch) =>
      forall i | 0 <= i < |ch| ensures Restored(ch[i], ctx) == ch[i] {
        RestoredUnchanged(ch[i], ctx);
      }
      assert Restored(s, ctx).children == ch;
    case If(_, b) => RestoredUnchanged(b, ctx);
    case IfElse(_, b1, b2) => RestoredUnchanged(b1, ctx); RestoredUnchanged(b2, ctx);
    case While(_, b) => RestoredUnchanged(b, ctx);
    case Call(_) =>
  }

  lemma LowerUpperLower(name: string)
    ensures Lower(Upper(Lower(Upper(name)))) == Lower(Upper(name))
  {
  }

  /** After one generation, every primitive CALL is lower case. */
  lemma {:induction false} RestoredIsLower(s: Statement, ctx: map<string, Statement>)
    ensures PrimitiveNamesLower(Restored(s, ctx), ctx)
  {
    match s
    case Block(ch) =>
      forall i | 0 <= i < |ch| ensures PrimitiveNamesLower(Restored(ch[i], ctx), ctx) {
        RestoredIsLower(ch[i], ctx);
      }
    case If(_, b) => RestoredIsLower(b, ctx);
    case IfElse(_, b1, b2) => RestoredIsLower(b1, ctx); RestoredIsLower(b2, ctx);
    case While(_, b) => RestoredIsLower(b, ctx);
    case Call(name) => LowerUpperLower(name);
  }

  /** Generating twice leaves the statement as the first generation left it. */
  lemma RestoredIdempotent(s: Statement, ctx: map<string, Statement>)
    ensures Restored(Restored(s, ctx), ctx) == Restored(s, ctx)
  {
    RestoredIsLower(s, ctx);
    RestoredUnchanged(Restored(s, ctx), ctx);
  }

  /** Upper-casing the lower-cased upper-case form of a name gives its upper-case form. */
  lemma UpperLowerUpper(name: string)
    ensures Upper(Lower(Upper(name))) == Upper(name)
  {
    forall i | 0 <= i < |name|
      ensures Upper(Lower(Upper(name)))[i] == Upper(name)[i]
    {
    }
  }

  /**
   * The context as generatedCode reassembles it. CALL hands the map's own
   * body, context.value(label), to the recursion, which restores it against an
   * empty context: every user instruction the program calls comes back with
   * each of its CALL names lower-cased, and the others are untouched.
   */
  function ContextAfter(s: Statement, ctx: map<string, Statement>): (r: map<string, Statement>)
    ensures r.Keys == ctx.Keys
    ensures forall l :: l in ctx && l in BLCount.CallNames(s) ==> PrimitiveNamesLower(r[l], map[])
    ensures forall l :: l in ctx && l !in BLCount.CallNames(s) ==> r[l] == ctx[l]
  {
    InlinedBodiesLower(ctx);
    map l | l in ctx :: if l in BLCount.CallNames(s) then Restored(ctx[l], map[]) else ctx[l]
  }

  lemma InlinedBodiesLower(ctx: map<string, Statement>)
    ensures forall l :: l in ctx ==> PrimitiveNamesLower(Restored(ctx[l], map[]), map[])
  {
    forall l | l in ctx
      ensures PrimitiveNamesLower(Restored(ctx[l], map[]), map[])
    {
      RestoredIsLower(ctx[l], map[]);
    }
  }

  /**
   * ctx2 holds the same user instructions as ctx, each unchanged or restored,
   * and no user instruction is named like a machine instruction.
   */
  predicate SameInstructions(ctx: map<string, Statement>, ctx2: map<string, Statement>)
  {
    && ctx2.Keys == ctx.Keys
    && (forall l :: l in ctx ==> InstructionNamed(Upper(l)).None?)
    && (forall l :: l in ctx ==> ctx2[l] == ctx[l] || ctx2[l] == Restored(ctx[l], map[]))
  }

  /**
   * A statement as generation restored it compiles, against the context as
   * generation left it, to the code it compiled to before.
   */
  lemma {:induction false} CodeOfRestored(s: Statement, ctx: map<string, Statement>, ctx2: map<string, Statement>,
                                          start: nat, calls: Calls)
    requires SameInstructions(ctx, ctx2) && Code(s, ctx, start, calls).Ok?
    ensures Code(Restored(s, ctx), ctx2, start, calls) == Code(s, ctx, start, calls)
    decreases ctx, s, 1
  {
    match s
    case Block(ch) => BlockCodeOfRestored(ch, ctx, ctx2, start, calls);
    case If(c, b) => IfOfRestored(c, b, ctx, ctx2, start, calls);
    case IfElse(c, b1, b2) => IfElseOfRestored(c, b1, b2, ctx, ctx2, start, calls);
    case While(c, b) => WhileOfRestored(c, b, ctx, ctx2, start, calls);
    case Call(name) => CallCodeOfRestored(name, ctx, ctx2, start, calls);
  }

  lemma {:induction false} IfOfRestored(c: Condition, b: Statement, ctx: map<string, Statement>,
                                        ctx2: map<string, Statement>, start: nat, calls: Calls)
    requires SameInstructions(ctx, ctx2) && Code(If(c, b), ctx, start, calls).Ok?
    ensures Code(Restored(If(c, b), ctx), ctx2, start, calls) == Code(If(c, b), ctx, start, calls)
    decreases ctx, If(c, b), 0
  {
    CodeOfRestored(b, ctx, ctx2, start + 2, calls);
    SameBodySameCode(If(c, Restored(b, ctx)), ctx2, If(c, b), ctx, start, calls);
  }

  lemma {:induction false} WhileOfRestored(c: Condition, b: Statement, ctx: map<string, Statement>,
                                           ctx2: map<string, Statement>, start: nat, calls: Calls)
    requires SameInstructions(ctx, ctx2) && Code(While(c, b), ctx, start, calls).Ok?
    ensures Code(Restored(While(c, b), ctx), ctx2, start, calls) == Code(While(c, b), ctx, start, calls)
    decreases ctx, While(c, b), 0
  {
    CodeOfRestored(b, ctx, ctx2, start + 2, calls);
    SameBodySameCode(While(c, Restored(b, ctx)), ctx2, While(c, b), ctx, start, calls);
  }

  /** An IF_ELSE compiles alike when both its parts compile alike where they land. */
  lemma SamePartsSameCode(c: Condition, x1: Statement, x2: Statement, ctx1: map<string, Statement>,
                          y1: Statement, y2: Statement, ctx2: map<string, Statement>, start: nat, calls: Calls)
    requires Code(x1, ctx1, start + 2, calls) == Code(y1, ctx2, start + 2, calls)
    requires Code(y1, ctx2, start + 2, calls).Ok?
    requires var code1 := Code(y1, ctx2, start + 2, calls).value;
             Code(x2, ctx1, start + 2 + |code1| + 2, calls) == Code(y2, ctx2, start + 2 + |code1| + 2, calls)
    ensures Code(IfElse(c, x1, x2), ctx1, start, calls) == Code(IfElse(c, y1, y2), ctx2, start, calls)
  {
    IfElseUnfolded(c, x1, x2, ctx1, start, calls);
    IfElseUnfolded(c, y1, y2, ctx2, start, calls);
  }

  /** An IF or a WHILE compiles alike when its condition is the same and its body compiles alike. */
  lemma SameBodySameCode(s1: Statement, ctx1: map<string, Statement>, s2: Statement, ctx2: map<string, Statement>,
                         start: nat, calls: Calls)
    requires (s1.If? && s2.If?) || (s1.While? && s2.While?)
    requires s1.cond == s2.cond
    requires Code(s1.body, ctx1, start + 2, calls) == Code(s2.body, ctx2, start + 2, calls)
    ensures Code(s1, ctx1, start, calls) == Code(s2, ctx2, start, calls)
  {
  }

  lemma {:induction false} IfElseOfRestored(c: Condition, b1: Statement, b2: Statement, ctx: map<string, Statement>,
                                            ctx2: map<string, Statement>, start: nat, calls: Calls)
    requires SameInstructions(ctx, ctx2) && Code(IfElse(c, b1, b2), ctx, start, calls).Ok?
    ensures Code(Restored(IfElse(c, b1, b2), ctx), ctx2, start, calls) == Code(IfElse(c, b1, b2), ctx, start, calls)
    decreases ctx, IfElse(c, b1, b2), 0
  {
    IfElseUnfolded(c, b1, b2, ctx, start, calls);
    CodeOfRestored(b1, ctx, ctx2, start + 2, calls);
    var code1 := Code(b1, ctx, start + 2, calls).value;
    assert Code(b2, ctx, start + 2 + |code1| + 2, calls).Ok?;
    CodeOfRestored(b2, ctx, ctx2, start + 2 + |code1| + 2, calls);
    SamePartsSameCode(c, Restored(b1, ctx), Restored(b2, ctx), ctx2, b1, b2, ctx, start, calls);
  }

  lemma {:induction false} CallCodeOfRestored(name: string, ctx: map<string, Statement>, ctx2: map<string, Statement>,
                                              start: nat, calls: Calls)
    requires SameInstructions(ctx, ctx2) && CallCode(name, ctx, start, calls).Ok?
    ensures Code(Restored(Call(name), ctx), ctx2, start, calls) == CallCode(name, ctx, start, calls)
    decreases ctx, Call(name), 0
  {
    if name in ctx {
      if ctx2[name] != ctx[name] {
        CodeOfRestored(ctx[name], map[], map[], start, calls);
      }
    } else {
      var lower := Lower(Upper(name));
      UpperLowerUpper(name);
      assert InstructionNamed(Upper(lower)).Some?;
      assert lower !in ctx2;
    }
  }

  lemma {:induction false} BlockCodeOfRestored(ch: seq<Statement>, ctx: map<string, Statement>,
                                               ctx2: map<string, Statement>, start: nat, calls: Calls)
    requires SameInstructions(ctx, ctx2) && BlockCode(ch, ctx, start, calls).Ok?
    ensures BlockCode(seq(|ch|, i requires 0 <= i < |ch| => Restored(ch[i], ctx)), ctx2, start, calls)
            == BlockCode(ch, ctx, start, calls)
    decreases ctx, ch, 0
  {
    var restored := seq(|ch|, i requires 0 <= i < |ch| => Restored(ch[i], ctx));
    if |ch| > 0 {
      var n := |ch| - 1;
      var front := ch[..n];
      BlockCodeOfRestored(front, ctx, ctx2, start, calls);
      assert restored[..n] == seq(|front|, i requires 0 <= i < |front| => Restored(front[i], ctx));
      BlockCodeLast(ch, ctx, start, calls);
      var at := start + |BlockCode(front, ctx, start, calls).value|;
      CodeOfRestored(ch[n], ctx, ctx2, at, calls);
      assert restored[n] == Restored(ch[n], ctx);
      BlockCodeSnoc(restored, n, ctx2, start, at, calls);
      BlockCodeSnoc(ch, n, ctx, start, at, calls);
      assert restored[..n + 1] == restored && ch[..n + 1] == ch;
    }
  }


  /**
   * Generating code again for the program as generatedCode reassembled it
   * gives the same code, when no user instruction is named like a machine
   * instruction.
   */
  lemma RegeneratedCode(p: Program, calls: Calls)
    requires forall l :: l in p.context ==> InstructionNamed(Upper(l)).None?
    requires ProgramCode(p, calls).Ok?
    ensures ProgramCode(Program(p.name, ContextAfter(p.body, p.context), Restored(p.body, p.context)), calls)
            == ProgramCode(p, calls)
  {
    CodeOfRestored(p.body, p.context, ContextAfter(p.body, p.context), 0, calls);
  }

  /** A mixed-case primitive call comes back lower-cased. */
  lemma MixedCaseCallLowered()
    ensures Restored(Call("TurnLeft"), map[]) == Call("turnleft")
  {
    assert Lower(Upper("TurnLeft")) == "turnleft";
  }

  // ---------------------------------------------------------------------------
  // The source's procedures
  // ---------------------------------------------------------------------------

  /**
   * generateCodeForStatement: appends the code of s to cp, back-patching the
   * jump targets it emitted, and gives back s as it reassembles it. Each case
   * of the source's switch is a method of its own below.
   */
  method GenerateCodeForStatement(s: Statement, ctx: map<string, Statement>, cp: seq<int>)
    returns (r: Result<seq<int>>, restored: Statement)
    ensures r == Appended(cp, Code(s, ctx, |cp|, AnyInstruction))
    ensures r.Ok? ==> restored == Restored(s, ctx)
    decreases ctx, s, 2
  {
    match s
    case Block(_) => r, restored := GenerateBlock(s, ctx, cp);
    case If(_, _) => r, restored := GenerateIf(s, ctx, cp);
    case IfElse(_, _, _) => r, restored := GenerateIfElse(s, ctx, cp);
    case While(_, _) => r, restored := GenerateWhile(s, ctx, cp);
    case Call(_) => r, restored := GenerateCall(s, ctx, cp);
  }

  /** Emitting one more child of a block after the code of the children before it. */
  lemma BlockStepEmitted(ch: seq<Statement>, k: nat, ctx: map<string, Statement>, cp0: seq<int>, cp: seq<int>, calls: Calls)
    requires k < |ch| && Appended(cp0, BlockCode(ch[..k], ctx, |cp0|, calls)) == Ok(cp)
    ensures Appended(cp0, BlockCode(ch[..k + 1], ctx, |cp0|, calls)) == Appended(cp, Code(ch[k], ctx, |cp|, calls))
  {
    var front := BlockCode(ch[..k], ctx, |cp0|, calls).value;
    assert cp == cp0 + front;
    assert |cp| == |cp0| + |front|;
    var last := Code(ch[k], ctx, |cp|, calls);
    BlockCodeSnoc(ch, k, ctx, |cp0|, |cp|, calls);
    AppendedTwice(cp0, front, last);
  }

  /** A child whose code fails makes the whole block's code fail the same way. */
  lemma BlockEmittedFails(ch: seq<Statement>, k: nat, ctx: map<string, Statement>, cp0: seq<int>, code: Result<seq<int>>)
    requires k < |ch| && code.Fatal?
    requires Appended(cp0, BlockCode(ch[..k + 1], ctx, |cp0|, AnyInstruction)) == code
    ensures Appended(cp0, BlockCode(ch, ctx, |cp0|, AnyInstruction)) == code
  {
    BlockCodeFails(ch, k + 1, ctx, |cp0|, AnyInstruction);
  }

  /** The code of one more child of a block, the child's code placed at index at. */
  lemma BlockCodeSnoc(ch: seq<Statement>, k: nat, ctx: map<string, Statement>, start: nat, at: nat, calls: Calls)
    requires k < |ch| && BlockCode(ch[..k], ctx, start, calls).Ok?
    requires at == start + |BlockCode(ch[..k], ctx, start, calls).value|
    ensures BlockCode(ch[..k + 1], ctx, start, calls)
            == Appended(BlockCode(ch[..k], ctx, start, calls).value, Code(ch[k], ctx, at, calls))
  {
    assert ch[..k + 1][..k] == ch[..k];
  }


  lemma AppendedTwice(cp: seq<int>, front: seq<int>, code: Result<seq<int>>)
    ensures Appended(cp, Appended(front, code)) == Appended(cp + front, code)
  {
    if code.Ok? {
      assert cp + (front + code.value) == cp + front + code.value;
    }
  }

  /** BLOCK: the children's code in order. */
  method GenerateBlock(s: Statement, ctx: map<string, Statement>, cp0: seq<int>)
    returns (r: Result<seq<int>>, restored: Statement)
    requires s.Block?
    ensures r == Appended(cp0, Code(s, ctx, |cp0|, AnyInstruction))
    ensures r.Ok? ==> restored == Restored(s, ctx)
    decreases ctx, s, 1
  {
    var ch := s.children;
    var cp := cp0;
    var children: seq<Statement> := [];
    assert Code(s, ctx, |cp0|, AnyInstruction) == BlockCode(ch, ctx, |cp0|, AnyInstruction);
    assert ch[..0] == [] && cp0 + [] == cp0;
    for index := 0 to |ch|
      invariant Appended(cp0, BlockCode(ch[..index], ctx, |cp0|, AnyInstruction)) == Ok(cp)
      invariant |children| == index
      invariant forall j :: 0 <= j < index ==> children[j] == Restored(ch[j], ctx)
    {
      BlockStepEmitted(ch, index, ctx, cp0, cp, AnyInstruction);
      var current := ch[index];
      var code, child := GenerateCodeForStatement(current, ctx, cp);
      if code.Fatal? {
        BlockEmittedFails(ch, index, ctx, cp0, code);
        return code, s;
      }
      cp := code.value;
      children := children + [child];
    }
    assert ch[..|ch|] == ch;
    RestoredBlock(ch, ctx, children);
    return Ok(cp), Block(children);
  }

  /** A block is restored child by child. */
  lemma RestoredBlock(ch: seq<Statement>, ctx: map<string, Statement>, children: seq<Statement>)
    requires |children| == |ch| && forall j :: 0 <= j < |ch| ==> children[j] == Restored(ch[j], ctx)
    ensures Restored(Block(ch), ctx) == Block(children)
  {
  }

  /** IF: [condJump, T] * code(b), T patched to the index past the body. */
  method GenerateIf(s: Statement, ctx: map<string, Statement>, cp0: seq<int>)
    returns (r: Result<seq<int>>, restored: Statement)
    requires s.If?
    ensures r == Appended(cp0, Code(s, ctx, |cp0|, AnyInstruction))
    ensures r.Ok? ==> restored == Restored(s, ctx)
    decreases ctx, s, 1
  {
    var dummy := 0;
    var c, b := s.cond, s.body;
    var cp := cp0 + [CondJumpCode(c)];
    var jump := |cp|;
    cp := cp + [dummy];
    var code, b' := GenerateCodeForStatement(b, ctx, cp);
    if code.Fatal? {
      return code, s;
    }
    ghost var body := Code(b, ctx, |cp0| + 2, AnyInstruction).value;
    cp := code.value;
    PatchAt(cp0 + [CondJumpCode(c)], dummy, body, |cp|);
    cp := cp[jump := |cp|];
    assert cp == cp0 + ([CondJumpCode(c), |cp0| + 2 + |body|] + body);
    return Ok(cp), If(c, b');
  }

  /**
   * IF_ELSE: [condJump, T1] * code(b1) * [JUMP, T2] * code(b2), T1 patched to
   * the start of code(b2) and T2 to the index past it.
   */
  method GenerateIfElse(s: Statement, ctx: map<string, Statement>, cp0: seq<int>)
    returns (r: Result<seq<int>>, restored: Statement)
    requires s.IfElse?
    ensures r == Appended(cp0, Code(s, ctx, |cp0|, AnyInstruction))
    ensures r.Ok? ==> restored == Restored(s, ctx)
    decreases ctx, s, 1
  {
    var dummy := 0;
    var c, b1, b2 := s.cond, s.thenBody, s.elseBody;
    var cp := cp0 + [CondJumpCode(c)];
    var condJump := |cp|;
    cp := cp + [dummy];
    var code1, b1' := GenerateCodeForStatement(b1, ctx, cp);
    assert Code(b1, ctx, |cp|, AnyInstruction) == Code(b1, ctx, |cp0| + 2, AnyInstruction);
    if code1.Fatal? {
      return code1, s;
    }
    ghost var thenCode := Code(b1, ctx, |cp0| + 2, AnyInstruction).value;
    IfElseUnfolded(c, b1, b2, ctx, |cp0|, AnyInstruction);
    cp := code1.value;
    cp := cp + [ByteCode(Jump)];
    var jump := |cp|;
    cp := cp + [dummy];
    cp := cp[condJump := |cp|];
    var code2, b2' := GenerateCodeForStatement(b2, ctx, cp);
    assert Code(b2, ctx, |cp|, AnyInstruction) == Code(b2, ctx, |cp0| + 2 + |thenCode| + 2, AnyInstruction);
    if code2.Fatal? {
      return code2, s;
    }
    ghost var elseCode := Code(b2, ctx, |cp0| + 2 + |thenCode| + 2, AnyInstruction).value;
    cp := code2.value;
    cp := cp[jump := |cp|];
    IfElseEmitted(cp0, CondJumpCode(c), dummy, thenCode, elseCode);
    return Ok(cp), IfElse(c, b1', b2');
  }

  /**
   * The IF_ELSE code as emitted: the conditional jump patched once the THEN
   * part is out, the jump over the ELSE part patched at the end.
   */
  lemma IfElseEmitted(cp0: seq<int>, cj: int, dummy: int, thenCode: seq<int>, elseCode: seq<int>)
    ensures var cp1 := cp0 + [cj] + [dummy] + thenCode + [ByteCode(Jump)] + [dummy];
            var cp2 := cp1[|cp0| + 1 := |cp1|] + elseCode;
            cp2[|cp1| - 1 := |cp2|]
            == cp0 + ([cj, |cp1|] + thenCode + [ByteCode(Jump), |cp2|] + elseCode)
  {
    var cp1 := cp0 + [cj] + [dummy] + thenCode + [ByteCode(Jump)] + [dummy];
    PatchAt(cp0 + [cj], dummy, thenCode + [ByteCode(Jump)] + [dummy], |cp1|);
    assert cp1 == cp0 + [cj] + [dummy] + (thenCode + [ByteCode(Jump)] + [dummy]);
    var beforeElse := cp0 + [cj, |cp1|] + thenCode + [ByteCode(Jump)];
    assert cp1[|cp0| + 1 := |cp1|] == beforeElse + [dummy];
    var cp2 := beforeElse + [dummy] + elseCode;
    PatchAt(beforeElse, dummy, elseCode, |cp2|);
  }

  /** WHILE at p: [condJump, T] * code(b) * [JUMP, p], T patched to the index past it. */
  method GenerateWhile(s: Statement, ctx: map<string, Statement>, cp0: seq<int>)
    returns (r: Result<seq<int>>, restored: Statement)
    requires s.While?
    ensures r == Appended(cp0, Code(s, ctx, |cp0|, AnyInstruction))
    ensures r.Ok? ==> restored == Restored(s, ctx)
    decreases ctx, s, 1
  {
    var dummy := 0;
    var c, b := s.cond, s.body;
    var test := |cp0|;
    var cp := cp0 + [CondJumpCode(c)];
    var jump := |cp|;
    cp := cp + [dummy];
    var code, b' := GenerateCodeForStatement(b, ctx, cp);
    if code.Fatal? {
      return code, s;
    }
    ghost var body := Code(b, ctx, |cp0| + 2, AnyInstruction).value;
    cp := code.value;
    cp := cp + [ByteCode(Jump)];
    cp := cp + [test];
    PatchAt(cp0 + [CondJumpCode(c)], dummy, body + [ByteCode(Jump), test], |cp|);
    cp := cp[jump := |cp|];
    assert cp == cp0 + ([CondJumpCode(c), |cp0| + 2 + |body| + 2] + body + [ByteCode(Jump), test]);
    return Ok(cp), While(c, b');
  }

  /**
   * CALL: a user instruction is inlined, compiled with an empty context; any
   * other name is emitted as the instruction of its upper-cased name and put
   * back lower-cased.
   */
  method GenerateCall(s: Statement, ctx: map<string, Statement>, cp: seq<int>)
    returns (r: Result<seq<int>>, restored: Statement)
    requires s.Call?
    ensures r == Appended(cp, Code(s, ctx, |cp|, AnyInstruction))
    ensures r.Ok? ==> restored == Restored(s, ctx)
    decreases ctx, s, 1
  {
    var name := s.name;
    if name in ctx {
      var inlined;
      r, inlined := GenerateCodeForStatement(ctx[name], map[], cp);
      return r, s;
    }
    name := Upper(name);
    var instruction := InstructionNamed(name);
    if instruction.None? {
      return Fatal(UnknownInstruction(name)), s;
    }
    r := Ok(cp + [ByteCode(instruction.value)]);
    name := Lower(name);
    restored := Call(name);
  }

  /** Back-patching the placeholder that follows pre. */
  lemma PatchAt(pre: seq<int>, x: int, post: seq<int>, v: int)
    ensures (pre + [x] + post)[|pre| := v] == pre + [v] + post
  {
  }

  /** A child whose code cannot be generated stops the whole block. */
  lemma {:induction false} BlockCodeFails(ch: seq<Statement>, k: nat, ctx: map<string, Statement>, start: nat, calls: Calls)
    requires k <= |ch| && BlockCode(ch[..k], ctx, start, calls).Fatal?
    ensures BlockCode(ch, ctx, start, calls) == BlockCode(ch[..k], ctx, start, calls)
    decreases |ch| - k
  {
    if k < |ch| {
      assert ch[..k + 1][..k] == ch[..k];
      BlockCodeFails(ch, k + 1, ctx, start, calls);
    } else {
      assert ch[..k] == ch;
    }
  }

  /**
   * generatedCode: the body's code followed by HALT; the program is
   * reassembled with its body restored and the bodies it inlined lower-cased.
   * On every program whose calls the corrected generator accepts, the code
   * ends with HALT and every jump targets an index of the program.
   */
  method GeneratedCode(p: Program) returns (r: Result<seq<int>>, restored: Program)
    ensures r == ProgramCode(p, AnyInstruction)
    ensures r.Ok? ==> restored == Program(p.name, ContextAfter(p.body, p.context), Restored(p.body, p.context))
    ensures ProgramCode(p, PrimitivesOnly).Ok? ==>
              r.Ok? && |r.value| > 0 && r.value[|r.value| - 1] == ByteCode(Halt) && WellFormed(r.value, 0, |r.value| - 1)
  {
    if ProgramCode(p, PrimitivesOnly).Ok? {
      ProgramDialectsAgree(p);
    }
    var cp: seq<int> := [];
    var code, body := GenerateCodeForStatement(p.body, p.context, cp);
    if code.Fatal? {
      return code, p;
    }
    cp := code.value;
    assert cp == Code(p.body, p.context, 0, AnyInstruction).value;
    cp := cp + [ByteCode(Halt)];
    return Ok(cp), Program(p.name, ContextAfter(p.body, p.context), body);
  }

  // ---------------------------------------------------------------------------
  // Inlining through the whole context, as generateCodeForStatement's
  // contract describes it
  // ---------------------------------------------------------------------------

  /**
   * s with every CALL of a context instruction replaced by that instruction's
   * body, itself expanded in the context without the instruction: a call
   * cycle is left as a CALL of the instruction's name.
   */
  function Expanded(s: Statement, ctx: map<string, Statement>): (r: Statement)
    decreases |ctx|, s
  {
    match s
    case Block(ch) => Block(ExpandedChildren(ch, ctx))
    case If(c, b) => If(c, Expanded(b, ctx))
    case IfElse(c, b1, b2) => IfElse(c, Expanded(b1, ctx), Expanded(b2, ctx))
    case While(c, b) => While(c, Expanded(b, ctx))
    case Call(name) =>
      if name in ctx then
        assert |ctx - {name}| < |ctx| by { assert (ctx - {name}).Keys + {name} == ctx.Keys; }
        Expanded(ctx[name], ctx - {name})
      else Call(name)
  }

  function ExpandedChildren(ch: seq<Statement>, ctx: map<string, Statement>): (r: seq<Statement>)
    ensures |r| == |ch|
    decreases |ctx|, ch
  {
    seq(|ch|, i requires 0 <= i < |ch| => Expanded(ch[i], ctx))
  }

  /**
   * Every instruction s calls is primitive or defined in the context, and
   * the context's instructions call each other without a cycle.
   */
  predicate Resolvable(s: Statement, ctx: map<string, Statement>)
    decreases |ctx|, s
  {
    match s
    case Block(ch) => forall i :: 0 <= i < |ch| ==> Resolvable(ch[i], ctx)
    case If(_, b) => Resolvable(b, ctx)
    case IfElse(_, b1, b2) => Resolvable(b1, ctx) && Resolvable(b2, ctx)
    case While(_, b) => Resolvable(b, ctx)
    case Call(name) =>
      if name in ctx then
        assert |ctx - {name}| < |ctx| by { assert (ctx - {name}).Keys + {name} == ctx.Keys; }
        Resolvable(ctx[name], ctx - {name})
      else IsPrimitiveName(Upper(name))
  }

  /** The code generateCodeForStatement's contract asks for: the fully inlined body, then HALT. */
  function IntendedProgramCode(p: Program): (r: Result<seq<int>>)
  {
    ProgramCode(Program(p.name, map[], Expanded(p.body, p.context)), PrimitivesOnly)
  }

  /** A resolvable statement, fully inlined, compiles wherever it is placed. */
  lemma {:induction false} ExpandedCompiles(s: Statement, ctx: map<string, Statement>, start: nat)
    requires Resolvable(s, ctx)
    ensures Code(Expanded(s, ctx), map[], start, PrimitivesOnly).Ok?
    decreases |ctx|, s
  {
    match s
    case Block(ch) =>
      var xs := ExpandedChildren(ch, ctx);
      forall i, st: nat | 0 <= i < |xs|
        ensures Code(xs[i], map[], st, PrimitivesOnly).Ok?
      {
        ExpandedCompiles(ch[i], ctx, st);
      }
      BlockCompiles(xs, start);
    case If(_, b) =>
      ExpandedCompiles(b, ctx, start + 2);
    case While(_, b) =>
      ExpandedCompiles(b, ctx, start + 2);
    case IfElse(c, b1, b2) =>
      ExpandedCompiles(b1, ctx, start + 2);
      var code1 := Code(Expanded(b1, ctx), map[], start + 2, PrimitivesOnly).value;
      ExpandedCompiles(b2, ctx, start + 2 + |code1| + 2);
      IfElseUnfolded(c, Expanded(b1, ctx), Expanded(b2, ctx), map[], start, PrimitivesOnly);
    case Call(name) =>
      if name in ctx {
        assert |ctx - {name}| < |ctx| by { assert (ctx - {name}).Keys + {name} == ctx.Keys; }
        ExpandedCompiles(ctx[name], ctx - {name}, start);
      } else {
        PrimitivesAgree(name);
      }
  }

  /** A block whose children all compile wherever they are placed compiles. */
  lemma {:induction false} BlockCompiles(xs: seq<Statement>, start: nat)
    requires forall i, st: nat :: 0 <= i < |xs| ==> Code(xs[i], map[], st, PrimitivesOnly).Ok?
    ensures BlockCode(xs, map[], start, PrimitivesOnly).Ok?
    decreases |xs|
  {
    if |xs| > 0 {
      var front := xs[..|xs| - 1];
      assert forall i :: 0 <= i < |front| ==> front[i] == xs[i];
      BlockCompiles(front, start);
    }
  }

  /**
   * The corrected generator accepts every program whose calls resolve to
   * primitives through an acyclic context, and its code ends with HALT and
   * jumps only inside the program.
   */
  lemma IntendedProgramWellFormed(p: Program)
    requires Resolvable(p.body, p.context)
    ensures IntendedProgramCode(p).Ok?
    ensures var code := IntendedProgramCode(p).value;
            |code| > 0 && code[|code| - 1] == ByteCode(Halt) && WellFormed(code, 0, |code| - 1)
  {
    ExpandedCompiles(p.body, p.context, 0);
    ProgramCodeWellFormed(Program(p.name, map[], Expanded(p.body, p.context)));
  }

  /**
   * Inlining through the whole context changes nothing where one level was
   * enough: on whatever compiles with primitive calls only, in a context C
   * that E extends and whose names are no instruction's, the inlined
   * statement has the same code.
   */
  lemma {:induction false} ExpandedAgrees(s: Statement, C: map<string, Statement>, E: map<string, Statement>, start: nat)
    requires Code(s, C, start, PrimitivesOnly).Ok?
    requires forall l :: l in E ==> InstructionNamed(Upper(l)).None?
    requires forall l :: l in C ==> l in E && E[l] == C[l]
    ensures Code(Expanded(s, E), map[], start, PrimitivesOnly) == Code(s, C, start, PrimitivesOnly)
    decreases C, s, 1
  {
    match s
    case Block(ch) =>
      BlockExpandedAgrees(ch, C, E, start);
    case If(_, b) =>
      ExpandedAgrees(b, C, E, start + 2);
      SameBodySameCode(Expanded(s, E), map[], s, C, start, PrimitivesOnly);
    case While(_, b) =>
      ExpandedAgrees(b, C, E, start + 2);
      SameBodySameCode(Expanded(s, E), map[], s, C, start, PrimitivesOnly);
    case IfElse(c, b1, b2) =>
      IfElseExpandedAgrees(c, b1, b2, C, E, start);
    case Call(name) =>
      CallExpandedAgrees(name, C, E, start);
  }

  lemma {:induction false} IfElseExpandedAgrees(c: Condition, b1: Statement, b2: Statement,
                                                C: map<string, Statement>, E: map<string, Statement>, start: nat)
    requires Code(IfElse(c, b1, b2), C, start, PrimitivesOnly).Ok?
    requires forall l :: l in E ==> InstructionNamed(Upper(l)).None?
    requires forall l :: l in C ==> l in E && E[l] == C[l]
    ensures Code(Expanded(IfElse(c, b1, b2), E), map[], start, PrimitivesOnly)
            == Code(IfElse(c, b1, b2), C, start, PrimitivesOnly)
    decreases C, IfElse(c, b1, b2), 0
  {
    ExpandedAgrees(b1, C, E, start + 2);
    var code1 := Code(b1, C, start + 2, PrimitivesOnly).value;
    IfElseUnfolded(c, b1, b2, C, start, PrimitivesOnly);
    ExpandedAgrees(b2, C, E, start + 2 + |code1| + 2);
    SamePartsSameCode(c, Expanded(b1, E), Expanded(b2, E), map[], b1, b2, C, start, PrimitivesOnly);
  }

  lemma {:induction false} CallExpandedAgrees(name: string, C: map<string, Statement>, E: map<string, Statement>, start: nat)
    requires Code(Call(name), C, start, PrimitivesOnly).Ok?
    requires forall l :: l in E ==> InstructionNamed(Upper(l)).None?
    requires forall l :: l in C ==> l in E && E[l] == C[l]
    ensures Code(Expanded(Call(name), E), map[], start, PrimitivesOnly) == Code(Call(name), C, start, PrimitivesOnly)
    decreases C, Call(name), 0
  {
    if name in C {
      ExpandedAgrees(C[name], map[], E - {name}, start);
    } else {
      PrimitivesAgree(name);
    }
  }

  lemma {:induction false} BlockExpandedAgrees(ch: seq<Statement>, C: map<string, Statement>, E: map<string, Statement>, start: nat)
    requires BlockCode(ch, C, start, PrimitivesOnly).Ok?
    requires forall l :: l in E ==> InstructionNamed(Upper(l)).None?
    requires forall l :: l in C ==> l in E && E[l] == C[l]
    ensures BlockCode(ExpandedChildren(ch, E), map[], start, PrimitivesOnly) == BlockCode(ch, C, start, PrimitivesOnly)
    decreases C, ch, 0
  {
    if |ch| > 0 {
      var n := |ch| - 1;
      BlockCodeLast(ch, C, start, PrimitivesOnly);
      BlockExpandedAgrees(ch[..n], C, E, start);
      assert ExpandedChildren(ch, E)[..n] == ExpandedChildren(ch[..n], E);
      ExpandedAgrees(ch[n], C, E, start + |BlockCode(ch[..n], C, start, PrimitivesOnly).value|);
    }
  }

  /**
   * On every program the corrected generator accepts, and whose context
   * names no instruction, inlining through the whole context gives the code
   * the program's own generator gives.
   */
  lemma IntendedExtendsAsWritten(p: Program)
    requires ProgramCode(p, PrimitivesOnly).Ok?
    requires forall l :: l in p.context ==> InstructionNamed(Upper(l)).None?
    ensures IntendedProgramCode(p) == ProgramCode(p, AnyInstruction)
  {
    ExpandedAgrees(p.body, p.context, p.context, 0);
    ProgramDialectsAgree(p);
  }

  /** The program of OneLevelOfInlining, which fails as written, compiles when inlined through the context. */
  lemma NestedInliningCompiles()
    ensures IntendedProgramCode(Program("p", map["outer" := Call("inner"), "inner" := Call("move")], Call("outer")))
            == Ok([ByteCode(Move), ByteCode(Halt)])
  {
    var ctx := map["outer" := Call("inner"), "inner" := Call("move")];
    var ctx1 := ctx - {"outer"};
    assert "inner" in ctx1 && ctx1["inner"] == Call("move");
    assert "move" !in ctx1 - {"inner"};
    assert Expanded(Call("outer"), ctx) == Call("move");
    assert Upper("move") == "MOVE";
    assert IsPrimitiveName("MOVE") && InstructionNamed("MOVE") == Some(Move);
    assert Code(Call("move"), map[], 0, PrimitivesOnly) == Ok([ByteCode(Move)]);
    var q := Program("p", ctx, Call("outer"));
    assert IntendedProgramCode(q) == ProgramCode(Program("p", map[], Call("move")), PrimitivesOnly);
    assert ProgramCode(Program("p", map[], Call("move")), PrimitivesOnly) == Ok([ByteCode(Move)] + [ByteCode(Halt)]);
    assert [ByteCode(Move)] + [ByteCode(Halt)] == [ByteCode(Move), ByteCode(Halt)];
  }
}
