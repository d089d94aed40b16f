/*
 * countOfPrimitiveCalls: the number of CALLs in a BL statement whose name is
 * one of the five primitive instructions (move, turnleft, turnright, infect,
 * skip), compared case-sensitively.
 */
module BLCount {

  import opened BLStatement

  /** The names the source compares against with String.equals. */
  predicate IsPrimitiveName(name: string)
  {
    name == "move" || name == "turnleft" || name == "turnright" || name == "infect" || name == "skip"
  }

  /** The count the method computes, case by case. */
  function PrimitiveCalls(s: Statement): nat
    decreases s, 1
  {
    match s
    case Block(ch) => ChildrenPrimitiveCalls(ch)
    case If(_, b) => PrimitiveCalls(b)
    case IfElse(_, b1, b2) => PrimitiveCalls(b1) + PrimitiveCalls(b2)
    case While(_, b) => PrimitiveCalls(b)
    case Call(name) => if IsPrimitiveName(name) then 1 else 0
  }

  /** The sum over the children, accumulated in index order. */
  function ChildrenPrimitiveCalls(ch: seq<Statement>): nat
    decreases ch, 0
  {
    if |ch| == 0 then 0
    else ChildrenPrimitiveCalls(ch[..|ch| - 1]) + PrimitiveCalls(ch[|ch| - 1])
  }

  // ---------------------------------------------------------------------------
  // An independent reference: the CALL names of s, in prefix order
  // ---------------------------------------------------------------------------

  function CallNames(s: Statement): seq<string>
    decreases s, 1
  {
    match s
    case Block(ch) => ChildrenCallNames(ch)
    case If(_, b) => CallNames(b)
    case IfElse(_, b1, b2) => CallNames(b1) + CallNames(b2)
    case While(_, b) => CallNames(b)
    case Call(name) => [name]
  }

  function ChildrenCallNames(ch: seq<Statement>): seq<string>
    decreases ch, 0
  {
    if |ch| == 0 then [] else ChildrenCallNames(ch[..|ch| - 1]) + CallNames(ch[|ch| - 1])
  }

  /** How many of the names are primitive. */
  function PrimitiveNames(names: seq<string>): nat
  {
    if |names| == 0 then 0
    else PrimitiveNames(names[..|names| - 1]) + (if IsPrimitiveName(names[|names| - 1]) then 1 else 0)
  }

  lemma {:induction false} PrimitiveNamesConcat(a: seq<string>, b: seq<string>)
    ensures PrimitiveNames(a + b) == PrimitiveNames(a) + PrimitiveNames(b)
    decreases |b|
  {
    if |b| == 0 {
      assert a + b == a;
    } else {
      assert (a + b)[..|a + b| - 1] == a + b[..|b| - 1];
      PrimitiveNamesConcat(a, b[..|b| - 1]);
    }
  }

  lemma {:induction false} PrimitiveNamesBound(names: seq<string>)
    ensures PrimitiveNames(names) <= |names|
  {
    if |names| > 0 {
      PrimitiveNamesBound(names[..|names| - 1]);
    }
  }

  /** The count is the number of primitive names among the CALLs of s. */
  lemma {:induction false} PrimitiveCallsCountsNames(s: Statement)
    ensures PrimitiveCalls(s) == PrimitiveNames(CallNames(s))
    decreases s, 1
  {
    match s
    case Block(ch) => ChildrenCountNames(ch);
    case If(_, b) => PrimitiveCallsCountsNames(b);
    case IfElse(_, b1, b2) =>
      PrimitiveCallsCountsNames(b1);
      PrimitiveCallsCountsNames(b2);
      PrimitiveNamesConcat(CallNames(b1), CallNames(b2));
    case While(_, b) => PrimitiveCallsCountsNames(b);
    case Call(name) =>
      assert [name][..0] == [];
  }

  lemma {:induction false} ChildrenCountNames(ch: seq<Statement>)
    ensures ChildrenPrimitiveCalls(ch) == PrimitiveNames(ChildrenCallNames(ch))
    decreases ch, 0
  {
    if |ch| > 0 {
      ChildrenCountNames(ch[..|ch| - 1]);
      PrimitiveCallsCountsNames(ch[|ch| - 1]);
      PrimitiveNamesConcat(ChildrenCallNames(ch[..|ch| - 1]), CallNames(ch[|ch| - 1]));
    }
  }

  /** The count is between 0 and the number of CALL nodes in s. */
  lemma PrimitiveCallsBound(s: Statement)
    ensures PrimitiveCalls(s) <= |CallNames(s)|
  {
    PrimitiveCallsCountsNames(s);
    PrimitiveNamesBound(CallNames(s));
  }

  /** A CALL counts exactly when its name is spelled as a primitive, letter case included. */
  lemma CallCountsIffPrimitive(name: string)
    ensures PrimitiveCalls(Call(name)) == 1 <==> name in ["move", "turnleft", "turnright", "infect", "skip"]
    ensures PrimitiveCalls(Call(name)) == 0 <==> name !in ["move", "turnleft", "turnright", "infect", "skip"]
  {
  }

  // ---------------------------------------------------------------------------
  // The method: recursion per kind, a for loop accumulating over block children
  // ---------------------------------------------------------------------------

  /** countOfPrimitiveCalls; s is a value, so it is left as it was. */
  method CountOfPrimitiveCalls(s: Statement) returns (count: nat)
    ensures count == PrimitiveCalls(s)
    decreases s
  {
    count := 0;
    match s {
      case Block(ch) =>
        for i := 0 to |ch|
          invariant count == ChildrenPrimitiveCalls(ch[..i])
        {
          var sub := CountOfPrimitiveCalls(ch[i]);
          assert ch[..i + 1][..i] == ch[..i];
          count := count + sub;
        }
        assert ch[..|ch|] == ch;
      case If(_, b) =>
        count := CountOfPrimitiveCalls(b);
      case IfElse(_, b1, b2) =>
        var thenCount := CountOfPrimitiveCalls(b1);
        var elseCount := CountOfPrimitiveCalls(b2);
        count := thenCount + elseCount;
      case While(_, b) =>
        count := CountOfPrimitiveCalls(b);
      case Call(name) =>
        if name == "move" || name == "turnleft" || name == "turnright" || name == "infect" || name == "skip" {
          count := count + 1;
        }
    }
  }
}
