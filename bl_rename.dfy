/*
 * renameInstruction: every CALL of oldName in a BL statement becomes a CALL
 * of newName; over a whole program the context entry keyed oldName is
 * re-keyed newName and every body is renamed. The two program variants differ
 * in whether the renamed instruction's own body is rewritten too.
 */
module BLRename {

  import opened BLStatement
  import opened BLCount

  /** The statement with every CALL of oldName renamed newName. */
  function Renamed(s: Statement, oldName: string, newName: string): Statement
    decreases s, 1
  {
    match s
    case Block(ch) => Block(RenamedChildren(ch, oldName, newName))
    case If(c, b) => If(c, Renamed(b, oldName, newName))
    case IfElse(c, b1, b2) => IfElse(c, Renamed(b1, oldName, newName), Renamed(b2, oldName, newName))
    case While(c, b) => While(c, Renamed(b, oldName, newName))
    case Call(name) => if name == oldName then Call(newName) else s
  }

  function RenamedChildren(ch: seq<Statement>, oldName: string, newName: string): (r: seq<Statement>)
    ensures |r| == |ch|
    decreases ch, 0
  {
    if |ch| == 0 then []
    else RenamedChildren(ch[..|ch| - 1], oldName, newName) + [Renamed(ch[|ch| - 1], oldName, newName)]
  }

  /** Every node keeps its kind and its condition, and a block keeps its length. */
  lemma RenamedKeepsShape(s: Statement, oldName: string, newName: string)
    ensures var r := Renamed(s, oldName, newName);
      && (s.Block? <==> r.Block?)
      && (s.Block? ==> |r.children| == |s.children|)
      && (s.If? ==> r.If? && r.cond == s.cond)
      && (s.IfElse? ==> r.IfElse? && r.cond == s.cond)
      && (s.While? ==> r.While? && r.cond == s.cond)
      && (s.Call? ==> r.Call?)
  {
  }

  /** A single name after renaming. */
  function RenamedName(name: string, oldName: string, newName: string): string
  {
    if name == oldName then newName else name
  }

  /** The names after renaming, in the same order. */
  function RenamedNames(names: seq<string>, oldName: string, newName: string): (r: seq<string>)
    ensures |r| == |names|
    ensures forall i :: 0 <= i < |names| ==> r[i] == RenamedName(names[i], oldName, newName)
  {
    if |names| == 0 then []
    else RenamedNames(names[..|names| - 1], oldName, newName) + [RenamedName(names[|names| - 1], oldName, newName)]
  }

  lemma RenamedNamesConcat(a: seq<string>, b: seq<string>, oldName: string, newName: string)
    ensures RenamedNames(a + b, oldName, newName) == RenamedNames(a, oldName, newName) + RenamedNames(b, oldName, newName)
  {
  }

  // ---------------------------------------------------------------------------
  // Properties of renaming a statement
  // ---------------------------------------------------------------------------

  /** The CALLs of the renamed statement are the original CALLs, in order, each name renamed. */
  lemma {:induction false} RenamedCallNames(s: Statement, oldName: string, newName: string)
    ensures CallNames(Renamed(s, oldName, newName)) == RenamedNames(CallNames(s), oldName, newName)
    decreases s, 1
  {
    match s
    case Block(ch) => RenamedChildrenCallNames(ch, oldName, newName);
    case If(_, b) => RenamedCallNames(b, oldName, newName);
    case IfElse(_, b1, b2) =>
      RenamedCallNames(b1, oldName, newName);
      RenamedCallNames(b2, oldName, newName);
      RenamedNamesConcat(CallNames(b1), CallNames(b2), oldName, newName);
    case While(_, b) => RenamedCallNames(b, oldName, newName);
    case Call(_) =>
  }

  lemma {:induction false} RenamedChildrenCallNames(ch: seq<Statement>, oldName: string, newName: string)
    ensures ChildrenCallNames(RenamedChildren(ch, oldName, newName))
         == RenamedNames(ChildrenCallNames(ch), oldName, newName)
    decreases ch, 0
  {
    if |ch| > 0 {
      var front := ch[..|ch| - 1];
      var renamed := RenamedChildren(ch, oldName, newName);
      assert renamed[..|renamed| - 1] == RenamedChildren(front, oldName, newName);
      RenamedChildrenCallNames(front, oldName, newName);
      RenamedCallNames(ch[|ch| - 1], oldName, newName);
      RenamedNamesConcat(ChildrenCallNames(front), CallNames(ch[|ch| - 1]), oldName, newName);
    }
  }

  /** After renaming (to a different name) no CALL of oldName is left. */
  lemma NoCallOfOldName(s: Statement, oldName: string, newName: string)
    requires oldName != newName
    ensures oldName !in CallNames(Renamed(s, oldName, newName))
  {
    RenamedCallNames(s, oldName, newName);
    var names := CallNames(s);
    var renamed := RenamedNames(names, oldName, newName);
    forall i | 0 <= i < |renamed|
      ensures renamed[i] != oldName
    {
    }
  }

  /** If no CALL names oldName, the statement is unchanged. */
  lemma {:induction false} RenameAbsentIsIdentity(s: Statement, oldName: string, newName: string)
    requires oldName !in CallNames(s)
    ensures Renamed(s, oldName, newName) == s
    decreases s, 1
  {
    match s
    case Block(ch) => RenameAbsentChildren(ch, oldName, newName);
    case If(_, b) => RenameAbsentIsIdentity(b, oldName, newName);
    case IfElse(_, b1, b2) =>
      assert CallNames(s) == CallNames(b1) + CallNames(b2);
      RenameAbsentIsIdentity(b1, oldName, newName);
      RenameAbsentIsIdentity(b2, oldName, newName);
    case While(_, b) => RenameAbsentIsIdentity(b, oldName, newName);
    case Call(name) =>
      assert CallNames(s)[0] == name;
  }

  lemma {:induction false} RenameAbsentChildren(ch: seq<Statement>, oldName: string, newName: string)
    requires oldName !in ChildrenCallNames(ch)
    ensures RenamedChildren(ch, oldName, newName) == ch
    decreases ch, 0
  {
    if |ch| > 0 {
      var front, last := ch[..|ch| - 1], ch[|ch| - 1];
      assert ChildrenCallNames(ch) == ChildrenCallNames(front) + CallNames(last);
      assert oldName !in ChildrenCallNames(front) && oldName !in CallNames(last);
      RenameAbsentChildren(front, oldName, newName);
      RenameAbsentIsIdentity(last, oldName, newName);
      assert front + [last] == ch;
    }
  }

  /** Renaming to a name no CALL uses, and then back, gives the original statement. */
  lemma {:induction false} RenameRoundTrip(s: Statement, oldName: string, newName: string)
    requires newName !in CallNames(s)
    ensures Renamed(Renamed(s, oldName, newName), newName, oldName) == s
    decreases s, 1
  {
    match s
    case Block(ch) => RenameRoundTripChildren(ch, oldName, newName);
    case If(_, b) => RenameRoundTrip(b, oldName, newName);
    case IfElse(_, b1, b2) =>
      assert CallNames(s) == CallNames(b1) + CallNames(b2);
      RenameRoundTrip(b1, oldName, newName);
      RenameRoundTrip(b2, oldName, newName);
    case While(_, b) => RenameRoundTrip(b, oldName, newName);
    case Call(name) =>
      assert CallNames(s)[0] == name;
  }

  lemma {:induction false} RenameRoundTripChildren(ch: seq<Statement>, oldName: string, newName: string)
    requires newName !in ChildrenCallNames(ch)
    ensures RenamedChildren(RenamedChildren(ch, oldName, newName), newName, oldName) == ch
    decreases ch, 0
  {
    if |ch| > 0 {
      var front, last := ch[..|ch| - 1], ch[|ch| - 1];
      assert ChildrenCallNames(ch) == ChildrenCallNames(front) + CallNames(last);
      var once := RenamedChildren(ch, oldName, newName);
      assert once[..|once| - 1] == RenamedChildren(front, oldName, newName);
      RenameRoundTripChildren(front, oldName, newName);
      RenameRoundTrip(last, oldName, newName);
      assert front + [last] == ch;
    }
  }

  // ---------------------------------------------------------------------------
  // The statement method: children first; block children rewritten in place
  // ---------------------------------------------------------------------------

  /** renameInstruction(Statement, oldName, newName), returning the rewritten statement. */
  method RenameInstruction(s: Statement, oldName: string, newName: string) returns (r: Statement)
    ensures r == Renamed(s, oldName, newName)
    decreases s
  {
    match s {
      case Block(ch) =>
        var children := ch;
        for i := 0 to |ch|
          invariant |children| == |ch|
          invariant children[..i] == RenamedChildren(ch[..i], oldName, newName)
          invariant children[i..] == ch[i..]
        {
          var sub := RenameInstruction(children[i], oldName, newName);
          assert children[i] == ch[i] by { assert children[i..][0] == ch[i..][0]; }
          assert ch[..i + 1][..i] == ch[..i];
          children := children[i := sub];
          assert children[..i + 1] == children[..i] + [sub];
        }
        assert ch[..|ch|] == ch;
        r := Block(children);
      case If(c, b) =>
        var body := RenameInstruction(b, oldName, newName);
        r := If(c, body);
      case IfElse(c, b1, b2) =>
        var ifBody := RenameInstruction(b1, oldName, newName);
        var elseBody := RenameInstruction(b2, oldName, newName);
        r := IfElse(c, ifBody, elseBody);
      case While(c, b) =>
        var body := RenameInstruction(b, oldName, newName);
        r := While(c, body);
      case Call(call) =>
        if call == oldName {
          r := Call(newName);
        } else {
          r := Call(call);
        }
    }
  }

  // ---------------------------------------------------------------------------
  // Renaming over a program
  // ---------------------------------------------------------------------------

  /**
   * The two program versions: one keeps the body of oldName as it is when it
   * re-keys it; the other renames the CALLs inside that body as well.
   */
  datatype Variant = KeepOwnBody | RenameOwnBody

  /**
   * What each version demands of its caller. The first states it: oldName is
   * an instruction and newName is not. The second states nothing, but
   * Map.add refuses a key already present, so newName may not already be an
   * instruction when oldName is one and the two differ.
   */
  predicate CanRename(context: map<string, Statement>, oldName: string, newName: string, variant: Variant)
  {
    match variant
    case KeepOwnBody => oldName in context && newName !in context
    case RenameOwnBody => oldName in context && newName in context ==> oldName == newName
  }

  /** The key an entry is stored under afterwards. */
  function NewKey(key: string, oldName: string, newName: string): string
  {
    if key == oldName then newName else key
  }

  /** The body an entry holds afterwards. */
  function NewBody(key: string, body: Statement, oldName: string, newName: string, variant: Variant): Statement
  {
    if key == oldName && variant == KeepOwnBody then body else Renamed(body, oldName, newName)
  }

  /** The entries other than oldName, each body renamed under its own key. */
  function OtherEntries(context: map<string, Statement>, oldName: string, newName: string): map<string, Statement>
  {
    map key | key in context && key != oldName :: Renamed(context[key], oldName, newName)
  }

  /** The context afterwards: every entry re-keyed by NewKey with the body NewBody. */
  function RenamedContext(context: map<string, Statement>, oldName: string, newName: string, variant: Variant)
    : map<string, Statement>
  {
    if oldName in context
    then OtherEntries(context, oldName, newName)[newName := NewBody(oldName, context[oldName], oldName, newName, variant)]
    else OtherEntries(context, oldName, newName)
  }

  /** Where an entry of the old context ends up. */
  lemma RenamedContextEntry(context: map<string, Statement>, oldName: string, newName: string, variant: Variant,
                            key: string)
    requires oldName in context && newName in context ==> oldName == newName
    requires key in context
    ensures RenamedContext(context, oldName, newName, variant)[NewKey(key, oldName, newName)]
         == NewBody(key, context[key], oldName, newName, variant)
  {
  }

  /** With oldName present the domain becomes DOMAIN - {oldName} + {newName}; otherwise it is unchanged. */
  lemma RenamedContextDomain(context: map<string, Statement>, oldName: string, newName: string, variant: Variant)
    ensures oldName in context ==>
      RenamedContext(context, oldName, newName, variant).Keys == context.Keys - {oldName} + {newName}
    ensures oldName !in context ==> RenamedContext(context, oldName, newName, variant).Keys == context.Keys
  {
    assert OtherEntries(context, oldName, newName).Keys == context.Keys - {oldName};
  }

  /** The context keeps its number of entries. */
  lemma RenamedContextSize(context: map<string, Statement>, oldName: string, newName: string, variant: Variant)
    requires oldName in context && newName in context ==> oldName == newName
    ensures |RenamedContext(context, oldName, newName, variant)| == |context|
  {
    RenamedContextDomain(context, oldName, newName, variant);
    if oldName in context {
      KeySwapped(context.Keys, oldName, newName);
    }
  }

  /** Replacing one element of a set by an element not among the rest keeps the size. */
  lemma KeySwapped(keys: set<string>, x: string, y: string)
    requires x in keys && (y in keys ==> y == x)
    ensures |keys - {x} + {y}| == |keys|
  {
    var rest := keys - {x};
    assert keys == rest + {x};
    assert y !in rest;
  }

  /** Draining one more entry adds exactly its renamed entry to the new context. */
  lemma DrainStep(done: map<string, Statement>, key: string, body: Statement,
                  oldName: string, newName: string, variant: Variant)
    requires key !in done
    requires oldName in done[key := body] && newName in done[key := body] ==> oldName == newName
    ensures NewKey(key, oldName, newName) !in RenamedContext(done, oldName, newName, variant)
    ensures RenamedContext(done[key := body], oldName, newName, variant)
         == RenamedContext(done, oldName, newName, variant)[NewKey(key, oldName, newName) := NewBody(key, body, oldName, newName, variant)]
  {
    var others, more := OtherEntries(done, oldName, newName), OtherEntries(done[key := body], oldName, newName);
    if key == oldName {
      assert more == others;
    } else {
      assert more == others[key := Renamed(body, oldName, newName)];
    }
  }

  /** renameInstruction(Program, oldName, newName) in either version: the drain loop and the body. */
  method RenameInProgram(p: Program, oldName: string, newName: string, variant: Variant) returns (q: Program)
    requires CanRename(p.context, oldName, newName, variant)
    ensures q.name == p.name
    ensures q.context == RenamedContext(p.context, oldName, newName, variant)
    ensures q.body == Renamed(p.body, oldName, newName)
  {
    var context := p.context;
    var c: map<string, Statement> := map[];
    assert p.context - context.Keys == map[];
    while |context| > 0
      invariant context.Keys <= p.context.Keys
      invariant forall key :: key in context ==> context[key] == p.context[key]
      invariant c == RenamedContext(p.context - context.Keys, oldName, newName, variant)
      decreases |context|
    {
      var key :| key in context;
      var value := context[key];
      ghost var done := p.context - context.Keys;
      DrainStep(done, key, value, oldName, newName, variant);
      assert p.context - (context.Keys - {key}) == done[key := value];
      context := context - {key};
      if variant == RenameOwnBody {
        value := RenameInstruction(value, oldName, newName);
      }
      if key == oldName {
        assert newName !in c;
        c := c[newName := value];
      } else {
        if variant == KeepOwnBody {
          value := RenameInstruction(value, oldName, newName);
        }
        assert key !in c;
        c := c[key := value];
      }
    }
    assert p.context - context.Keys == p.context;
    var body := RenameInstruction(p.body, oldName, newName);
    q := Program(p.name, c, body);
  }
}
