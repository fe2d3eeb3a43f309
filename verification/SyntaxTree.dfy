/** Syntax trees as code-graph/src/fingerprint.rs sees them, and what its walk over a function reads off
each node. The grammar's node kinds are classified by functions, given in NodeKinds. */
module SyntaxTree {
  import opened WordRuns

  datatype Option<T> = None | Some(value: T)

  /** Field names the walk asks for; any other one, or none, is `Plain`. */
  datatype Field = Function | Name | Object | Arguments | Operator | Condition | Test | Value | Right | Unasked

  datatype Node = Node(kind: string, named: bool, field: Field, text: string, line: nat, endLine: nat,
                       start: nat, end: nat, children: seq<Node>)

  datatype Class = Comment | Call | Ident | Num | Str | Op | Other

  /** Where a guard without a condition or test field keeps its condition. */
  datatype Fallback = Nowhere | InValue | InRange | SecondNamed

  datatype Kinds = Kinds(classOf: (string, string) -> Class, guardOf: string -> Option<string>,
                         fallbackOf: string -> Fallback, isForClause: string -> bool)

  function ClassOf(t: Node, k: Kinds): Class {
    k.classOf(t.kind, t.text)
  }

  // ----- children -----

  /** The first child, from the i-th on, that has the field. */
  function FieldFrom(t: Node, i: nat, f: Field): Option<Node>
    requires i <= |t.children|
    decreases |t.children| - i
  {
    if i == |t.children| then None
    else if t.children[i].field == f then Some(t.children[i])
    else FieldFrom(t, i + 1, f)
  }

  function Child(t: Node, f: Field): (c: Option<Node>)
    ensures c.Some? ==> c.value in t.children && c.value.field == f
  {
    ChildIsChild(t, 0, f);
    FieldFrom(t, 0, f)
  }

  lemma {:induction false} ChildIsChild(t: Node, i: nat, f: Field)
    requires i <= |t.children|
    ensures FieldFrom(t, i, f).Some? ==> FieldFrom(t, i, f).value in t.children && FieldFrom(t, i, f).value.field == f
    decreases |t.children| - i
  {
    if i < |t.children| {
      ChildIsChild(t, i + 1, f);
    }
  }

  // ----- names -----

  function IdentChar(): char -> bool {
    c => 'a' <= c <= 'z' || 'A' <= c <= 'Z' || '0' <= c <= '9' || c == '_'
  }

  function LastOf(runs: seq<string>): string {
    if runs == [] then "" else runs[|runs| - 1]
  }

  /** The last identifier-like run of a text. */
  function LastIdent(text: string): string {
    LastOf(Runs(text, IdentChar()))
  }

  lemma {:induction false} LastOfSnoc(runs: seq<string>, current: string)
    ensures LastOf(runs + When(current != "", current)) == if current != "" then current else LastOf(runs)
  {
    assert runs + [] == runs;
  }

  method FindLastIdent(text: string) returns (last: string)
    ensures last == LastIdent(text)
  {
    last := "";
    var current := "";
    for i := 0 to |text|
      invariant current == OpenRun(text[..i], IdentChar())
      invariant last == LastOf(ClosedRuns(text[..i], IdentChar()))
    {
      var ch := text[i];
      assert Front(text[..i + 1]) == text[..i];
      LastOfSnoc(ClosedRuns(text[..i], IdentChar()), current);
      if IdentChar()(ch) {
        current := current + [ch];
      } else if current != "" {
        last := current;
        current := "";
      }
    }
    assert text[..|text|] == text;
    LastOfSnoc(ClosedRuns(text, IdentChar()), current);
    if current != "" {
      last := current;
    }
  }

  /** Qualifiers do not matter: whatever stands before it, a name at the end of the text is its last
      identifier if something else separates it. */
  lemma {:induction false} LastSegment(qualifier: string, gap: string, name: string, rest: string)
    requires AllWord(name, IdentChar()) && name != ""
    requires NoWord(gap, IdentChar()) && gap != "" && NoWord(rest, IdentChar())
    ensures LastIdent(qualifier + gap + name + rest) == name
  {
    RunsOfGap(qualifier, gap, IdentChar());
    RunThenGap(qualifier + gap, name, rest, IdentChar());
  }

  function CalleeText(t: Node): string {
    if Child(t, Function).Some? then Child(t, Function).value.text
    else if Child(t, Name).Some? then Child(t, Name).value.text
    else ""
  }

  /** First identifier in a subtree, in source order, not looking into unnamed children. */
  function FirstIdent(t: Node, k: Kinds): Option<string>
    decreases t, |t.children| + 1
  {
    if t.named && ClassOf(t, k) == Ident then Some(t.text) else FirstIdentFrom(t, 0, k)
  }

  function FirstIdentFrom(t: Node, i: nat, k: Kinds): Option<string>
    requires i <= |t.children|
    decreases t, |t.children| - i
  {
    if i == |t.children| then None
    else
      var found := if t.children[i].named then FirstIdent(t.children[i], k) else None;
      if found.Some? then found else FirstIdentFrom(t, i + 1, k)
  }

  function OrEmpty(name: Option<string>): string {
    if name.Some? then name.value else ""
  }

  /** One name for each named child of an argument list. */
  function ArgNames(args: seq<Node>, k: Kinds): seq<string> {
    if args == [] then []
    else
      var last := args[|args| - 1];
      ArgNames(args[..|args| - 1], k) + When(last.named, OrEmpty(FirstIdent(last, k)))
  }

  // ----- operators -----

  function Punctuation(t: Node, i: nat): string
    requires i <= |t.children|
    decreases |t.children| - i
  {
    if i == |t.children| then ""
    else (if t.children[i].named then "" else t.children[i].text) + Punctuation(t, i + 1)
  }

  function OperatorText(t: Node): string {
    if Child(t, Operator).Some? then Child(t, Operator).value.text else Punctuation(t, 0)
  }

  // ----- conditions -----

  function NamedChildren(children: seq<Node>): seq<Node> {
    if children == [] then []
    else
      var last := children[|children| - 1];
      NamedChildren(children[..|children| - 1]) + When(last.named, last)
  }

  /** Condition of the first for clause that has one. */
  function ClauseCondition(children: seq<Node>, k: Kinds): Option<Node> {
    if children == [] then None
    else if k.isForClause(children[0].kind) && Child(children[0], Condition).Some? then Child(children[0], Condition)
    else ClauseCondition(children[1..], k)
  }

  function GuardCondition(t: Node, k: Kinds): Option<Node> {
    if Child(t, Condition).Some? then Child(t, Condition)
    else if Child(t, Test).Some? then Child(t, Test)
    else match k.fallbackOf(t.kind)
      case InValue => Child(t, Value)
      case InRange =>
        if Child(t, Value).Some? then Child(t, Value)
        else if Child(t, Right).Some? then Child(t, Right)
        else ClauseCondition(t.children, k)
      case SecondNamed =>
        var named := NamedChildren(t.children);
        if |named| > 1 then Some(named[1]) else None
      case Nowhere => None
  }

  /** Identifiers of a condition, outside comments. */
  function CondVars(t: Node, k: Kinds): set<string>
    decreases t, |t.children| + 1
  {
    if !t.named || ClassOf(t, k) == Comment then {}
    else if ClassOf(t, k) == Ident then {t.text}
    else CondVarsFrom(t, 0, k)
  }

  function CondVarsFrom(t: Node, i: nat, k: Kinds): set<string>
    requires i <= |t.children|
    decreases t, |t.children| - i
  {
    if i == |t.children| then {} else CondVars(t.children[i], k) + CondVarsFrom(t, i + 1, k)
  }

  // ----- what the walk records -----

  datatype CallInfo = CallInfo(args: seq<string>, callee: string, line: nat)

  datatype GuardInfo = GuardInfo(kind: string, line: nat, vars: set<string>)

  datatype Event = Guard(guard: GuardInfo) | Called(call: CallInfo) | Use(name: string, line: nat) | Mark(token: string)

  function SpanOf(c: Option<Node>): seq<(nat, nat)> {
    if c.Some? then [(c.value.start, c.value.end)] else []
  }

  /** Byte ranges of the callee. */
  function Skips(t: Node): seq<(nat, nat)> {
    SpanOf(Child(t, Function)) + SpanOf(Child(t, Name)) + SpanOf(Child(t, Object))
  }

  predicate Skipped(t: Node, i: nat)
    requires i < |t.children|
  {
    (t.children[i].start, t.children[i].end) in Skips(t)
  }

  /** Children the walk enters from a node of this class. */
  predicate Entered(t: Node, i: nat, class_: Class)
    requires i < |t.children|
  {
    class_ == Call ==> t.children[i].named && !Skipped(t, i)
  }

  function CallOf(t: Node, k: Kinds): CallInfo {
    var args := if Child(t, Arguments).Some? then ArgNames(Child(t, Arguments).value.children, k) else [];
    CallInfo(args, LastIdent(CalleeText(t)), t.line)
  }

  function GuardOf(t: Node, k: Kinds): seq<Event> {
    match k.guardOf(t.kind)
    case None => []
    case Some(kind) =>
      var condition := GuardCondition(t, k);
      [Guard(GuardInfo(kind, t.line, if condition.Some? then CondVars(condition.value, k) else {}))]
  }

  /** What a node itself records. */
  function OwnEvent(t: Node, k: Kinds): Event {
    match ClassOf(t, k)
    case Call => Called(CallOf(t, k))
    case Ident => Use(t.text, t.line)
    case Num => Mark("num")
    case Str => Mark("str")
    case Op => Mark(t.kind + ":" + OperatorText(t))
    case _ => Mark(t.kind)
  }

  predicate Inner(c: Class) {
    c == Call || c == Op || c == Other
  }

  /** Everything the walk records, in order. */
  function Events(t: Node, k: Kinds): seq<Event>
    decreases t, |t.children| + 1
  {
    if !t.named || ClassOf(t, k) == Comment then []
    else GuardOf(t, k) + [OwnEvent(t, k)] + if Inner(ClassOf(t, k)) then EventsFrom(t, 0, k) else []
  }

  function EventsFrom(t: Node, i: nat, k: Kinds): seq<Event>
    requires i <= |t.children|
    decreases t, |t.children| - i
  {
    if i == |t.children| then []
    else (if Entered(t, i, ClassOf(t, k)) then Events(t.children[i], k) else []) + EventsFrom(t, i + 1, k)
  }

  // ----- stack traversals -----

  function Size(t: Node): nat
    decreases t, |t.children| + 1
  {
    1 + SizeFrom(t, 0)
  }

  function SizeFrom(t: Node, i: nat): nat
    requires i <= |t.children|
    decreases t, |t.children| - i
  {
    if i == |t.children| then 0 else Size(t.children[i]) + SizeFrom(t, i + 1)
  }

  function Total(stack: seq<Node>): nat {
    if stack == [] then 0 else Total(stack[..|stack| - 1]) + Size(stack[|stack| - 1])
  }

  /** Names on the stack. */
  function StackVars(stack: seq<Node>, k: Kinds): set<string> {
    if stack == [] then {} else StackVars(stack[..|stack| - 1], k) + CondVars(stack[|stack| - 1], k)
  }

  lemma {:induction false} PushOne(stack: seq<Node>, t: Node, k: Kinds)
    ensures Total(stack + [t]) == Total(stack) + Size(t)
    ensures StackVars(stack + [t], k) == StackVars(stack, k) + CondVars(t, k)
  {
    assert (stack + [t])[..|stack|] == stack;
  }

  method PushChildren(stack: seq<Node>, t: Node, ghost k: Kinds) returns (stack': seq<Node>)
    ensures Total(stack') == Total(stack) + SizeFrom(t, 0)
    ensures StackVars(stack', k) == StackVars(stack, k) + CondVarsFrom(t, 0, k)
  {
    stack' := stack;
    for i := 0 to |t.children|
      invariant Total(stack') + SizeFrom(t, i) == Total(stack) + SizeFrom(t, 0)
      invariant StackVars(stack', k) + CondVarsFrom(t, i, k) == StackVars(stack, k) + CondVarsFrom(t, 0, k)
    {
      PushOne(stack', t.children[i], k);
      stack' := stack' + [t.children[i]];
    }
  }

  /** The explicit stack visits nodes in another order, but finds the same names. */
  method CollectConditionVars(root: Node, k: Kinds) returns (vars: set<string>)
    ensures vars == CondVars(root, k)
  {
    vars := {};
    var stack := [root];
    PushOne([], root, k);
    assert [] + [root] == stack;
    while stack != []
      invariant vars + StackVars(stack, k) == CondVars(root, k)
      decreases Total(stack)
    {
      var next := stack[|stack| - 1];
      stack := stack[..|stack| - 1];
      if !next.named || ClassOf(next, k) == Comment {
        continue;
      }
      if ClassOf(next, k) == Ident {
        vars := vars + {next.text};
        continue;
      }
      stack := PushChildren(stack, next, k);
    }
  }

  // ----- counting -----

  /** Named nodes of a tree. */
  function NamedNodes(t: Node): nat
    decreases t, |t.children| + 1
  {
    (if t.named then 1 else 0) + NamedNodesFrom(t, 0)
  }

  function NamedNodesFrom(t: Node, i: nat): nat
    requires i <= |t.children|
    decreases t, |t.children| - i
  {
    if i == |t.children| then 0 else NamedNodes(t.children[i]) + NamedNodesFrom(t, i + 1)
  }

  function StackCount(stack: seq<Node>): nat {
    if stack == [] then 0 else StackCount(stack[..|stack| - 1]) + NamedNodes(stack[|stack| - 1])
  }

  method PushAll(stack: seq<Node>, t: Node) returns (stack': seq<Node>)
    ensures Total(stack') == Total(stack) + SizeFrom(t, 0)
    ensures StackCount(stack') == StackCount(stack) + NamedNodesFrom(t, 0)
  {
    stack' := stack;
    for i := 0 to |t.children|
      invariant Total(stack') + SizeFrom(t, i) == Total(stack) + SizeFrom(t, 0)
      invariant StackCount(stack') + NamedNodesFrom(t, i) == StackCount(stack) + NamedNodesFrom(t, 0)
    {
      assert (stack' + [t.children[i]])[..|stack'|] == stack';
      stack' := stack' + [t.children[i]];
    }
  }

  method CountNamedNodes(root: Node) returns (count: nat)
    ensures count == NamedNodes(root)
  {
    count := 0;
    var stack := [root];
    assert stack[..0] == [];
    while stack != []
      invariant count + StackCount(stack) == NamedNodes(root)
      decreases Total(stack)
    {
      var next := stack[|stack| - 1];
      stack := stack[..|stack| - 1];
      if next.named {
        count := count + 1;
      }
      stack := PushAll(stack, next);
    }
  }

  /** The first identifier when the top of the stack is searched first. */
  function StackFirst(stack: seq<Node>, k: Kinds): Option<string> {
    if stack == [] then None
    else
      var found := FirstIdent(stack[|stack| - 1], k);
      if found.Some? then found else StackFirst(stack[..|stack| - 1], k)
  }

  function OrElse(found: Option<string>, other: Option<string>): Option<string> {
    if found.Some? then found else other
  }

  lemma {:induction false} PushedFirst(stack: seq<Node>, t: Node, k: Kinds)
    ensures StackFirst(stack + [t], k) == OrElse(FirstIdent(t, k), StackFirst(stack, k))
  {
    assert (stack + [t])[..|stack|] == stack;
  }

  /** Pushes the named children, last one first. */
  method PushNamed(stack: seq<Node>, t: Node, ghost k: Kinds) returns (stack': seq<Node>)
    ensures Total(stack') <= Total(stack) + SizeFrom(t, 0)
    ensures StackFirst(stack', k) == OrElse(FirstIdentFrom(t, 0, k), StackFirst(stack, k))
  {
    stack' := stack;
    var i: nat := |t.children|;
    while i > 0
      invariant i <= |t.children|
      invariant Total(stack') <= Total(stack) + SizeFrom(t, i)
      invariant StackFirst(stack', k) == OrElse(FirstIdentFrom(t, i, k), StackFirst(stack, k))
    {
      i := i - 1;
      if t.children[i].named {
        PushOne(stack', t.children[i], k);
        PushedFirst(stack', t.children[i], k);
        stack' := stack' + [t.children[i]];
      }
    }
  }

  method FirstIdentText(root: Node, k: Kinds) returns (name: string)
    ensures name == OrEmpty(FirstIdent(root, k))
  {
    var stack := [root];
    PushOne([], root, k);
    assert [] + [root] == stack && stack[..0] == [];
    while stack != []
      invariant StackFirst(stack, k) == FirstIdent(root, k)
      decreases Total(stack)
    {
      var next := stack[|stack| - 1];
      stack := stack[..|stack| - 1];
      if next.named && ClassOf(next, k) == Ident {
        return next.text;
      }
      stack := PushNamed(stack, next, k);
    }
    name := "";
  }

  method ArgumentNames(args: seq<Node>, k: Kinds) returns (names: seq<string>)
    ensures names == ArgNames(args, k)
  {
    names := [];
    for i := 0 to |args|
      invariant names == ArgNames(args[..i], k)
    {
      assert args[..i + 1][..i] == args[..i];
      if args[i].named {
        var name := FirstIdentText(args[i], k);
        names := names + [name];
      }
    }
    assert args[..|args|] == args;
  }
}
