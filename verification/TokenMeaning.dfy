/** What the tokens of the walk in code-graph/src/fingerprint.rs tell apart, which children they are read off, and a
function walked from end to end. */
module TokenMeaning {
  import opened WordRuns
  import opened SyntaxTree
  import opened Fingerprint

  // ----- tokens as names of classes, kinds, operators and callees -----

  /** Kinds as grammars have them: without colons, and not the words for identifiers and literals. */
  predicate GrammarKind(kind: string) {
    ':' !in kind && kind != "id" && kind != "num" && kind != "str"
  }

  /** Two nodes the walk cannot tell apart by their own tokens: calls of the same name, identifiers, numbers, strings,
      operators of the same kind and text, others of the same kind. */
  ghost predicate Indistinct(t: Node, u: Node, k: Kinds) {
    && ClassOf(t, k) == ClassOf(u, k)
    && match ClassOf(t, k)
       case Call => LastIdent(CalleeText(t)) == LastIdent(CalleeText(u))
       case Ident => true
       case Num => true
       case Str => true
       case Op => t.kind == u.kind && OperatorText(t) == OperatorText(u)
       case _ => t.kind == u.kind
  }

  lemma {:induction false} ColonSplits(a: string, b: string, c: string, d: string)
    requires ':' !in a && ':' !in c && a + ":" + b == c + ":" + d
    ensures a == c && b == d
  {
    var s := a + ":" + b;
    assert s[|a|] == ':' && forall i :: 0 <= i < |a| ==> s[i] == a[i] && a[i] in a;
    assert s[|c|] == ':' && forall i :: 0 <= i < |c| ==> s[i] == c[i] && c[i] in c;
    assert |a| == |c|;
    assert a == s[..|a|] && c == s[..|c|] && b == s[|a| + 1..] && d == s[|c| + 1..];
  }

  /** The token is plain for every class but calls and operators, whose tokens have a colon. */
  lemma {:induction false} TokenForm(t: Node, k: Kinds)
    ensures TokenOf(OwnEvent(t, k)) ==
            match ClassOf(t, k)
            case Call => ["call" + ":" + LastIdent(CalleeText(t))]
            case Ident => ["id"]
            case Num => ["num"]
            case Str => ["str"]
            case Op => [t.kind + ":" + OperatorText(t)]
            case _ => [t.kind]
  {
    if ClassOf(t, k) == Call {
      assert "call" + ":" == CALL;
    }
  }

  predicate HasColon(c: Class) {
    c == Call || c == Op
  }

  lemma {:induction false} ColonToken(t: Node, k: Kinds)
    requires GrammarKind(t.kind)
    ensures var token := TokenOf(OwnEvent(t, k))[0]; ':' in token <==> HasColon(ClassOf(t, k))
  {
    TokenForm(t, k);
    if ClassOf(t, k) == Call {
      ColonInside("call", LastIdent(CalleeText(t)));
    } else if ClassOf(t, k) == Op {
      ColonInside(t.kind, OperatorText(t));
    }
  }

  lemma {:induction false} ColonInside(a: string, b: string)
    ensures ':' in a + ":" + b
  {
    assert (a + ":" + b)[|a|] == ':';
  }

  /** The name before the colon. */
  function Before(t: Node, k: Kinds): string {
    if ClassOf(t, k) == Call then "call" else t.kind
  }

  function Behind(t: Node, k: Kinds): string {
    if ClassOf(t, k) == Call then LastIdent(CalleeText(t)) else OperatorText(t)
  }

  lemma {:induction false} ColonTokensTellApart(t: Node, u: Node, k: Kinds)
    requires GrammarKind(t.kind) && GrammarKind(u.kind) && CallIsNoOperator(k)
    requires HasColon(ClassOf(t, k)) && HasColon(ClassOf(u, k))
    ensures TokenOf(OwnEvent(t, k)) == TokenOf(OwnEvent(u, k)) <==> Indistinct(t, u, k)
  {
    TokenForm(t, k);
    TokenForm(u, k);
    assert ':' !in "call";
    if TokenOf(OwnEvent(t, k)) == TokenOf(OwnEvent(u, k)) {
      assert TokenOf(OwnEvent(t, k))[0] == Before(t, k) + ":" + Behind(t, k);
      assert TokenOf(OwnEvent(u, k))[0] == Before(u, k) + ":" + Behind(u, k);
      ColonSplits(Before(t, k), Behind(t, k), Before(u, k), Behind(u, k));
      assert ClassOf(t, k) == Op ==> t.kind != "call" by {
        assert t.kind == "call" ==> k.classOf("call", t.text) != Op;
      }
      assert ClassOf(u, k) == Op ==> u.kind != "call" by {
        assert u.kind == "call" ==> k.classOf("call", u.text) != Op;
      }
    }
  }

  lemma {:induction false} PlainTokensTellApart(t: Node, u: Node, k: Kinds)
    requires GrammarKind(t.kind) && GrammarKind(u.kind)
    requires ClassOf(t, k) != Comment && ClassOf(u, k) != Comment
    requires !HasColon(ClassOf(t, k)) && !HasColon(ClassOf(u, k))
    ensures TokenOf(OwnEvent(t, k)) == TokenOf(OwnEvent(u, k)) <==> Indistinct(t, u, k)
  {
    TokenForm(t, k);
    TokenForm(u, k);
    assert "id"[0] == 'i' && "num"[0] == 'n' && "str"[0] == 's';
    var a, b := TokenOf(OwnEvent(t, k)), TokenOf(OwnEvent(u, k));
    assert a == b <==> a[0] == b[0];
  }

  /** Two nodes have the same token exactly when they are calls of the same name, both identifiers, both numbers, both
      strings, operators of the same kind and text, or others of the same kind. */
  lemma {:induction false} TokensTellApart(t: Node, u: Node, k: Kinds)
    requires GrammarKind(t.kind) && GrammarKind(u.kind) && CallIsNoOperator(k)
    requires ClassOf(t, k) != Comment && ClassOf(u, k) != Comment
    ensures TokenOf(OwnEvent(t, k)) == TokenOf(OwnEvent(u, k)) <==> Indistinct(t, u, k)
  {
    ColonToken(t, k);
    ColonToken(u, k);
    if HasColon(ClassOf(t, k)) && HasColon(ClassOf(u, k)) {
      ColonTokensTellApart(t, u, k);
    } else if !HasColon(ClassOf(t, k)) && !HasColon(ClassOf(u, k)) {
      PlainTokensTellApart(t, u, k);
    }
  }

  // ----- the children that operators, callees and conditions are read off -----

  /** The first child with the field is the i-th one. */
  ghost predicate FirstWith(t: Node, f: Field, i: int) {
    0 <= i < |t.children| && t.children[i].field == f && forall j :: 0 <= j < i ==> t.children[j].field != f
  }

  ghost predicate NoneWith(t: Node, f: Field) {
    forall j :: 0 <= j < |t.children| ==> t.children[j].field != f
  }

  lemma {:induction false} FieldExactly(t: Node, f: Field, i: nat, from: nat)
    requires from <= |t.children|
    ensures FirstWith(t, f, i) && from <= i ==> FieldFrom(t, from, f) == Some(t.children[i])
    ensures NoneWith(t, f) ==> FieldFrom(t, from, f) == None
    decreases |t.children| - from
  {
    if from < |t.children| {
      FieldExactly(t, f, i, from + 1);
    }
  }

  lemma {:induction false} ChildExactly(t: Node, f: Field, i: nat)
    ensures FirstWith(t, f, i) ==> Child(t, f) == Some(t.children[i])
    ensures NoneWith(t, f) ==> Child(t, f) == None
  {
    FieldExactly(t, f, i, 0);
  }

  /** Signs are the unnamed children. */
  lemma {:induction false} OneSign(t: Node, i: nat, from: nat)
    requires from <= |t.children| && i < |t.children|
    requires forall j :: 0 <= j < |t.children| ==> (t.children[j].named <==> j != i)
    ensures Punctuation(t, from) == if from <= i then t.children[i].text else ""
    decreases |t.children| - from
  {
    if from < |t.children| {
      OneSign(t, i, from + 1);
    }
  }

  /** Several signs make up one operator, in their order. */
  lemma {:induction false} TwoSigns(t: Node)
    requires |t.children| == 2 && !t.children[0].named && !t.children[1].named
    ensures Punctuation(t, 0) == t.children[0].text + t.children[1].text
  {
    assert Punctuation(t, 2) == "" && Punctuation(t, 1) == t.children[1].text + "";
  }

  /** An operator is the text of the operator field, whatever else there is, or else of the one unnamed child. */
  lemma {:induction false} OperatorExactly(t: Node, i: nat)
    requires i < |t.children|
    ensures FirstWith(t, Operator, i) ==> OperatorText(t) == t.children[i].text
    ensures NoneWith(t, Operator) && (forall j :: 0 <= j < |t.children| ==> (t.children[j].named <==> j != i)) ==>
              OperatorText(t) == t.children[i].text
  {
    ChildExactly(t, Operator, i);
    if NoneWith(t, Operator) && forall j :: 0 <= j < |t.children| ==> (t.children[j].named <==> j != i) {
      OneSign(t, i, 0);
    }
  }

  /** The callee is the function field, without one the name field, and otherwise empty. */
  lemma {:induction false} CalleeExactly(t: Node, i: nat)
    ensures FirstWith(t, Function, i) ==> CalleeText(t) == t.children[i].text
    ensures NoneWith(t, Function) && FirstWith(t, Name, i) ==> CalleeText(t) == t.children[i].text
    ensures NoneWith(t, Function) && NoneWith(t, Name) ==> CalleeText(t) == ""
  {
    ChildExactly(t, Function, i);
    ChildExactly(t, Name, i);
  }

  /** The condition of a guard: the condition field, without one the test field, without both what the kind of the
      guard says. */
  lemma {:induction false} ConditionExactly(t: Node, k: Kinds, i: nat)
    ensures FirstWith(t, Condition, i) ==> GuardCondition(t, k) == Some(t.children[i])
    ensures NoneWith(t, Condition) && FirstWith(t, Test, i) ==> GuardCondition(t, k) == Some(t.children[i])
    ensures NoneWith(t, Condition) && NoneWith(t, Test) && k.fallbackOf(t.kind) == InValue && FirstWith(t, Value, i) ==>
              GuardCondition(t, k) == Some(t.children[i])
    ensures NoneWith(t, Condition) && NoneWith(t, Test) && k.fallbackOf(t.kind) == InRange && FirstWith(t, Value, i) ==>
              GuardCondition(t, k) == Some(t.children[i])
    ensures NoneWith(t, Condition) && NoneWith(t, Test) && k.fallbackOf(t.kind) == InRange && NoneWith(t, Value)
            && FirstWith(t, Right, i) ==>
              GuardCondition(t, k) == Some(t.children[i])
    ensures NoneWith(t, Condition) && NoneWith(t, Test) && k.fallbackOf(t.kind) == Nowhere ==>
              GuardCondition(t, k) == None
  {
    ChildExactly(t, Condition, i);
    ChildExactly(t, Test, i);
    ChildExactly(t, Value, i);
    ChildExactly(t, Right, i);
  }

  ghost predicate HasClause(c: Node, k: Kinds) {
    k.isForClause(c.kind) && Child(c, Condition).Some?
  }

  lemma {:induction false} FirstClause(children: seq<Node>, k: Kinds, i: nat)
    requires i < |children| && HasClause(children[i], k) && forall j :: 0 <= j < i ==> !HasClause(children[j], k)
    ensures ClauseCondition(children, k) == Child(children[i], Condition)
  {
    if i > 0 {
      FirstClause(children[1..], k, i - 1);
    }
  }

  /** For loops without fields of their own keep it in the first for clause that has one. */
  lemma {:induction false} ClauseExactly(t: Node, k: Kinds, i: nat)
    requires NoneWith(t, Condition) && NoneWith(t, Test) && NoneWith(t, Value) && NoneWith(t, Right)
    requires k.fallbackOf(t.kind) == InRange && i < |t.children| && HasClause(t.children[i], k)
    requires forall j :: 0 <= j < i ==> !HasClause(t.children[j], k)
    ensures GuardCondition(t, k) == Child(t.children[i], Condition)
  {
    ChildExactly(t, Condition, 0);
    ChildExactly(t, Test, 0);
    ChildExactly(t, Value, 0);
    ChildExactly(t, Right, 0);
    FirstClause(t.children, k, i);
  }

  // ----- one function walked from end to end -----

  /** `if a < 1 { o.Get_1(b) }` over three lines: the guard with its condition, and in the body a call with a callee of
      its own and one argument. */
  datatype Example = Example(a: Node, sign: Node, one: Node, condition: Node, callee: Node, b: Node, list: Node,
                             call: Node, body: Node, root: Node)

  predicate Spans(t: Node, line: nat, start: nat, end: nat) {
    t.line == line && t.start == start && t.end == end
  }

  ghost predicate Shaped(x: Example, k: Kinds) {
    && x.a.named && ClassOf(x.a, k) == Ident && x.a.text == "a" && x.a.children == [] && x.a.field == Unasked
    && Spans(x.a, 1, 3, 4)
    && !x.sign.named && x.sign.text == "<" && x.sign.field == Operator && x.sign.children == []
    && x.one.named && ClassOf(x.one, k) == Num && x.one.children == [] && x.one.field == Unasked
    && x.condition.named && ClassOf(x.condition, k) == Op && x.condition.field == Condition
    && x.condition.children == [x.a, x.sign, x.one] && Spans(x.condition, 1, 3, 8)
    && x.callee.named && x.callee.text == "o.Get_1" && x.callee.field == Function && Spans(x.callee, 2, 11, 14)
    && x.b.named && ClassOf(x.b, k) == Ident && x.b.text == "b" && x.b.children == [] && x.b.field == Unasked
    && Spans(x.b, 2, 15, 16)
    && x.list.named && ClassOf(x.list, k) == Other && x.list.field == Arguments && x.list.children == [x.b]
    && Spans(x.list, 2, 14, 17)
    && x.call.named && ClassOf(x.call, k) == Call && x.call.field == Unasked && x.call.children == [x.callee, x.list]
    && Spans(x.call, 2, 11, 17)
    && x.body.named && ClassOf(x.body, k) == Other && x.body.field == Unasked && x.body.children == [x.call]
    && x.root.named && ClassOf(x.root, k) == Other && x.root.children == [x.condition, x.body]
    && Spans(x.root, 1, 0, 19)
  }

  ghost predicate Guarding(x: Example, k: Kinds) {
    && k.guardOf(x.root.kind) == Some("if") && k.guardOf(x.condition.kind) == None && k.guardOf(x.body.kind) == None
    && k.guardOf(x.call.kind) == None && k.guardOf(x.list.kind) == None && k.guardOf(x.a.kind) == None
    && k.guardOf(x.b.kind) == None && k.guardOf(x.one.kind) == None
  }

  lemma {:induction false} LeafEvents(t: Node, k: Kinds)
    requires t.named && t.children == [] && k.guardOf(t.kind) == None && ClassOf(t, k) != Comment
    ensures Events(t, k) == [OwnEvent(t, k)]
  {
  }

  lemma {:induction false} ConditionEvents(x: Example, k: Kinds)
    requires Shaped(x, k) && Guarding(x, k)
    ensures Events(x.condition, k) == [Mark(x.condition.kind + ":" + "<"), Use("a", 1), Mark("num")]
    ensures CondVars(x.condition, k) == {"a"}
  {
    var t := x.condition;
    LeafEvents(x.a, k);
    LeafEvents(x.one, k);
    assert FirstWith(t, Operator, 1);
    OperatorExactly(t, 1);
    assert EventsFrom(t, 3, k) == [] && EventsFrom(t, 2, k) == [Mark("num")] == EventsFrom(t, 1, k);
    assert EventsFrom(t, 0, k) == [Use("a", 1), Mark("num")];
    assert CondVarsFrom(x.one, 0, k) == {} && CondVars(x.one, k) == {} && CondVars(x.sign, k) == {};
    assert CondVarsFrom(t, 3, k) == {} && CondVarsFrom(t, 2, k) == {} == CondVarsFrom(t, 1, k);
    assert CondVarsFrom(t, 0, k) == {"a"};
  }

  lemma {:induction false} CalledName(text: string)
    requires text == "o.Get_1"
    ensures LastIdent(text) == "Get_1"
  {
    assert text == "o" + "." + "Get_1" + "";
    LastSegment("o", ".", "Get_1", "");
  }

  lemma {:induction false} ListEvents(x: Example, k: Kinds)
    requires Shaped(x, k) && Guarding(x, k)
    ensures Events(x.list, k) == [Mark(x.list.kind), Use("b", 2)]
    ensures ArgNames(x.list.children, k) == ["b"]
  {
    LeafEvents(x.b, k);
    assert EventsFrom(x.list, 1, k) == [] && EventsFrom(x.list, 0, k) == [Use("b", 2)];
    assert [x.b][..0] == [] && FirstIdent(x.b, k) == Some("b");
  }

  /** The call of the example records its callee and its argument, and skips nothing but the callee. */
  lemma {:induction false} CallParts(x: Example, k: Kinds)
    requires Shaped(x, k) && Guarding(x, k)
    ensures Child(x.call, Arguments) == Some(x.list) && CalleeText(x.call) == "o.Get_1"
    ensures Skips(x.call) == [(11, 14)]
  {
    var t := x.call;
    assert FirstWith(t, Function, 0) && FirstWith(t, Arguments, 1) && NoneWith(t, Name) && NoneWith(t, Object);
    CalleeExactly(t, 0);
    ChildExactly(t, Function, 0);
    ChildExactly(t, Arguments, 1);
    ChildExactly(t, Name, 0);
    ChildExactly(t, Object, 0);
  }

  lemma {:induction false} CallEvents(x: Example, k: Kinds)
    requires Shaped(x, k) && Guarding(x, k)
    ensures Events(x.call, k) == [Called(CallInfo(["b"], "Get_1", 2)), Mark(x.list.kind), Use("b", 2)]
  {
    var t := x.call;
    ListEvents(x, k);
    CalledName("o.Get_1");
    CallParts(x, k);
    assert !Entered(t, 0, Call) && Entered(t, 1, Call);
    assert EventsFrom(t, 2, k) == [] && EventsFrom(t, 1, k) == Events(x.list, k);
    assert EventsFrom(t, 0, k) == Events(x.list, k);
  }

  lemma {:induction false} BodyEvents(x: Example, k: Kinds)
    requires Shaped(x, k) && Guarding(x, k)
    ensures Events(x.body, k) == [Mark(x.body.kind)] + Events(x.call, k)
  {
    assert EventsFrom(x.body, 1, k) == [] && EventsFrom(x.body, 0, k) == Events(x.call, k);
  }

  lemma {:induction false} RootGuard(x: Example, k: Kinds)
    requires Shaped(x, k) && Guarding(x, k)
    ensures GuardOf(x.root, k) == [Guard(GuardInfo("if", 1, {"a"}))]
  {
    ConditionEvents(x, k);
    assert FirstWith(x.root, Condition, 0);
    ConditionExactly(x.root, k, 0);
  }

  lemma {:induction false} TwoChildren(t: Node, k: Kinds)
    requires t.named && ClassOf(t, k) == Other && |t.children| == 2
    ensures Events(t, k) == GuardOf(t, k) + [Mark(t.kind)] + (Events(t.children[0], k) + Events(t.children[1], k))
  {
    assert EventsFrom(t, 2, k) == [] && EventsFrom(t, 1, k) == Events(t.children[1], k);
  }

  lemma {:induction false} RootEvents(x: Example, k: Kinds)
    requires Shaped(x, k) && Guarding(x, k)
    ensures Events(x.root, k) ==
            [Guard(GuardInfo("if", 1, {"a"})), Mark(x.root.kind)] + (Events(x.condition, k) + Events(x.body, k))
  {
    RootGuard(x, k);
    TwoChildren(x.root, k);
  }

  lemma {:induction false} ThreeParts(root: seq<Event>, a: Event, b: Event, c: Event, body: Event, d: Event, e: Event,
                                      f: Event)
    requires |root| == 2
    ensures root + ([a, b, c] + ([body] + [d, e, f])) == [root[0], root[1], a, b, c] + [body, d, e, f]
  {
  }

  /** The guard with its variable, the tokens of the condition in order, then those of the body; the callee itself is
      not walked. */
  lemma {:induction false} ExampleEvents(x: Example, k: Kinds)
    requires Shaped(x, k) && Guarding(x, k)
    ensures Events(x.root, k) ==
            [Guard(GuardInfo("if", 1, {"a"})), Mark(x.root.kind), Mark(x.condition.kind + ":" + "<"), Use("a", 1),
             Mark("num")] +
            [Mark(x.body.kind), Called(CallInfo(["b"], "Get_1", 2)), Mark(x.list.kind), Use("b", 2)]
  {
    RootEvents(x, k);
    ConditionEvents(x, k);
    CallEvents(x, k);
    BodyEvents(x, k);
    ThreeParts([Guard(GuardInfo("if", 1, {"a"})), Mark(x.root.kind)], Mark(x.condition.kind + ":" + "<"), Use("a", 1),
               Mark("num"), Mark(x.body.kind), Called(CallInfo(["b"], "Get_1", 2)), Mark(x.list.kind), Use("b", 2));
  }

  /** The sign is not named, so nine of the ten nodes count. */
  lemma {:induction false} ExampleCount(x: Example, k: Kinds)
    requires Shaped(x, k) && x.callee.children == []
    ensures NamedNodes(x.root) == 9
  {
    assert NamedNodes(x.a) == 1 && NamedNodes(x.sign) == 0 && NamedNodes(x.one) == 1;
    assert NamedNodes(x.callee) == 1 && NamedNodes(x.b) == 1;
    CountThree(x.condition);
    CountOne(x.list);
    CountTwo(x.call);
    CountOne(x.body);
    CountTwo(x.root);
  }

  lemma {:induction false} CountOne(t: Node)
    requires t.named && |t.children| == 1
    ensures NamedNodes(t) == 1 + NamedNodes(t.children[0])
  {
    assert NamedNodesFrom(t, 1) == 0;
  }

  lemma {:induction false} CountTwo(t: Node)
    requires t.named && |t.children| == 2
    ensures NamedNodes(t) == 1 + NamedNodes(t.children[0]) + NamedNodes(t.children[1])
  {
    assert NamedNodesFrom(t, 2) == 0 && NamedNodesFrom(t, 1) == NamedNodes(t.children[1]);
  }

  lemma {:induction false} CountThree(t: Node)
    requires t.named && |t.children| == 3
    ensures NamedNodes(t) == 1 + NamedNodes(t.children[0]) + NamedNodes(t.children[1]) + NamedNodes(t.children[2])
  {
    assert NamedNodesFrom(t, 3) == 0 && NamedNodesFrom(t, 2) == NamedNodes(t.children[2]);
    assert NamedNodesFrom(t, 1) == NamedNodes(t.children[1]) + NamedNodes(t.children[2]);
  }

  lemma {:induction false} RecordNext(s: Walked, events: seq<Event>, e: Event, all: seq<Event>)
    requires all == events + [e]
    ensures RecordAll(s, all) == Record(RecordAll(s, events), e)
  {
    assert all[..|all| - 1] == events;
  }

  lemma {:induction false} RecordFive(a: Event, b: Event, c: Event, d: Event, e: Event, s: Walked)
    ensures RecordAll(s, [a, b, c, d, e]) == Record(Record(Record(Record(Record(s, a), b), c), d), e)
  {
    RecordNext(s, [], a, [a]);
    RecordNext(s, [a], b, [a, b]);
    RecordNext(s, [a, b], c, [a, b, c]);
    RecordNext(s, [a, b, c], d, [a, b, c, d]);
    RecordNext(s, [a, b, c, d], e, [a, b, c, d, e]);
  }

  lemma {:induction false} RecordFour(a: Event, b: Event, c: Event, d: Event, s: Walked)
    ensures RecordAll(s, [a, b, c, d]) == Record(Record(Record(Record(s, a), b), c), d)
  {
    RecordNext(s, [], a, [a]);
    RecordNext(s, [a], b, [a, b]);
    RecordNext(s, [a, b], c, [a, b, c]);
    RecordNext(s, [a, b, c], d, [a, b, c, d]);
  }

  lemma {:induction false} FirstFive(g: GuardInfo, root: string, op: string, name: string, line: nat)
    ensures RecordAll(NOTHING, [Guard(g), Mark(root), Mark(op), Use(name, line), Mark("num")]) ==
            Walked([root, op, ID, "num"], [], [g], map[name := [line]])
  {
    RecordFive(Guard(g), Mark(root), Mark(op), Use(name, line), Mark("num"), NOTHING);
    var one := Record(Record(Record(NOTHING, Guard(g)), Mark(root)), Mark(op));
    assert one == Walked([root, op], [], [g], map[]);
    assert Lines(one.vars, name) + [line] == [line];
    assert Record(one, Use(name, line)) == Walked([root, op, ID], [], [g], map[name := [line]]);
  }

  lemma {:induction false} LastFour(s: Walked, body: string, c: CallInfo, list: string, name: string, line: nat)
    requires name !in s.vars
    ensures RecordAll(s, [Mark(body), Called(c), Mark(list), Use(name, line)]) ==
            s.(tokens := s.tokens + [body, CALL + c.callee, list, ID], calls := s.calls + [c],
               vars := s.vars[name := [line]])
  {
    RecordFour(Mark(body), Called(c), Mark(list), Use(name, line), s);
    var two := Record(Record(s, Mark(body)), Called(c));
    assert two == s.(tokens := s.tokens + [body, CALL + c.callee], calls := s.calls + [c]);
    assert Lines(s.vars, name) + [line] == [line];
    assert Record(two, Mark(list)) == two.(tokens := s.tokens + [body, CALL + c.callee, list]);
  }

  /** What the fingerprint of the example records. */
  lemma {:induction false} ExampleWalk(x: Example, k: Kinds)
    requires Shaped(x, k) && Guarding(x, k)
    ensures var w := RecordAll(NOTHING, Events(x.root, k));
            && w.tokens == [x.root.kind, x.condition.kind + ":" + "<", "id", "num", x.body.kind, "call:" + "Get_1",
                            x.list.kind, "id"]
            && w.calls == [CallInfo(["b"], "Get_1", 2)] && w.guards == [GuardInfo("if", 1, {"a"})]
            && w.vars == map["a" := [1], "b" := [2]]
  {
    var op := x.condition.kind + ":" + "<";
    var g, c := GuardInfo("if", 1, {"a"}), CallInfo(["b"], "Get_1", 2);
    var first := [Guard(g), Mark(x.root.kind), Mark(op), Use("a", 1), Mark("num")];
    var rest := [Mark(x.body.kind), Called(c), Mark(x.list.kind), Use("b", 2)];
    ExampleEvents(x, k);
    RecordBoth(NOTHING, first, rest);
    FirstFive(g, x.root.kind, op, "a", 1);
    LastFour(RecordAll(NOTHING, first), x.body.kind, c, x.list.kind, "b", 2);
  }
}
