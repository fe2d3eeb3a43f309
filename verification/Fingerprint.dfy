/** Model of `walk_function` (code-graph/src/fingerprint.rs): the accumulator filled by the walk, and what
its contents have to do with each other. */
module Fingerprint {
  import opened WordRuns
  import opened SyntaxTree

  type Vars = map<string, seq<nat>>

  /** What the walk has recorded so far. */
  datatype Walked = Walked(tokens: seq<string>, calls: seq<CallInfo>, guards: seq<GuardInfo>, vars: Vars)

  const NOTHING := Walked([], [], [], map[])

  function Lines(vars: Vars, name: string): seq<nat> {
    if name in vars then vars[name] else []
  }

  const CALL := "call:"
  const ID := "id"

  function TokenOf(e: Event): seq<string> {
    match e
    case Guard(_) => []
    case Called(call) => [CALL + call.callee]
    case Use(_, _) => [ID]
    case Mark(token) => [token]
  }

  function Record(s: Walked, e: Event): Walked {
    match e
    case Guard(guard) => s.(guards := s.guards + [guard])
    case Called(call) => s.(calls := s.calls + [call], tokens := s.tokens + TokenOf(e))
    case Use(name, line) =>
      s.(vars := s.vars[name := Lines(s.vars, name) + [line]], tokens := s.tokens + TokenOf(e))
    case Mark(_) => s.(tokens := s.tokens + TokenOf(e))
  }

  function RecordAll(s: Walked, events: seq<Event>): Walked {
    if events == [] then s else Record(RecordAll(s, events[..|events| - 1]), events[|events| - 1])
  }

  lemma {:induction false} RecordBoth(s: Walked, a: seq<Event>, b: seq<Event>)
    ensures RecordAll(s, a + b) == RecordAll(RecordAll(s, a), b)
  {
    if b == [] {
      assert a + b == a;
    } else {
      assert (a + b)[..|a + b| - 1] == a + b[..|b| - 1];
      RecordBoth(s, a, b[..|b| - 1]);
    }
  }

  lemma {:induction false} RecordOne(s: Walked, e: Event)
    ensures RecordAll(s, [e]) == Record(s, e)
  {
    assert [e][..0] == [];
  }

  /** What one child adds. */
  lemma {:induction false} NextChild(s: Walked, t: Node, i: nat, k: Kinds)
    requires i < |t.children|
    ensures RecordAll(s, EventsFrom(t, i, k)) ==
            RecordAll(if Entered(t, i, ClassOf(t, k)) then RecordAll(s, Events(t.children[i], k)) else s,
                      EventsFrom(t, i + 1, k))
  {
    if Entered(t, i, ClassOf(t, k)) {
      RecordBoth(s, Events(t.children[i], k), EventsFrom(t, i + 1, k));
    } else {
      assert [] + EventsFrom(t, i + 1, k) == EventsFrom(t, i + 1, k);
    }
  }

  // ----- the program -----

  class FnWalk {
    var tokens: seq<string>
    var calls: seq<CallInfo>
    var guards: seq<GuardInfo>
    var vars: Vars

    constructor ()
      ensures Contents() == NOTHING
    {
      tokens, calls, guards, vars := [], [], [], map[];
    }

    ghost function Contents(): Walked
      reads this
    {
      Walked(tokens, calls, guards, vars)
    }

    method RecordGuard(t: Node, k: Kinds)
      modifies this
      ensures Contents() == RecordAll(old(Contents()), GuardOf(t, k))
    {
      var kind := k.guardOf(t.kind);
      if kind.Some? {
        var found: set<string> := {};
        var condition := GuardCondition(t, k);
        if condition.Some? {
          found := CollectConditionVars(condition.value, k);
        }
        guards := guards + [GuardInfo(kind.value, t.line, found)];
        RecordOne(old(Contents()), GuardOf(t, k)[0]);
      }
    }

    method RecordCall(t: Node, k: Kinds)
      modifies this
      ensures Contents() == Record(old(Contents()), Called(CallOf(t, k)))
    {
      var callee := FindLastIdent(CalleeText(t));
      var args := [];
      if Child(t, Arguments).Some? {
        args := ArgumentNames(Child(t, Arguments).value.children, k);
      }
      calls := calls + [CallInfo(args, callee, t.line)];
      tokens := tokens + [CALL + callee];
    }

    /** What a node itself records. */
    method RecordOwn(t: Node, k: Kinds)
      modifies this
      ensures Contents() == Record(old(Contents()), OwnEvent(t, k))
    {
      match ClassOf(t, k) {
        case Call => RecordCall(t, k);
        case Ident =>
          tokens := tokens + [ID];
          vars := vars[t.text := Lines(vars, t.text) + [t.line]];
        case Num => tokens := tokens + ["num"];
        case Str => tokens := tokens + ["str"];
        case Op => tokens := tokens + [t.kind + ":" + OperatorText(t)];
        case _ => tokens := tokens + [t.kind];
      }
    }

    /** Enters every child of a node, except for the callee of a call. */
    method WalkChildren(t: Node, k: Kinds)
      modifies this
      ensures Contents() == RecordAll(old(Contents()), EventsFrom(t, 0, k))
      decreases t, 1
    {
      ghost var goal := RecordAll(Contents(), EventsFrom(t, 0, k));
      var skip := Skips(t);
      for i := 0 to |t.children|
        invariant goal == RecordAll(Contents(), EventsFrom(t, i, k))
      {
        var c := t.children[i];
        NextChild(Contents(), t, i, k);
        if ClassOf(t, k) != Call || (c.named && (c.start, c.end) !in skip) {
          Walk(c, k);
        }
      }
    }

    method Walk(t: Node, k: Kinds)
      modifies this
      ensures Contents() == RecordAll(old(Contents()), Events(t, k))
      decreases t, 2
    {
      if !t.named || ClassOf(t, k) == Comment {
        return;
      }
      ghost var before, own, rest := Contents(), [OwnEvent(t, k)], EventsFrom(t, 0, k);
      RecordGuard(t, k);
      RecordOne(Contents(), OwnEvent(t, k));
      RecordBoth(before, GuardOf(t, k), own);
      RecordOwn(t, k);
      if Inner(ClassOf(t, k)) {
        RecordBoth(before, GuardOf(t, k) + own, rest);
        WalkChildren(t, k);
      } else {
        assert Events(t, k) == GuardOf(t, k) + own;
      }
    }
  }

  // ----- counting -----

  function Entries(vars: Vars): set<(string, nat)> {
    set name, i | name in vars && 0 <= i < |vars[name]| :: (name, i)
  }

  function Occurrences(tokens: seq<string>, token: string): nat {
    multiset(tokens)[token]
  }

  predicate StartsWith(s: string, prefix: string) {
    prefix <= s
  }

  function CallTokens(tokens: seq<string>): seq<string> {
    if tokens == [] then []
    else
      var last := tokens[|tokens| - 1];
      CallTokens(tokens[..|tokens| - 1]) + When(StartsWith(last, CALL), last)
  }

  lemma {:induction false} EnterOne(vars: Vars, name: string, line: nat)
    ensures |Entries(vars[name := Lines(vars, name) + [line]])| == |Entries(vars)| + 1
  {
    var lines := Lines(vars, name);
    var after := vars[name := lines + [line]];
    assert (name, |lines|) !in Entries(vars);
    assert Entries(after) == Entries(vars) + {(name, |lines|)};
  }

  function Strays(events: seq<Event>): nat {
    if events == [] then 0
    else Strays(events[..|events| - 1]) + if events[|events| - 1] == Mark(ID) then 1 else 0
  }

  /** Every identifier token stands for one line entry, and the other way round; the only other tokens of
      that form come from nodes whose kind is the word itself. */
  lemma {:induction false} IdTokensAreEntries(events: seq<Event>)
    ensures var s := RecordAll(NOTHING, events);
            Occurrences(s.tokens, ID) == |Entries(s.vars)| + Strays(events)
  {
    if events == [] {
      assert Entries(map[]) == {};
    } else {
      var front, e := events[..|events| - 1], events[|events| - 1];
      IdTokensAreEntries(front);
      var s := RecordAll(NOTHING, front);
      TokenCount(s.tokens, e);
      if e.Use? {
        EnterOne(s.vars, e.name, e.line);
      }
    }
  }

  lemma {:induction false} TokenCount(tokens: seq<string>, e: Event)
    ensures Occurrences(tokens + TokenOf(e), ID)
         == Occurrences(tokens, ID) + if e.Use? || e == Mark(ID) then 1 else 0
  {
    if e.Called? {
      assert (CALL + e.call.callee)[0] == 'c';
    }
  }

  ghost predicate MarksAreNoCalls(events: seq<Event>) {
    forall e :: e in events && e.Mark? ==> !StartsWith(e.token, CALL)
  }

  function CallNames(calls: seq<CallInfo>): seq<string> {
    seq(|calls|, i requires 0 <= i < |calls| => CALL + calls[i].callee)
  }

  /** The call tokens name the recorded calls, one by one and in order. */
  lemma {:induction false} CallTokensAreCalls(events: seq<Event>)
    requires MarksAreNoCalls(events)
    ensures var s := RecordAll(NOTHING, events);
            CallTokens(s.tokens) == CallNames(s.calls)
  {
    if events != [] {
      var front, e := events[..|events| - 1], events[|events| - 1];
      assert events == front + [e];
      CallTokensAreCalls(front);
      var s := RecordAll(NOTHING, front);
      CallTokensSnoc(s.tokens, e);
      if e.Called? {
        assert CallNames(s.calls + [e.call]) == CallNames(s.calls) + [CALL + e.call.callee];
      }
    }
  }

  lemma {:induction false} CallTokensSnoc(tokens: seq<string>, e: Event)
    requires e.Mark? ==> !StartsWith(e.token, CALL)
    ensures CallTokens(tokens + TokenOf(e))
         == CallTokens(tokens) + if e.Called? then [CALL + e.call.callee] else []
  {
    if e.Guard? {
      assert tokens + TokenOf(e) == tokens;
    } else {
      assert (tokens + TokenOf(e))[..|tokens|] == tokens;
    }
  }

  // ----- the marks of a tree -----

  /** Kinds of named nodes as grammars have them: without colons, and none is the word for identifiers. */
  ghost predicate GrammarKinds(t: Node)
    decreases t
  {
    && (t.named ==> ':' !in t.kind && t.kind != ID)
    && forall c :: c in t.children ==> GrammarKinds(c)
  }

  predicate PlainMark(e: Event) {
    e.Mark? ==> e.token != ID && !StartsWith(e.token, CALL)
  }

  ghost predicate PlainMarks(events: seq<Event>) {
    forall e :: e in events ==> PlainMark(e)
  }

  lemma {:induction false} OpToken(kind: string, op: string)
    requires ':' !in kind
    ensures kind + ":" + op != ID
    ensures StartsWith(kind + ":" + op, CALL) ==> kind == "call"
  {
    var token := kind + ":" + op;
    assert token[|kind|] == ':' && forall i :: 0 <= i < |kind| ==> token[i] == kind[i] != ':';
    assert CALL[4] == ':' && forall i :: 0 <= i < 4 ==> CALL[i] != ':';
    if StartsWith(token, CALL) {
      assert forall i :: 0 <= i < 5 ==> token[i] == CALL[i];
      assert |kind| == 4;
      assert kind == token[..4] == CALL[..4] == "call";
    }
  }

  lemma {:induction false} KindToken(kind: string)
    requires ':' !in kind
    ensures !StartsWith(kind, CALL)
  {
    assert CALL[4] == ':';
    assert |kind| > 4 ==> kind[4] in kind;
  }

  /** The classes never treat a node of kind `call` as an operator. */
  ghost predicate CallIsNoOperator(k: Kinds) {
    forall text :: k.classOf("call", text) != Op
  }

  lemma {:induction false} OwnIsPlain(t: Node, k: Kinds)
    requires ':' !in t.kind && t.kind != ID && CallIsNoOperator(k)
    ensures PlainMark(OwnEvent(t, k))
  {
    KindToken(t.kind);
    if ClassOf(t, k) == Op {
      assert t.kind == "call" ==> k.classOf("call", t.text) != Op;
      OpToken(t.kind, OperatorText(t));
    }
  }

  lemma {:induction false} EventsArePlain(t: Node, k: Kinds)
    requires GrammarKinds(t) && CallIsNoOperator(k)
    ensures PlainMarks(Events(t, k))
    decreases t, |t.children| + 1
  {
    if t.named {
      OwnIsPlain(t, k);
      EventsFromArePlain(t, 0, k);
    }
  }

  lemma {:induction false} EventsFromArePlain(t: Node, i: nat, k: Kinds)
    requires GrammarKinds(t) && CallIsNoOperator(k) && i <= |t.children|
    ensures PlainMarks(EventsFrom(t, i, k))
    decreases t, |t.children| - i
  {
    if i < |t.children| {
      EventsArePlain(t.children[i], k);
      EventsFromArePlain(t, i + 1, k);
    }
  }

  lemma {:induction false} NoStrays(events: seq<Event>)
    requires PlainMarks(events)
    ensures Strays(events) == 0 && MarksAreNoCalls(events)
  {
    forall e | e in events && e.Mark? ensures !StartsWith(e.token, CALL) {
      assert PlainMark(e);
    }
    if events != [] {
      var front, e := events[..|events| - 1], events[|events| - 1];
      assert events == front + [e];
      assert PlainMark(e);
      NoStrays(front);
    }
  }

  /** What the walk over a function keeps: as many identifier tokens as line entries, and the call tokens
      are the calls. */
  lemma {:induction false} WalkIsConsistent(t: Node, k: Kinds)
    requires GrammarKinds(t) && CallIsNoOperator(k)
    ensures var s := RecordAll(NOTHING, Events(t, k));
            Occurrences(s.tokens, ID) == |Entries(s.vars)| && CallTokens(s.tokens) == CallNames(s.calls)
  {
    EventsArePlain(t, k);
    NoStrays(Events(t, k));
    IdTokensAreEntries(Events(t, k));
    CallTokensAreCalls(Events(t, k));
  }
}
