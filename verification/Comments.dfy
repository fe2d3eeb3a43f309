/** When comments leave the records of the walk in code-graph/src/fingerprint.rs alone: not only the tokens,
but calls with their arguments, guards and variables. */
module Comments {
  import opened WordRuns
  import opened SyntaxTree
  import opened Shape
  import NodeKinds

  ghost predicate NoCommentIn(t: Node, k: Kinds) {
    forall c :: c in t.children ==> !Silent(c, k)
  }

  // ----- names outside comments -----

  /** First identifier in a subtree, in source order, outside comments. */
  function FirstSpoken(t: Node, k: Kinds): Option<string>
    decreases t, |t.children| + 1
  {
    if t.named && ClassOf(t, k) == Ident then Some(t.text) else FirstSpokenFrom(t, 0, k)
  }

  function FirstSpokenFrom(t: Node, i: nat, k: Kinds): Option<string>
    requires i <= |t.children|
    decreases t, |t.children| - i
  {
    if i == |t.children| then None
    else
      var c := t.children[i];
      var found := if c.named && !Silent(c, k) then FirstSpoken(c, k) else None;
      if found.Some? then found else FirstSpokenFrom(t, i + 1, k)
  }

  /** No comment holds an identifier. */
  ghost predicate PlainComments(t: Node, k: Kinds) {
    && (Silent(t, k) ==> FirstIdent(t, k) == None)
    && forall c :: c in t.children ==> PlainComments(c, k)
  }

  /** Where comments hold no identifiers, the first identifier is the first one outside comments. */
  lemma {:induction false} PlainIsSpoken(t: Node, k: Kinds)
    requires PlainComments(t, k)
    ensures FirstSpoken(t, k) == FirstIdent(t, k)
    decreases t, |t.children| + 1
  {
    PlainIsSpokenFrom(t, 0, k);
  }

  lemma {:induction false} PlainIsSpokenFrom(t: Node, i: nat, k: Kinds)
    requires PlainComments(t, k) && i <= |t.children|
    ensures FirstSpokenFrom(t, i, k) == FirstIdentFrom(t, i, k)
    decreases t, |t.children| - i
  {
    if i < |t.children| {
      assert t.children[i] in t.children;
      PlainIsSpoken(t.children[i], k);
      PlainIsSpokenFrom(t, i + 1, k);
    }
  }

  lemma {:induction false} FirstIdentBare(t: Node, k: Kinds)
    ensures FirstIdent(Bare(t, k), k) == FirstSpoken(t, k)
    decreases t, |t.children| + 1
  {
    var u := Bare(t, k);
    assert u.children[0..] == BareFrom(t, 0, k);
    FirstIdentBareFrom(t, 0, u, 0, k);
  }

  lemma {:induction false} FirstIdentBareFrom(t: Node, i: nat, u: Node, j: nat, k: Kinds)
    requires i <= |t.children| && j <= |u.children| && u.children[j..] == BareFrom(t, i, k)
    ensures FirstIdentFrom(u, j, k) == FirstSpokenFrom(t, i, k)
    decreases t, |t.children| - i
  {
    if i < |t.children| {
      if Silent(t.children[i], k) {
        FirstIdentBareFrom(t, i + 1, u, j, k);
      } else {
        assert u.children[j] == u.children[j..][0] == Bare(t.children[i], k);
        assert u.children[j..][1..] == u.children[j + 1..];
        FirstIdentBare(t.children[i], k);
        FirstIdentBareFrom(t, i + 1, u, j + 1, k);
      }
    } else {
      assert u.children[j..] == [];
    }
  }

  lemma {:induction false} CondVarsBare(t: Node, k: Kinds)
    ensures CondVars(Bare(t, k), k) == CondVars(t, k)
    decreases t, |t.children| + 1
  {
    var u := Bare(t, k);
    assert u.children[0..] == BareFrom(t, 0, k);
    CondVarsBareFrom(t, 0, u, 0, k);
  }

  lemma {:induction false} CondVarsBareFrom(t: Node, i: nat, u: Node, j: nat, k: Kinds)
    requires i <= |t.children| && j <= |u.children| && u.children[j..] == BareFrom(t, i, k)
    ensures CondVarsFrom(u, j, k) == CondVarsFrom(t, i, k)
    decreases t, |t.children| - i
  {
    if i < |t.children| {
      if Silent(t.children[i], k) {
        CondVarsBareFrom(t, i + 1, u, j, k);
      } else {
        assert u.children[j] == u.children[j..][0] == Bare(t.children[i], k);
        assert u.children[j..][1..] == u.children[j + 1..];
        CondVarsBare(t.children[i], k);
        CondVarsBareFrom(t, i + 1, u, j + 1, k);
      }
    } else {
      assert u.children[j..] == [];
    }
  }

  // ----- arguments -----

  lemma {:induction false} ArgNamesConcat(a: seq<Node>, b: seq<Node>, k: Kinds)
    ensures ArgNames(a + b, k) == ArgNames(a, k) + ArgNames(b, k)
  {
    if b == [] {
      assert a + b == a;
    } else {
      assert (a + b)[..|a + b| - 1] == a + b[..|b| - 1];
      ArgNamesConcat(a, b[..|b| - 1], k);
    }
  }

  lemma {:induction false} ArgNamesOne(c: Node, k: Kinds)
    ensures ArgNames([c], k) == When(c.named, OrEmpty(FirstIdent(c, k)))
  {
    assert [c][..0] == [];
  }

  /** The argument is no comment, and the name it goes by does not come from one. */
  ghost predicate PlainArgument(c: Node, k: Kinds) {
    !Silent(c, k) && (c.named ==> OrEmpty(FirstIdent(c, k)) == OrEmpty(FirstSpoken(c, k)))
  }

  ghost predicate PlainFrom(list: Node, i: nat, k: Kinds)
    requires i <= |list.children|
    decreases |list.children| - i
  {
    i < |list.children| ==> PlainArgument(list.children[i], k) && PlainFrom(list, i + 1, k)
  }

  lemma {:induction false} AllPlain(list: Node, i: nat, k: Kinds)
    requires i <= |list.children|
    ensures PlainFrom(list, i, k) <==> forall c :: c in list.children[i..] ==> PlainArgument(c, k)
    decreases |list.children| - i
  {
    if i < |list.children| {
      AllPlain(list, i + 1, k);
      assert list.children[i..] == [list.children[i]] + list.children[i + 1..];
    }
  }

  /** Every comment between the arguments counts as one argument more. */
  lemma {:induction false} ArgNamesBare(list: Node, i: nat, k: Kinds)
    requires i <= |list.children|
    ensures |ArgNames(list.children[i..], k)| >= |ArgNames(BareFrom(list, i, k), k)|
    ensures ArgNames(list.children[i..], k) == ArgNames(BareFrom(list, i, k), k) <==> PlainFrom(list, i, k)
    decreases |list.children| - i
  {
    if i < |list.children| {
      assert list.children[i..] == [list.children[i]] + list.children[i + 1..];
      ArgNamesBare(list, i + 1, k);
      OneArgument(list.children[i], list.children[i + 1..], BareFrom(list, i + 1, k), k);
    }
  }

  lemma {:induction false} OneArgument(c: Node, rest: seq<Node>, bare: seq<Node>, k: Kinds)
    requires |ArgNames(rest, k)| >= |ArgNames(bare, k)|
    ensures var all, others := ArgNames([c] + rest, k), ArgNames(if Silent(c, k) then bare else [Bare(c, k)] + bare, k);
            |all| >= |others| && (all == others <==> PlainArgument(c, k) && ArgNames(rest, k) == ArgNames(bare, k))
  {
    ArgNamesConcat([c], rest, k);
    ArgNamesOne(c, k);
    if !Silent(c, k) {
      FirstIdentBare(c, k);
      ArgNamesConcat([Bare(c, k)], bare, k);
      ArgNamesOne(Bare(c, k), k);
      SameHeads(When(c.named, OrEmpty(FirstIdent(c, k))), ArgNames(rest, k),
                When(c.named, OrEmpty(FirstSpoken(c, k))), ArgNames(bare, k));
      SameWhen(c.named, OrEmpty(FirstIdent(c, k)), OrEmpty(FirstSpoken(c, k)));
    }
  }

  lemma {:induction false} SameWhen<T>(holds: bool, x: T, y: T)
    ensures When(holds, x) == When(holds, y) <==> (holds ==> x == y)
  {
    assert holds ==> When(holds, x)[0] == x && When(holds, y)[0] == y;
  }

  /** Lists in two parts of which the first, or the second, are equally long. */
  lemma {:induction false} SameHeads<T>(a: seq<T>, b: seq<T>, c: seq<T>, d: seq<T>)
    requires |a| == |c|
    ensures a + b == c + d <==> a == c && b == d
  {
    if a + b == c + d {
      assert a == (a + b)[..|a|] && c == (c + d)[..|a|];
      assert b == (a + b)[|a|..] && d == (c + d)[|a|..];
    }
  }

  /** The record of a call is the same without comments exactly when no comment stands directly in its argument
      list and no argument takes its name from a comment. */
  lemma {:induction false} CallExactly(t: Node, k: Kinds)
    ensures CallOf(Bare(t, k), k) == CallOf(t, k) <==> CallTidy(t, k)
  {
    BareChild(t, k, Function);
    BareChild(t, k, Name);
    BareChild(t, k, Arguments);
    if Child(t, Arguments).Some? {
      var list := Child(t, Arguments).value;
      assert list.children[0..] == list.children;
      ArgNamesBare(list, 0, k);
      AllPlain(list, 0, k);
    }
  }

  ghost predicate CallTidy(t: Node, k: Kinds) {
    Child(t, Arguments).Some? ==>
      forall c :: c in Child(t, Arguments).value.children ==> PlainArgument(c, k)
  }

  /** Where comments hold no identifiers, comments directly in the list are all that counts. */
  lemma {:induction false} PlainCalls(t: Node, k: Kinds)
    requires PlainComments(t, k)
    ensures CallTidy(t, k) <==> (Child(t, Arguments).Some? ==> NoCommentIn(Child(t, Arguments).value, k))
  {
    if Child(t, Arguments).Some? {
      var list := Child(t, Arguments).value;
      assert PlainComments(list, k);
      forall c | c in list.children ensures PlainArgument(c, k) <==> !Silent(c, k) {
        PlainIsSpoken(c, k);
      }
    }
  }

  // ----- guards -----

  /** The condition is the second named child, for want of a field. */
  predicate ByPosition(t: Node, k: Kinds) {
    Child(t, Condition).None? && Child(t, Test).None? && k.fallbackOf(t.kind).SecondNamed?
  }

  lemma {:induction false} ClauseBare(t: Node, i: nat, k: Kinds)
    requires i <= |t.children|
    ensures var a, b := ClauseCondition(t.children[i..], k), ClauseCondition(BareFrom(t, i, k), k);
            && (b.Some? ==> a.Some?)
            && ((forall c :: c in t.children && Silent(c, k) ==> !k.isForClause(c.kind)) ==> b == BareOption(a, k))
    decreases |t.children| - i
  {
    if i < |t.children| {
      var c := t.children[i];
      assert c in t.children && t.children[i..][0] == c && t.children[i..][1..] == t.children[i + 1..];
      ClauseBare(t, i + 1, k);
      BareChild(c, k, Condition);
      if !Silent(c, k) {
        assert BareFrom(t, i, k)[1..] == BareFrom(t, i + 1, k);
      }
    }
  }

  /** No comment is a for clause. */
  ghost predicate ClausesAreNoComments(k: Kinds) {
    forall kind, text :: k.classOf(kind, text) == Comment ==> !k.isForClause(kind)
  }

  /** The nodes that are no comments. */
  function Spoken(nodes: seq<Node>, k: Kinds): seq<Node> {
    if nodes == [] then [] else (if Silent(nodes[0], k) then [] else [nodes[0]]) + Spoken(nodes[1..], k)
  }

  function BareAll(nodes: seq<Node>, k: Kinds): seq<Node> {
    if nodes == [] then [] else [Bare(nodes[0], k)] + BareAll(nodes[1..], k)
  }

  lemma {:induction false} NamedConcat(a: seq<Node>, b: seq<Node>)
    ensures NamedChildren(a + b) == NamedChildren(a) + NamedChildren(b)
  {
    if b == [] {
      assert a + b == a;
    } else {
      assert (a + b)[..|a + b| - 1] == a + b[..|b| - 1];
      NamedConcat(a, b[..|b| - 1]);
    }
  }

  lemma {:induction false} NamedHead(c: Node, rest: seq<Node>)
    ensures NamedChildren([c] + rest) == When(c.named, c) + NamedChildren(rest)
  {
    NamedConcat([c], rest);
    assert [c][..0] == [];
  }

  lemma {:induction false} SpokenHead(c: Node, rest: seq<Node>, k: Kinds)
    ensures Spoken([c] + rest, k) == (if Silent(c, k) then [] else [c]) + Spoken(rest, k)
  {
    assert ([c] + rest)[1..] == rest;
  }

  lemma {:induction false} BareHead(c: Node, rest: seq<Node>, k: Kinds)
    ensures BareAll([c] + rest, k) == [Bare(c, k)] + BareAll(rest, k)
  {
    assert ([c] + rest)[1..] == rest;
  }

  /** Without comments, the named children are those that are no comments. */
  lemma {:induction false} NamedBare(t: Node, i: nat, k: Kinds)
    requires i <= |t.children|
    ensures NamedChildren(BareFrom(t, i, k)) == BareAll(Spoken(NamedChildren(t.children[i..]), k), k)
    decreases |t.children| - i
  {
    if i < |t.children| {
      assert t.children[i..] == [t.children[i]] + t.children[i + 1..];
      NamedBare(t, i + 1, k);
      OneNamed(t.children[i], t.children[i + 1..], BareFrom(t, i + 1, k), k);
    }
  }

  lemma {:induction false} OneNamed(c: Node, rest: seq<Node>, bare: seq<Node>, k: Kinds)
    requires NamedChildren(bare) == BareAll(Spoken(NamedChildren(rest), k), k)
    ensures NamedChildren(if Silent(c, k) then bare else [Bare(c, k)] + bare) ==
            BareAll(Spoken(NamedChildren([c] + rest), k), k)
  {
    NamedHead(c, rest);
    NamedHead(Bare(c, k), bare);
    SpokenHead(c, NamedChildren(rest), k);
    BareHead(c, Spoken(NamedChildren(rest), k), k);
    assert [] + NamedChildren(rest) == NamedChildren(rest) && [] + NamedChildren(bare) == NamedChildren(bare);
    assert [] + Spoken(NamedChildren(rest), k) == Spoken(NamedChildren(rest), k);
  }

  function Second(nodes: seq<Node>): Option<Node> {
    if |nodes| > 1 then Some(nodes[1]) else None
  }

  lemma {:induction false} SecondBare(t: Node, k: Kinds)
    ensures Second(NamedChildren(Bare(t, k).children)) == BareOption(Second(Spoken(NamedChildren(t.children), k)), k)
  {
    assert t.children[0..] == t.children;
    NamedBare(t, 0, k);
    SecondOfAll(Spoken(NamedChildren(t.children), k), k);
  }

  lemma {:induction false} SecondOfAll(nodes: seq<Node>, k: Kinds)
    ensures Second(BareAll(nodes, k)) == BareOption(Second(nodes), k)
  {
    if |nodes| > 1 {
      assert BareAll(nodes, k) == [Bare(nodes[0], k)] + BareAll(nodes[1..], k);
      assert BareAll(nodes[1..], k) == [Bare(nodes[1], k)] + BareAll(nodes[1..][1..], k);
    } else if |nodes| == 1 {
      assert BareAll(nodes[1..], k) == [];
    }
  }

  /** Neither of the first two is a comment. */
  predicate SpokenFirst(named: seq<Node>, k: Kinds) {
    |named| > 1 ==> !Silent(named[0], k) && !Silent(named[1], k)
  }

  lemma {:induction false} SpokenLength(nodes: seq<Node>, k: Kinds)
    ensures |Spoken(nodes, k)| <= |nodes|
  {
    if nodes != [] {
      SpokenLength(nodes[1..], k);
    }
  }

  lemma {:induction false} SpokenIndex(nodes: seq<Node>, k: Kinds, x: nat) returns (y: nat)
    requires x < |Spoken(nodes, k)|
    ensures x <= y < |nodes| && nodes[y] == Spoken(nodes, k)[x]
  {
    if Silent(nodes[0], k) {
      var z := SpokenIndex(nodes[1..], k, x);
      y := z + 1;
    } else if x == 0 {
      y := 0;
    } else {
      var z := SpokenIndex(nodes[1..], k, x - 1);
      y := z + 1;
    }
  }

  /** Then the second stays the second. */
  lemma {:induction false} SecondStays(named: seq<Node>, k: Kinds)
    requires SpokenFirst(named, k)
    ensures Second(Spoken(named, k)) == Second(named)
  {
    SpokenLength(named, k);
    if |named| > 1 {
      assert Spoken(named, k) == [named[0]] + Spoken(named[1..], k);
      assert Spoken(named[1..], k) == [named[1]] + Spoken(named[1..][1..], k);
    }
  }

  /** Otherwise the second of the others stood further behind. */
  lemma {:induction false} SecondMoves(named: seq<Node>, k: Kinds) returns (y: nat)
    requires !SpokenFirst(named, k) && |Spoken(named, k)| > 1
    ensures 2 <= y < |named| && named[y] == Spoken(named, k)[1]
  {
    if Silent(named[0], k) {
      var z := SpokenIndex(named[1..], k, 1);
      y := z + 1;
    } else {
      assert Spoken(named, k) == [named[0]] + Spoken(named[1..], k);
      assert Spoken(named[1..], k) == Spoken(named[2..], k) by {
        assert named[1..][1..] == named[2..];
      }
      var z := SpokenIndex(named[2..], k, 0);
      y := z + 2;
    }
  }

  ghost predicate Apart(nodes: seq<Node>) {
    forall i, j :: 0 <= i < j < |nodes| ==> nodes[i].start != nodes[j].start || nodes[i].end != nodes[j].end
  }

  lemma {:induction false} NamedApart(nodes: seq<Node>)
    requires Apart(nodes)
    ensures Apart(NamedChildren(nodes)) && forall c :: c in NamedChildren(nodes) ==> c in nodes
  {
    if nodes != [] {
      var front, last := nodes[..|nodes| - 1], nodes[|nodes| - 1];
      NamedApart(front);
      forall c | c in NamedChildren(front) ensures c.start != last.start || c.end != last.end {
        var i :| 0 <= i < |front| && front[i] == c;
        assert nodes[i] == c;
      }
    }
  }

  lemma {:induction false} RangeBare(t: Node, k: Kinds)
    requires ClausesAreNoComments(k)
    ensures ClauseCondition(BareFrom(t, 0, k), k) == BareOption(ClauseCondition(t.children, k), k)
  {
    ClauseBare(t, 0, k);
    assert t.children[0..] == t.children;
  }

  lemma {:induction false} ConditionBare(t: Node, k: Kinds)
    requires ClausesAreNoComments(k)
    ensures GuardCondition(Bare(t, k), k) ==
            BareOption(if ByPosition(t, k) then Second(Spoken(NamedChildren(t.children), k))
                       else GuardCondition(t, k), k)
  {
    BareChild(t, k, Condition);
    BareChild(t, k, Test);
    if Child(t, Condition).None? && Child(t, Test).None? {
      match k.fallbackOf(t.kind)
      case InValue => BareChild(t, k, Value);
      case InRange =>
        BareChild(t, k, Value);
        BareChild(t, k, Right);
        RangeBare(t, k);
      case SecondNamed => SecondBare(t, k);
      case Nowhere =>
    }
  }

  /** A condition that is found by its position is found at the same node without comments exactly when neither
      of the first two named children is a comment; comments behind it do not matter. */
  lemma {:induction false} ConditionExactly(t: Node, k: Kinds)
    requires ClausesAreNoComments(k) && ByPosition(t, k) && OwnRanges(t)
    ensures GuardCondition(Bare(t, k), k) == BareOption(GuardCondition(t, k), k) <==>
            SpokenFirst(NamedChildren(t.children), k)
  {
    var named := NamedChildren(t.children);
    ConditionBare(t, k);
    assert GuardCondition(t, k) == Second(named);
    if SpokenFirst(named, k) {
      SecondStays(named, k);
    } else if |Spoken(named, k)| > 1 {
      assert Apart(t.children);
      NamedApart(t.children);
      var y := SecondMoves(named, k);
      assert named[1].start != named[y].start || named[1].end != named[y].end;
    }
  }

  function VarsOf(condition: Option<Node>, k: Kinds): set<string> {
    if condition.Some? then CondVars(condition.value, k) else {}
  }

  /** The second named child has the variables of the second one that is no comment. */
  ghost predicate GuardTidy(t: Node, k: Kinds) {
    k.guardOf(t.kind).Some? && ByPosition(t, k) ==>
      var named := NamedChildren(t.children);
      SpokenFirst(named, k) || VarsOf(Second(Spoken(named, k)), k) == VarsOf(Second(named), k)
  }

  /** A guard and its variables are the same without comments exactly when this holds: a condition that has a
      field is safe, one that is found by its position is safe when neither it nor the child before it is a
      comment, and otherwise only by the chance that other variables are the same. */
  lemma {:induction false} GuardExactly(t: Node, k: Kinds)
    requires ClausesAreNoComments(k)
    ensures GuardOf(Bare(t, k), k) == GuardOf(t, k) <==> GuardTidy(t, k)
  {
    var named := NamedChildren(t.children);
    ConditionBare(t, k);
    if ByPosition(t, k) {
      assert GuardCondition(t, k) == Second(named);
      SameVars(Second(Spoken(named, k)), k);
      if SpokenFirst(named, k) {
        SecondStays(named, k);
      }
    } else {
      SameVars(GuardCondition(t, k), k);
    }
    GuardOfVars(t, k);
    GuardOfVars(Bare(t, k), k);
  }

  lemma {:induction false} SameVars(condition: Option<Node>, k: Kinds)
    ensures VarsOf(BareOption(condition, k), k) == VarsOf(condition, k)
  {
    if condition.Some? {
      CondVarsBare(condition.value, k);
    }
  }

  lemma {:induction false} GuardOfVars(t: Node, k: Kinds)
    ensures GuardOf(t, k) ==
            if k.guardOf(t.kind).None? then []
            else [Guard(GuardInfo(k.guardOf(t.kind).value, t.line, VarsOf(GuardCondition(t, k), k)))]
  {
  }

  // ----- whole functions -----

  /** What the walk records at every node it comes to is the same without comments: no call has a comment among
      its arguments or names one after a comment, and no guard reads a comment for its condition. */
  ghost predicate Tidy(t: Node, k: Kinds)
    decreases t, |t.children| + 1
  {
    t.named && ClassOf(t, k) != Comment ==>
      && GuardTidy(t, k)
      && (ClassOf(t, k) == Call ==> CallTidy(t, k))
      && (Inner(ClassOf(t, k)) ==> TidyFrom(t, 0, k))
  }

  ghost predicate TidyFrom(t: Node, i: nat, k: Kinds)
    requires i <= |t.children|
    decreases t, |t.children| - i
  {
    i < |t.children| ==> (Entered(t, i, ClassOf(t, k)) ==> Tidy(t.children[i], k)) && TidyFrom(t, i + 1, k)
  }

  lemma {:induction false} OwnExactly(t: Node, k: Kinds)
    ensures OwnEvent(Bare(t, k), k) == OwnEvent(t, k) <==> (ClassOf(t, k) == Call ==> CallTidy(t, k))
  {
    if ClassOf(t, k) == Call {
      CallExactly(t, k);
    } else if ClassOf(t, k) == Op {
      SameOperator(t, k);
    }
  }

  lemma {:induction false} SameOperator(t: Node, k: Kinds)
    ensures OperatorText(Bare(t, k)) == OperatorText(t)
  {
    var u := Bare(t, k);
    assert u.children[0..] == BareFrom(t, 0, k);
    BareAlikeFrom(t, 0, u, 0, k);
    SamePunctuation(t, 0, u, 0, k);
    BareChild(t, k, Operator);
  }

  /** Comments leave everything the walk records as it is, tokens, calls, guards and variables, exactly in tidy
      functions. */
  lemma {:induction false} EventsExactly(t: Node, k: Kinds)
    requires ClausesAreNoComments(k)
    ensures |Events(Bare(t, k), k)| == |Events(t, k)|
    ensures Events(Bare(t, k), k) == Events(t, k) <==> Tidy(t, k)
    decreases t, |t.children| + 1
  {
    if t.named && ClassOf(t, k) != Comment {
      var u := Bare(t, k);
      GuardExactly(t, k);
      OwnExactly(t, k);
      assert u.children[0..] == BareFrom(t, 0, k);
      EventsExactlyFrom(t, 0, u, 0, k);
      ThreeParts(t, u, k);
    }
  }

  lemma {:induction false} ThreeParts(t: Node, u: Node, k: Kinds)
    requires t.named && ClassOf(t, k) != Comment && u == Bare(t, k)
    requires |EventsFrom(u, 0, k)| == |EventsFrom(t, 0, k)|
    ensures |Events(u, k)| == |Events(t, k)|
    ensures Events(u, k) == Events(t, k) <==>
            && GuardOf(u, k) == GuardOf(t, k) && OwnEvent(u, k) == OwnEvent(t, k)
            && (Inner(ClassOf(t, k)) ==> EventsFrom(u, 0, k) == EventsFrom(t, 0, k))
  {
    GuardOfVars(t, k);
    GuardOfVars(u, k);
    var g, h, a, b := GuardOf(u, k), GuardOf(t, k), [OwnEvent(u, k)], [OwnEvent(t, k)];
    var x := if Inner(ClassOf(t, k)) then EventsFrom(u, 0, k) else [];
    var y := if Inner(ClassOf(t, k)) then EventsFrom(t, 0, k) else [];
    assert Events(u, k) == g + a + x && Events(t, k) == h + b + y;
    SameHeads(g + a, x, h + b, y);
    SameHeads(g, a, h, b);
    assert a == b <==> a[0] == b[0];
  }

  lemma {:induction false} EventsExactlyFrom(t: Node, i: nat, u: Node, j: nat, k: Kinds)
    requires ClausesAreNoComments(k)
    requires u == Bare(t, k) && i <= |t.children| && j <= |u.children| && u.children[j..] == BareFrom(t, i, k)
    ensures |EventsFrom(u, j, k)| == |EventsFrom(t, i, k)|
    ensures EventsFrom(u, j, k) == EventsFrom(t, i, k) <==> TidyFrom(t, i, k)
    decreases t, |t.children| - i
  {
    if i < |t.children| {
      if Silent(t.children[i], k) {
        SilentTokens(t, i, k);
        EventsExactlyFrom(t, i + 1, u, j, k);
      } else {
        assert u.children[j] == u.children[j..][0] == Bare(t.children[i], k);
        assert u.children[j..][1..] == u.children[j + 1..];
        BareSkips(t, k);
        EventsExactly(t.children[i], k);
        EventsExactlyFrom(t, i + 1, u, j + 1, k);
        OneChild(t, i, u, j, k);
      }
    } else {
      assert u.children[j..] == [];
    }
  }

  lemma {:induction false} OneChild(t: Node, i: nat, u: Node, j: nat, k: Kinds)
    requires i < |t.children| && j < |u.children|
    requires Entered(u, j, ClassOf(u, k)) == Entered(t, i, ClassOf(t, k))
    requires |Events(u.children[j], k)| == |Events(t.children[i], k)|
    requires |EventsFrom(u, j + 1, k)| == |EventsFrom(t, i + 1, k)|
    ensures |EventsFrom(u, j, k)| == |EventsFrom(t, i, k)|
    ensures EventsFrom(u, j, k) == EventsFrom(t, i, k) <==>
            && (Entered(t, i, ClassOf(t, k)) ==> Events(u.children[j], k) == Events(t.children[i], k))
            && EventsFrom(u, j + 1, k) == EventsFrom(t, i + 1, k)
  {
    if Entered(t, i, ClassOf(t, k)) {
      SameHeads(Events(u.children[j], k), EventsFrom(u, j + 1, k), Events(t.children[i], k), EventsFrom(t, i + 1, k));
    } else {
      assert EventsFrom(u, j, k) == EventsFrom(u, j + 1, k);
      assert EventsFrom(t, i, k) == EventsFrom(t, i + 1, k);
    }
  }

  // ----- with the shipped classes -----

  lemma {:induction false} ShippedClauses()
    ensures ClausesAreNoComments(NodeKinds.AllKinds())
  {
    assert !NodeKinds.IsComment("for_clause") by {
      forall i | 0 <= i <= 3 ensures !NodeKinds.StandsAt("comment", "for_clause", i) {
        assert "for_clause"[i..i + 7][0] == "for_clause"[i];
        assert "comment"[0] == 'c' && "for_clause"[0] == 'f' && "for_clause"[1] == 'o' && "for_clause"[2] == 'r'
               && "for_clause"[3] == '_';
      }
    }
  }

  /** With the shipped classes: comments leave all records of a function alone exactly when it is tidy. */
  lemma {:induction false} TidyFunctions(t: Node)
    ensures Events(Bare(t, NodeKinds.AllKinds()), NodeKinds.AllKinds()) == Events(t, NodeKinds.AllKinds()) <==>
            Tidy(t, NodeKinds.AllKinds())
  {
    ShippedClauses();
    EventsExactly(t, NodeKinds.AllKinds());
  }

  /** In other functions they do not: a comment between arguments is recorded as an argument. */
  lemma {:induction false} CommentAmongArguments(k: Kinds, c: Node, call: Node)
    requires Silent(c, k) && c.children == [] && FirstIdent(c, k) == None
    requires call.children == [Node("argument_list", true, Arguments, "", 1, 1, 0, 0, [c])]
    ensures CallOf(call, k).args == [""] && CallOf(Bare(call, k), k).args == []
  {
    var list := call.children[0];
    ArgNamesOne(c, k);
    assert FieldFrom(call, 0, Arguments) == Some(list);
    BareChild(call, k, Arguments);
    assert BareFrom(list, 0, k) == BareFrom(list, 1, k) == [];
  }

  /** And a comment before the condition of a conditional expression without fields takes its place. */
  lemma {:induction false} CommentBeforeCondition(k: Kinds, a: Node, c: Node, condition: Node, t: Node, kind: string)
    requires a.named && condition.named && !Silent(a, k) && !Silent(condition, k) && Silent(c, k)
    requires a.field == Unasked && condition.field == Unasked
    requires t.children == [a, c, condition] && k.guardOf(t.kind) == Some(kind) && k.fallbackOf(t.kind).SecondNamed?
    ensures GuardOf(t, k) == [Guard(GuardInfo(kind, t.line, {}))]
    ensures GuardOf(Bare(t, k), k) == [Guard(GuardInfo(kind, t.line, CondVars(condition, k)))]
  {
    FieldIsFirstNone(t, k);
    ThreeNamed(a, c, condition);
    ConditionUncovered(k, a, c, condition, t, kind);
  }

  lemma {:induction false} ConditionUncovered(k: Kinds, a: Node, c: Node, condition: Node, t: Node, kind: string)
    requires a.named && condition.named && !Silent(a, k) && !Silent(condition, k) && Silent(c, k)
    requires t.children == [a, c, condition] && k.guardOf(t.kind) == Some(kind) && k.fallbackOf(t.kind).SecondNamed?
    requires Child(Bare(t, k), Condition).None? && Child(Bare(t, k), Test).None?
    ensures GuardOf(Bare(t, k), k) == [Guard(GuardInfo(kind, t.line, CondVars(condition, k)))]
  {
    BareOfThree(k, a, c, condition, t);
    TwoNamed(Bare(a, k), Bare(condition, k));
    CondVarsBare(condition, k);
  }

  lemma {:induction false} BareOfThree(k: Kinds, a: Node, c: Node, b: Node, t: Node)
    requires !Silent(a, k) && !Silent(b, k) && Silent(c, k) && t.children == [a, c, b]
    ensures Bare(t, k).children == [Bare(a, k), Bare(b, k)]
  {
    assert BareFrom(t, 3, k) == [] && BareFrom(t, 2, k) == [Bare(b, k)] == BareFrom(t, 1, k);
    assert BareFrom(t, 0, k) == [Bare(a, k), Bare(b, k)];
  }

  lemma {:induction false} TwoNamed(a: Node, b: Node)
    requires a.named && b.named
    ensures NamedChildren([a, b]) == [a, b]
  {
    assert [a, b][..1] == [a] && [a][..0] == [];
    assert NamedChildren([a]) == [a];
  }

  lemma {:induction false} ThreeNamed(a: Node, b: Node, c: Node)
    requires a.named && b.named && c.named
    ensures NamedChildren([a, b, c]) == [a, b, c]
  {
    TwoNamed(a, b);
    assert [a, b, c][..2] == [a, b];
  }

  lemma {:induction false} FieldIsFirstNone(t: Node, k: Kinds)
    requires forall c :: c in t.children ==> c.field == Unasked
    ensures Child(t, Condition).None? && Child(t, Test).None?
    ensures Child(Bare(t, k), Condition).None? && Child(Bare(t, k), Test).None?
  {
    BareChild(t, k, Condition);
    BareChild(t, k, Test);
  }

  // ----- such an expression with the shipped classes -----

  function Leaf(kind: string, text: string): Node {
    Node(kind, true, Unasked, text, 1, 1, 0, 0, [])
  }

  lemma {:induction false} IdentifierIsIdent(kind: string, text: string)
    requires kind == "identifier"
    ensures NodeKinds.Classify(kind, text) == Ident
  {
    forall i | 0 <= i <= 3 ensures !NodeKinds.StandsAt("comment", kind, i) {
      assert kind[i..i + 7][0] == kind[i];
      assert kind[0] == 'i' && kind[1] == 'd' && kind[2] == 'e' && kind[3] == 'n' && "comment"[0] == 'c';
    }
    assert !NodeKinds.IsComment(kind);
  }

  lemma {:induction false} CommentIsComment(kind: string, text: string)
    requires kind == "comment"
    ensures NodeKinds.Classify(kind, text) == Comment
  {
    assert NodeKinds.StandsAt("comment", kind, 0);
  }

  /** The body x, a comment, and the condition y of a conditional expression without fields: the guard loses its
      variable to the comment. */
  lemma {:induction false} CommentHidesCondition(x: Node, c: Node, y: Node, t: Node)
    requires x == Leaf("identifier", "x") && c == Leaf("comment", "# why") && y == Leaf("identifier", "y")
    requires t == Leaf("conditional_expression", "").(children := [x, c, y])
    ensures GuardOf(t, NodeKinds.AllKinds()) == [Guard(GuardInfo("ternary", 1, {}))]
    ensures GuardOf(Bare(t, NodeKinds.AllKinds()), NodeKinds.AllKinds()) == [Guard(GuardInfo("ternary", 1, {"y"}))]
    ensures !GuardTidy(t, NodeKinds.AllKinds())
  {
    IdentifierIsIdent(x.kind, x.text);
    IdentifierIsIdent(y.kind, y.text);
    CommentIsComment(c.kind, c.text);
    CommentBeforeCondition(NodeKinds.AllKinds(), x, c, y, t, "ternary");
    ShippedClauses();
    GuardExactly(t, NodeKinds.AllKinds());
    assert {"y"} != {} by {
      assert "y" in {"y"};
    }
  }
}
