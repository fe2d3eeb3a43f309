/** Model of `neutralize_preprocessor` (code-graph/src/fingerprint.rs): a line-by-line machine that
blanks preprocessor directives and keeps one branch of every conditional. It simplifies conditional
inclusion, section 6.10.1 of ISO/IEC 9899:2011. */
module Preprocessor {
  import opened Condition

  // ----- lines -----

  datatype Directive = Open(live: bool) | Alternative(live: bool) | Else | EndIf | Other

  datatype Line = Text | Hash(directive: Directive)

  /** A physical line as the machine looks at it. */
  datatype Physical = Physical(body: string, line: Line, spliced: bool)

  function Word(s: string): string {
    if s != [] && IsLetter(s[0]) then [s[0]] + Word(s[1..]) else []
  }

  lemma {:induction false} WordIsPrefix(s: string)
    ensures |Word(s)| <= |s| && s[..|Word(s)|] == Word(s)
  {
    if s != [] && IsLetter(s[0]) {
      WordIsPrefix(s[1..]);
    }
  }

  function DirectiveOf(text: string): Directive {
    WordIsPrefix(text);
    var word := Word(text);
    var rest := text[|word|..];
    if word == "if" || word == "ifdef" || word == "ifndef" then Open(!(word == "if" && ConstantFalse(rest)))
    else if word == "elif" || word == "elifdef" || word == "elifndef" then
      Alternative(!(word == "elif" && ConstantFalse(rest)))
    else if word == "else" then Else
    else if word == "endif" then EndIf
    else Other
  }

  function Classify(body: string): Line {
    var trimmed := TrimStart(body);
    if trimmed != [] && trimmed[0] == '#' then Hash(DirectiveOf(TrimStart(trimmed[1..]))) else Text
  }

  /** The line is continued on the next one. */
  predicate Spliced(body: string) {
    var t := TrimEnd(body);
    t != [] && t[|t| - 1] == '\\'
  }

  // ----- the machine -----

  /** One open conditional: the enclosing text is active, this branch is, some branch was taken. */
  datatype Entry = Entry(parent: bool, branch: bool, taken: bool)

  datatype State = State(stack: seq<Entry>, continuation: bool)

  const START := State([], false)

  predicate Active(stack: seq<Entry>) {
    stack == [] || (stack[|stack| - 1].parent && stack[|stack| - 1].branch)
  }

  function Turn(stack: seq<Entry>, live: bool, closes: bool): seq<Entry>
    requires stack != []
  {
    var top := stack[|stack| - 1];
    var take := !top.taken && live;
    stack[..|stack| - 1] + [Entry(top.parent, take, top.taken || take || closes)]
  }

  function Direct(stack: seq<Entry>, d: Directive): seq<Entry> {
    match d
    case Open(live) => stack + [Entry(Active(stack), live, live)]
    case Alternative(live) => if stack == [] then stack else Turn(stack, live, false)
    case Else => if stack == [] then stack else Turn(stack, true, true)
    case EndIf => if stack == [] then stack else stack[..|stack| - 1]
    case Other => stack
  }

  function Step(st: State, body: Physical): State {
    if st.continuation then State(st.stack, body.spliced)
    else
      match body.line
      case Text => st
      case Hash(d) => State(Direct(st.stack, d), body.spliced)
  }

  predicate Kept(st: State, body: Physical) {
    !st.continuation && body.line.Text? && Active(st.stack)
  }

  function Shown(st: State, body: Physical): string {
    if Kept(st, body) then body.body else ""
  }

  function Final(st: State, bodies: seq<Physical>): State
    decreases |bodies|
  {
    if bodies == [] then st else Final(Step(st, bodies[0]), bodies[1..])
  }

  function Out(st: State, bodies: seq<Physical>): (out: seq<string>)
    ensures |out| == |bodies|
    decreases |bodies|
  {
    if bodies == [] then [] else [Shown(st, bodies[0])] + Out(Step(st, bodies[0]), bodies[1..])
  }

  lemma {:induction false} RunConcat(st: State, xs: seq<Physical>, ys: seq<Physical>)
    ensures Final(st, xs + ys) == Final(Final(st, xs), ys)
    ensures Out(st, xs + ys) == Out(st, xs) + Out(Final(st, xs), ys)
    decreases |xs|
  {
    if xs == [] {
      assert xs + ys == ys;
    } else {
      assert (xs + ys)[0] == xs[0] && (xs + ys)[1..] == xs[1..] + ys;
      RunConcat(Step(st, xs[0]), xs[1..], ys);
    }
  }

  // ----- invariants of every run, balanced or not -----

  predicate AllBranches(stack: seq<Entry>) {
    stack == [] || (AllBranches(stack[..|stack| - 1]) && stack[|stack| - 1].branch)
  }

  predicate Consistent(stack: seq<Entry>) {
    stack == [] ||
    var front, top := stack[..|stack| - 1], stack[|stack| - 1];
    Consistent(front) && top.parent == AllBranches(front) && (top.branch ==> top.taken)
  }

  /** How often a branch of each open conditional has been switched on so far. */
  function Activations(stack: seq<Entry>, counts: seq<nat>, d: Directive): seq<nat>
    requires |counts| == |stack|
  {
    var after := Direct(stack, d);
    match d
    case Open(_) => counts + [if after[|after| - 1].branch then 1 else 0]
    case Alternative(_) => if stack == [] then counts else Bump(counts, after[|after| - 1].branch)
    case Else => if stack == [] then counts else Bump(counts, after[|after| - 1].branch)
    case EndIf => if stack == [] then counts else counts[..|counts| - 1]
    case Other => counts
  }

  function Bump(counts: seq<nat>, on: bool): seq<nat>
    requires counts != []
  {
    counts[..|counts| - 1] + [counts[|counts| - 1] + if on then 1 else 0]
  }

  function StepCounts(st: State, counts: seq<nat>, body: Physical): seq<nat>
    requires |counts| == |st.stack|
  {
    if st.continuation || body.line.Text? then counts
    else Activations(st.stack, counts, body.line.directive)
  }

  lemma {:induction false} CountsTrackStack(st: State, counts: seq<nat>, body: Physical)
    requires |counts| == |st.stack|
    ensures |StepCounts(st, counts, body)| == |Step(st, body).stack|
  {
  }

  function FinalCounts(st: State, counts: seq<nat>, bodies: seq<Physical>): seq<nat>
    requires |counts| == |st.stack|
    decreases |bodies|
  {
    if bodies == [] then counts
    else
      CountsTrackStack(st, counts, bodies[0]);
      FinalCounts(Step(st, bodies[0]), StepCounts(st, counts, bodies[0]), bodies[1..])
  }

  /** Each count is 1 exactly when the conditional has taken a branch, else 0. */
  ghost predicate CountsAreTaken(stack: seq<Entry>, counts: seq<nat>) {
    |counts| == |stack| && forall i :: 0 <= i < |stack| ==> counts[i] == if stack[i].taken then 1 else 0
  }

  lemma {:induction false} TurnKeepsInvariant(stack: seq<Entry>, counts: seq<nat>, live: bool, closes: bool)
    requires stack != [] && Consistent(stack) && CountsAreTaken(stack, counts)
    requires closes ==> live
    ensures var after := Turn(stack, live, closes);
            Consistent(after) && CountsAreTaken(after, Bump(counts, after[|after| - 1].branch))
  {
    var after := Turn(stack, live, closes);
    assert after[..|stack| - 1] == stack[..|stack| - 1];
  }

  lemma {:induction false} OpenKeepsInvariant(stack: seq<Entry>, counts: seq<nat>, live: bool)
    requires Consistent(stack) && CountsAreTaken(stack, counts)
    ensures var after := stack + [Entry(Active(stack), live, live)];
            Consistent(after) && CountsAreTaken(after, counts + [if live then 1 else 0])
  {
    ActiveIsAll(stack);
    assert (stack + [Entry(Active(stack), live, live)])[..|stack|] == stack;
  }

  lemma {:induction false} DirectKeepsInvariant(stack: seq<Entry>, counts: seq<nat>, d: Directive)
    requires Consistent(stack) && CountsAreTaken(stack, counts)
    ensures Consistent(Direct(stack, d)) && CountsAreTaken(Direct(stack, d), Activations(stack, counts, d))
  {
    if d.Open? {
      OpenKeepsInvariant(stack, counts, d.live);
    } else if stack != [] && d.Alternative? {
      TurnKeepsInvariant(stack, counts, d.live, false);
    } else if stack != [] && d.Else? {
      TurnKeepsInvariant(stack, counts, true, true);
    }
  }

  lemma {:induction false} StepKeepsInvariant(st: State, counts: seq<nat>, body: Physical)
    requires Consistent(st.stack) && CountsAreTaken(st.stack, counts)
    ensures Consistent(Step(st, body).stack) && CountsAreTaken(Step(st, body).stack, StepCounts(st, counts, body))
  {
    if !st.continuation && body.line.Hash? {
      DirectKeepsInvariant(st.stack, counts, body.line.directive);
    }
  }

  /** On a consistent stack the top entry alone tells whether every open branch is on. */
  lemma {:induction false} ActiveIsAll(stack: seq<Entry>)
    requires Consistent(stack)
    ensures Active(stack) == AllBranches(stack)
  {
  }

  /** After any input whatsoever, also unbalanced: the activity test equals the conjunction of all open
      branch flags, and no open conditional has switched on more than one branch. */
  lemma {:induction false} EveryRun(st: State, counts: seq<nat>, bodies: seq<Physical>)
    requires Consistent(st.stack) && CountsAreTaken(st.stack, counts)
    ensures var stack := Final(st, bodies).stack;
            && Active(stack) == AllBranches(stack)
            && CountsAreTaken(stack, FinalCounts(st, counts, bodies))
            && forall i :: 0 <= i < |stack| ==> FinalCounts(st, counts, bodies)[i] <= 1
    decreases |bodies|
  {
    if bodies == [] {
      ActiveIsAll(st.stack);
    } else {
      StepKeepsInvariant(st, counts, bodies[0]);
      EveryRun(Step(st, bodies[0]), StepCounts(st, counts, bodies[0]), bodies[1..]);
    }
  }

  // ----- meaning of a well-nested source -----

  /** A source as the grammar sees it; a directive is the list of its spliced physical lines. */
  datatype Items =
    | Nil
    | Plain(body: Physical, rest: Items)
    | Aside(other: seq<Physical>, rest: Items)
    | Conditional(first: seq<Physical>, group: Items, arms: Arms, rest: Items)

  datatype Arms = Closed(endif: seq<Physical>) | Arm(dir: seq<Physical>, group: Items, next: Arms)

  ghost predicate IsDirective(dir: seq<Physical>) {
    && dir != [] && dir[0].line.Hash?
    && (forall i :: 0 <= i < |dir| - 1 ==> dir[i].spliced)
    && !dir[|dir| - 1].spliced
  }

  ghost function Meant(dir: seq<Physical>): Directive
    requires IsDirective(dir)
  {
    dir[0].line.directive
  }

  ghost predicate WellFormed(items: Items) {
    match items
    case Nil => true
    case Plain(body, rest) => body.line.Text? && WellFormed(rest)
    case Aside(dir, rest) => IsDirective(dir) && Meant(dir) == Other && WellFormed(rest)
    case Conditional(first, group, arms, rest) =>
      IsDirective(first) && Meant(first).Open? && WellFormed(group) && WellFormedArms(arms) && WellFormed(rest)
  }

  ghost predicate WellFormedArms(arms: Arms) {
    match arms
    case Closed(endif) => IsDirective(endif) && Meant(endif) == EndIf
    case Arm(dir, group, next) =>
      IsDirective(dir) && (Meant(dir).Alternative? || Meant(dir).Else?) && WellFormed(group) && WellFormedArms(next)
  }

  function Lines(items: Items): seq<Physical> {
    match items
    case Nil => []
    case Plain(body, rest) => [body] + Lines(rest)
    case Aside(dir, rest) => dir + Lines(rest)
    case Conditional(first, group, arms, rest) => first + Lines(group) + ArmLines(arms) + Lines(rest)
  }

  function ArmLines(arms: Arms): seq<Physical> {
    match arms
    case Closed(endif) => endif
    case Arm(dir, group, next) => dir + Lines(group) + ArmLines(next)
  }

  function Blanks(n: nat): (out: seq<string>)
    ensures |out| == n && forall i :: 0 <= i < n ==> out[i] == ""
  {
    seq(n, _ => "")
  }

  /** A branch may be kept unless it is a constant-false #if or #elif. */
  ghost predicate Live(d: Directive) {
    match d
    case Open(live) => live
    case Alternative(live) => live
    case Else => true
    case _ => false
  }

  ghost function Flags(arms: Arms): seq<bool>
    requires WellFormedArms(arms)
  {
    match arms
    case Closed(_) => []
    case Arm(dir, _, next) => [Live(Meant(dir))] + Flags(next)
  }

  /** Branch k is the first live one. */
  ghost predicate Chosen(flags: seq<bool>, k: nat) {
    k < |flags| && flags[k] && forall j :: 0 <= j < k ==> !flags[j]
  }

  /** The recursive meaning: in active text every conditional keeps its first live branch, and nothing
      inside a dropped branch is kept. */
  ghost function Meaning(items: Items, active: bool): seq<string>
    requires WellFormed(items)
  {
    match items
    case Nil => []
    case Plain(body, rest) => [if active then body.body else ""] + Meaning(rest, active)
    case Aside(dir, rest) => Blanks(|dir|) + Meaning(rest, active)
    case Conditional(first, group, arms, rest) =>
      var flags := [Live(Meant(first))] + Flags(arms);
      Blanks(|first|) + Meaning(group, active && Chosen(flags, 0)) + ArmsMeaning(arms, active, flags, 1)
      + Meaning(rest, active)
  }

  ghost function ArmsMeaning(arms: Arms, active: bool, flags: seq<bool>, k: nat): seq<string>
    requires WellFormedArms(arms)
  {
    match arms
    case Closed(endif) => Blanks(|endif|)
    case Arm(dir, group, next) =>
      Blanks(|dir|) + Meaning(group, active && Chosen(flags, k)) + ArmsMeaning(next, active, flags, k + 1)
  }

  // ----- the documented rule -----

  /** Which branches stand under an #else. */
  ghost function Elses(arms: Arms): seq<bool>
    requires WellFormedArms(arms)
  {
    match arms
    case Closed(_) => []
    case Arm(dir, _, next) => [Meant(dir).Else?] + Elses(next)
  }

  /** The branch the documentation names: the first one, except for a constant-false #if, where it is the one
      under (the first) #else. */
  ghost predicate Documented(flags: seq<bool>, elses: seq<bool>, k: nat) {
    if flags != [] && flags[0] then k == 0
    else k < |elses| && elses[k] && forall j :: 0 <= j < k ==> !elses[j]
  }

  /** No live #elif before the first #else, or anywhere if there is none. */
  ghost predicate NoLiveElif(arms: Arms)
    requires WellFormedArms(arms)
  {
    match arms
    case Closed(_) => true
    case Arm(dir, _, next) => Meant(dir).Else? || (!Live(Meant(dir)) && NoLiveElif(next))
  }

  ghost predicate Agree(flags: seq<bool>, elses: seq<bool>) {
    forall k: nat :: Chosen(flags, k) <==> Documented(flags, elses, k)
  }

  /** A dead branch in front shifts both by one. */
  lemma {:induction false} ShiftOne(flags: seq<bool>, elses: seq<bool>, f: seq<bool>, e: seq<bool>, k: nat)
    requires flags == [false] + f && elses == [false] + e && k > 0
    ensures Chosen(flags, k) <==> Chosen(f, k - 1)
    ensures Documented(flags, elses, k) <==> Documented([false], e, k - 1)
  {
    assert forall j :: 0 < j < |flags| ==> flags[j] == f[j - 1];
    assert forall j :: 0 < j < |elses| ==> elses[j] == e[j - 1];
    assert forall j :: 0 <= j < |f| ==> f[j] == flags[j + 1];
    assert forall j :: 0 <= j < |e| ==> e[j] == elses[j + 1];
  }

  /** The first live arm is the first #else. */
  ghost predicate ElseFirst(f: seq<bool>, e: seq<bool>) {
    forall k: nat :: Chosen(f, k) <==> Documented([false], e, k)
  }

  lemma {:induction false} DeadFront(f: seq<bool>, e: seq<bool>)
    ensures Agree([false] + f, [false] + e) <==> ElseFirst(f, e)
    ensures ElseFirst([false] + f, [false] + e) <==> ElseFirst(f, e)
  {
    var flags, elses := [false] + f, [false] + e;
    forall k: nat | k > 0
      ensures Chosen(flags, k) <==> Chosen(f, k - 1)
      ensures Documented(flags, elses, k) <==> Documented([false], e, k - 1)
      ensures Documented([false], elses, k) <==> Documented([false], e, k - 1)
    {
      ShiftOne(flags, elses, f, e, k);
    }
    if k: nat :| Chosen(f, k) != Documented([false], e, k) {
      ShiftOne(flags, elses, f, e, k + 1);
      assert Chosen(flags, k + 1) != Documented(flags, elses, k + 1);
      assert Chosen(flags, k + 1) != Documented([false], elses, k + 1);
    }
  }

  lemma {:induction false} LiveFront(f: seq<bool>, e: seq<bool>, isElse: bool)
    ensures ElseFirst([true] + f, [isElse] + e) <==> isElse
  {
    var flags, elses := [true] + f, [isElse] + e;
    assert Chosen(flags, 0) && (Documented([false], elses, 0) <==> isElse);
    forall k: nat | isElse ensures Chosen(flags, k) <==> Documented([false], elses, k) {
      assert flags[0] && elses[0];
    }
  }

  lemma {:induction false} ArmsAgree(arms: Arms)
    requires WellFormedArms(arms)
    ensures NoLiveElif(arms) <==> ElseFirst(Flags(arms), Elses(arms))
  {
    match arms
    case Closed(_) =>
    case Arm(dir, group, next) =>
      ArmsAgree(next);
      if Live(Meant(dir)) {
        LiveFront(Flags(next), Elses(next), Meant(dir).Else?);
      } else {
        DeadFront(Flags(next), Elses(next));
      }
  }

  /** The branch kept is the documented one exactly when the opening directive is live, or no live #elif
      stands before the first #else. */
  lemma {:induction false} DocumentedExactly(first: seq<Physical>, arms: Arms)
    requires IsDirective(first) && Meant(first).Open? && WellFormedArms(arms)
    ensures Agree([Live(Meant(first))] + Flags(arms), [false] + Elses(arms)) <==>
            Live(Meant(first)) || NoLiveElif(arms)
  {
    ArmsAgree(arms);
    if Live(Meant(first)) {
      var flags, elses := [true] + Flags(arms), [false] + Elses(arms);
      assert flags[0];
      assert forall k: nat :: Chosen(flags, k) <==> k == 0;
    } else {
      DeadFront(Flags(arms), Elses(arms));
    }
  }

  /** The recursive meaning as documented. */
  ghost function DocumentedMeaning(items: Items, active: bool): seq<string>
    requires WellFormed(items)
  {
    match items
    case Nil => []
    case Plain(body, rest) => [if active then body.body else ""] + DocumentedMeaning(rest, active)
    case Aside(dir, rest) => Blanks(|dir|) + DocumentedMeaning(rest, active)
    case Conditional(first, group, arms, rest) =>
      var flags, elses := [Live(Meant(first))] + Flags(arms), [false] + Elses(arms);
      Blanks(|first|) + DocumentedMeaning(group, active && Documented(flags, elses, 0))
      + DocumentedArms(arms, active, flags, elses, 1) + DocumentedMeaning(rest, active)
  }

  ghost function DocumentedArms(arms: Arms, active: bool, flags: seq<bool>, elses: seq<bool>, k: nat): seq<string>
    requires WellFormedArms(arms)
  {
    match arms
    case Closed(endif) => Blanks(|endif|)
    case Arm(dir, group, next) =>
      Blanks(|dir|) + DocumentedMeaning(group, active && Documented(flags, elses, k))
      + DocumentedArms(next, active, flags, elses, k + 1)
  }

  /** Every conditional, also inside other ones, meets the condition of `DocumentedExactly`. */
  ghost predicate Plainly(items: Items)
    requires WellFormed(items)
  {
    match items
    case Nil => true
    case Plain(_, rest) => Plainly(rest)
    case Aside(_, rest) => Plainly(rest)
    case Conditional(first, group, arms, rest) =>
      (Live(Meant(first)) || NoLiveElif(arms)) && Plainly(group) && PlainlyArms(arms) && Plainly(rest)
  }

  ghost predicate PlainlyArms(arms: Arms)
    requires WellFormedArms(arms)
  {
    match arms
    case Closed(_) => true
    case Arm(_, group, next) => Plainly(group) && PlainlyArms(next)
  }

  /** So the documentation tells the meaning of every text whose conditionals all meet it. */
  lemma {:induction false} MeaningAsDocumented(items: Items, active: bool)
    requires WellFormed(items) && Plainly(items)
    ensures Meaning(items, active) == DocumentedMeaning(items, active)
  {
    match items
    case Nil =>
    case Plain(_, rest) => MeaningAsDocumented(rest, active);
    case Aside(_, rest) => MeaningAsDocumented(rest, active);
    case Conditional(first, group, arms, rest) =>
      var flags, elses := [Live(Meant(first))] + Flags(arms), [false] + Elses(arms);
      DocumentedExactly(first, arms);
      MeaningAsDocumented(group, active && Chosen(flags, 0));
      ArmsAsDocumented(arms, active, flags, elses, 1);
      MeaningAsDocumented(rest, active);
  }

  lemma {:induction false} ArmsAsDocumented(arms: Arms, active: bool, flags: seq<bool>, elses: seq<bool>, k: nat)
    requires WellFormedArms(arms) && PlainlyArms(arms) && Agree(flags, elses)
    ensures ArmsMeaning(arms, active, flags, k) == DocumentedArms(arms, active, flags, elses, k)
  {
    if arms.Arm? {
      MeaningAsDocumented(arms.group, active && Chosen(flags, k));
      ArmsAsDocumented(arms.next, active, flags, elses, k + 1);
    }
  }

  /** The machine swallows a whole spliced directive and acts on it once. */
  lemma {:induction false} RunContinuation(stack: seq<Entry>, dir: seq<Physical>)
    requires dir != [] && (forall i :: 0 <= i < |dir| - 1 ==> dir[i].spliced) && !dir[|dir| - 1].spliced
    ensures Final(State(stack, true), dir) == State(stack, false)
    ensures Out(State(stack, true), dir) == Blanks(|dir|)
  {
    if |dir| == 1 {
      assert dir[1..] == [];
    } else {
      RunContinuation(stack, dir[1..]);
    }
  }

  lemma {:induction false} RunDirective(stack: seq<Entry>, dir: seq<Physical>)
    requires IsDirective(dir)
    ensures Final(State(stack, false), dir) == State(Direct(stack, Meant(dir)), false)
    ensures Out(State(stack, false), dir) == Blanks(|dir|)
  {
    var after := Direct(stack, Meant(dir));
    StepDirective(State(stack, false), dir[0], Meant(dir));
    if |dir| > 1 {
      RunContinuation(after, dir[1..]);
    } else {
      RunNothing(State(after, false), dir[1..]);
    }
  }

  lemma {:induction false} RunNothing(st: State, bodies: seq<Physical>)
    requires bodies == []
    ensures Final(st, bodies) == st && Out(st, bodies) == []
  {
  }

  lemma {:induction false} StepDirective(st: State, body: Physical, d: Directive)
    requires !st.continuation && body.line == Hash(d)
    ensures Step(st, body) == State(Direct(st.stack, d), body.spliced) && Shown(st, body) == ""
  {
  }

  /** On every well-nested list of lines the machine computes the recursive meaning, inside any
      surrounding text, and leaves the stack as it found it. */
  lemma {:induction false} MachineIsMeaning(stack: seq<Entry>, items: Items)
    requires WellFormed(items)
    ensures Final(State(stack, false), Lines(items)) == State(stack, false)
    ensures Out(State(stack, false), Lines(items)) == Meaning(items, Active(stack))
    decreases items, 1
  {
    var st := State(stack, false);
    match items
    case Nil =>
    case Plain(body, rest) =>
      RunConcat(st, [body], Lines(rest));
      assert [body][1..] == [];
      MachineIsMeaning(stack, rest);
    case Aside(dir, rest) =>
      RunConcat(st, dir, Lines(rest));
      RunDirective(stack, dir);
      MachineIsMeaning(stack, rest);
    case Conditional(first, group, arms, rest) =>
      RunConcat(st, first + Lines(group) + ArmLines(arms), Lines(rest));
      ConditionalIsMeaning(stack, items, first, group, arms);
      MachineIsMeaning(stack, rest);
  }

  lemma {:induction false} ConditionalIsMeaning(stack: seq<Entry>, items: Items, first: seq<Physical>,
                                                group: Items, arms: Arms)
    requires group < items && arms < items
    requires IsDirective(first) && Meant(first).Open? && WellFormed(group) && WellFormedArms(arms)
    ensures var st, flags := State(stack, false), [Live(Meant(first))] + Flags(arms);
            && Final(st, first + Lines(group) + ArmLines(arms)) == st
            && Out(st, first + Lines(group) + ArmLines(arms))
                == Blanks(|first|) + Meaning(group, Active(stack) && Chosen(flags, 0)) +
                   ArmsMeaning(arms, Active(stack), flags, 1)
    decreases items, 0
  {
    var st, live := State(stack, false), Meant(first).live;
    var top, flags := Entry(Active(stack), live, live), [live] + Flags(arms);
    RunConcat(st, first + Lines(group), ArmLines(arms));
    RunConcat(st, first, Lines(group));
    RunDirective(stack, first);
    MachineIsMeaning(stack + [top], group);
    assert flags[1..] == Flags(arms) && flags[0] == live;
    ArmsAreMeaning(stack, top, arms, flags, 1);
  }

  lemma {:induction false} ArmsAreMeaning(stack: seq<Entry>, top: Entry, arms: Arms, flags: seq<bool>, k: nat)
    requires WellFormedArms(arms) && k <= |flags| && flags[k..] == Flags(arms)
    requires top.parent == Active(stack) && (top.taken <==> exists j :: 0 <= j < k && flags[j])
    ensures Final(State(stack + [top], false), ArmLines(arms)) == State(stack, false)
    ensures Out(State(stack + [top], false), ArmLines(arms)) == ArmsMeaning(arms, Active(stack), flags, k)
    decreases arms
  {
    var st := State(stack + [top], false);
    match arms
    case Closed(endif) =>
      RunDirective(stack + [top], endif);
      assert (stack + [top])[..|stack|] == stack;
    case Arm(dir, group, next) =>
      var next' := Turned(stack, top, dir);
      assert flags[k] == Flags(arms)[0] && flags[k + 1..] == flags[k..][1..] == Flags(next);
      RunConcat(st, dir + Lines(group), ArmLines(next));
      RunConcat(st, dir, Lines(group));
      RunDirective(stack + [top], dir);
      MachineIsMeaning(stack + [next'], group);
      assert next'.branch == Chosen(flags, k);
      ArmsAreMeaning(stack, next', next, flags, k + 1);
  }

  /** The entry of a conditional after one of its #elif or #else lines. */
  lemma {:induction false} Turned(stack: seq<Entry>, top: Entry, dir: seq<Physical>) returns (next: Entry)
    requires IsDirective(dir) && (Meant(dir).Alternative? || Meant(dir).Else?)
    ensures Direct(stack + [top], Meant(dir)) == stack + [next]
    ensures next.parent == top.parent && next.branch == (!top.taken && Live(Meant(dir)))
    ensures next.taken == (top.taken || Live(Meant(dir)))
  {
    var take := !top.taken && Live(Meant(dir));
    next := Entry(top.parent, take, top.taken || take || Meant(dir).Else?);
    assert (stack + [top])[..|stack|] == stack;
  }

  // ----- every balanced list of lines is well nested -----

  /** Number of physical lines of the directive that starts the list; 0 if it is never finished. */
  function SpliceLength(bodies: seq<Physical>): (n: nat)
    ensures n <= |bodies|
    decreases |bodies|
  {
    if bodies == [] then 0
    else if !bodies[0].spliced then 1
    else
      var rest := SpliceLength(bodies[1..]);
      if rest == 0 then 0 else rest + 1
  }

  function NextDepth(d: Directive, depth: nat): nat {
    if d.Open? then depth + 1 else if d.EndIf? && depth > 0 then depth - 1 else depth
  }

  /** Counting alone: conditionals are closed in order, #elif and #else occur inside one, and no
      directive is left unfinished at the end of the input. */
  predicate Balanced(bodies: seq<Physical>, depth: nat)
    decreases |bodies|
  {
    if bodies == [] then depth == 0
    else
      match bodies[0].line
      case Text => Balanced(bodies[1..], depth)
      case Hash(d) =>
        var n := SpliceLength(bodies);
        n > 0 && (depth > 0 || d.Open? || d.Other?) && Balanced(bodies[n..], NextDepth(d, depth))
  }

  lemma {:induction false} SpliceIsDirective(bodies: seq<Physical>)
    requires SpliceLength(bodies) > 0
    ensures var n := SpliceLength(bodies);
            (forall i :: 0 <= i < n - 1 ==> bodies[i].spliced) && !bodies[n - 1].spliced
    decreases |bodies|
  {
    if bodies[0].spliced {
      SpliceIsDirective(bodies[1..]);
      forall i | 0 <= i < SpliceLength(bodies) - 1 ensures bodies[i].spliced {
        if i > 0 {
          assert bodies[i] == bodies[1..][i - 1];
        }
      }
    }
  }

  lemma {:induction false} TakeDirective(bodies: seq<Physical>, depth: nat)
    returns (dir: seq<Physical>, rest: seq<Physical>)
    requires bodies != [] && bodies[0].line.Hash? && Balanced(bodies, depth)
    ensures bodies == dir + rest && IsDirective(dir) && Meant(dir) == bodies[0].line.directive
    ensures Balanced(rest, NextDepth(Meant(dir), depth)) && |rest| < |bodies|
  {
    var n := SpliceLength(bodies);
    SpliceIsDirective(bodies);
    dir, rest := bodies[..n], bodies[n..];
  }

  /** The list starts with a line that ends the group it is in. */
  ghost predicate EndsGroup(bodies: seq<Physical>) {
    bodies != [] && bodies[0].line.Hash?
    && var d := bodies[0].line.directive; d.Alternative? || d.Else? || d.EndIf?
  }

  /** items is a well-formed reading of the lines up to rest. */
  ghost predicate Reads(bodies: seq<Physical>, items: Items, rest: seq<Physical>) {
    WellFormed(items) && bodies == Lines(items) + rest
  }

  ghost predicate ReadsArms(bodies: seq<Physical>, arms: Arms, rest: seq<Physical>) {
    WellFormedArms(arms) && bodies == ArmLines(arms) + rest
  }

  lemma {:induction false} ParseItems(bodies: seq<Physical>, depth: nat) returns (items: Items, rest: seq<Physical>)
    requires Balanced(bodies, depth)
    ensures Reads(bodies, items, rest) && Balanced(rest, depth) && |rest| <= |bodies|
    ensures rest == [] || EndsGroup(rest)
    decreases |bodies|, 2
  {
    if bodies == [] || EndsGroup(bodies) {
      items, rest := Nil, bodies;
    } else if bodies[0].line.Text? {
      var after;
      after, rest := ParseItems(bodies[1..], depth);
      items := Plain(bodies[0], after);
      JoinPlain(bodies, after, rest);
    } else {
      items, rest := ParseDirective(bodies, depth);
    }
  }

  /** A list that starts with a directive other than one that ends a group. */
  lemma {:induction false} ParseDirective(bodies: seq<Physical>, depth: nat) returns (items: Items, rest: seq<Physical>)
    requires Balanced(bodies, depth) && bodies != [] && bodies[0].line.Hash? && !EndsGroup(bodies)
    ensures Reads(bodies, items, rest) && Balanced(rest, depth) && |rest| <= |bodies|
    ensures rest == [] || EndsGroup(rest)
    decreases |bodies|, 1
  {
    var dir, tail := TakeDirective(bodies, depth);
    if Meant(dir) == Other {
      var after;
      after, rest := ParseItems(tail, depth);
      items := Aside(dir, after);
      JoinAside(bodies, dir, tail, after, rest);
    } else {
      var group, r1 := ParseItems(tail, depth + 1);
      var arms, r2 := ParseArms(r1, depth + 1);
      var after;
      after, rest := ParseItems(r2, depth);
      items := Conditional(dir, group, arms, after);
      JoinConditional(bodies, dir, tail, group, r1, arms, r2, after, rest);
    }
  }

  lemma {:induction false} ParseArms(bodies: seq<Physical>, depth: nat) returns (arms: Arms, rest: seq<Physical>)
    requires depth > 0 && Balanced(bodies, depth) && EndsGroup(bodies)
    ensures ReadsArms(bodies, arms, rest) && Balanced(rest, depth - 1) && |rest| < |bodies|
    decreases |bodies|, 0
  {
    var dir, tail := TakeDirective(bodies, depth);
    if Meant(dir) == EndIf {
      arms, rest := Closed(dir), tail;
    } else {
      var group, r1 := ParseItems(tail, depth);
      var next;
      next, rest := ParseArms(r1, depth);
      arms := Arm(dir, group, next);
      JoinArm(bodies, dir, tail, group, r1, next, rest);
    }
  }

  lemma {:induction false} JoinPlain(bodies: seq<Physical>, after: Items, rest: seq<Physical>)
    requires bodies != [] && bodies[0].line.Text? && Reads(bodies[1..], after, rest)
    ensures Reads(bodies, Plain(bodies[0], after), rest)
  {
    assert bodies == [bodies[0]] + bodies[1..];
  }

  lemma {:induction false} JoinAside(bodies: seq<Physical>, dir: seq<Physical>, tail: seq<Physical>, after: Items,
                                     rest: seq<Physical>)
    requires IsDirective(dir) && Meant(dir) == Other && bodies == dir + tail && Reads(tail, after, rest)
    ensures Reads(bodies, Aside(dir, after), rest)
  {
  }

  lemma {:induction false} JoinConditional(bodies: seq<Physical>, dir: seq<Physical>, tail: seq<Physical>, group: Items,
                        r1: seq<Physical>, arms: Arms, r2: seq<Physical>, after: Items, rest: seq<Physical>)
    requires IsDirective(dir) && Meant(dir).Open? && bodies == dir + tail && Reads(tail, group, r1)
    requires ReadsArms(r1, arms, r2) && Reads(r2, after, rest)
    ensures Reads(bodies, Conditional(dir, group, arms, after), rest)
  {
  }

  lemma {:induction false} JoinArm(bodies: seq<Physical>, dir: seq<Physical>, tail: seq<Physical>, group: Items,
                r1: seq<Physical>, next: Arms, rest: seq<Physical>)
    requires IsDirective(dir) && (Meant(dir).Alternative? || Meant(dir).Else?) && bodies == dir + tail
    requires Reads(tail, group, r1) && ReadsArms(r1, next, rest)
    ensures ReadsArms(bodies, Arm(dir, group, next), rest)
  {
  }

  /** So the recursive meaning explains the machine on every balanced list of lines. */
  lemma {:induction false} BalancedIsWellNested(bodies: seq<Physical>) returns (items: Items)
    requires Balanced(bodies, 0)
    ensures WellFormed(items) && Lines(items) == bodies
    ensures Out(START, bodies) == Meaning(items, true) && Final(START, bodies) == START
  {
    var rest;
    items, rest := ParseItems(bodies, 0);
    MachineIsMeaning([], items);
  }
}
