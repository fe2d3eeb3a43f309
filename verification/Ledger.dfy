/** Model of `evaluate` (scripts/ledger-promote.py): the promotion and review verdict on every feature of
the ledger, given the evidence of one verifier run and the history of green commits. */
module Ledger {

  datatype Option<T> = None | Some(value: T)

  datatype Status = Stable | Beta | InProgress | Planned | Deferred | Implemented | Active | Unknown

  /** `Flag` is a Python bool, which counts as a number only in the metadata. */
  datatype Progress = Flag(on: bool) | NotNumeric | NotFinite | Percent(value: real)

  /** `states` holds the trimmed, lower-cased status and state of a step that is a dictionary. */
  datatype Step = Step(states: Option<seq<string>>, text: string)

  datatype Gaps = MalformedGaps(truthy: bool) | Gaps(count: nat)

  datatype Stamp = Stamp(runUrl: string, sha: string, promotedAt: string)

  /** `tests` and `steps` are None when they are not lists; an absent list is an empty one. */
  datatype Feature = Feature(status: Status, tests: Option<seq<string>>, progress: Progress,
                             steps: Option<seq<Step>>, notes: string, gaps: Gaps,
                             passes: bool, lastTested: string, stamp: Option<Stamp>)

  type Features = map<string, Feature>

  /** What one verifier run says of one feature, in the gating lane and in the candidate lane. */
  datatype Result = Result(passed: set<string>, failed: set<string>, attributed: Option<map<string, set<string>>>,
                           candPassed: set<string>, candFailed: set<string>,
                           candAttributed: Option<map<string, set<string>>>,
                           declared: set<string>, complete: bool)

  const NO_RESULT := Result({}, {}, None, {}, {}, None, {}, false)

  /** A missing SHA, URL or conclusion is the empty string. `chain` is the list of main SHAs. */
  datatype Evidence = Evidence(sha: string, ledgerSha: Option<string>, e2eSha: Option<string>,
                               ledgerConclusion: string, e2eConclusion: string, runUrl: string,
                               verifiedAt: string, chain: Option<seq<string>>, targets: set<string>,
                               results: map<string, Result>, complete: bool)

  type History = map<string, seq<string>>

  datatype IndexedTest = IndexedTest(path: string, name: string, bug: bool)

  /** The repository and the regular expressions: `fileTarget` and `boundTarget` give the target named by
      a declared test, `markers` the open-gap words of a note. */
  datatype World = World(index: seq<IndexedTest>, linked: (string, IndexedTest) -> bool,
                         fileTarget: string -> Option<string>, boundTarget: string -> Option<string>,
                         present: string -> bool, pending: string -> bool, markers: string -> seq<string>)

  datatype Reason =
    | ShaMismatch | MissingRunUrl | InvalidChain | RunsMustSucceed
    | ProgressNotNumeric | ProgressNotFinite | ProgressBelow(value: real)
    | StepsMalformed | StepPending(text: string) | HonestyNote(markers: seq<string>)
    | GapsMalformed | OpenGaps(count: nat)
    | NoDeclaredTests | EvidenceIncomplete | DeclaredDiffers | MissingFromIndex(test: string)
    | TestsFailed | NoIntegration | BugIgnored | ShortStreak(count: nat, wanted: nat)
    | NotPromotable | Frozen

  datatype Review = Skipped(reason: Reason) | SkippedIncomplete | GapsPresent | Failing(tests: set<string>) | Unlinked

  datatype Transition = BetaToStable | PlannedToBeta | InProgressToBeta | StableToBeta

  datatype Verdict = Verdict(eligible: bool, reasons: seq<Reason>, transition: Option<Transition>,
                             informational: seq<Reason>, flagged: bool, review: seq<Review>)

  function When<T>(holds: bool, reason: T): seq<T> {
    if holds then [reason] else []
  }

  ghost predicate Distinct(s: seq<string>) {
    forall i, j :: 0 <= i < j < |s| ==> s[i] != s[j]
  }

  function Members(s: seq<string>): set<string> {
    set x | x in s
  }

  /** As many members as elements, the test the source makes. */
  predicate NoRepeats(s: seq<string>) {
    |Members(s)| == |s|
  }

  // ----- evidence -----

  function Chain(e: Evidence): seq<string> {
    if e.chain.Some? then e.chain.value else [e.sha]
  }

  function Common(e: Evidence): seq<Reason> {
    When(e.sha == "" || (e.ledgerSha.Some? && e.ledgerSha.value != e.sha)
         || (e.e2eSha.Some? && e.e2eSha.value != e.sha), ShaMismatch) +
    When(e.runUrl == "", MissingRunUrl) +
    When(Chain(e) == [] || Chain(e)[0] != e.sha || !NoRepeats(Chain(e)), InvalidChain)
  }

  function LaneCommon(e: Evidence): seq<Reason> {
    Common(e) + When(e.ledgerConclusion != "success" || e.e2eConclusion != "success", RunsMustSucceed)
  }

  function ResultOf(e: Evidence, fid: string): Result {
    if fid in e.results then e.results[fid] else NO_RESULT
  }

  function Lookup(m: Option<map<string, set<string>>>, test: string): set<string> {
    if m.Some? && test in m.value then m.value[test] else {}
  }

  function TargetsIn(m: Option<map<string, set<string>>>): set<string> {
    if m.None? then {} else set t, x | t in m.value && x in m.value[t] :: x
  }

  /** Integration targets seen in the candidate lane of any feature. */
  function CandidateTargets(e: Evidence): set<string> {
    set fid, x | fid in e.results && x in TargetsIn(e.results[fid].candAttributed) :: x
  }

  predicate Gating(s: Status) {
    s == Stable || s == Beta || s == Implemented || s == Active || s == InProgress
  }

  /** Tests declared by some gating feature. */
  function GatingDeclared(features: Features): set<string> {
    set fid, t | fid in features && Gating(features[fid].status) && t in Declared(features[fid]) :: t
  }

  function Declared(f: Feature): seq<string> {
    if f.tests.Some? then f.tests.value else []
  }

  // ----- completeness -----

  predicate StepOpen(w: World, s: Step) {
    || (s.states.Some? && (s.states.value == []
                           || exists state :: state in s.states.value && !Finished(state)))
    || w.pending(s.text)
  }

  predicate Finished(state: string) {
    state == "done" || state == "complete" || state == "completed" || state == "implemented"
  }

  function OpenSteps(w: World, steps: seq<Step>): seq<Reason> {
    if steps == [] then []
    else
      var last := steps[|steps| - 1];
      OpenSteps(w, steps[..|steps| - 1]) + When(StepOpen(w, last), StepPending(Head(last.text, 60)))
  }

  function Head(s: string, n: nat): string {
    if |s| <= n then s else s[..n]
  }

  function ProgressReasons(p: Progress): seq<Reason> {
    match p
    case Flag(_) => [ProgressNotNumeric]
    case NotNumeric => [ProgressNotNumeric]
    case NotFinite => [ProgressNotFinite]
    case Percent(value) => When(value < 100.0, ProgressBelow(value))
  }

  function Completeness(w: World, f: Feature): seq<Reason> {
    ProgressReasons(f.progress) +
    StepReasons(w, f.steps) +
    When(w.markers(f.notes) != [], HonestyNote(w.markers(f.notes))) +
    GapReasons(f.gaps)
  }

  function StepReasons(w: World, steps: Option<seq<Step>>): seq<Reason> {
    if steps.None? then [StepsMalformed] else OpenSteps(w, steps.value)
  }

  function GapReasons(g: Gaps): seq<Reason> {
    match g
    case MalformedGaps(_) => [GapsMalformed]
    case Gaps(count) => When(count > 0, OpenGaps(count))
  }

  /** s occurs in t. */
  predicate Mentions(t: string, s: string) {
    exists i :: 0 <= i <= |t| - |s| && StandsAt(s, t, i)
  }

  predicate StandsAt(s: string, t: string, i: nat)
    requires i + |s| <= |t|
  {
    t[i..i + |s|] == s
  }

  /** The source recognises malformed data by words in the text of the reason, so a pending step whose
      text holds one of these words blocks as well. */
  predicate SoundsMalformed(text: string) {
    Mentions(text, "malformed") || Mentions(text, "not numeric") || Mentions(text, "not finite")
  }

  predicate Blocks(r: Reason) {
    match r
    case ProgressNotNumeric => true
    case ProgressNotFinite => true
    case StepsMalformed => true
    case GapsMalformed => true
    case OpenGaps(_) => true
    case StepPending(text) => SoundsMalformed(text)
    case _ => false
  }

  function Select(reasons: seq<Reason>, blocking: bool): seq<Reason> {
    if reasons == [] then []
    else
      var last := reasons[|reasons| - 1];
      Select(reasons[..|reasons| - 1], blocking) + When(Blocks(last) == blocking, last)
  }

  // ----- the lanes -----

  /** The evidence a feature is judged by. */
  datatype Lane = Lane(passed: set<string>, failed: set<string>, attributed: Option<map<string, set<string>>>,
                       targets: set<string>)

  function GatingLane(r: Result, e: Evidence): Lane {
    Lane(r.passed, r.failed, r.attributed, e.targets)
  }

  function Merged(r: Result, shared: bool, test: string): set<string> {
    Lookup(r.candAttributed, test) + if shared then Lookup(r.attributed, test) else {}
  }

  function MergedTargets(declared: seq<string>, r: Result, gating: set<string>): map<string, set<string>> {
    map t | t in declared && Merged(r, t in gating, t) != {} :: Merged(r, t in gating, t)
  }

  /** Candidate outcomes, and gating outcomes for the tests that a gating feature declares as well. */
  function CandidateLane(declared: seq<string>, r: Result, gating: set<string>, targets: set<string>): Lane {
    var passed := set t | t in declared && (t in r.candPassed || (t in gating && t in r.passed));
    var failed := set t | t in declared && (t in r.candFailed || (t in gating && t in r.failed));
    Lane(passed, failed, Some(MergedTargets(declared, r, gating)), targets)
  }

  predicate TestLinked(test: string, l: Lane, w: World) {
    && test in l.passed
    && if l.attributed.Some? then Lookup(l.attributed, test) * l.targets != {}
       else w.boundTarget(test).Some? && w.boundTarget(test).value in l.targets
  }

  predicate Linked(declared: seq<string>, l: Lane, w: World) {
    exists t :: t in declared && TestLinked(t, l, w)
  }

  predicate Known(w: World, targets: set<string>, test: string) {
    || (exists i :: i in w.index && w.linked(test, i))
    || (w.fileTarget(test).Some? && (w.present(w.fileTarget(test).value) || w.fileTarget(test).value in targets))
  }

  function Missing(w: World, targets: set<string>, declared: seq<string>): seq<Reason> {
    if declared == [] then []
    else
      var last := declared[|declared| - 1];
      Missing(w, targets, declared[..|declared| - 1]) + When(!Known(w, targets, last), MissingFromIndex(last))
  }

  predicate AnyBug(w: World, declared: seq<string>) {
    exists t, i :: t in declared && i in w.index && i.bug && w.linked(t, i)
  }

  function LaneReasons(declared: seq<string>, l: Lane, r: Result, w: World, known: bool): seq<Reason> {
    When(r.declared != Members(declared), DeclaredDiffers) +
    (if known then Missing(w, l.targets, declared) else []) +
    When(!(Members(declared) <= l.passed) || l.failed * Members(declared) != {}, TestsFailed) +
    When(!Linked(declared, l, w), NoIntegration) +
    When(AnyBug(w, declared), BugIgnored)
  }

  // ----- the streak -----

  /** Length of the longest prefix of green commits. */
  function GreenPrefix(chain: seq<string>, green: set<string>): nat {
    if chain == [] || chain[0] !in green then 0 else 1 + GreenPrefix(chain[1..], green)
  }

  function Green(history: History, fid: string, sha: string): set<string> {
    (if fid in history then Members(history[fid]) else {}) + {sha}
  }

  function Streak(e: Evidence, history: History, fid: string): nat {
    GreenPrefix(Chain(e), Green(history, fid, e.sha))
  }

  // ----- the verdict -----

  function BetaReasons(f: Feature, e: Evidence, w: World, r: Result): seq<Reason> {
    LaneCommon(e) + When(!e.complete, EvidenceIncomplete) + Completeness(w, f) +
    When(Declared(f) == [], NoDeclaredTests) + LaneReasons(Declared(f), GatingLane(r, e), r, w, false)
  }

  function CandidateReasons(f: Feature, e: Evidence, w: World, r: Result, lane: Lane): seq<Reason> {
    LaneCommon(e) + Select(Completeness(w, f), true) + When(Declared(f) == [], NoDeclaredTests) +
    When(!e.complete, EvidenceIncomplete) + LaneReasons(Declared(f), lane, r, w, true)
  }

  function BaseReasons(f: Feature, e: Evidence, w: World, r: Result, lane: Lane): seq<Reason> {
    if f.status == Beta then BetaReasons(f, e, w, r) else CandidateReasons(f, e, w, r, lane)
  }

  predicate HasGaps(g: Gaps) {
    if g.Gaps? then g.count > 0 else g.truthy
  }

  function ReviewReasons(f: Feature, e: Evidence, w: World, r: Result): seq<Review> {
    var declared := Declared(f);
    When(HasGaps(f.gaps), GapsPresent) +
    When(r.failed * Members(declared) != {}, Failing(r.failed * Members(declared))) +
    When(!Linked(declared, GatingLane(r, e), w), Unlinked)
  }

  function SkipAll(reasons: seq<Reason>): seq<Review> {
    seq(|reasons|, i requires 0 <= i < |reasons| => Skipped(reasons[i]))
  }

  function StableVerdict(f: Feature, e: Evidence, w: World, r: Result): Verdict {
    if Common(e) != [] then Verdict(false, [NotPromotable], None, [], false, SkipAll(Common(e)))
    else if !r.complete then Verdict(false, [NotPromotable], None, [], false, [SkippedIncomplete])
    else
      var review := ReviewReasons(f, e, w, r);
      Verdict(false, [NotPromotable], if review != [] then Some(StableToBeta) else None, [], review != [], review)
  }

  function Rejected(reason: Reason): Verdict {
    Verdict(false, [reason], None, [], false, [])
  }

  function TransitionOf(s: Status): Option<Transition> {
    match s
    case Beta => Some(BetaToStable)
    case Planned => Some(PlannedToBeta)
    case InProgress => Some(InProgressToBeta)
    case _ => None
  }

  /** The verdict on one feature, from its result, its lane and the number of green commits in a row. */
  function Judge(f: Feature, e: Evidence, w: World, r: Result, lane: Lane, count: nat, streak: nat): Verdict {
    if f.status == Stable then StableVerdict(f, e, w, r)
    else if f.status == Deferred then Rejected(Frozen)
    else if TransitionOf(f.status).None? then Rejected(NotPromotable)
    else Decide(f.status, BaseReasons(f, e, w, r, lane), Informational(f, w), count, streak)
  }

  function Decide(status: Status, base: seq<Reason>, informational: seq<Reason>, count: nat, streak: nat): Verdict {
    var reasons := base + When(count < streak, ShortStreak(count, streak));
    Verdict(reasons == [], reasons, TransitionOf(status), informational, false, [])
  }

  function Informational(f: Feature, w: World): seq<Reason> {
    if f.status == Beta then [] else Select(Completeness(w, f), false)
  }

  /** The lane that judges a feature. */
  function LaneOf(features: Features, e: Evidence, fid: string): Lane
    requires fid in features
  {
    var f, r := features[fid], ResultOf(e, fid);
    if f.status == Planned || f.status == InProgress then
      CandidateLane(Declared(f), r, GatingDeclared(features), e.targets + CandidateTargets(e))
    else
      GatingLane(r, e)
  }

  function VerdictOf(features: Features, e: Evidence, history: History, w: World, streak: nat, fid: string): Verdict
    requires fid in features
  {
    Judge(features[fid], e, w, ResultOf(e, fid), LaneOf(features, e, fid), Streak(e, history, fid), streak)
  }

  function Verdicts(features: Features, e: Evidence, history: History, w: World, streak: nat): map<string, Verdict> {
    map fid | fid in features :: VerdictOf(features, e, history, w, streak, fid)
  }

  // ----- what the rules demand -----

  /** One run of both workflows at one commit, newest in the chain, with a link to it. */
  predicate GoodRun(e: Evidence) {
    && e.sha != "" && (e.ledgerSha.Some? ==> e.ledgerSha.value == e.sha) && (e.e2eSha.Some? ==> e.e2eSha.value == e.sha)
    && e.runUrl != ""
    && Chain(e) != [] && Chain(e)[0] == e.sha && NoRepeats(Chain(e))
  }

  predicate BothSucceeded(e: Evidence) {
    e.ledgerConclusion == "success" && e.e2eConclusion == "success"
  }

  /** Full progress, nothing pending, nothing admitted in the notes. */
  predicate Complete(w: World, f: Feature) {
    && f.progress.Percent? && f.progress.value >= 100.0
    && f.steps.Some? && (forall s :: s in f.steps.value ==> !StepOpen(w, s))
    && w.markers(f.notes) == []
    && f.gaps == Gaps(0)
  }

  /** Readable data and no open gap; incomplete work is allowed. */
  predicate Readable(w: World, f: Feature) {
    && f.progress.Percent?
    && f.steps.Some?
    && (forall s :: s in f.steps.value && StepOpen(w, s) ==> !SoundsMalformed(Head(s.text, 60)))
    && f.gaps == Gaps(0)
  }

  /** Every declared test passed in the lane, none failed, one reached an integration target, none is
      ignored as a known bug. */
  predicate Proven(declared: seq<string>, l: Lane, r: Result, w: World) {
    && declared != [] && r.declared == Members(declared)
    && (forall t :: t in declared ==> t in l.passed && t !in l.failed)
    && Linked(declared, l, w) && !AnyBug(w, declared)
  }

  ghost predicate AllKnown(w: World, targets: set<string>, declared: seq<string>) {
    forall t :: t in declared ==> Known(w, targets, t)
  }

  /** The documented conditions for beta -> stable, apart from the streak. */
  ghost predicate ReadyForStable(f: Feature, e: Evidence, w: World, r: Result) {
    && GoodRun(e) && BothSucceeded(e) && e.complete && Complete(w, f)
    && Proven(Declared(f), GatingLane(r, e), r, w)
  }

  /** The documented conditions for planned and in_progress -> beta, apart from the streak, with the
      exception in `Readable`. */
  ghost predicate ReadyForBeta(f: Feature, e: Evidence, w: World, r: Result, lane: Lane) {
    && GoodRun(e) && BothSucceeded(e) && e.complete && Readable(w, f)
    && Proven(Declared(f), lane, r, w) && AllKnown(w, lane.targets, Declared(f))
  }

  lemma {:induction false} NoOpenSteps(w: World, steps: seq<Step>)
    ensures OpenSteps(w, steps) == [] <==> forall s :: s in steps ==> !StepOpen(w, s)
  {
    if steps != [] {
      var front, last := steps[..|steps| - 1], steps[|steps| - 1];
      assert steps == front + [last];
      NoOpenSteps(w, front);
    }
  }

  lemma {:induction false} SelectConcat(a: seq<Reason>, b: seq<Reason>, blocking: bool)
    ensures Select(a + b, blocking) == Select(a, blocking) + Select(b, blocking)
  {
    if b == [] {
      assert a + b == a;
    } else {
      assert (a + b)[..|a + b| - 1] == a + b[..|b| - 1];
      SelectConcat(a, b[..|b| - 1], blocking);
    }
  }

  lemma {:induction false} SelectNone(reasons: seq<Reason>, blocking: bool)
    ensures Select(reasons, blocking) == [] <==> forall r :: r in reasons ==> Blocks(r) != blocking
  {
    if reasons != [] {
      var front, last := reasons[..|reasons| - 1], reasons[|reasons| - 1];
      assert reasons == front + [last];
      SelectNone(front, blocking);
    }
  }

  /** Splitting loses nothing: every completeness reason is on exactly one side. */
  lemma {:induction false} SelectSplits(reasons: seq<Reason>)
    ensures multiset(Select(reasons, true)) + multiset(Select(reasons, false)) == multiset(reasons)
  {
    if reasons != [] {
      var front, last := reasons[..|reasons| - 1], reasons[|reasons| - 1];
      assert reasons == front + [last];
      SelectSplits(front);
    }
  }

  predicate Reports(w: World, s: Step, r: Reason) {
    StepOpen(w, s) && r == StepPending(Head(s.text, 60))
  }

  lemma {:induction false} OpenStepMembers(w: World, steps: seq<Step>, r: Reason)
    ensures r in OpenSteps(w, steps) <==> exists s :: s in steps && Reports(w, s, r)
  {
    if steps != [] {
      var front, last := steps[..|steps| - 1], steps[|steps| - 1];
      assert forall s :: s in steps <==> s in front || s == last by {
        assert steps == front + [last];
      }
      OpenStepMembers(w, front, r);
      assert r in OpenSteps(w, steps) <==> r in OpenSteps(w, front) || Reports(w, last, r);
    }
  }

  lemma {:induction false} MissingNone(w: World, targets: set<string>, declared: seq<string>)
    ensures Missing(w, targets, declared) == [] <==> forall t :: t in declared ==> Known(w, targets, t)
  {
    if declared != [] {
      var front, last := declared[..|declared| - 1], declared[|declared| - 1];
      assert declared == front + [last];
      MissingNone(w, targets, front);
    }
  }

  lemma {:induction false} CompletenessExactly(w: World, f: Feature)
    ensures Completeness(w, f) == [] <==> Complete(w, f)
  {
    if f.steps.Some? {
      NoOpenSteps(w, f.steps.value);
    }
    var a, b := ProgressReasons(f.progress), StepReasons(w, f.steps);
    var c, d := When(w.markers(f.notes) != [], HonestyNote(w.markers(f.notes))), GapReasons(f.gaps);
    assert Completeness(w, f) == a + b + c + d;
    assert |a + b + c + d| == |a| + |b| + |c| + |d|;
  }

  lemma {:induction false} SelectFour(a: seq<Reason>, b: seq<Reason>, c: seq<Reason>, d: seq<Reason>, blocking: bool)
    ensures Select(a + b + c + d, blocking) == []
       <==> Select(a, blocking) == [] && Select(b, blocking) == [] && Select(c, blocking) == []
            && Select(d, blocking) == []
  {
    SelectConcat(a + b + c, d, blocking);
    SelectConcat(a + b, c, blocking);
    SelectConcat(a, b, blocking);
  }

  lemma {:induction false} StepsBlock(w: World, steps: Option<seq<Step>>)
    ensures Select(StepReasons(w, steps), true) == []
       <==> steps.Some? && forall s :: s in steps.value && StepOpen(w, s) ==> !SoundsMalformed(Head(s.text, 60))
  {
    SelectNone(StepReasons(w, steps), true);
    if steps.Some? {
      OpenStepsBlock(w, steps.value);
    } else {
      assert StepsMalformed in StepReasons(w, steps);
    }
  }

  lemma {:induction false} ProgressBlocks(p: Progress)
    ensures Select(ProgressReasons(p), true) == [] <==> p.Percent?
  {
  }

  lemma {:induction false} GapsBlock(g: Gaps)
    ensures Select(GapReasons(g), true) == [] <==> g == Gaps(0)
  {
  }

  lemma {:induction false} BlockingExactly(w: World, f: Feature)
    ensures Select(Completeness(w, f), true) == [] <==> Readable(w, f)
  {
    var c := When(w.markers(f.notes) != [], HonestyNote(w.markers(f.notes)));
    SelectFour(ProgressReasons(f.progress), StepReasons(w, f.steps), c, GapReasons(f.gaps), true);
    ProgressBlocks(f.progress);
    StepsBlock(w, f.steps);
    assert Select(c, true) == [];
    GapsBlock(f.gaps);
  }

  lemma {:induction false} OpenStepsBlock(w: World, steps: seq<Step>)
    ensures (forall r :: r in OpenSteps(w, steps) ==> !Blocks(r))
       <==> (forall s :: s in steps && StepOpen(w, s) ==> !SoundsMalformed(Head(s.text, 60)))
  {
    forall r ensures r in OpenSteps(w, steps) <==> exists s :: s in steps && Reports(w, s, r) {
      OpenStepMembers(w, steps, r);
    }
    forall s | s in steps && StepOpen(w, s) ensures StepPending(Head(s.text, 60)) in OpenSteps(w, steps) {
      assert Reports(w, s, StepPending(Head(s.text, 60)));
    }
  }

  lemma {:induction false} LaneExactly(declared: seq<string>, l: Lane, r: Result, w: World, known: bool)
    ensures declared != [] ==>
      (LaneReasons(declared, l, r, w, known) == [] <==>
       Proven(declared, l, r, w) && (known ==> forall t :: t in declared ==> Known(w, l.targets, t)))
  {
    MissingNone(w, l.targets, declared);
    assert (Members(declared) <= l.passed && l.failed * Members(declared) == {})
      <==> (forall t :: t in declared ==> t in l.passed && t !in l.failed) by {
      if Members(declared) <= l.passed && l.failed * Members(declared) == {} {
        forall t | t in declared ensures t in l.passed && t !in l.failed {
          assert t in Members(declared);
          assert t in l.failed ==> t in l.failed * Members(declared);
        }
      }
    }
  }

  lemma {:induction false} CommonExactly(e: Evidence)
    ensures Common(e) == [] <==> GoodRun(e)
    ensures LaneCommon(e) == [] <==> GoodRun(e) && BothSucceeded(e)
  {
  }

  lemma {:induction false} AllEmpty<T>(a: seq<T>, b: seq<T>, c: seq<T>, d: seq<T>, e: seq<T>)
    ensures a + b + c + d + e == [] <==> a == [] && b == [] && c == [] && d == [] && e == []
  {
    assert |a + b + c + d + e| == |a| + |b| + |c| + |d| + |e|;
  }

  lemma {:induction false} BetaReasonsExactly(f: Feature, e: Evidence, w: World, r: Result)
    ensures BetaReasons(f, e, w, r) == [] <==> ReadyForStable(f, e, w, r)
  {
    CompletenessExactly(w, f);
    LaneExactly(Declared(f), GatingLane(r, e), r, w, false);
    CommonExactly(e);
    AllEmpty(LaneCommon(e), When(!e.complete, EvidenceIncomplete), Completeness(w, f),
             When(Declared(f) == [], NoDeclaredTests), LaneReasons(Declared(f), GatingLane(r, e), r, w, false));
  }

  lemma {:induction false} CandidateReasonsExactly(f: Feature, e: Evidence, w: World, r: Result, lane: Lane)
    ensures CandidateReasons(f, e, w, r, lane) == [] <==> ReadyForBeta(f, e, w, r, lane)
  {
    BlockingExactly(w, f);
    LaneExactly(Declared(f), lane, r, w, true);
    CommonExactly(e);
    AllEmpty(LaneCommon(e), Select(Completeness(w, f), true), When(Declared(f) == [], NoDeclaredTests),
             When(!e.complete, EvidenceIncomplete), LaneReasons(Declared(f), lane, r, w, true));
  }

  lemma {:induction false} DecideExactly(status: Status, base: seq<Reason>, informational: seq<Reason>,
                                         count: nat, streak: nat)
    ensures Decide(status, base, informational, count, streak).eligible <==> base == [] && count >= streak
  {
    assert |base + When(count < streak, ShortStreak(count, streak))| == |base| + if count < streak then 1 else 0;
  }

  lemma {:induction false} BaseExactly(f: Feature, e: Evidence, w: World, r: Result, lane: Lane)
    ensures BaseReasons(f, e, w, r, lane) == []
       <==> if f.status == Beta then ReadyForStable(f, e, w, r) else ReadyForBeta(f, e, w, r, lane)
  {
    if f.status == Beta {
      BetaReasonsExactly(f, e, w, r);
    } else {
      CandidateReasonsExactly(f, e, w, r, lane);
    }
  }

  lemma {:induction false} OthersAreNotEligible(f: Feature, e: Evidence, w: World, r: Result, lane: Lane,
                                                count: nat, streak: nat)
    requires f.status != Beta && f.status != Planned && f.status != InProgress
    ensures !Judge(f, e, w, r, lane, count, streak).eligible
  {
    assert f.status == Stable || TransitionOf(f.status).None?;
  }

  /** The rules, without the reasons: who is eligible, and who is flagged for review. */
  lemma {:induction false} EligibleExactly(f: Feature, e: Evidence, w: World, r: Result, lane: Lane,
                                           count: nat, streak: nat)
    ensures Judge(f, e, w, r, lane, count, streak).eligible <==>
            && count >= streak
            && match f.status {
                 case Beta => ReadyForStable(f, e, w, r)
                 case Planned => ReadyForBeta(f, e, w, r, lane)
                 case InProgress => ReadyForBeta(f, e, w, r, lane)
                 case _ => false
               }
  {
    if f.status == Beta || f.status == Planned || f.status == InProgress {
      DecideExactly(f.status, BaseReasons(f, e, w, r, lane), Informational(f, w), count, streak);
      BaseExactly(f, e, w, r, lane);
    } else {
      OthersAreNotEligible(f, e, w, r, lane, count, streak);
    }
  }

  /** A stable feature is flagged only on complete evidence from a good run, and then exactly for an open
      gap, a failed declared test or the lack of any linked integration test. A failed run does not
      silence the review. */
  lemma {:induction false} FlaggedExactly(f: Feature, e: Evidence, w: World, r: Result, lane: Lane,
                                          count: nat, streak: nat)
    ensures Judge(f, e, w, r, lane, count, streak).flagged <==>
            && f.status == Stable && GoodRun(e) && r.complete
            && (HasGaps(f.gaps) || (exists t :: t in Declared(f) && t in r.failed)
                || !Linked(Declared(f), GatingLane(r, e), w))
  {
    CommonExactly(e);
    var failing := r.failed * Members(Declared(f));
    assert failing != {} <==> exists t :: t in Declared(f) && t in r.failed by {
      if t :| t in Declared(f) && t in r.failed {
        assert t in failing;
      }
    }
  }
}
