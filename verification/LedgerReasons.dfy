/** What every reason in a verdict of scripts/ledger-promote.py says of the feature and the evidence, and in which
order the reasons come. */
module LedgerReasons {
  import opened Ledger
  import opened Lanes
  import opened LaneRules

  // ----- what the reasons say -----

  /** The reasons that do not depend on the tests. */
  ghost predicate OfTheRun(e: Evidence, r: Reason) {
    match r
    case ShaMismatch =>
      || e.sha == "" || (e.ledgerSha != None && e.ledgerSha != Some(e.sha))
      || (e.e2eSha != None && e.e2eSha != Some(e.sha))
    case MissingRunUrl => e.runUrl == ""
    case InvalidChain => ChainOf(e) == [] || ChainOf(e)[0] != e.sha || Repeats(ChainOf(e))
    case RunsMustSucceed => e.ledgerConclusion != "success" || e.e2eConclusion != "success"
    case _ => false
  }

  ghost predicate Repeats(s: seq<string>) {
    exists i, j :: 0 <= i < j < |s| && s[i] == s[j]
  }

  function FirstSixty(text: string): string {
    if |text| > 60 then text[..60] else text
  }

  /** What the completeness of a feature lacks. */
  ghost predicate OfTheWork(w: World, f: Feature, r: Reason) {
    match r
    case ProgressNotNumeric => f.progress.Flag? || f.progress.NotNumeric?
    case ProgressNotFinite => f.progress.NotFinite?
    case ProgressBelow(value) => f.progress == Percent(value) && value < 100.0
    case StepsMalformed => f.steps == None
    case StepPending(text) => exists s :: StepOf(f, s) && !StepDone(w, s) && text == FirstSixty(s.text)
    case HonestyNote(markers) => markers != [] && markers == w.markers(f.notes)
    case GapsMalformed => f.gaps.MalformedGaps?
    case OpenGaps(count) => count > 0 && f.gaps == Gaps(count)
    case _ => false
  }

  ghost predicate StepOf(f: Feature, s: Step) {
    f.steps.Some? && s in f.steps.value
  }

  /** What keeps even unfinished work from beta: data that cannot be read, and open gaps. */
  ghost predicate Blocking(r: Reason) {
    match r
    case ProgressNotNumeric => true
    case ProgressNotFinite => true
    case StepsMalformed => true
    case GapsMalformed => true
    case OpenGaps(_) => true
    case StepPending(text) => SaysMalformed(text)
    case _ => false
  }

  // ----- the lists the verdict is made of -----

  lemma {:induction false} InTwo(a: seq<Reason>, b: seq<Reason>, r: Reason)
    ensures r in a + b <==> r in a || r in b
  {
  }

  lemma {:induction false} InWhen(holds: bool, reason: Reason, r: Reason)
    ensures r in When(holds, reason) <==> holds && r == reason
  {
  }

  lemma {:induction false} CommonHolds(e: Evidence, r: Reason)
    ensures r in LaneCommon(e) <==> OfTheRun(e, r)
  {
    NoRepeatsMeans(Chain(e));
    assert ChainOf(e) == Chain(e);
    assert Repeats(ChainOf(e)) <==> !NoRepeats(Chain(e));
  }

  lemma {:induction false} StepsHold(w: World, steps: seq<Step>, r: Reason)
    ensures r in OpenSteps(w, steps) <==>
            r.StepPending? && exists s :: s in steps && !StepDone(w, s) && r.text == FirstSixty(s.text)
  {
    OpenStepMembers(w, steps, r);
    forall s: Step ensures Reports(w, s, r) <==> !StepDone(w, s) && r.StepPending? && r.text == FirstSixty(s.text) {
      StepMeans(w, s);
    }
  }

  lemma {:induction false} StepReasonsHold(w: World, f: Feature, r: Reason)
    ensures r in StepReasons(w, f.steps) <==> (r.StepsMalformed? || r.StepPending?) && OfTheWork(w, f, r)
  {
    if f.steps.Some? {
      StepsHold(w, f.steps.value, r);
      if r.StepPending? {
        assert forall s :: StepOf(f, s) <==> s in f.steps.value;
      }
    }
  }

  lemma {:induction false} ProgressHolds(w: World, f: Feature, r: Reason)
    ensures r in ProgressReasons(f.progress) <==>
            (r.ProgressNotNumeric? || r.ProgressNotFinite? || r.ProgressBelow?) && OfTheWork(w, f, r)
    ensures r in GapReasons(f.gaps) <==> (r.GapsMalformed? || r.OpenGaps?) && OfTheWork(w, f, r)
    ensures r in When(w.markers(f.notes) != [], HonestyNote(w.markers(f.notes))) <==>
            r.HonestyNote? && OfTheWork(w, f, r)
  {
  }

  lemma {:induction false} InFour(a: seq<Reason>, b: seq<Reason>, c: seq<Reason>, d: seq<Reason>, r: Reason)
    ensures r in a + b + c + d <==> r in a || r in b || r in c || r in d
  {
  }

  lemma {:induction false} CompletenessHolds(w: World, f: Feature, r: Reason)
    ensures r in Completeness(w, f) <==> OfTheWork(w, f, r)
  {
    InFour(ProgressReasons(f.progress), StepReasons(w, f.steps),
           When(w.markers(f.notes) != [], HonestyNote(w.markers(f.notes))), GapReasons(f.gaps), r);
    ProgressHolds(w, f, r);
    StepReasonsHold(w, f, r);
  }

  lemma {:induction false} BlockingHolds(r: Reason)
    ensures Blocks(r) <==> Blocking(r)
  {
    if r.StepPending? {
      MalformedMeans(r.text);
    }
  }

  lemma {:induction false} SelectHolds(reasons: seq<Reason>, blocking: bool, r: Reason)
    ensures r in Select(reasons, blocking) <==> r in reasons && Blocking(r) == blocking
  {
    if reasons != [] {
      var front, last := reasons[..|reasons| - 1], reasons[|reasons| - 1];
      SelectHolds(front, blocking, r);
      BlockingHolds(last);
      assert reasons == front + [last];
      InTwo(Select(front, blocking), When(Blocks(last) == blocking, last), r);
    }
  }

  /** The verdict on planned and in_progress work tells apart what blocks and what informs: the unfinished work that is
      allowed is listed, completely, and nothing else. */
  lemma {:induction false} InformationalExactly(features: Features, e: Evidence, history: History, w: World,
                                                streak: nat, fid: string, r: Reason)
    requires fid in features && InCandidateLane(features[fid].status)
    ensures r in VerdictOf(features, e, history, w, streak, fid).informational <==>
            OfTheWork(w, features[fid], r) && !Blocking(r)
  {
    SelectHolds(Completeness(w, features[fid]), false, r);
    CompletenessHolds(w, features[fid], r);
  }

  // ----- reasons on the tests -----

  /** The lane shows a declared test that did not pass or that failed. */
  ghost predicate Unproven(features: Features, e: Evidence, fid: string, t: string)
    requires fid in features
  {
    var f, r := features[fid], ResultOf(e, fid);
    && Declares(f, t)
    && if f.status == Beta then t !in r.passed || t in r.failed
       else !CandidatePassed(features, r, t) || CandidateFailed(features, r, t)
  }

  /** A declared test reached a target that passed. */
  ghost predicate Integrated(features: Features, e: Evidence, w: World, fid: string, t: string)
    requires fid in features
  {
    var f, r := features[fid], ResultOf(e, fid);
    && Declares(f, t)
    && if f.status == Beta then GatingLinked(e, w, r, t)
       else CandidatePassed(features, r, t) && exists target :: CandidateLinked(features, e, r, t, target)
  }

  ghost predicate Unknown(e: Evidence, w: World, t: string) {
    && !InIndex(w, t)
    && (w.fileTarget(t).Some? ==> !w.present(w.fileTarget(t).value) && !TargetSeen(e, w.fileTarget(t).value))
  }

  ghost predicate OfTheTests(features: Features, e: Evidence, w: World, fid: string, r: Reason)
    requires fid in features
  {
    var f := features[fid];
    match r
    case DeclaredDiffers => exists t :: (t in ResultOf(e, fid).declared) != Declares(f, t)
    case MissingFromIndex(t) => f.status != Beta && Declares(f, t) && Unknown(e, w, t)
    case TestsFailed => exists t :: Unproven(features, e, fid, t)
    case NoIntegration => !exists t :: Integrated(features, e, w, fid, t)
    case BugIgnored => exists t :: Declares(f, t) && BugIgnoredTest(w, t)
    case _ => false
  }

  lemma {:induction false} MissingHolds(w: World, targets: set<string>, declared: seq<string>, r: Reason)
    ensures r in Missing(w, targets, declared) <==>
            r.MissingFromIndex? && r.test in declared && !Known(w, targets, r.test)
  {
    if declared != [] {
      var front, last := declared[..|declared| - 1], declared[|declared| - 1];
      MissingHolds(w, targets, front, r);
      assert declared == front + [last];
      InTwo(Missing(w, targets, front), When(!Known(w, targets, last), MissingFromIndex(last)), r);
    }
  }

  lemma {:induction false} LaneOutcomes(features: Features, e: Evidence, fid: string, t: string)
    requires fid in features && (features[fid].status == Beta || InCandidateLane(features[fid].status))
    requires Declares(features[fid], t)
    ensures var l := LaneOf(features, e, fid);
            (t !in l.passed || t in l.failed) <==> Unproven(features, e, fid, t)
  {
    if InCandidateLane(features[fid].status) {
      CandidateOutcomes(features, e, fid, t);
    }
  }

  lemma {:induction false} LaneIntegration(features: Features, e: Evidence, w: World, fid: string, t: string)
    requires fid in features && (features[fid].status == Beta || InCandidateLane(features[fid].status))
    requires Declares(features[fid], t)
    ensures TestLinked(t, LaneOf(features, e, fid), w) <==> Integrated(features, e, w, fid, t)
  {
    var f, l, r := features[fid], LaneOf(features, e, fid), ResultOf(e, fid);
    if f.status == Beta {
      GatingLinkMeans(e, w, r, t);
    } else {
      CandidateOutcomes(features, e, fid, t);
      forall target ensures LaneLinked(l, t, target) <==> CandidateLinked(features, e, r, t, target) {
        CandidateLink(features, e, fid, t, target);
      }
      var both := Lookup(l.attributed, t) * l.targets;
      forall target ensures target in both <==> CandidateLinked(features, e, r, t, target) {
        assert target in both <==> LaneLinked(l, t, target);
      }
    }
  }

  lemma {:induction false} FailedHolds(features: Features, e: Evidence, fid: string)
    requires fid in features && (features[fid].status == Beta || InCandidateLane(features[fid].status))
    ensures var l, declared := LaneOf(features, e, fid), Declared(features[fid]);
            !(Members(declared) <= l.passed) || l.failed * Members(declared) != {} <==>
            exists t :: Unproven(features, e, fid, t)
  {
    var f, l := features[fid], LaneOf(features, e, fid);
    var declared := Declared(f);
    forall t | t in declared
      ensures Declares(f, t) && (t !in l.passed || t in l.failed <==> Unproven(features, e, fid, t))
    {
      LaneOutcomes(features, e, fid, t);
    }
    forall t ensures Unproven(features, e, fid, t) ==> t in declared {
    }
    if t :| t in declared && (t !in l.passed || t in l.failed) {
      assert t in Members(declared) && Unproven(features, e, fid, t);
      assert t in l.failed ==> t in l.failed * Members(declared);
    }
  }

  lemma {:induction false} IntegrationHolds(features: Features, e: Evidence, w: World, fid: string)
    requires fid in features && (features[fid].status == Beta || InCandidateLane(features[fid].status))
    ensures Linked(Declared(features[fid]), LaneOf(features, e, fid), w) <==>
            exists t :: Integrated(features, e, w, fid, t)
  {
    var f := features[fid];
    forall t | t in Declared(f)
      ensures TestLinked(t, LaneOf(features, e, fid), w) <==> Integrated(features, e, w, fid, t)
    {
      LaneIntegration(features, e, w, fid, t);
    }
    forall t ensures Integrated(features, e, w, fid, t) ==> t in Declared(f) {
    }
  }

  lemma {:induction false} DeclaredHolds(f: Feature, r: Result)
    ensures r.declared != Members(Declared(f)) <==> exists t :: (t in r.declared) != Declares(f, t)
  {
    forall t ensures t in Members(Declared(f)) <==> Declares(f, t) {
    }
  }

  lemma {:induction false} InFive(a: seq<Reason>, b: seq<Reason>, c: seq<Reason>, d: seq<Reason>, e: seq<Reason>,
                                  r: Reason)
    ensures r in a + b + c + d + e <==> r in a || r in b || r in c || r in d || r in e
  {
  }

  predicate Promotable(s: Status) {
    s == Beta || InCandidateLane(s)
  }

  lemma {:induction false} DeclaredPart(features: Features, e: Evidence, w: World, fid: string, r: Reason)
    requires fid in features
    ensures r in When(ResultOf(e, fid).declared != Members(Declared(features[fid])), DeclaredDiffers) <==>
            r.DeclaredDiffers? && OfTheTests(features, e, w, fid, r)
  {
    DeclaredHolds(features[fid], ResultOf(e, fid));
  }

  lemma {:induction false} MissingPart(features: Features, e: Evidence, w: World, fid: string, r: Reason)
    requires fid in features && Promotable(features[fid].status)
    ensures r in (if features[fid].status != Beta
                  then Missing(w, LaneOf(features, e, fid).targets, Declared(features[fid])) else []) <==>
            r.MissingFromIndex? && OfTheTests(features, e, w, fid, r)
  {
    MissingHolds(w, LaneOf(features, e, fid).targets, Declared(features[fid]), r);
    if r.MissingFromIndex? && features[fid].status != Beta {
      KnownMeans(e, w, r.test);
    }
  }

  lemma {:induction false} FailedPart(features: Features, e: Evidence, w: World, fid: string, r: Reason)
    requires fid in features && Promotable(features[fid].status)
    ensures var l, declared := LaneOf(features, e, fid), Declared(features[fid]);
            r in When(!(Members(declared) <= l.passed) || l.failed * Members(declared) != {}, TestsFailed) <==>
            r.TestsFailed? && OfTheTests(features, e, w, fid, r)
  {
    FailedHolds(features, e, fid);
  }

  lemma {:induction false} LinkedPart(features: Features, e: Evidence, w: World, fid: string, r: Reason)
    requires fid in features && Promotable(features[fid].status)
    ensures r in When(!Linked(Declared(features[fid]), LaneOf(features, e, fid), w), NoIntegration) <==>
            r.NoIntegration? && OfTheTests(features, e, w, fid, r)
  {
    IntegrationHolds(features, e, w, fid);
  }

  lemma {:induction false} BugPart(features: Features, e: Evidence, w: World, fid: string, r: Reason)
    requires fid in features
    ensures r in When(AnyBug(w, Declared(features[fid])), BugIgnored) <==>
            r.BugIgnored? && OfTheTests(features, e, w, fid, r)
  {
    BugMeans(w, Declared(features[fid]));
  }

  lemma {:induction false} LaneReasonsHold(features: Features, e: Evidence, w: World, fid: string, r: Reason)
    requires fid in features && Promotable(features[fid].status)
    ensures r in LaneReasons(Declared(features[fid]), LaneOf(features, e, fid), ResultOf(e, fid), w,
                             features[fid].status != Beta)
            <==> OfTheTests(features, e, w, fid, r)
  {
    DeclaredPart(features, e, w, fid, r);
    MissingPart(features, e, w, fid, r);
    FailedPart(features, e, w, fid, r);
    LinkedPart(features, e, w, fid, r);
    BugPart(features, e, w, fid, r);
    LaneParts(Declared(features[fid]), LaneOf(features, e, fid), ResultOf(e, fid), w, features[fid].status != Beta, r);
  }

  lemma {:induction false} LaneParts(declared: seq<string>, l: Lane, res: Result, w: World, known: bool, r: Reason)
    ensures r in LaneReasons(declared, l, res, w, known) <==>
            || r in When(res.declared != Members(declared), DeclaredDiffers)
            || r in (if known then Missing(w, l.targets, declared) else [])
            || r in When(!(Members(declared) <= l.passed) || l.failed * Members(declared) != {}, TestsFailed)
            || r in When(!Linked(declared, l, w), NoIntegration)
            || r in When(AnyBug(w, declared), BugIgnored)
  {
    InFive(When(res.declared != Members(declared), DeclaredDiffers),
           if known then Missing(w, l.targets, declared) else [],
           When(!(Members(declared) <= l.passed) || l.failed * Members(declared) != {}, TestsFailed),
           When(!Linked(declared, l, w), NoIntegration), When(AnyBug(w, declared), BugIgnored), r);
  }

  // ----- the whole list -----

  /** The reason holds of this feature on this evidence. */
  ghost predicate Holds(features: Features, e: Evidence, history: History, w: World, streak: nat, fid: string,
                        r: Reason)
    requires fid in features
  {
    var f, count := features[fid], Streak(e, history, fid);
    || OfTheRun(e, r)
    || (r == EvidenceIncomplete && !e.complete)
    || (OfTheWork(w, f, r) && (f.status == Beta || Blocking(r)))
    || (r == NoDeclaredTests && !exists t :: Declares(f, t))
    || OfTheTests(features, e, w, fid, r)
    || (count < streak && r == ShortStreak(count, streak))
  }

  lemma {:induction false} NoTests(f: Feature)
    ensures Declared(f) == [] <==> !exists t :: Declares(f, t)
  {
    if Declared(f) != [] {
      assert Declares(f, Declared(f)[0]);
    }
  }

  lemma {:induction false} BaseHolds(features: Features, e: Evidence, w: World, fid: string, r: Reason)
    requires fid in features && (features[fid].status == Beta || InCandidateLane(features[fid].status))
    ensures var f := features[fid];
            r in BaseReasons(f, e, w, ResultOf(e, fid), LaneOf(features, e, fid)) <==>
            || OfTheRun(e, r) || (r == EvidenceIncomplete && !e.complete)
            || (OfTheWork(w, f, r) && (f.status == Beta || Blocking(r)))
            || (r == NoDeclaredTests && !exists t :: Declares(f, t)) || OfTheTests(features, e, w, fid, r)
  {
    var f, l, res := features[fid], LaneOf(features, e, fid), ResultOf(e, fid);
    CommonHolds(e, r);
    CompletenessHolds(w, f, r);
    SelectHolds(Completeness(w, f), true, r);
    NoTests(f);
    LaneReasonsHold(features, e, w, fid, r);
    var lane := LaneReasons(Declared(f), l, res, w, f.status != Beta);
    if f.status == Beta {
      InFive(LaneCommon(e), When(!e.complete, EvidenceIncomplete), Completeness(w, f),
             When(Declared(f) == [], NoDeclaredTests), lane, r);
    } else {
      InFive(LaneCommon(e), Select(Completeness(w, f), true), When(Declared(f) == [], NoDeclaredTests),
             When(!e.complete, EvidenceIncomplete), lane, r);
    }
  }

  lemma {:induction false} JudgeReasons(f: Feature, e: Evidence, w: World, res: Result, l: Lane, count: nat,
                                        streak: nat)
    requires Promotable(f.status)
    ensures var v := Judge(f, e, w, res, l, count, streak);
            && v.reasons == BaseReasons(f, e, w, res, l) + When(count < streak, ShortStreak(count, streak))
            && (v.eligible <==> v.reasons == [])
  {
    assert Judge(f, e, w, res, l, count, streak) ==
           Decide(f.status, BaseReasons(f, e, w, res, l), Informational(f, w), count, streak);
  }

  lemma {:induction false} VerdictReasons(features: Features, e: Evidence, history: History, w: World, streak: nat,
                                          fid: string)
    requires fid in features && Promotable(features[fid].status)
    ensures var v, count := VerdictOf(features, e, history, w, streak, fid), Streak(e, history, fid);
            && v.reasons == BaseReasons(features[fid], e, w, ResultOf(e, fid), LaneOf(features, e, fid)) +
                            When(count < streak, ShortStreak(count, streak))
            && (v.eligible <==> v.reasons == [])
  {
    JudgeReasons(features[fid], e, w, ResultOf(e, fid), LaneOf(features, e, fid), Streak(e, history, fid), streak);
  }

  /** The verdict on a feature that can be promoted lists exactly the reasons that hold; it is eligible when none
      does. */
  lemma {:induction false} ReasonsExactly(features: Features, e: Evidence, history: History, w: World, streak: nat,
                                          fid: string, r: Reason)
    requires fid in features && Promotable(features[fid].status)
    ensures var v := VerdictOf(features, e, history, w, streak, fid);
            && (r in v.reasons <==> Holds(features, e, history, w, streak, fid, r))
            && (v.eligible <==> v.reasons == [])
  {
    var count := Streak(e, history, fid);
    VerdictReasons(features, e, history, w, streak, fid);
    BaseHolds(features, e, w, fid, r);
    InTwo(BaseReasons(features[fid], e, w, ResultOf(e, fid), LaneOf(features, e, fid)),
          When(count < streak, ShortStreak(count, streak)), r);
    InWhen(count < streak, ShortStreak(count, streak), r);
  }

  // ----- order -----

  /** Where a reason stands in the list; missing evidence comes early for beta and late for the others. */
  function Rank(r: Reason, beta: bool): nat {
    match r
    case ShaMismatch => 0
    case MissingRunUrl => 1
    case InvalidChain => 2
    case RunsMustSucceed => 3
    case EvidenceIncomplete => if beta then 4 else 10
    case ProgressNotNumeric => 5
    case ProgressNotFinite => 5
    case ProgressBelow(_) => 5
    case StepsMalformed => 6
    case StepPending(_) => 6
    case HonestyNote(_) => 7
    case GapsMalformed => 8
    case OpenGaps(_) => 8
    case NoDeclaredTests => 9
    case DeclaredDiffers => 11
    case MissingFromIndex(_) => 12
    case TestsFailed => 13
    case NoIntegration => 14
    case BugIgnored => 15
    case ShortStreak(_, _) => 16
    case _ => 17
  }

  ghost predicate RankIn(reasons: seq<Reason>, beta: bool, i: int, lo: nat, hi: nat) {
    0 <= i < |reasons| ==> lo <= Rank(reasons[i], beta) <= hi
  }

  ghost predicate RankLe(reasons: seq<Reason>, beta: bool, i: int, j: int) {
    0 <= i < j < |reasons| ==> Rank(reasons[i], beta) <= Rank(reasons[j], beta)
  }

  ghost predicate Ranked(reasons: seq<Reason>, beta: bool, lo: nat, hi: nat) {
    (forall i :: RankIn(reasons, beta, i, lo, hi)) && forall i, j :: RankLe(reasons, beta, i, j)
  }

  lemma {:induction false} RankedBoth(a: seq<Reason>, b: seq<Reason>, beta: bool, lo: nat, mid: nat, mid': nat, hi: nat)
    requires Ranked(a, beta, lo, mid) && Ranked(b, beta, mid', hi) && lo <= mid <= mid' <= hi
    ensures Ranked(a + b, beta, lo, hi)
  {
    forall i ensures RankIn(a + b, beta, i, lo, hi) {
      assert RankIn(a, beta, i, lo, mid) && RankIn(b, beta, i - |a|, mid', hi);
    }
    forall i, j ensures RankLe(a + b, beta, i, j) {
      assert RankLe(a, beta, i, j) && RankLe(b, beta, i - |a|, j - |a|);
      assert RankIn(a, beta, i, lo, mid) && RankIn(b, beta, j - |a|, mid', hi);
    }
  }

  lemma {:induction false} RankedWhen(holds: bool, r: Reason, beta: bool)
    ensures Ranked(When(holds, r), beta, Rank(r, beta), Rank(r, beta))
  {
  }

  lemma {:induction false} RankedWider(s: seq<Reason>, beta: bool, lo: nat, hi: nat, lo': nat, hi': nat)
    requires Ranked(s, beta, lo, hi) && lo' <= lo && hi <= hi'
    ensures Ranked(s, beta, lo', hi')
  {
    forall i ensures RankIn(s, beta, i, lo', hi') {
      assert RankIn(s, beta, i, lo, hi);
    }
  }

  lemma {:induction false} CommonRanked(e: Evidence, beta: bool)
    ensures Ranked(LaneCommon(e), beta, 0, 3)
  {
    var bad := e.sha == "" || (e.ledgerSha.Some? && e.ledgerSha.value != e.sha)
               || (e.e2eSha.Some? && e.e2eSha.value != e.sha);
    var broken := Chain(e) == [] || Chain(e)[0] != e.sha || !NoRepeats(Chain(e));
    var failed := e.ledgerConclusion != "success" || e.e2eConclusion != "success";
    RankedWhen(bad, ShaMismatch, beta);
    RankedWhen(e.runUrl == "", MissingRunUrl, beta);
    RankedWhen(broken, InvalidChain, beta);
    RankedWhen(failed, RunsMustSucceed, beta);
    var a, b := When(bad, ShaMismatch), When(e.runUrl == "", MissingRunUrl);
    var c, d := When(broken, InvalidChain), When(failed, RunsMustSucceed);
    RankedBoth(a, b, beta, 0, 0, 1, 1);
    RankedBoth(a + b, c, beta, 0, 1, 2, 2);
    RankedBoth(a + b + c, d, beta, 0, 2, 3, 3);
    assert LaneCommon(e) == a + b + c + d;
  }

  lemma {:induction false} StepsRanked(w: World, steps: seq<Step>, beta: bool)
    ensures Ranked(OpenSteps(w, steps), beta, 6, 6)
  {
    if steps != [] {
      var front, last := steps[..|steps| - 1], steps[|steps| - 1];
      StepsRanked(w, front, beta);
      RankedWhen(StepOpen(w, last), StepPending(Head(last.text, 60)), beta);
      RankedBoth(OpenSteps(w, front), When(StepOpen(w, last), StepPending(Head(last.text, 60))), beta, 6, 6, 6, 6);
    }
  }

  lemma {:induction false} PartsRanked(w: World, f: Feature, beta: bool)
    ensures Ranked(ProgressReasons(f.progress), beta, 5, 5) && Ranked(StepReasons(w, f.steps), beta, 6, 6)
    ensures Ranked(GapReasons(f.gaps), beta, 8, 8)
  {
    if f.steps.Some? {
      StepsRanked(w, f.steps.value, beta);
    }
  }

  lemma {:induction false} CompletenessRanked(w: World, f: Feature, beta: bool)
    ensures Ranked(Completeness(w, f), beta, 5, 8)
  {
    var a, b := ProgressReasons(f.progress), StepReasons(w, f.steps);
    var c, d := When(w.markers(f.notes) != [], HonestyNote(w.markers(f.notes))), GapReasons(f.gaps);
    PartsRanked(w, f, beta);
    RankedWhen(w.markers(f.notes) != [], HonestyNote(w.markers(f.notes)), beta);
    RankedBoth(a, b, beta, 5, 5, 6, 6);
    RankedBoth(a + b, c, beta, 5, 6, 7, 7);
    RankedBoth(a + b + c, d, beta, 5, 7, 8, 8);
    assert Completeness(w, f) == a + b + c + d;
  }

  lemma {:induction false} RankedFront(s: seq<Reason>, last: Reason, beta: bool, lo: nat, hi: nat)
    requires Ranked(s + [last], beta, lo, hi)
    ensures Ranked(s, beta, lo, hi)
  {
    forall i ensures RankIn(s, beta, i, lo, hi) {
      assert RankIn(s + [last], beta, i, lo, hi);
    }
    forall i, j ensures RankLe(s, beta, i, j) {
      assert RankLe(s + [last], beta, i, j);
    }
  }

  /** Taking some reasons out leaves the others in order, none of them behind the last one of the list. */
  lemma {:induction false} SelectRanked(reasons: seq<Reason>, blocking: bool, beta: bool, lo: nat, hi: nat)
    requires Ranked(reasons, beta, lo, hi) && reasons != []
    ensures Ranked(Select(reasons, blocking), beta, lo, Rank(reasons[|reasons| - 1], beta))
    ensures lo <= Rank(reasons[|reasons| - 1], beta) <= hi
  {
    var front, last := reasons[..|reasons| - 1], reasons[|reasons| - 1];
    var top := Rank(last, beta);
    assert reasons == front + [last] && RankIn(reasons, beta, |front|, lo, hi);
    RankedFront(front, last, beta, lo, hi);
    RankedWhen(Blocks(last) == blocking, last, beta);
    if front != [] {
      var mid := Rank(front[|front| - 1], beta);
      SelectRanked(front, blocking, beta, lo, hi);
      assert RankLe(reasons, beta, |front| - 1, |front|);
      RankedBoth(Select(front, blocking), When(Blocks(last) == blocking, last), beta, lo, mid, top, top);
    } else {
      RankedWider(When(Blocks(last) == blocking, last), beta, top, top, lo, top);
      assert Select(reasons, blocking) == [] + When(Blocks(last) == blocking, last);
      assert [] + When(Blocks(last) == blocking, last) == When(Blocks(last) == blocking, last);
    }
  }

  lemma {:induction false} BlockingRanked(w: World, f: Feature, beta: bool)
    ensures Ranked(Select(Completeness(w, f), true), beta, 5, 8)
  {
    var all := Completeness(w, f);
    CompletenessRanked(w, f, beta);
    if all != [] {
      SelectRanked(all, true, beta, 5, 8);
      RankedWider(Select(all, true), beta, 5, Rank(all[|all| - 1], beta), 5, 8);
    }
  }

  lemma {:induction false} MissingRanked(w: World, targets: set<string>, declared: seq<string>, beta: bool)
    ensures Ranked(Missing(w, targets, declared), beta, 12, 12)
  {
    if declared != [] {
      var front, last := declared[..|declared| - 1], declared[|declared| - 1];
      MissingRanked(w, targets, front, beta);
      RankedWhen(!Known(w, targets, last), MissingFromIndex(last), beta);
      RankedBoth(Missing(w, targets, front), When(!Known(w, targets, last), MissingFromIndex(last)), beta,
                 12, 12, 12, 12);
    }
  }

  lemma {:induction false} RankedFive(a: seq<Reason>, b: seq<Reason>, c: seq<Reason>, d: seq<Reason>, e: seq<Reason>,
                                      beta: bool, i: nat, j: nat, k: nat, l: nat, m: nat, i': nat, m': nat)
    requires i <= i' <= j <= k <= l <= m <= m'
    requires Ranked(a, beta, i, i') && Ranked(b, beta, j, j) && Ranked(c, beta, k, k) && Ranked(d, beta, l, l)
    requires Ranked(e, beta, m, m')
    ensures Ranked(a + b + c + d + e, beta, i, m')
  {
    RankedBoth(a, b, beta, i, i', j, j);
    RankedBoth(a + b, c, beta, i, j, k, k);
    RankedBoth(a + b + c, d, beta, i, k, l, l);
    RankedBoth(a + b + c + d, e, beta, i, l, m, m');
  }

  lemma {:induction false} OutcomesRanked(failed: bool, unlinked: bool, bug: bool, beta: bool)
    ensures Ranked(When(failed, TestsFailed), beta, 13, 13) && Ranked(When(unlinked, NoIntegration), beta, 14, 14)
    ensures Ranked(When(bug, BugIgnored), beta, 15, 15)
  {
    RankedWhen(failed, TestsFailed, beta);
    RankedWhen(unlinked, NoIntegration, beta);
    RankedWhen(bug, BugIgnored, beta);
  }

  lemma {:induction false} LaneRanked(declared: seq<string>, l: Lane, r: Result, w: World, known: bool, beta: bool)
    ensures Ranked(LaneReasons(declared, l, r, w, known), beta, 11, 15)
  {
    var failed := !(Members(declared) <= l.passed) || l.failed * Members(declared) != {};
    RankedWhen(r.declared != Members(declared), DeclaredDiffers, beta);
    OutcomesRanked(failed, !Linked(declared, l, w), AnyBug(w, declared), beta);
    MissingRanked(w, l.targets, declared, beta);
    var missing := if known then Missing(w, l.targets, declared) else [];
    RankedFive(When(r.declared != Members(declared), DeclaredDiffers), missing, When(failed, TestsFailed),
               When(!Linked(declared, l, w), NoIntegration), When(AnyBug(w, declared), BugIgnored),
               beta, 11, 12, 13, 14, 15, 11, 15);
  }

  lemma {:induction false} RankedChain(a: seq<Reason>, b: seq<Reason>, c: seq<Reason>, d: seq<Reason>, e: seq<Reason>,
                                       beta: bool, i: nat, j: nat, k: nat, l: nat)
    requires 3 < i <= j < k <= l < 11
    requires Ranked(a, beta, 0, 3) && Ranked(b, beta, i, j) && Ranked(c, beta, k, l) && Ranked(e, beta, 11, 15)
    requires l < 10 && Ranked(d, beta, l + 1, 10)
    ensures Ranked(a + b + c + d + e, beta, 0, 15)
  {
    RankedBoth(a, b, beta, 0, 3, i, j);
    RankedBoth(a + b, c, beta, 0, j, k, l);
    RankedBoth(a + b + c, d, beta, 0, l, l + 1, 10);
    RankedBoth(a + b + c + d, e, beta, 0, 10, 11, 15);
  }

  lemma {:induction false} BetaList(a: seq<Reason>, incomplete: bool, c: seq<Reason>, none: bool, x: seq<Reason>)
    requires Ranked(a, true, 0, 3) && Ranked(c, true, 5, 8) && Ranked(x, true, 11, 15)
    ensures Ranked(a + When(incomplete, EvidenceIncomplete) + c + When(none, NoDeclaredTests) + x, true, 0, 15)
  {
    RankedWhen(incomplete, EvidenceIncomplete, true);
    RankedWhen(none, NoDeclaredTests, true);
    RankedWider(When(none, NoDeclaredTests), true, 9, 9, 9, 10);
    RankedChain(a, When(incomplete, EvidenceIncomplete), c, When(none, NoDeclaredTests), x, true, 4, 4, 5, 8);
  }

  lemma {:induction false} BetaRanked(f: Feature, e: Evidence, w: World, r: Result)
    ensures Ranked(BetaReasons(f, e, w, r), true, 0, 15)
  {
    CommonRanked(e, true);
    CompletenessRanked(w, f, true);
    LaneRanked(Declared(f), GatingLane(r, e), r, w, false, true);
    BetaList(LaneCommon(e), !e.complete, Completeness(w, f), Declared(f) == [],
             LaneReasons(Declared(f), GatingLane(r, e), r, w, false));
  }

  lemma {:induction false} CandidateList(a: seq<Reason>, b: seq<Reason>, none: bool, incomplete: bool, x: seq<Reason>)
    requires Ranked(a, false, 0, 3) && Ranked(b, false, 5, 8) && Ranked(x, false, 11, 15)
    ensures Ranked(a + b + When(none, NoDeclaredTests) + When(incomplete, EvidenceIncomplete) + x, false, 0, 15)
  {
    RankedWhen(incomplete, EvidenceIncomplete, false);
    RankedWhen(none, NoDeclaredTests, false);
    RankedChain(a, b, When(none, NoDeclaredTests), When(incomplete, EvidenceIncomplete), x, false, 5, 8, 9, 9);
  }

  lemma {:induction false} CandidateRanked(f: Feature, e: Evidence, w: World, r: Result, l: Lane)
    ensures Ranked(CandidateReasons(f, e, w, r, l), false, 0, 15)
  {
    CommonRanked(e, false);
    BlockingRanked(w, f, false);
    LaneRanked(Declared(f), l, r, w, true, false);
    CandidateList(LaneCommon(e), Select(Completeness(w, f), true), Declared(f) == [], !e.complete,
                  LaneReasons(Declared(f), l, r, w, true));
  }

  lemma {:induction false} BaseRanked(f: Feature, e: Evidence, w: World, r: Result, l: Lane)
    ensures Ranked(BaseReasons(f, e, w, r, l), f.status == Beta, 0, 15)
  {
    if f.status == Beta {
      BetaRanked(f, e, w, r);
    } else {
      CandidateRanked(f, e, w, r, l);
    }
  }

  lemma {:induction false} StreakRanked(base: seq<Reason>, count: nat, streak: nat, beta: bool)
    requires Ranked(base, beta, 0, 15)
    ensures Ranked(base + When(count < streak, ShortStreak(count, streak)), beta, 0, 16)
  {
    RankedWhen(count < streak, ShortStreak(count, streak), beta);
    RankedBoth(base, When(count < streak, ShortStreak(count, streak)), beta, 0, 15, 16, 16);
  }

  /** The reasons come in the order of the checks: the run, missing evidence (for beta), the work, the tests, and the
      streak last. */
  lemma {:induction false} ReasonsInOrder(features: Features, e: Evidence, history: History, w: World, streak: nat,
                                          fid: string)
    requires fid in features && Promotable(features[fid].status)
    ensures Ranked(VerdictOf(features, e, history, w, streak, fid).reasons, features[fid].status == Beta, 0, 16)
  {
    var f, r, l := features[fid], ResultOf(e, fid), LaneOf(features, e, fid);
    VerdictReasons(features, e, history, w, streak, fid);
    BaseRanked(f, e, w, r, l);
    StreakRanked(BaseReasons(f, e, w, r, l), Streak(e, history, fid), streak, f.status == Beta);
  }

  // ----- reviews, and features that cannot be promoted -----

  ghost predicate OfTheSources(e: Evidence, r: Reason) {
    OfTheRun(e, r) && r != RunsMustSucceed
  }

  lemma {:induction false} SourcesHold(e: Evidence, r: Reason)
    ensures r in Common(e) <==> OfTheSources(e, r)
  {
    CommonHolds(e, r);
    var failed := e.ledgerConclusion != "success" || e.e2eConclusion != "success";
    InTwo(Common(e), When(failed, RunsMustSucceed), r);
    InWhen(failed, RunsMustSucceed, r);
  }

  /** What a review of a stable feature says: why it was skipped, or what is wrong. */
  ghost predicate ReviewHolds(f: Feature, e: Evidence, w: World, res: Result, x: Review) {
    match x
    case Skipped(r) => OfTheSources(e, r)
    case SkippedIncomplete => SoundRun(e) && !res.complete
    case GapsPresent => SoundRun(e) && res.complete && OpenGap(f.gaps)
    case Failing(tests) =>
      SoundRun(e) && res.complete && tests != {} && forall t :: t in tests <==> Declares(f, t) && t in res.failed
    case Unlinked => SoundRun(e) && res.complete && forall t :: Declares(f, t) ==> !GatingLinked(e, w, res, t)
  }

  lemma {:induction false} ReviewParts(f: Feature, e: Evidence, w: World, res: Result, x: Review)
    ensures x in ReviewReasons(f, e, w, res) <==>
            || (x == GapsPresent && OpenGap(f.gaps))
            || (x.Failing? && x.tests != {} && forall t :: t in x.tests <==> Declares(f, t) && t in res.failed)
            || (x == Unlinked && forall t :: Declares(f, t) ==> !GatingLinked(e, w, res, t))
  {
    var failing := res.failed * Members(Declared(f));
    forall t ensures t in failing <==> Declares(f, t) && t in res.failed {
      DeclaredMeans(f, t);
    }
    if x.Failing? && forall t :: t in x.tests <==> Declares(f, t) && t in res.failed {
      assert x.tests == failing;
    }
    LinkedByGating(f, e, w, res);
  }

  lemma {:induction false} LinkedByGating(f: Feature, e: Evidence, w: World, res: Result)
    ensures Linked(Declared(f), GatingLane(res, e), w) <==> exists t :: Declares(f, t) && GatingLinked(e, w, res, t)
  {
    forall t ensures t in Declared(f) && TestLinked(t, GatingLane(res, e), w) <==>
                     Declares(f, t) && GatingLinked(e, w, res, t)
    {
      DeclaredMeans(f, t);
      GatingLinkMeans(e, w, res, t);
    }
  }

  lemma {:induction false} SkippedAll(reasons: seq<Reason>, x: Review)
    ensures x in SkipAll(reasons) <==> x.Skipped? && x.reason in reasons
  {
    if x.Skipped? && x.reason in reasons {
      var i :| 0 <= i < |reasons| && reasons[i] == x.reason;
      assert SkipAll(reasons)[i] == x;
    }
  }

  /** The review of a stable feature lists exactly what holds; the feature is flagged when it was not skipped and
      something is wrong. */
  lemma {:induction false} ReviewExactly(f: Feature, e: Evidence, w: World, res: Result, x: Review)
    ensures var v := StableVerdict(f, e, w, res);
            && (x in v.review <==> ReviewHolds(f, e, w, res, x))
            && (v.flagged <==> SoundRun(e) && res.complete && v.review != []) && !v.eligible
  {
    SoundRunMeans(e);
    CommonExactly(e);
    SkippedAll(Common(e), x);
    ReviewParts(f, e, w, res, x);
    if x.Skipped? {
      SourcesHold(e, x.reason);
    }
  }

  /** The move that a verdict proposes. */
  lemma {:induction false} TransitionExactly(features: Features, e: Evidence, history: History, w: World, streak: nat,
                                             fid: string)
    requires fid in features
    ensures var v := VerdictOf(features, e, history, w, streak, fid);
            match features[fid].status
            case Beta => v.transition == Some(BetaToStable)
            case Planned => v.transition == Some(PlannedToBeta)
            case InProgress => v.transition == Some(InProgressToBeta)
            case Stable => v.transition == if v.flagged then Some(StableToBeta) else None
            case _ => v.transition == None
  {
    if features[fid].status == Stable {
      assert VerdictOf(features, e, history, w, streak, fid) == StableVerdict(features[fid], e, w, ResultOf(e, fid));
    }
  }

  /** Deferred features are frozen; of all others only beta, planned and in_progress can be promoted. */
  lemma {:induction false} StatusExactly(features: Features, e: Evidence, history: History, w: World, streak: nat,
                                         fid: string)
    requires fid in features && features[fid].status != Stable && !Promotable(features[fid].status)
    ensures VerdictOf(features, e, history, w, streak, fid) ==
            Verdict(false, [if features[fid].status == Deferred then Frozen else NotPromotable], None, [], false, [])
  {
  }
}
