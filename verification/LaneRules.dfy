/** What a run does to a feature, in terms of the recorded outcomes of its tests (scripts/ledger-promote.py): the
rules for promotion and demotion without the lanes they are computed with. */
module LaneRules {
  import opened Ledger
  import opened Promoter
  import opened LedgerRuns
  import opened Lanes

  // ----- outcomes of one test -----

  /** A feature whose tests run in the gating lane declares the test. */
  ghost predicate Shared(features: Features, t: string) {
    exists other :: other in features && Declares(features[other], t) && InGatingLane(features[other].status)
  }

  ghost predicate Declares(f: Feature, t: string) {
    f.tests.Some? && t in f.tests.value
  }

  predicate InGatingLane(s: Status) {
    match s
    case Stable => true
    case Beta => true
    case Implemented => true
    case Active => true
    case InProgress => true
    case _ => false
  }

  ghost predicate CandidatePassed(features: Features, r: Result, t: string) {
    t in r.candPassed || (Shared(features, t) && t in r.passed)
  }

  ghost predicate CandidateFailed(features: Features, r: Result, t: string) {
    t in r.candFailed || (Shared(features, t) && t in r.failed)
  }

  ghost predicate Attributes(m: Option<map<string, set<string>>>, t: string, target: string) {
    m.Some? && t in m.value && target in m.value[t]
  }

  ghost predicate CandidateReaches(features: Features, r: Result, t: string, target: string) {
    Attributes(r.candAttributed, t, target) || (Shared(features, t) && Attributes(r.attributed, t, target))
  }

  /** The target passed, or was seen in the candidate lane of some feature. */
  ghost predicate TargetSeen(e: Evidence, target: string) {
    target in e.targets || exists fid, t :: SeenFor(e, fid, t, target)
  }

  ghost predicate SeenFor(e: Evidence, fid: string, t: string, target: string) {
    fid in e.results && Attributes(e.results[fid].candAttributed, t, target)
  }

  ghost predicate InIndex(w: World, t: string) {
    exists i :: i in w.index && w.linked(t, i)
  }

  ghost predicate BugIgnoredTest(w: World, t: string) {
    exists i :: i in w.index && w.linked(t, i) && i.bug
  }

  /** In the gating lane a passed test counts as linked by the targets it is attributed to or, in evidence without
      attributions, by the target that its name binds. */
  ghost predicate GatingLinked(e: Evidence, w: World, r: Result, t: string) {
    && t in r.passed
    && match r.attributed {
         case Some(_) => exists target :: Attributes(r.attributed, t, target) && target in e.targets
         case None => exists target :: w.boundTarget(t) == Some(target) && target in e.targets
       }
  }

  // ----- the tests of a feature -----

  ghost predicate DeclaredAsRecorded(f: Feature, r: Result) {
    && (exists t :: Declares(f, t))
    && forall t :: t in r.declared <==> Declares(f, t)
  }

  /** The test passed, did not fail, is not ignored as a known bug, and is known to exist. */
  ghost predicate CandidateTest(features: Features, e: Evidence, w: World, r: Result, t: string) {
    && CandidatePassed(features, r, t) && !CandidateFailed(features, r, t) && !BugIgnoredTest(w, t)
    && (InIndex(w, t) ||
        (w.fileTarget(t).Some? && (w.present(w.fileTarget(t).value) || TargetSeen(e, w.fileTarget(t).value))))
  }

  ghost predicate CandidateLinked(features: Features, e: Evidence, r: Result, t: string, target: string) {
    CandidateReaches(features, r, t, target) && TargetSeen(e, target)
  }

  ghost predicate CandidateProven(features: Features, e: Evidence, w: World, fid: string)
    requires fid in features
  {
    var f, r := features[fid], ResultOf(e, fid);
    && DeclaredAsRecorded(f, r)
    && (forall t :: Declares(f, t) ==> CandidateTest(features, e, w, r, t))
    && exists t, target :: Declares(f, t) && CandidateLinked(features, e, r, t, target)
  }

  ghost predicate GatingProven(f: Feature, e: Evidence, w: World, r: Result) {
    && DeclaredAsRecorded(f, r)
    && (forall t :: Declares(f, t) ==> t in r.passed && t !in r.failed && !BugIgnoredTest(w, t))
    && exists t :: Declares(f, t) && GatingLinked(e, w, r, t)
  }

  predicate OpenGap(g: Gaps) {
    match g
    case Gaps(count) => count > 0
    case MalformedGaps(truthy) => truthy
  }

  // ----- the run and the state of the work -----

  ghost function ChainOf(e: Evidence): seq<string> {
    match e.chain
    case Some(chain) => chain
    case None => [e.sha]
  }

  /** Both workflows ran at the commit of the evidence, which has a link and is the newest of a chain of distinct
      commits. */
  ghost predicate SoundRun(e: Evidence) {
    && e.sha != ""
    && (e.ledgerSha == None || e.ledgerSha == Some(e.sha)) && (e.e2eSha == None || e.e2eSha == Some(e.sha))
    && e.runUrl != ""
    && ChainOf(e) != [] && ChainOf(e)[0] == e.sha
    && forall i, j :: 0 <= i < j < |ChainOf(e)| ==> ChainOf(e)[i] != ChainOf(e)[j]
  }

  /** A step is done if its text has no marker of pending work and, where it lists states, there is one and all of them
      are final. */
  ghost predicate StepDone(w: World, s: Step) {
    && !w.pending(s.text)
    && match s.states
       case None => true
       case Some(states) => states != [] && forall state :: state in states ==> FinalState(state)
  }

  predicate FinalState(state: string) {
    match state
    case "done" => true
    case "complete" => true
    case "completed" => true
    case "implemented" => true
    case _ => false
  }

  ghost predicate WorkDone(w: World, f: Feature) {
    && (exists value :: f.progress == Percent(value) && value >= 100.0)
    && (exists steps :: f.steps == Some(steps) && forall s :: s in steps ==> StepDone(w, s))
    && w.markers(f.notes) == [] && f.gaps == Gaps(0)
  }

  ghost predicate SaysMalformed(text: string) {
    Says(text, "malformed") || Says(text, "not numeric") || Says(text, "not finite")
  }

  ghost predicate Says(text: string, words: string) {
    exists front, back :: text == front + words + back
  }

  /** Progress is a number, the steps are a list whose open steps do not speak of malformed data in their first 60
      characters, and there is no open gap. */
  ghost predicate DataReadable(w: World, f: Feature) {
    && f.progress.Percent? && f.gaps == Gaps(0)
    && exists steps :: f.steps == Some(steps) &&
         forall s :: s in steps && !StepDone(w, s) ==> !SaysMalformed(if |s.text| <= 60 then s.text else s.text[..60])
  }

  lemma {:induction false} NoRepeatsMeans(s: seq<string>)
    ensures NoRepeats(s) <==> forall i, j :: 0 <= i < j < |s| ==> s[i] != s[j]
    ensures |Members(s)| <= |s|
  {
    if s != [] {
      var front, last := s[..|s| - 1], s[|s| - 1];
      NoRepeatsMeans(front);
      assert s == front + [last];
      assert Members(s) == Members(front) + {last};
      if last in front {
        assert Members(s) == Members(front);
        var i :| 0 <= i < |front| && front[i] == last;
        assert s[i] == s[|s| - 1];
      } else {
        forall i | 0 <= i < |front| ensures s[i] != last {
          assert s[i] in front;
        }
        assert NoRepeats(s) <==> NoRepeats(front);
        assert forall i, j :: 0 <= i < j < |front| ==> front[i] == s[i] && front[j] == s[j];
      }
    }
  }

  lemma {:induction false} SoundRunMeans(e: Evidence)
    ensures SoundRun(e) <==> GoodRun(e)
  {
    assert ChainOf(e) == Chain(e);
    NoRepeatsMeans(Chain(e));
  }

  lemma {:induction false} StepMeans(w: World, s: Step)
    ensures StepDone(w, s) <==> !StepOpen(w, s)
  {
    if s.states.Some? {
      forall state ensures FinalState(state) <==> Finished(state) {
      }
    }
  }

  lemma {:induction false} WorkMeans(w: World, f: Feature)
    ensures WorkDone(w, f) <==> Complete(w, f)
  {
    if f.steps.Some? {
      forall s ensures StepDone(w, s) <==> !StepOpen(w, s) {
        StepMeans(w, s);
      }
    }
  }

  lemma {:induction false} SaysMeans(text: string, words: string)
    ensures Says(text, words) <==> Mentions(text, words)
  {
    if Mentions(text, words) {
      var i :| 0 <= i <= |text| - |words| && StandsAt(words, text, i);
      assert text == text[..i] + words + text[i + |words|..];
    }
    forall front, back | text == front + words + back ensures Mentions(text, words) {
      assert StandsAt(words, text, |front|);
    }
  }

  lemma {:induction false} MalformedMeans(text: string)
    ensures SaysMalformed(text) <==> SoundsMalformed(text)
  {
    SaysMeans(text, "malformed");
    SaysMeans(text, "not numeric");
    SaysMeans(text, "not finite");
  }

  lemma {:induction false} ReadableMeans(w: World, f: Feature)
    ensures DataReadable(w, f) <==> Readable(w, f)
  {
    if f.steps.Some? {
      forall s: Step
        ensures StepDone(w, s) <==> !StepOpen(w, s)
        ensures SaysMalformed(if |s.text| <= 60 then s.text else s.text[..60]) <==> SoundsMalformed(Head(s.text, 60))
      {
        StepMeans(w, s);
        MalformedMeans(Head(s.text, 60));
      }
    }
  }

  // ----- the lanes mean these outcomes -----

  lemma {:induction false} DeclaredMeans(f: Feature, t: string)
    ensures t in Declared(f) <==> Declares(f, t)
  {
  }

  lemma {:induction false} SharedMeans(features: Features, t: string)
    ensures t in GatingDeclared(features) <==> Shared(features, t)
  {
    if Shared(features, t) {
      var other :| other in features && Declares(features[other], t) && InGatingLane(features[other].status);
      DeclaredMeans(features[other], t);
    }
    if t in GatingDeclared(features) {
      var other :| other in features && Gating(features[other].status) && t in Declared(features[other]);
      assert Declares(features[other], t) && InGatingLane(features[other].status);
    }
  }

  lemma {:induction false} SeenMeans(e: Evidence, target: string)
    ensures target in e.targets + CandidateTargets(e) <==> TargetSeen(e, target)
  {
    if target in CandidateTargets(e) {
      var fid :| fid in e.results && target in TargetsIn(e.results[fid].candAttributed);
      var m := e.results[fid].candAttributed;
      var t :| t in m.value && target in m.value[t];
      assert SeenFor(e, fid, t, target);
    }
    forall fid, t | SeenFor(e, fid, t, target) ensures target in CandidateTargets(e) {
      var m := e.results[fid].candAttributed;
      assert t in m.value && target in m.value[t];
      assert target in TargetsIn(m);
    }
  }

  lemma {:induction false} LookupMeans(m: Option<map<string, set<string>>>, t: string, target: string)
    ensures target in Lookup(m, t) <==> Attributes(m, t, target)
  {
  }

  lemma {:induction false} MergedMeans(declared: seq<string>, r: Result, gating: set<string>, t: string, target: string)
    requires t in declared
    ensures target in Lookup(Some(MergedTargets(declared, r, gating)), t) <==>
            Attributes(r.candAttributed, t, target) || (t in gating && Attributes(r.attributed, t, target))
  {
    LookupMeans(r.candAttributed, t, target);
    LookupMeans(r.attributed, t, target);
    var merged := Merged(r, t in gating, t);
    assert Lookup(Some(MergedTargets(declared, r, gating)), t) == merged;
  }

  ghost predicate LaneLinked(l: Lane, t: string, target: string) {
    target in Lookup(l.attributed, t) && target in l.targets
  }

  lemma {:induction false} LinkedMeans(declared: seq<string>, l: Lane, w: World)
    requires forall t :: t in declared ==> t in l.passed
    requires l.attributed.Some?
    ensures Linked(declared, l, w) <==> exists t, target :: t in declared && LaneLinked(l, t, target)
  {
    if Linked(declared, l, w) {
      var t :| t in declared && TestLinked(t, l, w);
      var target :| target in Lookup(l.attributed, t) * l.targets;
      assert t in declared && LaneLinked(l, t, target);
    }
    forall t, target | t in declared && LaneLinked(l, t, target) ensures Linked(declared, l, w) {
      assert target in Lookup(l.attributed, t) * l.targets;
      assert TestLinked(t, l, w);
    }
  }

  lemma {:induction false} BugMeans(w: World, declared: seq<string>)
    ensures AnyBug(w, declared) <==> exists t :: t in declared && BugIgnoredTest(w, t)
  {
  }

  lemma {:induction false} KnownMeans(e: Evidence, w: World, t: string)
    ensures Known(w, e.targets + CandidateTargets(e), t) <==>
            || InIndex(w, t)
            || (w.fileTarget(t).Some? && (w.present(w.fileTarget(t).value) || TargetSeen(e, w.fileTarget(t).value)))
  {
    if w.fileTarget(t).Some? {
      SeenMeans(e, w.fileTarget(t).value);
    }
  }

  lemma {:induction false} RecordedMeans(f: Feature, r: Result)
    ensures DeclaredAsRecorded(f, r) <==> Declared(f) != [] && r.declared == Members(Declared(f))
  {
    forall t ensures t in Members(Declared(f)) <==> Declares(f, t) {
      DeclaredMeans(f, t);
    }
    if Declared(f) != [] {
      assert Declared(f)[0] in Declared(f);
      DeclaredMeans(f, Declared(f)[0]);
    }
  }

  lemma {:induction false} GatingLinkMeans(e: Evidence, w: World, r: Result, t: string)
    ensures TestLinked(t, GatingLane(r, e), w) <==> GatingLinked(e, w, r, t)
  {
    if r.attributed.Some? {
      var both := Lookup(r.attributed, t) * e.targets;
      forall target ensures target in both <==> Attributes(r.attributed, t, target) && target in e.targets {
        LookupMeans(r.attributed, t, target);
      }
      if x :| x in both {
        assert Attributes(r.attributed, t, x) && x in e.targets;
      }
    }
  }

  /** Two conditions on every test as conditions on the lane. */
  lemma {:induction false} CandidateOutcomes(features: Features, e: Evidence, fid: string, t: string)
    requires fid in features && InCandidateLane(features[fid].status) && Declares(features[fid], t)
    ensures var l, r := LaneOf(features, e, fid), ResultOf(e, fid);
            && (t in l.passed <==> CandidatePassed(features, r, t))
            && (t in l.failed <==> CandidateFailed(features, r, t))
  {
    SharedMeans(features, t);
    DeclaredMeans(features[fid], t);
  }

  lemma {:induction false} CandidateLink(features: Features, e: Evidence, fid: string, t: string, target: string)
    requires fid in features && InCandidateLane(features[fid].status) && Declares(features[fid], t)
    ensures LaneLinked(LaneOf(features, e, fid), t, target) <==>
            CandidateLinked(features, e, ResultOf(e, fid), t, target)
  {
    var f, r := features[fid], ResultOf(e, fid);
    SharedMeans(features, t);
    MergedMeans(Declared(f), r, GatingDeclared(features), t, target);
    SeenMeans(e, target);
  }

  lemma {:induction false} CandidateLinks(features: Features, e: Evidence, w: World, fid: string)
    requires fid in features && InCandidateLane(features[fid].status)
    requires forall t :: t in Declared(features[fid]) ==> t in LaneOf(features, e, fid).passed
    ensures Linked(Declared(features[fid]), LaneOf(features, e, fid), w) <==>
            exists t, target :: Declares(features[fid], t) && CandidateLinked(features, e, ResultOf(e, fid), t, target)
  {
    var f, l := features[fid], LaneOf(features, e, fid);
    LinkedMeans(Declared(f), l, w);
    forall t ensures t in Declared(f) <==> Declares(f, t) {
      DeclaredMeans(f, t);
    }
    forall t, target | Declares(f, t)
      ensures LaneLinked(l, t, target) <==> CandidateLinked(features, e, ResultOf(e, fid), t, target)
    {
      CandidateLink(features, e, fid, t, target);
    }
  }

  ghost predicate LaneTest(l: Lane, w: World, t: string) {
    t in l.passed && t !in l.failed && !BugIgnoredTest(w, t) && Known(w, l.targets, t)
  }

  lemma {:induction false} CandidateTestMeans(features: Features, e: Evidence, w: World, fid: string, t: string)
    requires fid in features && InCandidateLane(features[fid].status) && Declares(features[fid], t)
    ensures LaneTest(LaneOf(features, e, fid), w, t) <==> CandidateTest(features, e, w, ResultOf(e, fid), t)
  {
    CandidateOutcomes(features, e, fid, t);
    KnownMeans(e, w, t);
  }

  lemma {:induction false} ProvenMeans(f: Feature, l: Lane, r: Result, w: World)
    ensures Proven(Declared(f), l, r, w) && AllKnown(w, l.targets, Declared(f)) <==>
            && DeclaredAsRecorded(f, r) && (forall t :: Declares(f, t) ==> LaneTest(l, w, t))
            && Linked(Declared(f), l, w)
  {
    RecordedMeans(f, r);
    BugMeans(w, Declared(f));
    forall t ensures t in Declared(f) <==> Declares(f, t) {
      DeclaredMeans(f, t);
    }
  }

  /** What the rule for beta asks of the tests, in terms of their outcomes. */
  lemma {:induction false} CandidateMeans(features: Features, e: Evidence, w: World, fid: string)
    requires fid in features && InCandidateLane(features[fid].status)
    ensures var f, l, r := features[fid], LaneOf(features, e, fid), ResultOf(e, fid);
            Proven(Declared(f), l, r, w) && AllKnown(w, l.targets, Declared(f)) <==>
            CandidateProven(features, e, w, fid)
  {
    var f, l, r := features[fid], LaneOf(features, e, fid), ResultOf(e, fid);
    ProvenMeans(f, l, r, w);
    forall t | Declares(f, t) ensures LaneTest(l, w, t) <==> CandidateTest(features, e, w, r, t) {
      CandidateTestMeans(features, e, w, fid, t);
    }
    if forall t :: Declares(f, t) ==> LaneTest(l, w, t) {
      forall t | t in Declared(f) ensures t in l.passed {
        assert Declares(f, t) && LaneTest(l, w, t);
      }
      CandidateLinks(features, e, w, fid);
    }
  }

  /** What the rule for stable asks of the tests. */
  lemma {:induction false} GatingMeans(f: Feature, e: Evidence, w: World, r: Result)
    ensures Proven(Declared(f), GatingLane(r, e), r, w) <==> GatingProven(f, e, w, r)
  {
    RecordedMeans(f, r);
    BugMeans(w, Declared(f));
    forall t ensures TestLinked(t, GatingLane(r, e), w) <==> GatingLinked(e, w, r, t) {
      GatingLinkMeans(e, w, r, t);
    }
  }

  // ----- the moves of a run -----

  function Day(run: Run): string {
    var now := if run.evidence.verifiedAt == "" then run.clock else run.evidence.verifiedAt;
    if |now| < 10 then now else now[..10]
  }

  function WithNote(notes: string, note: string): string {
    if notes == "" then note else notes + "\n" + note
  }

  lemma {:induction false} NoteMeans(notes: string, note: string)
    ensures WithNote(notes, note) == Noted(notes, note)
  {
    assert "" + note == note;
  }

  lemma {:induction false} DayMeans(run: Run)
    ensures Day(run) == Today(run)
  {
  }

  /** Evidence of a sound, successful, complete run proves the tests, the data is readable and the streak is long
      enough. */
  ghost predicate MeetsBeta(features: Features, run: Run, fid: string)
    requires fid in features
  {
    var e := run.evidence;
    && SoundRun(e) && e.ledgerConclusion == "success" && e.e2eConclusion == "success" && e.complete
    && DataReadable(run.world, features[fid]) && CandidateProven(features, e, run.world, fid)
    && Streak(e, run.history, fid) >= run.streak
  }

  /** Such evidence proves the tests in the gating lane, and nothing is left to do. */
  ghost predicate MeetsStable(features: Features, run: Run, fid: string)
    requires fid in features
  {
    var f, e := features[fid], run.evidence;
    && SoundRun(e) && e.ledgerConclusion == "success" && e.e2eConclusion == "success" && e.complete
    && WorkDone(run.world, f) && GatingProven(f, e, run.world, ResultOf(e, fid))
    && Streak(e, run.history, fid) >= run.streak
  }

  /** A run with demotions, its evidence on the feature complete, shows an open gap, a failed declared test, or no
      declared test that is linked. */
  ghost predicate MeetsDemotion(features: Features, run: Run, fid: string)
    requires fid in features
  {
    var f, e, r := features[fid], run.evidence, ResultOf(run.evidence, fid);
    && run.demotions && SoundRun(e) && r.complete
    && (OpenGap(f.gaps) || (exists t :: Declares(f, t) && t in r.failed)
        || forall t :: Declares(f, t) ==> !GatingLinked(e, run.world, r, t))
  }

  lemma {:induction false} BetaVerdict(features: Features, run: Run, fid: string)
    requires fid in features && InCandidateLane(features[fid].status)
    ensures VerdictIn(features, run, fid).eligible <==> MeetsBeta(features, run, fid)
  {
    var f, e, w := features[fid], run.evidence, run.world;
    EligibleExactly(f, e, w, ResultOf(e, fid), LaneOf(features, e, fid), Streak(e, run.history, fid), run.streak);
    CandidateMeans(features, e, w, fid);
    SoundRunMeans(e);
    ReadableMeans(w, f);
  }

  lemma {:induction false} StableVerdictExactly(features: Features, run: Run, fid: string)
    requires fid in features && features[fid].status == Beta
    ensures VerdictIn(features, run, fid).eligible <==> MeetsStable(features, run, fid)
  {
    var f, e, w := features[fid], run.evidence, run.world;
    EligibleExactly(f, e, w, ResultOf(e, fid), LaneOf(features, e, fid), Streak(e, run.history, fid), run.streak);
    GatingMeans(f, e, w, ResultOf(e, fid));
    SoundRunMeans(e);
    WorkMeans(w, f);
  }

  lemma {:induction false} DemotionVerdict(features: Features, run: Run, fid: string)
    requires fid in features && features[fid].status == Stable
    ensures run.demotions && VerdictIn(features, run, fid).flagged <==> MeetsDemotion(features, run, fid)
  {
    var f, e, w := features[fid], run.evidence, run.world;
    var r := ResultOf(e, fid);
    FlaggedExactly(f, e, w, r, LaneOf(features, e, fid), Streak(e, run.history, fid), run.streak);
    SoundRunMeans(e);
    forall t ensures t in Declared(f) <==> Declares(f, t) {
      DeclaredMeans(f, t);
    }
    forall t ensures TestLinked(t, GatingLane(r, e), w) <==> GatingLinked(e, w, r, t) {
      GatingLinkMeans(e, w, r, t);
    }
  }

  lemma {:induction false} CandidateMove(f: Feature, v: Verdict, run: Run, fmt: Format)
    requires InCandidateLane(f.status) && v.transition != Some(BetaToStable) && !v.flagged
    ensures Moved(f, v, run, fmt) ==
            if v.eligible
            then f.(status := Beta, notes := WithNote(f.notes, fmt.promoted(f.status, run.evidence.sha, Day(run))))
            else f
  {
    NoteMeans(f.notes, fmt.promoted(f.status, run.evidence.sha, Day(run)));
    DayMeans(run);
  }

  lemma {:induction false} BetaMove(f: Feature, v: Verdict, run: Run, fmt: Format)
    requires f.status == Beta && (v.eligible ==> v.transition == Some(BetaToStable)) && !v.flagged
    ensures Moved(f, v, run, fmt) ==
            if v.eligible
            then f.(status := Stable, passes := true, progress := Percent(100.0), lastTested := Day(run),
                    stamp := Moved(f, v, run, fmt).stamp) else f
  {
    DayMeans(run);
  }

  lemma {:induction false} StableMove(f: Feature, v: Verdict, run: Run, fmt: Format)
    requires f.status == Stable && !v.eligible
    ensures Moved(f, v, run, fmt) ==
            if run.demotions && v.flagged
            then f.(status := Beta, passes := false,
                    notes := WithNote(f.notes, fmt.demoted(v.review, run.evidence.sha, Day(run)))) else f
  {
    NoteMeans(f.notes, fmt.demoted(v.review, run.evidence.sha, Day(run)));
    DayMeans(run);
  }

  lemma {:induction false} MovedIs(features: Features, run: Run, fmt: Format, fid: string)
    requires fid in features
    ensures MoveAll(features, run, fmt)[fid] == Moved(features[fid], VerdictIn(features, run, fid), run, fmt)
  {
  }

  lemma {:induction false} VerdictFacts(features: Features, run: Run, fid: string)
    requires fid in features
    ensures var v, s := VerdictIn(features, run, fid), features[fid].status;
            && (v.eligible ==> v.transition == TransitionOf(s) && s != Stable) && (v.flagged ==> s == Stable)
  {
    VerdictTransition(features, run, fid);
  }

  /** A run takes a planned or in_progress feature to beta exactly when it meets the rule. It then changes the status
      and adds a note; otherwise it changes nothing. */
  lemma {:induction false} BetaExactly(features: Features, run: Run, fmt: Format, fid: string)
    requires fid in features && InCandidateLane(features[fid].status)
    ensures var f := features[fid];
            MoveAll(features, run, fmt)[fid] ==
            if MeetsBeta(features, run, fid)
            then f.(status := Beta, notes := WithNote(f.notes, fmt.promoted(f.status, run.evidence.sha, Day(run))))
            else f
  {
    var f, v := features[fid], VerdictIn(features, run, fid);
    BetaVerdict(features, run, fid);
    VerdictFacts(features, run, fid);
    MovedIs(features, run, fmt, fid);
    if v.eligible {
      CandidateMove(f, v, run, fmt);
    }
  }

  /** And a beta feature to stable exactly when it meets that rule. */
  lemma {:induction false} StableExactly(features: Features, run: Run, fmt: Format, fid: string)
    requires fid in features && features[fid].status == Beta
    ensures var f, g := features[fid], MoveAll(features, run, fmt)[fid];
            g == if MeetsStable(features, run, fid)
                 then f.(status := Stable, passes := true, progress := Percent(100.0), lastTested := Day(run),
                         stamp := g.stamp) else f
  {
    StableVerdictExactly(features, run, fid);
    VerdictFacts(features, run, fid);
    MovedIs(features, run, fmt, fid);
    BetaMove(features[fid], VerdictIn(features, run, fid), run, fmt);
  }

  /** A stable feature is taken back exactly when it meets the rule for that; its notes only grow. */
  lemma {:induction false} DemotedExactly(features: Features, run: Run, fmt: Format, fid: string)
    requires fid in features && features[fid].status == Stable
    ensures var f := features[fid];
            MoveAll(features, run, fmt)[fid] ==
            if MeetsDemotion(features, run, fid)
            then f.(status := Beta, passes := false,
                    notes := WithNote(f.notes, fmt.demoted(VerdictIn(features, run, fid).review, run.evidence.sha,
                                                           Day(run)))) else f
  {
    DemotionVerdict(features, run, fid);
    VerdictFacts(features, run, fid);
    MovedIs(features, run, fmt, fid);
    StableMove(features[fid], VerdictIn(features, run, fid), run, fmt);
  }

  /** A run without results for a feature leaves it alone. */
  lemma {:induction false} NoResultNoMove(features: Features, run: Run, fmt: Format, fid: string)
    requires fid in features && fid !in run.evidence.results
    ensures MoveAll(features, run, fmt)[fid] == features[fid]
  {
    var f, r := features[fid], ResultOf(run.evidence, fid);
    assert !DeclaredAsRecorded(f, r);
    if InCandidateLane(f.status) {
      BetaExactly(features, run, fmt, fid);
    } else if f.status == Beta {
      StableExactly(features, run, fmt, fid);
    } else if f.status == Stable {
      DemotedExactly(features, run, fmt, fid);
    } else {
      EligibleExactly(f, run.evidence, run.world, r, LaneOf(features, run.evidence, fid),
                      Streak(run.evidence, run.history, fid), run.streak);
      VerdictFacts(features, run, fid);
    }
  }
}
