/** What applying the same run twice does to the ledger (scripts/ledger-promote.py). */
module SecondRun {
  import opened Ledger
  import opened Promoter
  import opened LedgerRuns
  import opened Lanes

  /** The run takes this planned or in_progress feature to beta. */
  ghost predicate GoesToBeta(features: Features, run: Run, fid: string)
    requires fid in features
  {
    && ReadyForBeta(features[fid], run.evidence, run.world, ResultOf(run.evidence, fid),
                    LaneOf(features, run.evidence, fid))
    && Streak(run.evidence, run.history, fid) >= run.streak
  }

  /** Tests that a gating feature declares once the planned features that are ready have become beta. */
  ghost function NewlyGating(features: Features, run: Run): set<string> {
    set fid, t | fid in features && features[fid].status == Planned && GoesToBeta(features, run, fid)
                 && t in Declared(features[fid]) :: t
  }

  /** The lane in which a second run judges a feature that the first one left where it was. */
  ghost function NextLane(features: Features, run: Run, fid: string): Lane
    requires fid in features
  {
    CandidateLane(Declared(features[fid]), ResultOf(run.evidence, fid),
                  GatingDeclared(features) + NewlyGating(features, run),
                  run.evidence.targets + CandidateTargets(run.evidence))
  }

  /** A planned or in_progress feature moves again: one that becomes beta meets the rule for stable as well, or
      one that does not is ready once the gating outcomes of newly gating tests count for it. All of this is read
      off the ledger before the run. */
  ghost predicate MovesAgain(features: Features, run: Run, fmt: Format, fid: string)
    requires fid in features
  {
    var f, e, w, r := features[fid], run.evidence, run.world, ResultOf(run.evidence, fid);
    && Streak(e, run.history, fid) >= run.streak
    && if ReadyForBeta(f, e, w, r, LaneOf(features, e, fid)) then
         ReadyForStable(Promote(f, TransitionOf(f.status), run, fmt), e, w, r)
       else
         ReadyForBeta(f, e, w, r, NextLane(features, run, fid))
  }

  /** The first run on a planned or in_progress feature. */
  lemma {:induction false} FirstMove(features: Features, run: Run, fmt: Format, fid: string)
    requires fid in features && InCandidateLane(features[fid].status)
    ensures var f, e := features[fid], run.evidence;
            MoveAll(features, run, fmt)[fid] ==
            if ReadyForBeta(f, e, run.world, ResultOf(e, fid), LaneOf(features, e, fid))
               && Streak(e, run.history, fid) >= run.streak
            then Promote(f, TransitionOf(f.status), run, fmt) else f
  {
    var f, e := features[fid], run.evidence;
    var lane, count := LaneOf(features, e, fid), Streak(e, run.history, fid);
    EligibleExactly(f, e, run.world, ResultOf(e, fid), lane, count, run.streak);
    VerdictTransition(features, run, fid);
  }

  lemma {:induction false} NextMove(features: Features, run: Run, fid: string)
    requires fid in features && features[fid].status != Stable
    ensures var f, e, r := features[fid], run.evidence, ResultOf(run.evidence, fid);
            Moves(VerdictIn(features, run, fid), run) <==>
            && Streak(e, run.history, fid) >= run.streak
            && match f.status {
                 case Beta => ReadyForStable(f, e, run.world, r)
                 case Planned => ReadyForBeta(f, e, run.world, r, LaneOf(features, e, fid))
                 case InProgress => ReadyForBeta(f, e, run.world, r, LaneOf(features, e, fid))
                 case _ => false
               }
  {
    var e := run.evidence;
    EligibleExactly(features[fid], e, run.world, ResultOf(e, fid), LaneOf(features, e, fid),
                    Streak(e, run.history, fid), run.streak);
    VerdictTransition(features, run, fid);
  }

  lemma {:induction false} SettledGating(f: Feature, g: Feature, demotions: bool)
    requires FeatureStep(f, g, demotions) && f.status != Planned
    ensures Declared(g) == Declared(f) && (Gating(g.status) <==> Gating(f.status))
  {
  }

  lemma {:induction false} PlannedGating(f: Feature, g: Feature, promoted: bool, run: Run, fmt: Format)
    requires f.status == Planned && g == if promoted then Promote(f, TransitionOf(f.status), run, fmt) else f
    ensures Declared(g) == Declared(f) && (Gating(g.status) <==> promoted)
  {
  }

  lemma {:induction false} GatingOne(features: Features, run: Run, fmt: Format, fid: string)
    requires fid in features
    ensures var f, g := features[fid], MoveAll(features, run, fmt)[fid];
            && Declared(g) == Declared(f)
            && (Gating(g.status) <==> Gating(f.status) || (f.status == Planned && GoesToBeta(features, run, fid)))
  {
    var f, g := features[fid], MoveAll(features, run, fmt)[fid];
    if f.status == Planned {
      FirstMove(features, run, fmt, fid);
      PlannedGating(f, g, GoesToBeta(features, run, fid), run, fmt);
    } else {
      OneEdgeAtMost(features, run, fmt, fid);
      SettledGating(f, g, run.demotions);
    }
  }

  /** A run adds to the gating tests exactly those of the planned features it takes to beta. */
  lemma {:induction false} GatingAfter(features: Features, run: Run, fmt: Format)
    ensures GatingDeclared(MoveAll(features, run, fmt)) == GatingDeclared(features) + NewlyGating(features, run)
  {
    var after := MoveAll(features, run, fmt);
    forall fid | fid in features
      ensures Declared(after[fid]) == Declared(features[fid])
      ensures Gating(after[fid].status) <==>
              Gating(features[fid].status) || (features[fid].status == Planned && GoesToBeta(features, run, fid))
    {
      GatingOne(features, run, fmt, fid);
    }
    GatingSets(features, after, run);
  }

  lemma {:induction false} GatingSets(features: Features, after: Features, run: Run)
    requires after.Keys == features.Keys
    requires forall fid :: fid in features ==> Declared(after[fid]) == Declared(features[fid])
    requires forall fid :: fid in features ==>
               (Gating(after[fid].status) <==>
                Gating(features[fid].status) || (features[fid].status == Planned && GoesToBeta(features, run, fid)))
    ensures GatingDeclared(after) == GatingDeclared(features) + NewlyGating(features, run)
  {
  }

  /** A feature that a run leaves in the candidate lane is judged there with the tests that became gating. */
  lemma {:induction false} LaneAfter(features: Features, after: Features, run: Run, fid: string)
    requires fid in features && fid in after && after[fid] == features[fid] && InCandidateLane(features[fid].status)
    requires GatingDeclared(after) == GatingDeclared(features) + NewlyGating(features, run)
    ensures LaneOf(after, run.evidence, fid) == NextLane(features, run, fid)
  {
  }

  lemma {:induction false} StaysInLane(features: Features, run: Run, fmt: Format, fid: string)
    requires fid in features && InCandidateLane(features[fid].status) && !GoesToBeta(features, run, fid)
    ensures MoveAll(features, run, fmt)[fid] == features[fid]
    ensures Moves(VerdictIn(MoveAll(features, run, fmt), run, fid), run) <==>
            && Streak(run.evidence, run.history, fid) >= run.streak
            && ReadyForBeta(features[fid], run.evidence, run.world, ResultOf(run.evidence, fid),
                            NextLane(features, run, fid))
  {
    var after := MoveAll(features, run, fmt);
    FirstMove(features, run, fmt, fid);
    GatingAfter(features, run, fmt);
    LaneAfter(features, after, run, fid);
    NextMove(after, run, fid);
  }

  lemma {:induction false} LeavesLane(features: Features, run: Run, fmt: Format, fid: string)
    requires fid in features && InCandidateLane(features[fid].status) && GoesToBeta(features, run, fid)
    ensures Moves(VerdictIn(MoveAll(features, run, fmt), run, fid), run) <==>
            ReadyForStable(Promote(features[fid], TransitionOf(features[fid].status), run, fmt), run.evidence,
                           run.world, ResultOf(run.evidence, fid))
  {
    FirstMove(features, run, fmt, fid);
    NextMove(MoveAll(features, run, fmt), run, fid);
  }

  lemma {:induction false} AgainInLane(features: Features, run: Run, fmt: Format, fid: string)
    requires fid in features && InCandidateLane(features[fid].status)
    ensures Moves(VerdictIn(MoveAll(features, run, fmt), run, fid), run) <==> MovesAgain(features, run, fmt, fid)
  {
    if GoesToBeta(features, run, fid) {
      LeavesLane(features, run, fmt, fid);
    } else {
      StaysInLane(features, run, fmt, fid);
    }
  }

  lemma {:induction false} AgainExactly(features: Features, run: Run, fmt: Format, fid: string)
    requires fid in features
    ensures Moves(VerdictIn(MoveAll(features, run, fmt), run, fid), run) <==>
            InCandidateLane(features[fid].status) && MovesAgain(features, run, fmt, fid)
  {
    if InCandidateLane(features[fid].status) {
      AgainInLane(features, run, fmt, fid);
    } else {
      SettledFeature(features, run, fmt, fid);
    }
  }

  /** A move changes the status, so it shows. */
  lemma {:induction false} MovesShow(features: Features, run: Run, fmt: Format, fid: string)
    requires fid in features && Moves(VerdictIn(features, run, fid), run)
    ensures MoveAll(features, run, fmt)[fid] != features[fid]
  {
    VerdictTransition(features, run, fid);
  }

  lemma {:induction false} FixedExactly(doc: Document, order: seq<string>, run: Run, fmt: Format)
    requires WellOrdered(doc, order)
    requires doc.metadata.Some? ==> Holds(doc.metadata.value, Recount(doc.features, order, fmt))
    ensures Next(doc, order, run, fmt) == doc <==> !Changes(doc.features, run)
  {
    if Changes(doc.features, run) {
      var fid :| fid in doc.features && Moves(VerdictIn(doc.features, run, fid), run);
      MovesShow(doc.features, run, fmt, fid);
    } else {
      NoMoves(doc.features, run, fmt);
      if doc.metadata.Some? {
        RecountedStays(doc.metadata, Recount(doc.features, order, fmt), run);
      }
    }
  }

  /** Applying a run twice is applying it once, metadata included, exactly when no planned or in_progress feature
      moves again. */
  lemma {:induction false} SameRunTwiceExactly(doc: Document, order: seq<string>, run: Run, fmt: Format)
    requires WellOrdered(doc, order)
    ensures var once := Next(doc, order, run, fmt);
            Next(once, order, run, fmt) == once <==>
            forall fid :: fid in doc.features && InCandidateLane(doc.features[fid].status) ==>
                            !MovesAgain(doc.features, run, fmt, fid)
  {
    var once := Next(doc, order, run, fmt);
    RunRecounts(doc, order, run, fmt);
    FixedExactly(once, order, run, fmt);
    forall fid | fid in doc.features
      ensures Moves(VerdictIn(once.features, run, fid), run) <==>
              InCandidateLane(doc.features[fid].status) && MovesAgain(doc.features, run, fmt, fid)
    {
      AgainExactly(doc.features, run, fmt, fid);
    }
  }

  // ----- a run whose repetition moves a feature again -----

  function ExampleFeatures(): Features {
    map["f" := Feature(InProgress, Some(["t"]), Percent(100.0), Some([]), "", Gaps(0), false, "", None)]
  }

  function ExampleResult(): Result {
    Result({"t"}, {}, Some(map["t" := {"e2e"}]), {}, {}, None, {"t"}, true)
  }

  function ExampleEvidence(): Evidence {
    Evidence("sha", None, None, "success", "success", "url", "", None, {"e2e"}, map["f" := ExampleResult()], true)
  }

  function ExampleWorld(): World {
    World([IndexedTest("path", "t", false)], (test, indexed) => true, test => None, test => None, name => false,
          text => false, notes => [])
  }

  function ExampleRun(): Run {
    Run(ExampleEvidence(), map[], ExampleWorld(), 1, false, "now")
  }

  lemma {:induction false} ExampleIsGood(e: Evidence)
    requires e.(results := map[]) == ExampleEvidence().(results := map[])
    ensures GoodRun(e) && BothSucceeded(e) && e.complete && forall fid :: Streak(e, map[], fid) >= 1
  {
    assert Chain(e) == ["sha"] && Members(["sha"]) == {"sha"};
    forall fid ensures Streak(e, map[], fid) >= 1 {
      assert GreenPrefix(["sha"], Green(map[], fid, "sha")) == 1 + GreenPrefix(["sha"][1..], Green(map[], fid, "sha"));
    }
  }

  lemma {:induction false} ExampleIsProven(w: World, l: Lane, r: Result)
    requires w == ExampleWorld() && r.declared == {"t"} && l.passed == {"t"} && l.failed == {}
    requires l.attributed == Some(map["t" := {"e2e"}]) && "e2e" in l.targets
    ensures Proven(["t"], l, r, w) && AllKnown(w, l.targets, ["t"])
  {
    assert Members(["t"]) == {"t"};
    assert "e2e" in Lookup(l.attributed, "t") * l.targets;
    assert "t" in ["t"] && TestLinked("t", l, w);
    assert w.index[0] in w.index;
  }

  lemma {:induction false} ExampleLane(features: Features, e: Evidence)
    requires features == ExampleFeatures() && e == ExampleEvidence()
    ensures var l := LaneOf(features, e, "f");
            l.passed == {"t"} && l.failed == {} && l.attributed == Some(map["t" := {"e2e"}]) && "e2e" in l.targets
  {
    var r, gating := ExampleResult(), GatingDeclared(features);
    assert ResultOf(e, "f") == r;
    assert "t" in gating by {
      assert "f" in features && Gating(features["f"].status) && "t" in Declared(features["f"]);
    }
    assert Merged(r, true, "t") == {"e2e"};
    assert MergedTargets(["t"], r, gating) == map["t" := {"e2e"}];
  }

  /** A finished in_progress feature whose tests passed in the gating lane goes to beta, and to stable when the
      same run is applied again. */
  lemma {:induction false} TwoStepsOnOneRun(features: Features, run: Run, fmt: Format)
    requires features == ExampleFeatures() && run == ExampleRun()
    ensures var once := MoveAll(features, run, fmt);
            HasStatus(once, "f", Beta) && HasStatus(MoveAll(once, run, fmt), "f", Stable)
  {
    var f, e, w, r := features["f"], run.evidence, run.world, ExampleResult();
    ExampleIsGood(e);
    ExampleLane(features, e);
    ExampleIsProven(w, LaneOf(features, e, "f"), r);
    assert ResultOf(e, "f") == r && Declared(f) == ["t"];
    assert ReadyForBeta(f, e, w, r, LaneOf(features, e, "f"));
    FirstMove(features, run, fmt, "f");
    var once := MoveAll(features, run, fmt);
    var g := once["f"];
    ExampleIsProven(w, GatingLane(r, e), r);
    assert Complete(w, g) && Declared(g) == ["t"];
    assert ReadyForStable(g, e, w, r);
    NextMove(once, run, "f");
    VerdictTransition(once, run, "f");
  }

  // ----- a feature that waits for another one -----

  /** Two planned features declare the same test; one has its outcome in the candidate lane, the other in the
      gating lane only. */
  function PairFeatures(): Features {
    var f := Feature(Planned, Some(["t"]), Percent(100.0), Some([]), "", Gaps(0), false, "", None);
    map["a" := f, "b" := f]
  }

  function CandidateResult(): Result {
    Result({}, {}, None, {"t"}, {}, Some(map["t" := {"e2e"}]), {"t"}, true)
  }

  function PairRun(): Run {
    Run(ExampleEvidence().(results := map["a" := CandidateResult(), "b" := ExampleResult()]), map[], ExampleWorld(), 1,
        false, "now")
  }

  lemma {:induction false} NoneGating(features: Features)
    requires features == PairFeatures()
    ensures GatingDeclared(features) == {}
  {
  }

  /** A test counts as passed in the candidate lane by its own outcome, or by the gating one once it is gating. */
  lemma {:induction false} PairLane(r: Result, gating: set<string>, targets: set<string>)
    requires r == CandidateResult() || (r == ExampleResult() && "t" in gating)
    ensures var l := CandidateLane(["t"], r, gating, targets);
            l.passed == {"t"} && l.failed == {} && l.attributed == Some(map["t" := {"e2e"}]) && l.targets == targets
  {
    assert Merged(r, "t" in gating, "t") == {"e2e"};
    assert MergedTargets(["t"], r, gating) == map["t" := {"e2e"}];
  }

  lemma {:induction false} FirstOfPair(features: Features, run: Run)
    requires features == PairFeatures() && run == PairRun()
    ensures GoesToBeta(features, run, "a") && !GoesToBeta(features, run, "b")
    ensures "t" in NewlyGating(features, run)
  {
    var e, w := run.evidence, run.world;
    ExampleIsGood(e);
    NoneGating(features);
    var r, l := ResultOf(e, "a"), LaneOf(features, e, "a");
    assert r == CandidateResult() && Declared(features["a"]) == ["t"];
    PairLane(r, {}, e.targets + CandidateTargets(e));
    ExampleIsProven(w, l, r);
    assert GoesToBeta(features, run, "a");
    assert "t" !in LaneOf(features, e, "b").passed && "t" in ["t"];
  }

  lemma {:induction false} SecondOfPair(features: Features, run: Run)
    requires features == PairFeatures() && run == PairRun()
    ensures Streak(run.evidence, run.history, "b") >= run.streak
    ensures ReadyForBeta(features["b"], run.evidence, run.world, ResultOf(run.evidence, "b"),
                         NextLane(features, run, "b"))
  {
    var e, w := run.evidence, run.world;
    ExampleIsGood(e);
    FirstOfPair(features, run);
    var r, l := ResultOf(e, "b"), NextLane(features, run, "b");
    assert r == ExampleResult() && Declared(features["b"]) == ["t"];
    PairLane(r, GatingDeclared(features) + NewlyGating(features, run), e.targets + CandidateTargets(e));
    ExampleIsProven(w, l, r);
  }

  lemma {:induction false} PromotedToBeta(features: Features, run: Run, fmt: Format, fid: string)
    requires HasStatus(features, fid, Planned) && Moves(VerdictIn(features, run, fid), run) && !run.demotions
    ensures HasStatus(MoveAll(features, run, fmt), fid, Beta)
  {
    VerdictTransition(features, run, fid);
  }

  lemma {:induction false} OneAfterAnother(features: Features, run: Run, fmt: Format, a: string, b: string)
    requires HasStatus(features, a, Planned) && HasStatus(features, b, Planned) && !run.demotions
    requires GoesToBeta(features, run, a) && !GoesToBeta(features, run, b)
    requires Streak(run.evidence, run.history, b) >= run.streak
    requires ReadyForBeta(features[b], run.evidence, run.world, ResultOf(run.evidence, b), NextLane(features, run, b))
    ensures var once := MoveAll(features, run, fmt);
            HasStatus(once, a, Beta) && HasStatus(once, b, Planned) && HasStatus(MoveAll(once, run, fmt), b, Beta)
  {
    FirstMove(features, run, fmt, a);
    StaysInLane(features, run, fmt, b);
    PromotedToBeta(MoveAll(features, run, fmt), run, fmt, b);
  }

  /** The run takes the one to beta, which makes the test a gating one; the same run again takes the other. */
  lemma {:induction false} SecondRunTakesTheOther(features: Features, run: Run, fmt: Format)
    requires features == PairFeatures() && run == PairRun()
    ensures var once := MoveAll(features, run, fmt);
            HasStatus(once, "a", Beta) && HasStatus(once, "b", Planned) && HasStatus(MoveAll(once, run, fmt), "b", Beta)
  {
    FirstOfPair(features, run);
    SecondOfPair(features, run);
    OneAfterAnother(features, run, fmt, "a", "b");
  }
}
