/** The streak rule spans two scripts: `gather` polls single commits, `evaluate` counts a streak on the
gathered evidence. Together they ask the newest completed commits, one by one. */
module StreakRule {
  import opened Ledger
  import opened EvidenceChain

  // ----- lists of commits -----

  lemma {:induction false} HavingPrefix(commits: seq<string>, collect: Collector, completed: bool, n: nat)
    requires n <= |commits|
    ensures Having(commits[..n], collect, completed) <= Having(commits, collect, completed)
  {
    if n < |commits| {
      var front := commits[..|commits| - 1];
      assert commits[..n] == front[..n];
      HavingPrefix(front, collect, completed, n);
    } else {
      assert commits[..n] == commits;
    }
  }

  lemma {:induction false} HavingDistinct(commits: seq<string>, collect: Collector, completed: bool)
    requires Distinct(commits)
    ensures Distinct(Having(commits, collect, completed))
    ensures forall x :: x in Having(commits, collect, completed) <==> x in commits && collect(x).completed == completed
  {
    if commits != [] {
      var front, last := commits[..|commits| - 1], commits[|commits| - 1];
      assert commits == front + [last] && last !in front;
      HavingDistinct(front, collect, completed);
    }
  }

  /** The chain is the list of the newest completed commits, as many as asked for or as there are. */
  lemma {:induction false} ChainIsNewest(candidates: seq<string>, collect: Collector, n: nat)
    requires Window(candidates, collect, n)
    ensures var all, chain := Having(candidates, collect, true), Having(candidates[..n], collect, true);
            chain <= all && |chain| == if |all| < STREAK then |all| else STREAK
  {
    HavingPrefix(candidates, collect, true, n);
    if |Having(candidates[..n], collect, true)| < STREAK {
      assert candidates[..n] == candidates;
    }
  }

  lemma {:induction false} DistinctNoRepeats(s: seq<string>)
    requires Distinct(s)
    ensures NoRepeats(s)
  {
    if s != [] {
      var front, last := s[..|s| - 1], s[|s| - 1];
      assert s == front + [last] && last !in front;
      DistinctNoRepeats(front);
      assert Members(s) == Members(front) + {last};
    }
  }

  lemma {:induction false} GreenPrefixReaches(chain: seq<string>, green: set<string>, k: nat)
    ensures GreenPrefix(chain, green) >= k <==> k <= |chain| && forall i :: 0 <= i < k ==> chain[i] in green
  {
    if chain != [] && chain[0] in green && k > 0 {
      GreenPrefixReaches(chain[1..], green, k - 1);
      assert forall i :: 0 < i <= |chain| - 1 ==> chain[i] == chain[1..][i - 1];
      if k <= |chain| && forall i :: 0 <= i < k - 1 ==> chain[1..][i] in green {
        forall i | 0 <= i < k ensures chain[i] in green {
          assert i > 0 ==> chain[i] == chain[1..][i - 1];
        }
      }
    }
  }

  lemma {:induction false} VotersMembers(ballot: Ballot, chain: seq<string>, fid: string, x: string)
    ensures x in Voters(ballot, chain, fid) <==> x in chain && ballot(x, fid)
  {
    if chain != [] {
      var front, last := chain[..|chain| - 1], chain[|chain| - 1];
      assert chain == front + [last];
      VotersMembers(ballot, front, fid, x);
    }
  }

  // ----- evidence on a chain -----

  /** Apart from the streak, evidence counts the same with its whole chain as on its own. */
  lemma {:induction false} SameReadiness(f: Feature, own: Evidence, chain: seq<string>, w: World, r: Result, lane: Lane)
    requires chain != [] && Distinct(chain) && own.chain == Some([own.sha]) && chain[0] == own.sha
    ensures var e := own.(chain := Some(chain));
            && (ReadyForStable(f, e, w, r) <==> ReadyForStable(f, own, w, r))
            && (ReadyForBeta(f, e, w, r, lane) <==> ReadyForBeta(f, own, w, r, lane))
  {
    DistinctNoRepeats(chain);
    DistinctNoRepeats([own.sha]);
    var e := own.(chain := Some(chain));
    assert GoodRun(e) <==> GoodRun(own);
    assert GatingLane(r, e) == GatingLane(r, own);
  }

  lemma {:induction false} OwnStreak(e: Evidence, fid: string)
    requires e.chain == Some([e.sha])
    ensures Streak(e, map[], fid) == 1
  {
    GreenPrefixReaches([e.sha], Green(map[], fid, e.sha), 1);
    GreenPrefixReaches([e.sha], Green(map[], fid, e.sha), 2);
  }

  lemma {:induction false} GreenIsVoted(ballot: Ballot, chain: seq<string>, history: History, fid: string, i: nat)
    requires Distinct(chain) && IsHistory(ballot, chain, history) && 0 < i < |chain|
    ensures chain[i] in Green(history, fid, chain[0]) <==> ballot(chain[i], fid)
  {
    VotersMembers(ballot, chain, fid, chain[i]);
  }

  lemma {:induction false} StreakIsVoted(ballot: Ballot, chain: seq<string>, history: History, fid: string, k: nat)
    requires chain != [] && Distinct(chain) && IsHistory(ballot, chain, history) && k > 0
    ensures GreenPrefix(chain, Green(history, fid, chain[0])) >= k
       <==> k <= |chain| && forall i :: 0 < i < k ==> ballot(chain[i], fid)
  {
    var green := Green(history, fid, chain[0]);
    GreenPrefixReaches(chain, green, k);
    assert chain[0] in green;
    forall i | 0 < i < |chain| ensures chain[i] in green <==> ballot(chain[i], fid) {
      GreenIsVoted(ballot, chain, history, fid, i);
    }
  }

  /** Eligible alone at the first commit, or with the chain: the same but for the votes of the others. */
  lemma {:induction false} FirstVote(f: Feature, own: Evidence, chain: seq<string>, w: World, r: Result, lane: Lane,
                                     count: nat, k: nat)
    requires chain != [] && Distinct(chain) && own.chain == Some([own.sha]) && chain[0] == own.sha
    ensures Judge(f, own.(chain := Some(chain)), w, r, lane, count, k).eligible
       <==> count >= k && Judge(f, own, w, r, lane, 1, 1).eligible
  {
    SameReadiness(f, own, chain, w, r, lane);
    EligibleExactly(f, own.(chain := Some(chain)), w, r, lane, count, k);
    EligibleExactly(f, own, w, r, lane, 1, 1);
  }

  lemma {:induction false} SameLaneOnChain(features: Features, own: Evidence, chain: seq<string>, fid: string)
    requires fid in features
    ensures LaneOf(features, own.(chain := Some(chain)), fid) == LaneOf(features, own, fid)
  {
    assert CandidateTargets(own.(chain := Some(chain))) == CandidateTargets(own);
  }

  /** There are k commits, and the first k of them vote for the feature. */
  ghost predicate AllVote(features: Features, collect: Collector, w: World, commits: seq<string>, k: nat, fid: string) {
    k <= |commits| && forall i :: 0 <= i < k ==> Vote(features, collect, w, commits[i], fid)
  }

  lemma {:induction false} EligibleOnChain(features: Features, collect: Collector, w: World, chain: seq<string>,
                                           history: History, k: nat, fid: string)
    requires fid in features && k > 0 && chain != [] && Distinct(chain)
    requires IsHistory(BallotOf(features, collect, w), chain, history)
    ensures VerdictOf(features, Final(collect, chain), history, w, k, fid).eligible
       <==> AllVote(features, collect, w, chain, k, fid)
  {
    var own, ballot := AtCommit(collect, chain[0]), BallotOf(features, collect, w);
    var e := own.(chain := Some(chain));
    SameLaneOnChain(features, own, chain, fid);
    FirstVote(features[fid], own, chain, w, ResultOf(own, fid), LaneOf(features, own, fid), Streak(e, history, fid), k);
    OwnStreak(own, fid);
    StreakIsVoted(ballot, chain, history, fid, k);
    assert forall i :: 0 <= i < |chain| ==> ballot(chain[i], fid) == Vote(features, collect, w, chain[i], fid);
  }

  lemma {:induction false} NothingOnNoEvidence(features: Features, history: History, w: World, k: nat, fid: string)
    requires fid in features
    ensures !VerdictOf(features, NO_EVIDENCE, history, w, k, fid).eligible
  {
    var e := NO_EVIDENCE;
    EligibleExactly(features[fid], e, w, ResultOf(e, fid), LaneOf(features, e, fid), Streak(e, history, fid), k);
  }

  /** The streak rule: on what was gathered, a feature is eligible at streak k exactly when there are k
      completed commits and each of the newest k, judged alone at streak 1, finds it eligible. */
  lemma {:induction false} NewestCommitsDecide(features: Features, candidates: seq<string>, collect: Collector,
                                               w: World, n: nat, history: History, k: nat, fid: string)
    requires fid in features && Distinct(candidates) && Window(candidates, collect, n) && 1 <= k <= STREAK
    requires IsHistory(BallotOf(features, collect, w), Having(candidates[..n], collect, true), history)
    ensures var completed, chain := Having(candidates, collect, true), Having(candidates[..n], collect, true);
            VerdictOf(features, Final(collect, chain), history, w, k, fid).eligible <==>
            AllVote(features, collect, w, completed, k, fid)
  {
    var completed, chain := Having(candidates, collect, true), Having(candidates[..n], collect, true);
    ChainIsNewest(candidates, collect, n);
    SameVotes(features, collect, w, chain, completed, k, fid);
    if chain == [] {
      NothingOnNoEvidence(features, history, w, k, fid);
    } else {
      PrefixDistinct(candidates, collect, chain);
      EligibleOnChain(features, collect, w, chain, history, k, fid);
    }
  }

  lemma {:induction false} SameVotes(features: Features, collect: Collector, w: World, chain: seq<string>,
                                     completed: seq<string>, k: nat, fid: string)
    requires chain <= completed && (k <= |chain| <==> k <= |completed|)
    ensures AllVote(features, collect, w, chain, k, fid) == AllVote(features, collect, w, completed, k, fid)
  {
    assert forall i :: 0 <= i < |chain| ==> chain[i] == completed[i];
  }

  lemma {:induction false} PrefixDistinct(candidates: seq<string>, collect: Collector, chain: seq<string>)
    requires Distinct(candidates) && chain <= Having(candidates, collect, true)
    ensures Distinct(chain)
  {
    HavingDistinct(candidates, collect, true);
    assert forall i :: 0 <= i < |chain| ==> chain[i] == Having(candidates, collect, true)[i];
  }
}
