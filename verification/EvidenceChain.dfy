/** Model of `gather` (scripts/ledger-promote-evidence.py): the chain of completed main commits, the votes
of each, and the evidence handed to the promoter. What one commit's runs show comes from a function. */
module EvidenceChain {
  import opened Ledger
  import opened Evaluate

  const STREAK: nat := 3

  /** What was collected for a commit. */
  datatype Record = Record(evidence: Evidence, completed: bool)

  type Collector = string -> Record

  /** The evidence of a commit on its own. */
  function AtCommit(collect: Collector, sha: string): Evidence {
    collect(sha).evidence.(sha := sha, chain := Some([sha]))
  }

  const NO_EVIDENCE := Evidence("", None, None, "", "", "", "", Some([]), {}, map[], false)

  /** A commit votes for a feature that is eligible on its evidence alone. */
  predicate Vote(features: Features, collect: Collector, w: World, sha: string, fid: string) {
    fid in features && VerdictOf(features, AtCommit(collect, sha), map[], w, 1, fid).eligible
  }

  // ----- what is gathered -----

  function Having(commits: seq<string>, collect: Collector, completed: bool): seq<string> {
    if commits == [] then []
    else
      var last := commits[|commits| - 1];
      Having(commits[..|commits| - 1], collect, completed) + When(collect(last).completed == completed, last)
  }

  type Ballot = (string, string) -> bool

  function BallotOf(features: Features, collect: Collector, w: World): Ballot {
    (sha, fid) => Vote(features, collect, w, sha, fid)
  }

  /** The commits of the chain that vote for a feature. */
  function Voters(ballot: Ballot, chain: seq<string>, fid: string): seq<string> {
    if chain == [] then []
    else
      var last := chain[|chain| - 1];
      Voters(ballot, chain[..|chain| - 1], fid) + When(ballot(last, fid), last)
  }

  /** The commits looked at: up to the one that completes the chain. */
  predicate Window(candidates: seq<string>, collect: Collector, n: nat) {
    && n <= |candidates|
    && |Having(candidates[..n], collect, true)| <= STREAK
    && (|Having(candidates[..n], collect, true)| < STREAK ==> n == |candidates|)
    && (n > 0 ==> |Having(candidates[..n - 1], collect, true)| < STREAK)
  }

  ghost predicate IsHistory(ballot: Ballot, chain: seq<string>, history: History) {
    && (forall fid :: fid in history <==> Voters(ballot, chain, fid) != [])
    && (forall fid :: fid in history ==> history[fid] == Voters(ballot, chain, fid))
  }

  function Final(collect: Collector, chain: seq<string>): Evidence {
    if chain == [] then NO_EVIDENCE else AtCommit(collect, chain[0]).(chain := Some(chain))
  }

  // ----- the program -----

  function Votes(history: History, fid: string): seq<string> {
    if fid in history then history[fid] else []
  }

  /** One vote more for those who got one. */
  ghost predicate Grown(history: History, longer: History, sha: string, voted: set<string>) {
    && (forall fid :: fid in longer <==> fid in history || fid in voted)
    && (forall fid :: fid in voted ==> longer[fid] == Votes(history, fid) + [sha])
    && (forall fid :: fid in history && fid !in voted ==> longer[fid] == history[fid])
  }

  lemma {:induction false} GrownHistory(ballot: Ballot, chain: seq<string>, sha: string, history: History,
                                        longer: History, voted: set<string>)
    requires IsHistory(ballot, chain, history) && Grown(history, longer, sha, voted)
    requires forall fid :: fid in voted <==> ballot(sha, fid)
    ensures IsHistory(ballot, chain + [sha], longer)
  {
    forall fid ensures Voters(ballot, chain + [sha], fid) == Voters(ballot, chain, fid) + When(fid in voted, sha) {
      assert (chain + [sha])[..|chain|] == chain;
    }
    forall fid ensures Votes(history, fid) == Voters(ballot, chain, fid) {
    }
  }

  lemma {:induction false} OneVoteMore(history: History, longer: History, sha: string, voted: set<string>, fid: string)
    requires Grown(history, longer, sha, voted) && fid !in voted
    ensures Grown(history, longer[fid := Votes(longer, fid) + [sha]], sha, voted + {fid})
  {
    assert Votes(longer, fid) == Votes(history, fid);
  }

  function Approved(verdicts: map<string, Verdict>): set<string> {
    set fid | fid in verdicts && verdicts[fid].eligible
  }

  method RecordVotes(order: seq<string>, verdicts: map<string, Verdict>, sha: string, history: History)
    returns (history': History)
    requires Distinct(order) && forall fid :: fid in order <==> fid in verdicts
    ensures Grown(history, history', sha, Approved(verdicts))
  {
    history' := history;
    ghost var voted: set<string> := {};
    for i := 0 to |order|
      invariant forall fid :: fid in voted ==> fid in verdicts && verdicts[fid].eligible
      invariant forall j :: 0 <= j < i && verdicts[order[j]].eligible ==> order[j] in voted
      invariant forall j :: i <= j < |order| ==> order[j] !in voted
      invariant Grown(history, history', sha, voted)
    {
      var fid := order[i];
      if verdicts[fid].eligible {
        OneVoteMore(history, history', sha, voted, fid);
        history' := history'[fid := Votes(history', fid) + [sha]];
        voted := voted + {fid};
      }
    }
    assert voted == Approved(verdicts);
  }

  /** Evaluates the ledger on one commit alone and records its votes. */
  method Poll(features: Features, order: seq<string>, collect: Collector, w: World, ghost chain: seq<string>,
              sha: string, history: History) returns (history': History)
    requires Distinct(order) && forall fid :: fid in order <==> fid in features
    requires IsHistory(BallotOf(features, collect, w), chain, history)
    ensures IsHistory(BallotOf(features, collect, w), chain + [sha], history')
  {
    var verdicts := Evaluate.Evaluate(features, order, AtCommit(collect, sha), map[], w, 1);
    history' := RecordVotes(order, verdicts, sha, history);
    GrownHistory(BallotOf(features, collect, w), chain, sha, history, history', Approved(verdicts));
  }

  lemma {:induction false} HavingOneMore(commits: seq<string>, i: nat, collect: Collector, completed: bool)
    requires i < |commits|
    ensures Having(commits[..i + 1], collect, completed) ==
            Having(commits[..i], collect, completed) + When(collect(commits[i]).completed == completed, commits[i])
  {
    assert commits[..i + 1][..i] == commits[..i];
  }

  method Gather(features: Features, order: seq<string>, candidates: seq<string>, collect: Collector, w: World)
    returns (evidence: Evidence, history: History, chain: seq<string>, skipped: seq<string>, ghost n: nat)
    requires Distinct(order) && forall fid :: fid in order <==> fid in features
    ensures Window(candidates, collect, n)
    ensures chain == Having(candidates[..n], collect, true) && skipped == Having(candidates[..n], collect, false)
    ensures IsHistory(BallotOf(features, collect, w), chain, history)
    ensures evidence == Final(collect, chain)
  {
    evidence, history, chain, skipped := NO_EVIDENCE, map[], [], [];
    n := 0;
    ghost var ballot := BallotOf(features, collect, w);
    for i := 0 to |candidates|
      invariant n == i && |chain| < STREAK
      invariant i > 0 ==> |Having(candidates[..i - 1], collect, true)| < STREAK
      invariant chain == Having(candidates[..i], collect, true) && skipped == Having(candidates[..i], collect, false)
      invariant IsHistory(ballot, chain, history)
      invariant evidence == if chain == [] then NO_EVIDENCE else AtCommit(collect, chain[0])
    {
      var sha := candidates[i];
      HavingOneMore(candidates, i, collect, true);
      HavingOneMore(candidates, i, collect, false);
      n := i + 1;
      if !collect(sha).completed {
        skipped := skipped + [sha];
        continue;
      }
      history := Poll(features, order, collect, w, chain, sha, history);
      chain := chain + [sha];
      if |chain| == 1 {
        evidence := AtCommit(collect, sha);
      }
      if |chain| == STREAK {
        break;
      }
    }
    evidence := evidence.(chain := Some(chain));
  }
}
