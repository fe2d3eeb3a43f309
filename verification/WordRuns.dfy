/** Splitting a text into its maximal runs of word characters. */
module WordRuns {

  function When<T>(holds: bool, x: T): seq<T> {
    if holds then [x] else []
  }

  function Front(s: string): string
    requires s != ""
  {
    s[..|s| - 1]
  }

  function Last(s: string): char
    requires s != ""
  {
    s[|s| - 1]
  }

  lemma {:induction false} JoinSnoc(s: string, t: string)
    requires t != ""
    ensures s + t == (s + Front(t)) + [Last(t)]
  {
  }

  /** The run at the end of s. */
  function OpenRun(s: string, word: char -> bool): string {
    if s == "" || !word(Last(s)) then "" else OpenRun(Front(s), word) + [Last(s)]
  }

  /** The runs that have ended in s. */
  function ClosedRuns(s: string, word: char -> bool): seq<string>
    decreases |s|, 0
  {
    if s == "" then []
    else if word(Last(s)) then ClosedRuns(Front(s), word)
    else Runs(Front(s), word)
  }

  function Runs(s: string, word: char -> bool): seq<string>
    decreases |s|, 1
  {
    ClosedRuns(s, word) + When(OpenRun(s, word) != "", OpenRun(s, word))
  }

  ghost predicate AllWord(s: string, word: char -> bool) {
    forall c :: c in s ==> word(c)
  }

  ghost predicate NoWord(s: string, word: char -> bool) {
    forall c :: c in s ==> !word(c)
  }

  /** gaps[0] runs[0] gaps[1] runs[1] ... gaps[n] */
  function Woven(gaps: seq<string>, runs: seq<string>): string
    requires |gaps| == |runs| + 1
  {
    if runs == [] then gaps[0]
    else Woven(gaps[..|runs|], runs[..|runs| - 1]) + runs[|runs| - 1] + gaps[|runs|]
  }

  lemma {:induction false} NextChar(s: string, c: char, word: char -> bool)
    ensures OpenRun(s + [c], word) == if word(c) then OpenRun(s, word) + [c] else ""
    ensures ClosedRuns(s + [c], word) == if word(c) then ClosedRuns(s, word) else Runs(s, word)
  {
    assert Front(s + [c]) == s && Last(s + [c]) == c;
  }

  lemma {:induction false} AllWordFront(run: string, word: char -> bool)
    requires AllWord(run, word) && run != ""
    ensures AllWord(Front(run), word) && word(Last(run))
  {
    assert Last(run) in run && forall c :: c in Front(run) ==> c in run;
  }

  lemma {:induction false} NoWordFront(gap: string, word: char -> bool)
    requires NoWord(gap, word) && gap != ""
    ensures NoWord(Front(gap), word) && !word(Last(gap))
  {
    assert Last(gap) in gap && forall c :: c in Front(gap) ==> c in gap;
  }

  lemma {:induction false} RunsOfGap(s: string, gap: string, word: char -> bool)
    requires NoWord(gap, word) && gap != ""
    ensures Runs(s + gap, word) == Runs(s, word) && OpenRun(s + gap, word) == ""
  {
    var front, c := Front(gap), Last(gap);
    NoWordFront(gap, word);
    JoinSnoc(s, gap);
    NextChar(s + front, c, word);
    if front == "" {
      assert s + front == s;
    } else {
      RunsOfGap(s, front, word);
    }
  }

  lemma {:induction false} OpenAfterRun(s: string, run: string, word: char -> bool)
    requires AllWord(run, word) && OpenRun(s, word) == ""
    ensures OpenRun(s + run, word) == run && ClosedRuns(s + run, word) == ClosedRuns(s, word)
  {
    if run == "" {
      assert s + run == s;
    } else {
      AllWordFront(run, word);
      OpenAfterRun(s, Front(run), word);
      JoinSnoc(s, run);
      NextChar(s + Front(run), Last(run), word);
      assert Front(run) + [Last(run)] == run;
    }
  }

  lemma {:induction false} RunsOfRun(s: string, run: string, word: char -> bool)
    requires AllWord(run, word) && run != "" && OpenRun(s, word) == ""
    ensures Runs(s + run, word) == Runs(s, word) + [run] && OpenRun(s + run, word) == run
    ensures ClosedRuns(s + run, word) == Runs(s, word)
  {
    OpenAfterRun(s, run, word);
    assert Runs(s, word) == ClosedRuns(s, word) + [];
  }

  lemma {:induction false} RunThenGap(s: string, run: string, gap: string, word: char -> bool)
    requires AllWord(run, word) && run != "" && OpenRun(s, word) == "" && NoWord(gap, word)
    ensures Runs(s + run + gap, word) == Runs(s, word) + [run]
    ensures gap != "" ==> OpenRun(s + run + gap, word) == ""
  {
    RunsOfRun(s, run, word);
    if gap != "" {
      RunsOfGap(s + run, gap, word);
    } else {
      assert s + run + gap == s + run;
    }
  }

  /** The runs of s are its maximal pieces: the only way to write s as non-empty pieces of word
      characters with gaps of others between them. */
  lemma {:induction false} RunsAreMaximal(gaps: seq<string>, runs: seq<string>, word: char -> bool)
    requires |gaps| == |runs| + 1
    requires forall run :: run in runs ==> run != "" && AllWord(run, word)
    requires forall gap :: gap in gaps ==> NoWord(gap, word)
    requires forall i :: 0 < i < |runs| ==> gaps[i] != ""
    ensures Runs(Woven(gaps, runs), word) == runs
    ensures gaps[|runs|] != "" ==> OpenRun(Woven(gaps, runs), word) == ""
    ensures runs == [] ==> OpenRun(Woven(gaps, runs), word) == ""
  {
    if runs == [] {
      assert gaps[0] in gaps;
      if gaps[0] != "" {
        assert "" + gaps[0] == gaps[0];
        RunsOfGap("", gaps[0], word);
      }
    } else {
      var n := |runs| - 1;
      var before := Woven(gaps[..n + 1], runs[..n]);
      assert forall run :: run in runs[..n] ==> run in runs;
      RunsAreMaximal(gaps[..n + 1], runs[..n], word);
      assert runs[n] in runs && gaps[n + 1] in gaps;
      RunThenGap(before, runs[n], gaps[n + 1], word);
      assert runs == runs[..n] + [runs[n]];
    }
  }

  lemma {:induction false} OneRun(run: string, word: char -> bool)
    requires AllWord(run, word) && run != ""
    ensures Runs(run, word) == [run]
  {
    assert "" + run == run;
    RunsOfRun("", run, word);
  }
}
