/** Model of `expand_query`, `split_vocab_tokens` and `build_vocab` (code-graph/src/budget.rs). The Unicode
tables and the UTF-8 length of a string come as functions. */
module QueryScanner {
  import opened WordRuns

  datatype Alphabet = Alphabet(alnum: char -> bool, upper: char -> bool, lower: string -> string, bytes: string -> nat)

  const MAX_QUERY_TOKENS: nat := 12
  const VOCAB_MIN_LEN: nat := 3
  const VOCAB_MAX_LEN: nat := 30

  // ----- distinct accepted tokens -----

  function Lowered(words: seq<string>, a: Alphabet): seq<string> {
    seq(|words|, i requires 0 <= i < |words| => a.lower(words[i]))
  }

  /** Accepted tokens at their first occurrence. */
  function Kept(tokens: seq<string>, accept: string -> bool): seq<string> {
    if tokens == [] then []
    else
      var front, last := Kept(tokens[..|tokens| - 1], accept), tokens[|tokens| - 1];
      front + When(accept(last) && last !in front, last)
  }

  function Capped(tokens: seq<string>): seq<string> {
    if |tokens| <= MAX_QUERY_TOKENS then tokens else tokens[..MAX_QUERY_TOKENS]
  }

  lemma {:induction false} KeptMembers(tokens: seq<string>, accept: string -> bool)
    ensures forall x :: x in Kept(tokens, accept) <==> x in tokens && accept(x)
  {
    if tokens != [] {
      var front, last := tokens[..|tokens| - 1], tokens[|tokens| - 1];
      assert tokens == front + [last];
      KeptMembers(front, accept);
    }
  }

  lemma {:induction false} KeptGrows(tokens: seq<string>, more: seq<string>, accept: string -> bool)
    ensures Kept(tokens, accept) <= Kept(tokens + more, accept)
  {
    if more == [] {
      assert tokens + more == tokens;
    } else {
      assert (tokens + more)[..|tokens + more| - 1] == tokens + more[..|more| - 1];
      KeptGrows(tokens, more[..|more| - 1], accept);
    }
  }

  /** Position of the first occurrence of x. */
  function First(x: string, tokens: seq<string>): (i: nat)
    requires x in tokens
    ensures i < |tokens| && tokens[i] == x && forall j :: 0 <= j < i ==> tokens[j] != x
  {
    if tokens[0] == x then 0 else 1 + First(x, tokens[1..])
  }

  /** The kept tokens come in the order of their first occurrences, so none is kept twice. */
  lemma {:induction false} KeptInOrder(tokens: seq<string>, accept: string -> bool, i: nat, j: nat)
    requires i < j < |Kept(tokens, accept)|
    ensures var kept := Kept(tokens, accept);
            kept[i] in tokens && kept[j] in tokens && First(kept[i], tokens) < First(kept[j], tokens)
  {
    KeptMembers(tokens, accept);
    var front, last := tokens[..|tokens| - 1], tokens[|tokens| - 1];
    var kept := Kept(tokens, accept);
    KeptMembers(front, accept);
    assert kept[i] in kept && kept[j] in kept;
    assert forall k :: 0 <= k < |Kept(front, accept)| ==> Kept(front, accept)[k] in Kept(front, accept);
    if j < |Kept(front, accept)| {
      KeptInOrder(front, accept, i, j);
      FirstInFront(kept[i], tokens);
      FirstInFront(kept[j], tokens);
    } else {
      assert kept[j] == last && last !in front;
      FirstInFront(kept[i], tokens);
      assert First(last, tokens) == |tokens| - 1 by {
        assert forall k :: 0 <= k < |tokens| - 1 ==> tokens[k] == front[k] && front[k] in front;
      }
    }
  }

  lemma {:induction false} FirstInFront(x: string, tokens: seq<string>)
    requires tokens != [] && x in tokens[..|tokens| - 1]
    ensures x in tokens && First(x, tokens) == First(x, tokens[..|tokens| - 1])
  {
    var front := tokens[..|tokens| - 1];
    var i := First(x, front);
    assert tokens[i] == front[i];
    assert forall j :: 0 <= j < i ==> tokens[j] == front[j];
  }

  // ----- the query -----

  function InVocab(vocab: set<string>): string -> bool {
    x => x in vocab
  }

  function Expansion(question: string, vocab: set<string>, a: Alphabet): seq<string> {
    Capped(Kept(Lowered(Runs(question, a.alnum), a), InVocab(vocab)))
  }

  /** `flush`: the run in `current` has ended. */
  method Flush(current: string, out: seq<string>, vocab: set<string>, a: Alphabet) returns (out': seq<string>)
    ensures out' == out + When(current != "" && a.lower(current) in vocab && a.lower(current) !in out, a.lower(current))
  {
    out' := out;
    if current != "" {
      var tok := a.lower(current);
      if tok in vocab && tok !in out {
        out' := out + [tok];
      }
    }
  }

  lemma {:induction false} KeptRun(runs: seq<string>, current: string, vocab: set<string>, a: Alphabet)
    ensures var tok, kept := a.lower(current), Kept(Lowered(runs, a), InVocab(vocab));
            Kept(Lowered(runs + When(current != "", current), a), InVocab(vocab)) ==
            kept + When(current != "" && tok in vocab && tok !in kept, tok)
  {
    if current != "" {
      assert Lowered(runs + [current], a)[..|runs|] == Lowered(runs, a);
    } else {
      assert runs + When(current != "", current) == runs;
    }
  }

  lemma {:induction false} ClosedRunsGrow(s: string, k: nat, a: Alphabet)
    requires k <= |s|
    ensures ClosedRuns(s[..k], a.alnum) <= ClosedRuns(s, a.alnum)
  {
    if k == |s| {
      assert s[..k] == s;
    } else {
      assert Front(s)[..k] == s[..k];
      ClosedRunsGrow(Front(s), k, a);
    }
  }

  lemma {:induction false} KeptPrefix(tokens: seq<string>, longer: seq<string>, accept: string -> bool)
    requires tokens <= longer
    ensures Kept(tokens, accept) <= Kept(longer, accept)
  {
    assert longer == tokens + longer[|tokens|..];
    KeptGrows(tokens, longer[|tokens|..], accept);
  }

  /** Enough tokens after k characters are enough: the rest of the question adds nothing. */
  lemma {:induction false} EarlyExit(question: string, k: nat, vocab: set<string>, a: Alphabet)
    requires k <= |question|
    requires |Kept(Lowered(ClosedRuns(question[..k], a.alnum), a), InVocab(vocab))| == MAX_QUERY_TOKENS
    ensures Expansion(question, vocab, a) == Kept(Lowered(ClosedRuns(question[..k], a.alnum), a), InVocab(vocab))
  {
    var some, all := ClosedRuns(question[..k], a.alnum), Runs(question, a.alnum);
    ClosedRunsGrow(question, k, a);
    assert some <= ClosedRuns(question, a.alnum) <= all;
    assert Lowered(some, a) <= Lowered(all, a);
    KeptPrefix(Lowered(some, a), Lowered(all, a), InVocab(vocab));
  }

  lemma {:induction false} NextRun(s: string, k: nat, a: Alphabet)
    requires k < |s|
    ensures OpenRun(s[..k + 1], a.alnum) == if a.alnum(s[k]) then OpenRun(s[..k], a.alnum) + [s[k]] else ""
    ensures ClosedRuns(s[..k + 1], a.alnum) ==
            if a.alnum(s[k]) then ClosedRuns(s[..k], a.alnum) else Runs(s[..k], a.alnum)
  {
    assert Front(s[..k + 1]) == s[..k];
  }

  /** The result is `Expansion`: the first twelve distinct lower-cased runs that the vocabulary has. */
  method ExpandQuery(question: string, vocab: set<string>, a: Alphabet) returns (out: seq<string>)
    ensures out == Expansion(question, vocab, a)
  {
    out := [];
    var current := "";
    for i := 0 to |question|
      invariant current == OpenRun(question[..i], a.alnum)
      invariant out == Kept(Lowered(ClosedRuns(question[..i], a.alnum), a), InVocab(vocab)) && |out| < MAX_QUERY_TOKENS
    {
      var ch := question[i];
      NextRun(question, i, a);
      if a.alnum(ch) {
        current := current + [ch];
      } else {
        KeptRun(ClosedRuns(question[..i], a.alnum), current, vocab, a);
        out := Flush(current, out, vocab, a);
        current := "";
      }
      if |out| >= MAX_QUERY_TOKENS {
        EarlyExit(question, i + 1, vocab, a);
        return;
      }
    }
    assert question[..|question|] == question;
    KeptRun(ClosedRuns(question, a.alnum), current, vocab, a);
    out := Flush(current, out, vocab, a);
    out := Capped(out);
  }

  /** Nothing is invented, and nothing is left out but for the cap. */
  lemma {:induction false} ExpansionMembers(question: string, vocab: set<string>, a: Alphabet, tok: string)
    ensures var out := Expansion(question, vocab, a);
            && |out| <= 12
            && (tok in out ==> tok in vocab && tok in Lowered(Runs(question, a.alnum), a))
            && (tok in vocab && tok in Lowered(Runs(question, a.alnum), a) && tok !in out ==> |out| == 12)
  {
    KeptMembers(Lowered(Runs(question, a.alnum), a), InVocab(vocab));
  }

  // ----- the vocabulary -----

  function ParseOpen(s: string, stop: char): string {
    if s == "" || Last(s) == stop then "" else ParseOpen(Front(s), stop) + [Last(s)]
  }

  function ParseClosed(s: string, stop: char): seq<string> {
    if s == "" then []
    else if Last(s) == stop then ParseClosed(Front(s), stop) + [ParseOpen(Front(s), stop)]
    else ParseClosed(Front(s), stop)
  }

  /** The pieces between the separators, empty ones included. */
  function Split(s: string, stop: char): seq<string> {
    ParseClosed(s, stop) + [ParseOpen(s, stop)]
  }

  function Glued(parts: seq<string>, stop: char): string
    requires parts != []
  {
    if |parts| == 1 then parts[0] else Glued(parts[..|parts| - 1], stop) + [stop] + parts[|parts| - 1]
  }

  /** The pieces hold no separator, and with separators between them they make up the text. */
  lemma {:induction false} SplitExactly(s: string, stop: char)
    ensures Glued(Split(s, stop), stop) == s && forall part :: part in Split(s, stop) ==> stop !in part
  {
    if s != "" {
      var front, parts := Front(s), Split(Front(s), stop);
      SplitExactly(front, stop);
      if Last(s) == stop {
        assert Split(s, stop) == parts + [""] && (parts + [""])[..|parts|] == parts;
      } else {
        SplitOn(ParseClosed(front, stop), ParseOpen(front, stop), Last(s), stop);
      }
    }
  }

  lemma {:induction false} SplitOn(closed: seq<string>, open: string, c: char, stop: char)
    ensures Glued(closed + [open + [c]], stop) == Glued(closed + [open], stop) + [c]
  {
    assert (closed + [open])[..|closed|] == closed == (closed + [open + [c]])[..|closed|];
  }

  /** The hump being built at the end of s. */
  function OpenHump(s: string, a: Alphabet): string {
    if s == "" || !a.alnum(Last(s)) then ""
    else (if a.upper(Last(s)) then "" else OpenHump(Front(s), a)) + [Last(s)]
  }

  function ClosedHumps(s: string, a: Alphabet): seq<string> {
    if s == "" then []
    else
      var open := OpenHump(Front(s), a);
      ClosedHumps(Front(s), a) + When(open != "" && (a.upper(Last(s)) || !a.alnum(Last(s))), open)
  }

  function Humps(s: string, a: Alphabet): seq<string> {
    ClosedHumps(s, a) + When(OpenHump(s, a) != "", OpenHump(s, a))
  }

  function Joined(parts: seq<string>): string {
    if parts == [] then "" else Joined(parts[..|parts| - 1]) + parts[|parts| - 1]
  }

  function OnlyAlnum(s: string, a: Alphabet): string {
    if s == "" then "" else OnlyAlnum(Front(s), a) + if a.alnum(Last(s)) then [Last(s)] else ""
  }

  lemma {:induction false} JoinedSnoc(parts: seq<string>, part: string)
    ensures Joined(parts + [part]) == Joined(parts) + part
  {
    assert (parts + [part])[..|parts|] == parts;
  }

  lemma {:induction false} JoinedWhen(parts: seq<string>, part: string, holds: bool)
    ensures Joined(parts + When(part != "" && holds, part)) == if holds then Joined(parts) + part else Joined(parts)
  {
    if holds && part != "" {
      JoinedSnoc(parts, part);
    } else {
      assert parts + [] == parts;
      assert holds ==> Joined(parts) + part == Joined(parts);
    }
  }

  /** One character more. */
  lemma {:induction false} HumpStep(closed: seq<string>, open: string, c: char, upper: bool, alnum: bool)
    ensures Joined(closed + When(open != "" && (upper || !alnum), open)) +
            (if alnum then (if upper then "" else open) + [c] else "") ==
            Joined(closed) + open + if alnum then [c] else ""
  {
    JoinedWhen(closed, open, upper || !alnum);
    if alnum && !upper {
      assert Joined(closed) + (open + [c]) == Joined(closed) + open + [c];
    } else if alnum {
      assert "" + [c] == [c];
    }
  }

  lemma {:induction false} HumpsSoFar(s: string, a: Alphabet)
    ensures Joined(ClosedHumps(s, a)) + OpenHump(s, a) == OnlyAlnum(s, a)
  {
    if s != "" {
      HumpsSoFar(Front(s), a);
      HumpStep(ClosedHumps(Front(s), a), OpenHump(Front(s), a), Last(s), a.upper(Last(s)), a.alnum(Last(s)));
    }
  }

  /** Camel splitting loses no letter or digit and keeps their order. */
  lemma {:induction false} HumpsConserve(s: string, a: Alphabet)
    ensures Joined(Humps(s, a)) == OnlyAlnum(s, a)
  {
    HumpsSoFar(s, a);
    JoinedWhen(ClosedHumps(s, a), OpenHump(s, a), true);
  }

  ghost predicate IsHump(hump: string, a: Alphabet) {
    hump != "" && AllWord(hump, a.alnum) && forall i :: 0 < i < |hump| ==> !a.upper(hump[i])
  }

  /** Inside a hump there is no upper-case letter. */
  lemma {:induction false} HumpsHaveShape(s: string, a: Alphabet)
    ensures OpenHump(s, a) == "" || IsHump(OpenHump(s, a), a)
    ensures forall hump :: hump in ClosedHumps(s, a) ==> IsHump(hump, a)
  {
    if s != "" {
      HumpsHaveShape(Front(s), a);
    }
  }

  lemma {:induction false} NextHumpChar(s: string, c: char, a: Alphabet)
    ensures var open := OpenHump(s, a);
            && ClosedHumps(s + [c], a) == ClosedHumps(s, a) + When(open != "" && (a.upper(c) || !a.alnum(c)), open)
            && OpenHump(s + [c], a) == if a.alnum(c) then (if a.upper(c) then "" else open) + [c] else ""
  {
    assert Front(s + [c]) == s && Last(s + [c]) == c;
  }

  lemma {:induction false} EndHump(s: string, c: char, a: Alphabet)
    requires !a.alnum(c)
    ensures Humps(s + [c], a) == Humps(s, a) && OpenHump(s + [c], a) == ""
  {
    NextHumpChar(s, c, a);
  }

  lemma {:induction false} StartHump(s: string, c: char, a: Alphabet)
    requires a.alnum(c) && (OpenHump(s, a) == "" || a.upper(c))
    ensures Humps(s + [c], a) == Humps(s, a) + [[c]] && OpenHump(s + [c], a) == [c]
    ensures ClosedHumps(s + [c], a) == Humps(s, a)
  {
    NextHumpChar(s, c, a);
    assert "" + [c] == [c];
  }

  lemma {:induction false} ExtendHump(s: string, c: char, a: Alphabet)
    requires a.alnum(c) && OpenHump(s, a) != "" && !a.upper(c)
    ensures var closed, open := ClosedHumps(s, a), OpenHump(s, a);
            && Humps(s, a) == closed + [open] && ClosedHumps(s + [c], a) == closed
            && Humps(s + [c], a) == closed + [open + [c]] && OpenHump(s + [c], a) == open + [c]
  {
    NextHumpChar(s, c, a);
    assert ClosedHumps(s, a) + [] == ClosedHumps(s, a);
  }

  lemma {:induction false} HumpsOfGap(s: string, gap: string, a: Alphabet)
    requires NoWord(gap, a.alnum) && gap != ""
    ensures Humps(s + gap, a) == Humps(s, a) && OpenHump(s + gap, a) == ""
  {
    var front, c := Front(gap), Last(gap);
    NoWordFront(gap, a.alnum);
    JoinSnoc(s, gap);
    EndHump(s + front, c, a);
    if front == "" {
      assert s + front == s;
    } else {
      HumpsOfGap(s, front, a);
    }
  }

  lemma {:induction false} HumpFront(hump: string, a: Alphabet)
    requires IsHump(hump, a) && |hump| > 1
    ensures IsHump(Front(hump), a) && Front(hump)[0] == hump[0] && !a.upper(Last(hump)) && a.alnum(Last(hump))
  {
    AllWordFront(hump, a.alnum);
  }

  lemma {:induction false} HumpsOfHump(s: string, hump: string, a: Alphabet)
    requires IsHump(hump, a) && (OpenHump(s, a) == "" || a.upper(hump[0]))
    ensures OpenHump(s + hump, a) == hump && ClosedHumps(s + hump, a) == Humps(s, a)
  {
    var front, c := Front(hump), Last(hump);
    AllWordFront(hump, a.alnum);
    JoinSnoc(s, hump);
    assert front + [c] == hump;
    if |hump| == 1 {
      assert s + front == s && hump == [c];
      StartHump(s, c, a);
    } else {
      HumpFront(hump, a);
      HumpsOfHump(s, front, a);
      ExtendHump(s + front, c, a);
    }
  }

  /** Humps between gaps: inside a hump no upper-case letter, and where there is no gap the next hump starts with
      one. */
  ghost predicate IsHumping(gaps: seq<string>, humps: seq<string>, a: Alphabet) {
    && |gaps| == |humps| + 1
    && (forall i :: 0 <= i < |humps| ==> IsHump(humps[i], a))
    && (forall i :: 0 <= i < |gaps| ==> NoWord(gaps[i], a.alnum))
    && (forall i :: 0 < i < |humps| && gaps[i] == "" ==> a.upper(humps[i][0]))
  }

  lemma {:induction false} HumpingFront(gaps: seq<string>, humps: seq<string>, a: Alphabet)
    requires IsHumping(gaps, humps, a) && humps != []
    ensures IsHumping(gaps[..|humps|], humps[..|humps| - 1], a)
  {
  }

  /** There is only one way to cut a name so. */
  lemma {:induction false} HumpsAreUnique(gaps: seq<string>, humps: seq<string>, a: Alphabet)
    requires IsHumping(gaps, humps, a)
    ensures Humps(Woven(gaps, humps), a) == humps
    ensures OpenHump(Woven(gaps, humps), a) ==
            if humps != [] && gaps[|humps|] == "" then humps[|humps| - 1] else ""
  {
    if humps == [] {
      GapAlone(gaps[0], a);
    } else {
      var n := |humps| - 1;
      HumpingFront(gaps, humps, a);
      HumpsAreUnique(gaps[..n + 1], humps[..n], a);
      HumpThenGap(Woven(gaps[..n + 1], humps[..n]), humps[n], gaps[n + 1], a);
      LastWoven(gaps, humps);
    }
  }

  lemma {:induction false} GapAlone(gap: string, a: Alphabet)
    requires NoWord(gap, a.alnum)
    ensures Humps(gap, a) == [] && OpenHump(gap, a) == ""
  {
    if gap != "" {
      assert "" + gap == gap;
      HumpsOfGap("", gap, a);
    }
  }

  lemma {:induction false} LastWoven(gaps: seq<string>, runs: seq<string>)
    requires |gaps| == |runs| + 1 && runs != []
    ensures var n := |runs| - 1;
            && Woven(gaps, runs) == Woven(gaps[..n + 1], runs[..n]) + runs[n] + gaps[n + 1]
            && runs == runs[..n] + [runs[n]]
  {
  }

  lemma {:induction false} HumpThenGap(s: string, hump: string, gap: string, a: Alphabet)
    requires IsHump(hump, a) && (OpenHump(s, a) == "" || a.upper(hump[0])) && NoWord(gap, a.alnum)
    ensures Humps(s + hump + gap, a) == Humps(s, a) + [hump]
    ensures OpenHump(s + hump + gap, a) == if gap == "" then hump else ""
  {
    HumpsOfHump(s, hump, a);
    if gap != "" {
      HumpsOfGap(s + hump, gap, a);
    } else {
      assert s + hump + gap == s + hump;
    }
  }

  lemma {:induction false} WovenMore(gaps: seq<string>, runs: seq<string>, gap: string, run: string)
    requires |gaps| == |runs| + 1
    ensures Woven(gaps + [gap], runs + [run]) == Woven(gaps, runs) + run + gap
  {
    assert (gaps + [gap])[..|runs| + 1] == gaps && (runs + [run])[..|runs|] == runs;
  }

  lemma {:induction false} WovenGap(gaps: seq<string>, runs: seq<string>, more: string)
    requires |gaps| == |runs| + 1
    ensures Woven(gaps[|runs| := gaps[|runs|] + more], runs) == Woven(gaps, runs) + more
  {
    if runs != [] {
      assert gaps[|runs| := gaps[|runs|] + more][..|runs|] == gaps[..|runs|];
      var front := Woven(gaps[..|runs|], runs[..|runs| - 1]) + runs[|runs| - 1];
      assert front + (gaps[|runs|] + more) == front + gaps[|runs|] + more;
    }
  }

  lemma {:induction false} OneMoreHump(gaps: seq<string>, humps: seq<string>, c: char, a: Alphabet)
    requires IsHumping(gaps, humps, a) && a.alnum(c) && (a.upper(c) || (humps != [] ==> gaps[|humps|] != ""))
    ensures IsHumping(gaps + [""], humps + [[c]], a)
  {
  }

  lemma {:induction false} OneMoreGap(gaps: seq<string>, humps: seq<string>, c: char, a: Alphabet)
    requires IsHumping(gaps, humps, a) && !a.alnum(c)
    ensures IsHumping(gaps[|humps| := gaps[|humps|] + [c]], humps, a)
  {
    assert NoWord(gaps[|humps|] + [c], a.alnum);
  }

  /** The gaps that go with the humps of s; the last one is empty as long as the last hump is open. */
  ghost predicate IsCut(s: string, gaps: seq<string>, a: Alphabet) {
    && IsHumping(gaps, Humps(s, a), a) && Woven(gaps, Humps(s, a)) == s
    && if OpenHump(s, a) != "" then gaps[|Humps(s, a)|] == ""
       else Humps(s, a) != [] ==> gaps[|Humps(s, a)|] != ""
  }

  lemma {:induction false} CutByGap(s: string, gaps: seq<string>, c: char, a: Alphabet) returns (after: seq<string>)
    requires IsCut(s, gaps, a) && !a.alnum(c)
    ensures IsCut(s + [c], after, a)
  {
    var humps := Humps(s, a);
    EndHump(s, c, a);
    WovenGap(gaps, humps, [c]);
    OneMoreGap(gaps, humps, c, a);
    after := gaps[|humps| := gaps[|humps|] + [c]];
  }

  lemma {:induction false} CutByHump(s: string, gaps: seq<string>, c: char, a: Alphabet) returns (after: seq<string>)
    requires IsCut(s, gaps, a) && a.alnum(c) && (OpenHump(s, a) == "" || a.upper(c))
    ensures IsCut(s + [c], after, a)
  {
    var humps := Humps(s, a);
    StartHump(s, c, a);
    WovenMore(gaps, humps, "", [c]);
    OneMoreHump(gaps, humps, c, a);
    after := gaps + [""];
  }

  lemma {:induction false} CutOn(s: string, gaps: seq<string>, c: char, a: Alphabet)
    requires IsCut(s, gaps, a) && a.alnum(c) && OpenHump(s, a) != "" && !a.upper(c)
    ensures IsCut(s + [c], gaps, a)
  {
    ExtendHump(s, c, a);
    HumpExtended(gaps, ClosedHumps(s, a), OpenHump(s, a), c, a);
  }

  /** And the humps of a name cut it so. */
  lemma {:induction false} HumpsCut(s: string, a: Alphabet) returns (gaps: seq<string>)
    ensures IsCut(s, gaps, a)
  {
    if s == "" {
      gaps := [""];
    } else {
      var front, c := Front(s), Last(s);
      assert front + [c] == s;
      gaps := HumpsCut(front, a);
      if !a.alnum(c) {
        gaps := CutByGap(front, gaps, c, a);
      } else if OpenHump(front, a) == "" || a.upper(c) {
        gaps := CutByHump(front, gaps, c, a);
      } else {
        CutOn(front, gaps, c, a);
      }
    }
  }

  lemma {:induction false} HumpExtended(gaps: seq<string>, closed: seq<string>, open: string, c: char, a: Alphabet)
    requires IsHumping(gaps, closed + [open], a) && gaps[|closed| + 1] == "" && a.alnum(c) && !a.upper(c)
    ensures IsHumping(gaps, closed + [open + [c]], a)
    ensures Woven(gaps, closed + [open + [c]]) == Woven(gaps, closed + [open]) + [c]
  {
    var old_, new_ := closed + [open], closed + [open + [c]];
    assert IsHump(old_[|closed|], a);
    forall i | 0 <= i < |new_| ensures IsHump(new_[i], a) && new_[i][0] == old_[i][0] {
      assert IsHump(old_[i], a);
    }
    var rest := gaps[..|closed| + 1];
    assert gaps == rest + [""];
    WovenMore(rest, closed, "", open);
    WovenMore(rest, closed, "", open + [c]);
    assert Woven(rest, closed) + (open + [c]) + "" == Woven(rest, closed) + open + "" + [c];
  }

  function Fits(a: Alphabet): string -> bool {
    x => VOCAB_MIN_LEN <= a.bytes(x) <= VOCAB_MAX_LEN
  }

  /** The whole name, its snake parts and its camel humps. */
  function Words(name: string, a: Alphabet): seq<string> {
    [name] + Split(name, '_') + Humps(name, a)
  }

  function KeptWords(words: seq<string>, a: Alphabet): seq<string> {
    Kept(Lowered(words, a), Fits(a))
  }

  function VocabTokens(name: string, a: Alphabet): seq<string> {
    KeptWords(Words(name, a), a)
  }

  /** The tokens of a name: lower-cased, from 3 to 30 bytes, the name itself, its snake parts and its humps. */
  lemma {:induction false} VocabExactly(name: string, a: Alphabet, tok: string)
    ensures tok in VocabTokens(name, a) <==>
            3 <= a.bytes(tok) <= 30 && exists word :: PartOf(name, a, word) && a.lower(word) == tok
  {
    var words := Words(name, a);
    KeptMembers(Lowered(words, a), Fits(a));
    forall word ensures word in words <==> PartOf(name, a, word) {
    }
    if tok in Lowered(words, a) {
      var i :| 0 <= i < |words| && Lowered(words, a)[i] == tok;
      assert words[i] in words && a.lower(words[i]) == tok;
    }
    forall word | word in words && a.lower(word) == tok ensures tok in Lowered(words, a) {
      LoweredMember(words, word, a);
    }
  }

  predicate PartOf(name: string, a: Alphabet, word: string) {
    word == name || word in Split(name, '_') || word in Humps(name, a)
  }

  lemma {:induction false} KeptWord(words: seq<string>, word: string, a: Alphabet)
    ensures var tok, kept := a.lower(word), KeptWords(words, a);
            KeptWords(words + [word], a) == kept + When(Fits(a)(tok) && tok !in kept, tok)
  {
    assert Lowered(words + [word], a)[..|words|] == Lowered(words, a);
  }

  /** The closure `push`, given the words pushed before. */
  method Push(word: string, out: seq<string>, a: Alphabet, ghost words: seq<string>) returns (out': seq<string>)
    requires out == KeptWords(words, a)
    ensures out' == KeptWords(words + [word], a)
  {
    out' := out;
    var tok := a.lower(word);
    if VOCAB_MIN_LEN <= a.bytes(tok) <= VOCAB_MAX_LEN && tok !in out {
      out' := out + [tok];
    }
    KeptWord(words, word, a);
  }

  method PushHump(hump: string, out: seq<string>, a: Alphabet, ghost words: seq<string>, ghost closed: seq<string>)
    returns (out': seq<string>)
    requires out == KeptWords(words + closed, a)
    ensures out' == KeptWords(words + (closed + [hump]), a)
  {
    out' := Push(hump, out, a, words + closed);
    assert words + closed + [hump] == words + (closed + [hump]);
  }

  lemma {:induction false} NextHump(s: string, k: nat, a: Alphabet)
    requires k < |s|
    ensures var open, c := OpenHump(s[..k], a), s[k];
            && ClosedHumps(s[..k + 1], a)
               == ClosedHumps(s[..k], a) + When(open != "" && (a.upper(c) || !a.alnum(c)), open)
            && OpenHump(s[..k + 1], a) == if a.alnum(c) then (if a.upper(c) then "" else open) + [c] else ""
  {
    assert Front(s[..k + 1]) == s[..k];
  }

  method PushHumps(name: string, out: seq<string>, a: Alphabet, ghost words: seq<string>) returns (out': seq<string>)
    requires out == KeptWords(words, a)
    ensures out' == KeptWords(words + Humps(name, a), a)
  {
    out' := out;
    var hump := "";
    ghost var closed: seq<string> := [];
    assert words + closed == words;
    for i := 0 to |name|
      invariant hump == OpenHump(name[..i], a) && closed == ClosedHumps(name[..i], a)
      invariant out' == KeptWords(words + closed, a)
    {
      var ch := name[i];
      NextHump(name, i, a);
      if a.upper(ch) && i > 0 && hump != "" {
        out' := PushHump(hump, out', a, words, closed);
        closed := closed + [hump];
        hump := "";
      }
      if a.alnum(ch) {
        hump := hump + [ch];
      } else if hump != "" {
        out' := PushHump(hump, out', a, words, closed);
        closed := closed + [hump];
        hump := "";
      }
    }
    assert name[..|name|] == name && closed + [] == closed;
    if hump != "" {
      out' := PushHump(hump, out', a, words, closed);
    }
  }

  method SplitVocabTokens(name: string, a: Alphabet) returns (out: seq<string>)
    ensures out == VocabTokens(name, a)
  {
    out := Push(name, [], a, []);
    var parts := Split(name, '_');
    ghost var words := [name];
    for i := 0 to |parts|
      invariant words == [name] + parts[..i] && out == KeptWords(words, a)
    {
      out := Push(parts[i], out, a, words);
      words := words + [parts[i]];
    }
    assert parts[..|parts|] == parts;
    out := PushHumps(name, out, a, words);
  }

  function Vocab(names: seq<string>, a: Alphabet): set<string> {
    set name, tok | name in names && tok in VocabTokens(name, a) :: tok
  }

  lemma {:induction false} VocabSnoc(names: seq<string>, name: string, a: Alphabet)
    ensures Vocab(names + [name], a) == Vocab(names, a) + Members(VocabTokens(name, a))
  {
    var all := names + [name];
    assert forall other :: other in all <==> other in names || other == name;
  }

  function Members(tokens: seq<string>): set<string> {
    set tok | tok in tokens
  }

  method BuildVocab(names: seq<string>, a: Alphabet) returns (vocab: set<string>)
    ensures vocab == Vocab(names, a)
  {
    vocab := {};
    for i := 0 to |names|
      invariant vocab == Vocab(names[..i], a)
    {
      var tokens := SplitVocabTokens(names[i], a);
      VocabSnoc(names[..i], names[i], a);
      assert names[..i + 1] == names[..i] + [names[i]];
      vocab := vocab + Members(tokens);
    }
    assert names[..|names|] == names;
  }

  // ----- names are found by their parts -----

  ghost predicate IsIdentifier(name: string, a: Alphabet) {
    !a.alnum('_') && forall c :: c in name ==> a.alnum(c) || c == '_'
  }

  lemma {:induction false} PartsAreRuns(name: string, a: Alphabet)
    requires IsIdentifier(name, a)
    ensures ParseOpen(name, '_') == OpenRun(name, a.alnum)
    ensures forall part :: part in ParseClosed(name, '_') && part != "" ==> part in ClosedRuns(name, a.alnum)
  {
    if name != "" {
      assert Last(name) in name;
      forall c | c in Front(name) ensures c in name {
      }
      PartsAreRuns(Front(name), a);
    }
  }

  lemma {:induction false} LoweredMember(words: seq<string>, word: string, a: Alphabet)
    requires word in words
    ensures a.lower(word) in Lowered(words, a)
  {
    var i :| 0 <= i < |words| && words[i] == word;
    assert Lowered(words, a)[i] == a.lower(word);
  }

  lemma {:induction false} FittingWordInVocab(names: seq<string>, name: string, word: string, a: Alphabet)
    requires name in names && word in Words(name, a) && Fits(a)(a.lower(word))
    ensures a.lower(word) in Vocab(names, a)
  {
    LoweredMember(Words(name, a), word, a);
    KeptMembers(Lowered(Words(name, a), a), Fits(a));
    assert a.lower(word) in VocabTokens(name, a);
  }

  /** Searching for an indexed identifier finds each of its snake parts of fitting length, up to the cap. */
  lemma {:induction false} PartsAreFound(names: seq<string>, name: string, part: string, a: Alphabet)
    requires name in names && IsIdentifier(name, a)
    requires part in Split(name, '_') && part != "" && Fits(a)(a.lower(part))
    ensures var out := Expansion(name, Vocab(names, a), a);
            a.lower(part) in out || |out| == MAX_QUERY_TOKENS
  {
    PartsAreRuns(name, a);
    assert part in Runs(name, a.alnum);
    LoweredMember(Runs(name, a.alnum), part, a);
    FittingWordInVocab(names, name, part, a);
    ExpansionMembers(name, Vocab(names, a), a, a.lower(part));
  }

  /** Searching for an indexed name without separators, of fitting length, gives just that name. */
  lemma {:induction false} WholeNameIsFound(names: seq<string>, name: string, a: Alphabet)
    requires name in names && name != "" && AllWord(name, a.alnum) && Fits(a)(a.lower(name))
    ensures Expansion(name, Vocab(names, a), a) == [a.lower(name)]
  {
    OneRun(name, a.alnum);
    FittingWordInVocab(names, name, name, a);
    KeptAlone(name, Vocab(names, a), a);
  }

  /** Searching for a hump of an indexed name, of fitting length, gives just that hump. */
  lemma {:induction false} HumpIsFound(names: seq<string>, name: string, hump: string, a: Alphabet)
    requires name in names && hump in Humps(name, a) && Fits(a)(a.lower(hump))
    ensures Expansion(hump, Vocab(names, a), a) == [a.lower(hump)]
  {
    HumpsHaveShape(name, a);
    OneRun(hump, a.alnum);
    FittingWordInVocab(names, name, hump, a);
    KeptAlone(hump, Vocab(names, a), a);
  }

  lemma {:induction false} KeptAlone(word: string, vocab: set<string>, a: Alphabet)
    requires a.lower(word) in vocab
    ensures Kept(Lowered([word], a), InVocab(vocab)) == [a.lower(word)]
  {
    assert Lowered([word], a) == [a.lower(word)];
    assert [a.lower(word)][..0] == [];
  }
}
