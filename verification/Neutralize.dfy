/** `neutralize_preprocessor` (code-graph/src/fingerprint.rs) on whole source texts. */
module Neutralize {
  import opened Condition
  import opened Preprocessor

  // ----- lines of a text -----

  function FirstNewline(s: string): (i: nat)
    ensures i <= |s| && '\n' !in s[..i] && (i < |s| ==> s[i] == '\n')
  {
    if s == [] || s[0] == '\n' then 0
    else
      var i := FirstNewline(s[1..]) + 1;
      assert s[..i] == [s[0]] + s[1..][..i - 1];
      i
  }

  /** The pieces between newlines; always one more than there are newlines. */
  function Segments(s: string): (segments: seq<string>)
    ensures segments != []
    decreases |s|
  {
    var i := FirstNewline(s);
    if i == |s| then [s] else [s[..i]] + Segments(s[i + 1..])
  }

  function Join(segments: seq<string>): string
    requires segments != []
  {
    if |segments| == 1 then segments[0] else segments[0] + "\n" + Join(segments[1..])
  }

  function Scan(body: string): Physical {
    Physical(body, Classify(body), Spliced(body))
  }

  function ScanAll(segments: seq<string>): (lines: seq<Physical>)
    ensures |lines| == |segments|
    ensures forall i :: 0 <= i < |lines| ==> lines[i] == Scan(segments[i])
  {
    seq(|segments|, i requires 0 <= i < |segments| => Scan(segments[i]))
  }

  /** The text with directives and dropped branches blanked, from a given state of the machine. */
  function Neutral(st: State, s: string): string {
    Join(Out(st, ScanAll(Segments(s))))
  }

  ghost predicate NewlineFree(segments: seq<string>) {
    forall i :: 0 <= i < |segments| ==> '\n' !in segments[i]
  }

  lemma {:induction false} SegmentsAreNewlineFree(s: string)
    ensures NewlineFree(Segments(s))
    decreases |s|
  {
    var i := FirstNewline(s);
    if i == |s| {
      assert s[..i] == s;
    } else {
      SegmentsAreNewlineFree(s[i + 1..]);
    }
  }

  lemma {:induction false} NewlineAt(x: string, t: string)
    requires '\n' !in x
    ensures FirstNewline(x) == |x| && FirstNewline(x + "\n" + t) == |x|
  {
    if x == [] {
      assert "" + "\n" + t == "\n" + t;
    } else {
      assert x[0] in x;
      assert (x + "\n" + t)[1..] == x[1..] + "\n" + t;
      NewlineAt(x[1..], t);
    }
  }

  lemma {:induction false} SegmentsOfJoin(segments: seq<string>)
    requires segments != [] && NewlineFree(segments)
    ensures Segments(Join(segments)) == segments
  {
    var x := segments[0];
    if |segments| == 1 {
      NewlineAt(x, "");
    } else {
      var t := Join(segments[1..]);
      NewlineAt(x, t);
      SegmentsOfJoin(segments[1..]);
      assert (x + "\n" + t)[..|x|] == x && (x + "\n" + t)[|x| + 1..] == t;
    }
  }

  // ----- line by line -----

  lemma {:induction false} OutLineByLine(st: State, lines: seq<Physical>, i: nat)
    requires i < |lines|
    ensures Out(st, lines)[i] == "" || (Out(st, lines)[i] == lines[i].body && lines[i].line.Text?)
    decreases |lines|
  {
    if i > 0 {
      OutLineByLine(Step(st, lines[0]), lines[1..], i - 1);
    }
  }

  /** The output has the lines of the input: every one is the same-numbered input line or empty, so the
      number of newlines is kept; none is a directive. This holds for every input. */
  lemma {:induction false} LineByLine(s: string)
    ensures var before, after := Segments(s), Segments(Neutral(START, s));
            && |after| == |before|
            && after == Out(START, ScanAll(before))
            && (forall i :: 0 <= i < |after| ==> after[i] == before[i] || after[i] == "")
            && (forall i :: 0 <= i < |after| ==> Classify(after[i]).Text?)
  {
    var before := Segments(s);
    var out := Out(START, ScanAll(before));
    SegmentsAreNewlineFree(s);
    forall i | 0 <= i < |out|
      ensures (out[i] == before[i] || out[i] == "") && Classify(out[i]).Text? && '\n' !in out[i]
    {
      OutLineByLine(START, ScanAll(before), i);
    }
    SegmentsOfJoin(out);
  }

  lemma {:induction false} TextIsKept(lines: seq<Physical>)
    requires forall i :: 0 <= i < |lines| ==> lines[i].line.Text?
    ensures |Out(START, lines)| == |lines|
    ensures forall i :: 0 <= i < |lines| ==> Out(START, lines)[i] == lines[i].body
    decreases |lines|
  {
    if lines != [] {
      TextIsKept(lines[1..]);
      forall i | 0 <= i < |lines| ensures Out(START, lines)[i] == lines[i].body {
        if i > 0 {
          assert Out(START, lines)[i] == Out(START, lines[1..])[i - 1];
        }
      }
    }
  }

  lemma {:induction false} JoinOfSegments(s: string)
    ensures Join(Segments(s)) == s
    decreases |s|
  {
    var i := FirstNewline(s);
    if i < |s| {
      var tail := Segments(s[i + 1..]);
      JoinOfSegments(s[i + 1..]);
      JoinCons(s[..i], tail);
      SplitAt(s, i);
    }
  }

  lemma {:induction false} SplitAt(s: string, i: nat)
    requires i < |s| && s[i] == '\n'
    ensures s == s[..i] + "\n" + s[i + 1..]
  {
  }

  lemma {:induction false} JoinCons(x: string, segments: seq<string>)
    requires segments != []
    ensures Join([x] + segments) == x + "\n" + Join(segments)
  {
    assert ([x] + segments)[1..] == segments;
  }

  /** Neutralising twice is neutralising once, for every input. */
  lemma {:induction false} Idempotent(s: string)
    ensures Neutral(START, Neutral(START, s)) == Neutral(START, s)
  {
    var t := Neutral(START, s);
    LineByLine(s);
    TextIsKept(ScanAll(Segments(t)));
    assert Out(START, ScanAll(Segments(t))) == Segments(t);
    JoinOfSegments(t);
  }

  /** On every text whose conditionals are balanced, neutralising yields the recursive meaning of its
      parse: each conditional keeps its first live branch. */
  lemma {:induction false} NeutralIsMeaning(s: string) returns (items: Items)
    requires Balanced(ScanAll(Segments(s)), 0)
    ensures WellFormed(items) && Lines(items) == ScanAll(Segments(s))
    ensures Meaning(items, true) != [] && Neutral(START, s) == Join(Meaning(items, true))
  {
    items := BalancedIsWellNested(ScanAll(Segments(s)));
  }

  // ----- a text the documented rule is wrong about -----

  predicate ElifLines(lines: seq<string>) {
    && |lines| == 7 && lines[0] == "#if 0" && lines[1] == "x" && lines[2] == "#elif A" && lines[3] == "y"
    && lines[4] == "#else" && lines[5] == "z" && lines[6] == "#endif"
  }

  /** An #if 0, a live #elif and an #else, each with one line of text. */
  ghost predicate ElifShape(p: seq<Physical>) {
    && |p| == 7 && p[0].line == Hash(Open(false)) && p[2].line == Hash(Alternative(true))
    && p[4].line == Hash(Else) && p[6].line == Hash(EndIf)
    && p[1].line.Text? && p[3].line.Text? && p[5].line.Text?
    && forall i :: 0 <= i < 7 ==> !p[i].spliced
  }

  function ElifItems(p: seq<Physical>): Items
    requires |p| == 7
  {
    var last := Arm([p[4]], Plain(p[5], Nil), Closed([p[6]]));
    Conditional([p[0]], Plain(p[1], Nil), Arm([p[2]], Plain(p[3], Nil), last), Nil)
  }

  lemma {:induction false} OneLine(b: Physical, active: bool)
    requires b.line.Text?
    ensures WellFormed(Plain(b, Nil)) && Lines(Plain(b, Nil)) == [b]
    ensures Meaning(Plain(b, Nil), active) == DocumentedMeaning(Plain(b, Nil), active)
         == [if active then b.body else ""]
  {
    assert WellFormed(Nil) && Lines(Nil) == [] && Meaning(Nil, active) == [] && DocumentedMeaning(Nil, active) == [];
  }

  lemma {:induction false} ElifParses(p: seq<Physical>)
    requires ElifShape(p)
    ensures WellFormed(ElifItems(p)) && Lines(ElifItems(p)) == p
  {
    var close := Closed([p[6]]);
    var last := Arm([p[4]], Plain(p[5], Nil), close);
    var arms := Arm([p[2]], Plain(p[3], Nil), last);
    OneLine(p[1], true);
    OneLine(p[3], true);
    OneLine(p[5], true);
    assert WellFormedArms(close) && ArmLines(close) == [p[6]];
    assert WellFormedArms(last) && ArmLines(last) == [p[4], p[5], p[6]];
    assert WellFormedArms(arms) && ArmLines(arms) == [p[2], p[3], p[4], p[5], p[6]];
    assert WellFormed(Nil) && Lines(Nil) == [];
  }

  /** What the program keeps of it, and what the documentation says is kept. */
  lemma {:induction false} ElifMeanings(p: seq<Physical>)
    requires ElifShape(p) && WellFormed(ElifItems(p))
    ensures Meaning(ElifItems(p), true) == ["", "", "", p[3].body, "", "", ""]
    ensures DocumentedMeaning(ElifItems(p), true) == ["", "", "", "", "", p[5].body, ""]
  {
    var close := Closed([p[6]]);
    var last := Arm([p[4]], Plain(p[5], Nil), close);
    var arms := Arm([p[2]], Plain(p[3], Nil), last);
    var flags, elses := [false, true, true], [false, false, true];
    assert Flags(close) == [] && Elses(close) == [];
    assert Flags(last) == [true] && Elses(last) == [true];
    assert Flags(arms) == [true, true] && Elses(arms) == [false, true];
    assert [Live(Meant([p[0]]))] + Flags(arms) == flags && [false] + Elses(arms) == elses;
    assert !Chosen(flags, 0) && Chosen(flags, 1) && !Chosen(flags, 2);
    assert !Documented(flags, elses, 0) && !Documented(flags, elses, 1) && Documented(flags, elses, 2);
    OneLine(p[1], false);
    OneLine(p[3], true);
    OneLine(p[3], false);
    OneLine(p[5], true);
    OneLine(p[5], false);
    assert Blanks(1) == [""];
    assert ArmsMeaning(close, true, flags, 3) == [""] && DocumentedArms(close, true, flags, elses, 3) == [""];
    assert ArmsMeaning(last, true, flags, 2) == ["", "", ""];
    assert ArmsMeaning(arms, true, flags, 1) == ["", p[3].body, "", "", ""];
    assert DocumentedArms(last, true, flags, elses, 2) == ["", p[5].body, ""];
    assert DocumentedArms(arms, true, flags, elses, 1) == ["", "", "", p[5].body, ""];
    assert Meaning(Nil, true) == [] && DocumentedMeaning(Nil, true) == [];
  }

  lemma {:induction false} IsWord(word: string, rest: string)
    requires (forall c :: c in word ==> IsLetter(c)) && (rest == "" || !IsLetter(rest[0]))
    ensures Word(word + rest) == word && (word + rest)[|word|..] == rest
  {
    if word == "" {
      assert word + rest == rest;
    } else {
      assert word[0] in word && (word + rest)[1..] == word[1..] + rest;
      IsWord(word[1..], rest);
      assert word == [word[0]] + word[1..];
    }
  }

  /** A line that starts with # and ends in an ordinary character. */
  lemma {:induction false} HashLine(body: string, word: string, rest: string)
    requires body == "#" + (word + rest) && word != "" && (forall c :: c in word ==> IsLetter(c))
    requires (rest == "" || !IsLetter(rest[0])) && !IsWhite(body[|body| - 1]) && body[|body| - 1] != '\\'
    ensures Scan(body) == Physical(body, Hash(DirectiveOf(word + rest)), false)
    ensures Word(word + rest) == word && (word + rest)[|word|..] == rest
  {
    IsWord(word, rest);
    assert body[1..] == word + rest && word[0] in word;
    assert TrimStart(body) == body && TrimStart(word + rest) == word + rest && TrimEnd(body) == body;
  }

  lemma {:induction false} TextLine(body: string)
    requires |body| == 1 && !IsWhite(body[0]) && body[0] != '#' && body[0] != '\\'
    ensures Scan(body) == Physical(body, Text, false)
  {
  }

  lemma {:induction false} BareZero(s: string)
    requires s == " 0"
    ensures ConstantFalse(s)
  {
    NothingToFind(s, '/');
    NothingToFind(s, '*');
    assert Cleaned(s) == s;
    assert IsZero(s, Bare(""), " ", "") by {
      assert " " + ("0" + "") + "" == s;
    }
    ConstantFalseExactly(s);
  }

  lemma {:induction false} NameIsNoZero(s: string)
    requires s == " A"
    ensures !ConstantFalse(s)
  {
    NothingToFind(s, '/');
    NothingToFind(s, '*');
    assert Cleaned(s) == s;
    assert s[1..] == "A" && TrimStart(s) == "A" && Trim(s) == "A" && !Wrapped("A") && TrimSuffix("A") == "A";
  }

  lemma {:induction false} OpenLine(body: string, word: string, rest: string)
    requires body == "#if 0" && word == "if" && rest == " 0"
    ensures Scan(body) == Physical(body, Hash(Open(false)), false)
  {
    HashLine(body, word, rest);
    BareZero(rest);
  }

  lemma {:induction false} ElifLine(body: string, word: string, rest: string)
    requires body == "#elif A" && word == "elif" && rest == " A"
    ensures Scan(body) == Physical(body, Hash(Alternative(true)), false)
  {
    HashLine(body, word, rest);
    NameIsNoZero(rest);
  }

  lemma {:induction false} ElseLine(body: string, word: string)
    requires body == "#else" && word == "else"
    ensures Scan(body) == Physical(body, Hash(Else), false)
  {
    HashLine(body, word, "");
  }

  lemma {:induction false} EndIfLine(body: string, word: string)
    requires body == "#endif" && word == "endif"
    ensures Scan(body) == Physical(body, Hash(EndIf), false)
  {
    HashLine(body, word, "");
  }

  lemma {:induction false} ElifScans(lines: seq<string>)
    requires ElifLines(lines)
    ensures ElifShape(ScanAll(lines))
  {
    var p := ScanAll(lines);
    assert p[0] == Physical(lines[0], Hash(Open(false)), false) by { OpenLine(lines[0], "if", " 0"); }
    assert p[2] == Physical(lines[2], Hash(Alternative(true)), false) by { ElifLine(lines[2], "elif", " A"); }
    assert p[4] == Physical(lines[4], Hash(Else), false) by { ElseLine(lines[4], "else"); }
    assert p[6] == Physical(lines[6], Hash(EndIf), false) by { EndIfLine(lines[6], "endif"); }
    assert p[1] == Physical(lines[1], Text, false) by { OneCharacter(lines[1], 'x'); }
    assert p[3] == Physical(lines[3], Text, false) by { OneCharacter(lines[3], 'y'); }
    assert p[5] == Physical(lines[5], Text, false) by { OneCharacter(lines[5], 'z'); }
    Shaped(p);
  }

  lemma {:induction false} Shaped(p: seq<Physical>)
    requires |p| == 7 && p[0].line == Hash(Open(false)) && p[2].line == Hash(Alternative(true))
    requires p[4].line == Hash(Else) && p[6].line == Hash(EndIf)
    requires p[1].line.Text? && p[3].line.Text? && p[5].line.Text?
    requires !p[0].spliced && !p[1].spliced && !p[2].spliced && !p[3].spliced && !p[4].spliced && !p[5].spliced
    requires !p[6].spliced
    ensures ElifShape(p)
  {
  }

  lemma {:induction false} OneCharacter(body: string, c: char)
    requires body == [c] && 'a' <= c <= 'z'
    ensures Scan(body) == Physical(body, Text, false)
  {
    TextLine(body);
  }

  lemma {:induction false} ElifNewlines(lines: seq<string>)
    requires ElifLines(lines)
    ensures NewlineFree(lines)
  {
    forall i | 0 <= i < |lines| ensures '\n' !in lines[i] {
      assert i == 0 || i == 1 || i == 2 || i == 3 || i == 4 || i == 5 || i == 6;
    }
  }

  /** The branch under the live #elif is kept, y, and not the one under #else, z, which the documentation
      names. */
  lemma {:induction false} ElifIsKept(lines: seq<string>)
    requires ElifLines(lines)
    ensures Neutral(START, Join(lines)) == Join(["", "", "", "y", "", "", ""])
    ensures var items := ElifItems(ScanAll(lines));
            WellFormed(items) && DocumentedMeaning(items, true) == ["", "", "", "", "", "z", ""]
  {
    var p := ScanAll(lines);
    ElifScans(lines);
    ElifNewlines(lines);
    SegmentsOfJoin(lines);
    ElifParses(p);
    ElifMeanings(p);
    MachineIsMeaning([], ElifItems(p));
  }

  // ----- the program -----

  lemma {:induction false} NeutralStep(st: State, s: string, i: nat)
    requires i == FirstNewline(s)
    ensures i < |s| ==> Neutral(st, s) == Shown(st, Scan(s[..i])) + "\n" + Neutral(Step(st, Scan(s[..i])), s[i + 1..])
    ensures i == |s| ==> Neutral(st, s) == Shown(st, Scan(s))
  {
    var lines := ScanAll(Segments(s));
    if i < |s| {
      assert lines[1..] == ScanAll(Segments(s[i + 1..]));
    } else {
      assert lines[1..] == [];
    }
  }

  /** One directive line: what happens to the stack. */
  method ApplyDirective(stack: seq<Entry>, text: string) returns (after: seq<Entry>)
    ensures after == Direct(stack, DirectiveOf(text))
  {
    WordIsPrefix(text);
    var word := Word(text);
    var rest := text[|word|..];
    after := stack;
    var top := |stack| - 1;
    if word == "if" || word == "ifdef" || word == "ifndef" {
      var constantFalse := false;
      if word == "if" {
        constantFalse := IsConstantFalse(rest);
      }
      after := after + [Entry(Active(stack), !constantFalse, !constantFalse)];
    } else if word == "elif" || word == "elifdef" || word == "elifndef" {
      if stack != [] {
        var constantFalse := false;
        if word == "elif" {
          constantFalse := IsConstantFalse(rest);
        }
        var take := !stack[top].taken && !constantFalse;
        after := stack[..top] + [stack[top].(branch := take, taken := stack[top].taken || take)];
      }
    } else if word == "else" {
      if stack != [] {
        after := stack[..top] + [stack[top].(branch := !stack[top].taken, taken := true)];
      }
    } else if word == "endif" {
      if stack != [] {
        after := stack[..top];
      }
    }
  }

  /** The body of the loop apart from line ends. */
  method HandleLine(stack: seq<Entry>, continuation: bool, body: string)
    returns (stack': seq<Entry>, continuation': bool, shown: string)
    ensures State(stack', continuation') == Step(State(stack, continuation), Scan(body))
    ensures shown == Shown(State(stack, continuation), Scan(body))
  {
    stack', continuation', shown := stack, continuation, "";
    var trimmed := TrimStart(body);
    var active := Active(stack);
    if continuation {
      continuation' := Spliced(body);
    } else if trimmed != [] && trimmed[0] == '#' {
      continuation' := Spliced(body);
      stack' := ApplyDirective(stack, TrimStart(trimmed[1..]));
    } else if active {
      shown := body;
    }
  }

  method NeutralizePreprocessor(source: string) returns (out: string)
    ensures out == Neutral(START, source)
  {
    var stack: seq<Entry>, continuation := [], false;
    var pos := 0;
    out := "";
    while pos < |source|
      invariant pos <= |source|
      invariant Neutral(START, source) == out + Neutral(State(stack, continuation), source[pos..])
    {
      ghost var st := State(stack, continuation);
      var rest := source[pos..];
      var end := FirstNewline(rest);
      var body, shown := rest[..end], "";
      stack, continuation, shown := HandleLine(stack, continuation, body);
      var eol := if end < |rest| then "\n" else "";
      pos := if end < |rest| then pos + end + 1 else |source|;
      LoopStep(st, State(stack, continuation), rest, body, source[pos..], shown + eol);
      Associate(out, shown + eol, Neutral(State(stack, continuation), source[pos..]));
      out := out + (shown + eol);
    }
    NeutralStep(State(stack, continuation), source[pos..], 0);
  }

  lemma {:induction false} LoopStep(st: State, next: State, rest: string, body: string, tail: string, line: string)
    requires var end := FirstNewline(rest);
             && body == rest[..end] && next == Step(st, Scan(body))
             && tail == (if end < |rest| then rest[end + 1..] else "")
             && line == Shown(st, Scan(body)) + (if end < |rest| then "\n" else "")
    ensures Neutral(st, rest) == line + Neutral(next, tail)
  {
    NeutralStep(st, rest, FirstNewline(rest));
    NeutralStep(next, "", 0);
    if FirstNewline(rest) == |rest| {
      assert body == rest;
    }
  }
}
