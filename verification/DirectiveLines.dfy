/** Which lines are directives, what their words mean, and which lines they are continued on
(code-graph/src/fingerprint.rs), in terms of the text of the line. */
module DirectiveLines {
  import opened Condition
  import opened Preprocessor
  import opened Neutralize

  /** The blanks are the characters with the White_Space property of the Unicode Standard. */
  lemma {:induction false} BlanksExactly(c: char)
    ensures IsWhite(c) <==>
            var n := c as int;
            || n == 9 || n == 10 || n == 11 || n == 12 || n == 13 || n == 32 || n == 133 || n == 160 || n == 5760
            || 8192 <= n <= 8202 || n == 8232 || n == 8233 || n == 8239 || n == 8287 || n == 12288
  {
  }

  lemma {:induction false} SuffixExactly(c: char)
    ensures IsSuffix(c) <==> c in "ulUL"
  {
  }

  ghost predicate Letters(s: string) {
    forall c :: c in s ==> 'a' <= c <= 'z' || 'A' <= c <= 'Z'
  }

  /** The word ends here. */
  predicate EndsWord(rest: string) {
    rest != "" ==> !('a' <= rest[0] <= 'z' || 'A' <= rest[0] <= 'Z')
  }

  predicate Opens(word: string) {
    word == "if" || word == "ifdef" || word == "ifndef"
  }

  predicate Alternates(word: string) {
    word == "elif" || word == "elifdef" || word == "elifndef"
  }

  /** What a directive with this word and this text behind it is for the machine. Only `if` and `elif` look at their
      condition. */
  ghost predicate Says(word: string, rest: string, d: Directive) {
    && (word == "if" ==> d == Open(!ConstantFalse(rest)))
    && (word == "ifdef" || word == "ifndef" ==> d == Open(true))
    && (word == "elif" ==> d == Alternative(!ConstantFalse(rest)))
    && (word == "elifdef" || word == "elifndef" ==> d == Alternative(true))
    && (word == "else" ==> d == Else)
    && (word == "endif" ==> d == EndIf)
    && (!Opens(word) && !Alternates(word) && word != "else" && word != "endif" ==> d == Other)
  }

  lemma {:induction false} WordSays(word: string, rest: string)
    requires Letters(word) && EndsWord(rest)
    ensures Says(word, rest, DirectiveOf(word + rest))
  {
    IsWord(word, rest);
  }

  lemma {:induction false} TrimStartWhite(s: string)
    requires White(s)
    ensures TrimStart(s) == ""
  {
    if s != "" {
      assert s[0] in s;
      TrimStartWhite(s[1..]);
    }
  }

  /** A line made of blanks, #, blanks, a word that may be empty, and something that goes on with neither of the two. */
  ghost predicate IsDirectiveLine(body: string, left: string, mid: string, word: string, rest: string) {
    && White(left) && White(mid) && Letters(word) && EndsWord(rest) && NoBlankFirst(word + rest)
    && body == left + ("#" + (mid + (word + rest)))
  }

  predicate NoBlankFirst(s: string) {
    s != "" ==> !IsWhite(s[0])
  }

  lemma {:induction false} DirectiveLine(body: string, left: string, mid: string, word: string, rest: string)
    requires IsDirectiveLine(body, left, mid, word, rest)
    ensures Scan(body).line.Hash? && Says(word, rest, Scan(body).line.directive)
  {
    var behind := mid + (word + rest);
    TrimStartAround(left, "#" + behind);
    assert ("#" + behind)[1..] == behind;
    if word + rest == "" {
      assert behind == mid;
      TrimStartWhite(mid);
    } else {
      TrimStartAround(mid, word + rest);
    }
    WordSays(word, rest);
  }

  ghost predicate HashFirst(body: string, left: string, behind: string) {
    White(left) && body == left + ("#" + behind)
  }

  lemma {:induction false} HashSplits(body: string) returns (left: string, behind: string)
    requires Scan(body).line.Hash?
    ensures HashFirst(body, left, behind)
  {
    TrimStartSplits(body);
    var trimmed := TrimStart(body);
    left, behind := body[..|body| - |trimmed|], trimmed[1..];
    assert trimmed == "#" + behind && body == left + trimmed;
  }

  lemma {:induction false} HashIsDirective(body: string, left: string, behind: string)
    requires HashFirst(body, left, behind)
    ensures Scan(body).line.Hash?
  {
    TrimStartAround(left, "#" + behind);
  }

  /** A line is a directive exactly when # is its first character that is no blank. */
  lemma {:induction false} HashExactly(body: string)
    ensures Scan(body).line.Hash? <==> exists left, behind :: HashFirst(body, left, behind)
  {
    if Scan(body).line.Hash? {
      var left, behind := HashSplits(body);
    }
    forall left, behind | HashFirst(body, left, behind) ensures Scan(body).line.Hash? {
      HashIsDirective(body, left, behind);
    }
  }

  ghost predicate BackslashLast(body: string, front: string, blanks: string) {
    White(blanks) && body == front + ("\\" + blanks)
  }

  lemma {:induction false} BackslashSplits(body: string) returns (front: string, blanks: string)
    requires Scan(body).spliced
    ensures BackslashLast(body, front, blanks)
  {
    TrimEndSplits(body);
    var t := TrimEnd(body);
    front, blanks := t[..|t| - 1], body[|t|..];
    assert t == front + "\\" && body == t + blanks && front + ("\\" + blanks) == t + blanks;
  }

  lemma {:induction false} BackslashIsSplice(body: string, front: string, blanks: string)
    requires BackslashLast(body, front, blanks)
    ensures Scan(body).spliced
  {
    assert body == (front + "\\") + blanks;
    TrimEndAround(front + "\\", blanks);
  }

  /** A line is continued exactly when a backslash is its last character that is no blank. */
  lemma {:induction false} SplicedExactly(body: string)
    ensures Scan(body).spliced <==> exists front, blanks :: BackslashLast(body, front, blanks)
  {
    if Scan(body).spliced {
      var front, blanks := BackslashSplits(body);
    }
    forall front, blanks | BackslashLast(body, front, blanks) ensures Scan(body).spliced {
      BackslashIsSplice(body, front, blanks);
    }
  }

  // ----- on whole texts -----

  lemma {:induction false} OneMore(st: State, line: Physical, rest: seq<Physical>)
    ensures Out(st, [line] + rest) == [Shown(st, line)] + Out(Step(st, line), rest)
  {
    assert ([line] + rest)[1..] == rest;
  }

  lemma {:induction false} FiveSteps(s: State, t: State, a: Physical, x: Physical, b: Physical, y: Physical,
                                     c: Physical, u: State)
    requires Step(s, a) == t && Step(t, x) == t && Step(t, b) == u && Step(u, y) == u
    ensures Out(s, [a, x, b, y, c]) == [Shown(s, a), Shown(t, x), Shown(t, b), Shown(u, y), Shown(u, c)]
  {
    OneMore(u, c, []);
    OneMore(u, y, [c]);
    OneMore(t, b, [y, c]);
    OneMore(t, x, [b, y, c]);
    OneMore(s, a, [x, b, y, c]);
    assert [a, x, b, y, c] == [a] + [x, b, y, c] && [x, b, y, c] == [x] + [b, y, c];
    assert [b, y, c] == [b] + [y, c] && [y, c] == [y] + [c] && [c] == [c] + [];
  }

  lemma {:induction false} FiveLines(a: Physical, x: Physical, b: Physical, y: Physical, c: Physical)
    requires a.line == Hash(Open(true)) && b.line == Hash(Else) && c.line == Hash(EndIf)
    requires x.line.Text? && y.line.Text? && !a.spliced && !b.spliced
    ensures Out(START, [a, x, b, y, c]) == ["", x.body, "", "", ""]
  {
    var one, two := State([Entry(true, true, true)], false), State([Entry(true, false, true)], false);
    assert Step(START, a) == one && Step(one, b) == two;
    FiveSteps(START, one, a, x, b, y, c, two);
  }

  lemma {:induction false} NeutralLines(lines: seq<string>)
    requires lines != [] && NewlineFree(lines)
    ensures Neutral(START, Join(lines)) == Join(Out(START, ScanAll(lines)))
  {
    SegmentsOfJoin(lines);
  }

  lemma {:induction false} FivePhysical(lines: seq<string>, p: seq<Physical>)
    requires |lines| == 5 && p == ScanAll(lines)
    ensures p == [Scan(lines[0]), Scan(lines[1]), Scan(lines[2]), Scan(lines[3]), Scan(lines[4])]
  {
  }

  lemma {:induction false} FiveScans(lines: seq<string>)
    requires |lines| == 5 && lines[2] == "#else" && lines[4] == "#endif" && NewlineFree(lines)
    requires Scan(lines[0]).line == Hash(Open(true)) && !Scan(lines[0]).spliced
    requires Scan(lines[1]).line.Text? && Scan(lines[3]).line.Text?
    ensures Neutral(START, Join(lines)) == Join(["", lines[1], "", "", ""])
  {
    NeutralLines(lines);
    FivePhysical(lines, ScanAll(lines));
    ElseLine(lines[2], "else");
    EndIfLine(lines[4], "endif");
    FiveLines(Scan(lines[0]), Scan(lines[1]), Scan(lines[2]), Scan(lines[3]), Scan(lines[4]));
  }

  /** Of `#ifdef` and `#ifndef`, whatever the name, the first branch is kept and the one under `#else` dropped. */
  lemma {:induction false} IfdefKeepsFirst(first: string, left: string, mid: string, word: string, rest: string,
                                           x: string, y: string, lines: seq<string>)
    requires IsDirectiveLine(first, left, mid, word, rest) && (word == "ifdef" || word == "ifndef")
    requires Scan(x).line.Text? && Scan(y).line.Text? && !Scan(first).spliced
    requires lines == [first, x, "#else", y, "#endif"] && NewlineFree(lines)
    ensures Neutral(START, Join(lines)) == Join(["", x, "", "", ""])
  {
    DirectiveLine(first, left, mid, word, rest);
    FiveScans(lines);
  }

  lemma {:induction false} ThreeLines(a: Physical, x: Physical, y: Physical)
    requires a.line == Hash(Other) && a.spliced && !x.spliced && y.line.Text?
    ensures Out(START, [a, x, y]) == ["", "", y.body]
  {
    var going := State([], true);
    assert Step(START, a) == going && Step(going, x) == START;
    OneMore(START, y, []);
    OneMore(going, x, [y]);
    OneMore(START, a, [x, y]);
    assert [a, x, y] == [a] + [x, y] && [x, y] == [x] + [y] && [y] == [y] + [];
  }

  /** A directive such as `#define` that ends in a backslash takes the next line with it, whatever that line is. */
  lemma {:induction false} ContinuationIsBlanked(first: string, left: string, mid: string, word: string, rest: string,
                                                 x: string, y: string, lines: seq<string>)
    requires IsDirectiveLine(first, left, mid, word, rest) && word == "define" && Scan(first).spliced
    requires !Scan(x).spliced && Scan(y).line.Text?
    requires lines == [first, x, y] && NewlineFree(lines)
    ensures Neutral(START, Join(lines)) == Join(["", "", y])
  {
    DirectiveLine(first, left, mid, word, rest);
    SegmentsOfJoin(lines);
    var p := ScanAll(lines);
    assert p == [p[0], p[1], p[2]];
    ThreeLines(p[0], p[1], p[2]);
  }
}
