/** Zero conditions read once from left to right, and what decides whether `is_constant_false`
(code-graph/src/fingerprint.rs) is right about a text whose comments it does not remove in reading order. */
module ZeroScan {
  import opened Condition

  /** How far a zero has been read; `depth` parentheses are open. */
  datatype Place = Opening(depth: nat) | Digits(depth: nat) | Closing(depth: nat) | Reject

  const START := Opening(0)

  function Read(p: Place, c: char): Place {
    match p
    case Opening(d) =>
      if c == '(' then Opening(d + 1) else if c == '0' then Digits(d) else if IsWhite(c) then p else Reject
    case Digits(d) => if IsSuffix(c) then p else ReadBehind(d, c)
    case Closing(d) => ReadBehind(d, c)
    case Reject => Reject
  }

  function ReadBehind(d: nat, c: char): Place {
    if IsWhite(c) then Closing(d) else if c == ')' && d > 0 then Closing(d - 1) else Reject
  }

  function ReadAll(p: Place, s: string): Place {
    if s == "" then p else Read(ReadAll(p, s[..|s| - 1]), s[|s| - 1])
  }

  predicate Done(p: Place) {
    !p.Opening? && !p.Reject? && p.depth == 0
  }

  /** One pass over the text with a counter tells whether it is a zero. */
  predicate ReadsAsZero(s: string) {
    Done(ReadAll(START, s))
  }

  lemma {:induction false} ReadBoth(p: Place, a: string, b: string)
    ensures ReadAll(p, a + b) == ReadAll(ReadAll(p, a), b)
  {
    if b == "" {
      assert a + b == a;
    } else {
      assert (a + b)[..|a + b| - 1] == a + b[..|b| - 1];
      ReadBoth(p, a, b[..|b| - 1]);
    }
  }

  lemma {:induction false} ReadHead(p: Place, s: string)
    requires s != ""
    ensures ReadAll(p, s) == ReadAll(Read(p, s[0]), s[1..])
  {
    assert s == [s[0]] + s[1..] && [s[0]][..0] == "";
    ReadBoth(p, [s[0]], s[1..]);
    assert ReadAll(p, [s[0]]) == Read(ReadAll(p, [s[0]][..0]), s[0]);
  }

  // ----- every zero is read as one -----

  function Blank(p: Place): Place {
    if p.Digits? then Closing(p.depth) else p
  }

  lemma {:induction false} ReadWhite(p: Place, w: string)
    requires White(w)
    ensures ReadAll(p, w) == if w == "" then p else Blank(p)
  {
    if w != "" {
      var front, c := w[..|w| - 1], w[|w| - 1];
      assert c in w;
      assert White(front) by {
        assert forall x :: x in front ==> x in w;
      }
      ReadWhite(p, front);
      assert c != '(' && c != '0' && !IsSuffix(c);
    }
  }

  predicate Suffixes(s: string) {
    forall c :: c in s ==> IsSuffix(c)
  }

  lemma {:induction false} ReadSuffixes(d: nat, s: string)
    requires Suffixes(s)
    ensures ReadAll(Digits(d), s) == Digits(d)
  {
    if s != "" {
      assert s[|s| - 1] in s && forall x :: x in s[..|s| - 1] ==> x in s;
      ReadSuffixes(d, s[..|s| - 1]);
    }
  }

  lemma {:induction false} ReadZero(z: Zero, d: nat)
    requires ValidZero(z)
    ensures ReadAll(Opening(d), Text(z)) == if z.Bare? then Digits(d) else Closing(d)
  {
    match z
    case Bare(suffix) => ReadBare(suffix, d);
    case Parens(left, inner, right) =>
      ReadZero(inner, d + 1);
      ReadParens(left, Text(inner), right, d);
  }

  lemma {:induction false} ReadBare(suffix: string, d: nat)
    requires Suffixes(suffix)
    ensures ReadAll(Opening(d), "0" + suffix) == Digits(d)
  {
    ReadHead(Opening(d), "0" + suffix);
    assert ("0" + suffix)[1..] == suffix;
    ReadSuffixes(d, suffix);
  }

  lemma {:induction false} ReadParens(left: string, text: string, right: string, d: nat)
    requires White(left) && White(right)
    requires ReadAll(Opening(d + 1), text) == Digits(d + 1) || ReadAll(Opening(d + 1), text) == Closing(d + 1)
    ensures ReadAll(Opening(d), "(" + (left + text + right) + ")") == Closing(d)
  {
    var mid := left + text + right;
    ReadHead(Opening(d), "(" + mid + ")");
    assert ("(" + mid + ")")[1..] == mid + ")";
    ReadAround(Opening(d + 1), left, text, right);
    assert (mid + ")")[..|mid|] == mid;
  }

  lemma {:induction false} ReadAround(p: Place, left: string, text: string, right: string)
    requires White(left) && White(right) && p.Opening?
    ensures ReadAll(p, left + text + right) ==
            if right == "" then ReadAll(p, text) else Blank(ReadAll(p, text))
  {
    ReadWhite(p, left);
    ReadBoth(p, left, text);
    ReadBoth(p, left + text, right);
    ReadWhite(ReadAll(p, text), right);
  }

  lemma {:induction false} ZeroIsRead(s: string, z: Zero, left: string, right: string)
    requires IsZero(s, z, left, right)
    ensures ReadsAsZero(s)
  {
    ReadZero(z, 0);
    ReadAround(START, left, Text(z), right);
  }

  // ----- only zeros are -----

  function Deeper(p: Place): Place {
    match p
    case Opening(d) => Opening(d + 1)
    case Digits(d) => Digits(d + 1)
    case Closing(d) => Closing(d + 1)
    case Reject => Reject
  }

  /** One more open parenthesis makes no difference until it is closed. */
  lemma {:induction false} ReadDeeper(s: string)
    ensures var p, q := ReadAll(Opening(1), s), ReadAll(START, s); p == Deeper(q) || (p == Closing(0) && q == Reject)
  {
    if s != "" {
      ReadDeeper(s[..|s| - 1]);
    }
  }

  lemma {:induction false} ReadFlat(u: string)
    ensures var p := ReadAll(Digits(0), u); p == Digits(0) || p == Closing(0) || p == Reject
  {
    if u != "" {
      ReadFlat(u[..|u| - 1]);
    }
  }

  /** What may follow a zero that ends in a digit or a suffix: suffixes, then blanks. */
  lemma {:induction false} ReadTail(u: string) returns (k: nat)
    requires Done(ReadAll(Digits(0), u))
    ensures k <= |u| && Suffixes(u[..k]) && White(u[k..])
    ensures if ReadAll(Digits(0), u).Digits? then k == |u| else u != "" && IsWhite(u[|u| - 1])
  {
    if u == "" {
      k := 0;
    } else {
      var front, c := u[..|u| - 1], u[|u| - 1];
      ReadFlat(front);
      k := ReadTail(front);
      assert u == front + [c];
      if ReadAll(Digits(0), u).Digits? {
        k := |u|;
        assert front == front[..|front|];
      } else {
        assert u[k..] == front[k..] + [c] && u[..k] == front[..k];
      }
    }
  }

  lemma {:induction false} ReadBlanks(u: string)
    ensures Done(ReadAll(Closing(0), u)) <==> White(u)
    ensures ReadAll(Closing(0), u) == Closing(0) || ReadAll(Closing(0), u) == Reject
  {
    if u != "" {
      var front, c := u[..|u| - 1], u[|u| - 1];
      ReadBlanks(front);
      assert u == front + [c];
    }
  }

  /** A zero without blanks around it is a bare one, or one in parentheses. */
  lemma {:induction false} ReadCore(t: string)
    requires ReadsAsZero(t) && t != "" && !IsWhite(t[0]) && !IsWhite(t[|t| - 1])
    ensures t[0] == '0' || t[0] == '('
    ensures t[0] == '0' ==> Suffixes(t[1..])
    ensures t[0] == '(' ==> Wrapped(t) && ReadsAsZero(t[1..|t| - 1])
  {
    ReadHead(START, t);
    if t[0] == '0' {
      BareCore(t[1..]);
    } else if t[0] == '(' {
      ParensCore(t[1..]);
      assert t[1..][..|t[1..]| - 1] == t[1..|t| - 1];
    } else {
      ReadRejected(t[1..]);
    }
  }

  lemma {:induction false} ReadRejected(s: string)
    ensures ReadAll(Reject, s) == Reject
  {
    if s != "" {
      ReadRejected(s[..|s| - 1]);
    }
  }

  lemma {:induction false} BareCore(u: string)
    requires Done(ReadAll(Digits(0), u)) && (u != "" ==> !IsWhite(u[|u| - 1]))
    ensures Suffixes(u)
  {
    var k := ReadTail(u);
    assert u[..|u|] == u;
  }

  lemma {:induction false} ParensCore(u: string)
    requires Done(ReadAll(Opening(1), u)) && (u != "" ==> !IsWhite(u[|u| - 1]))
    ensures u != "" && u[|u| - 1] == ')' && ReadsAsZero(u[..|u| - 1])
  {
    ReadDeeper(u);
    assert u != "";
    ReadDeeper(u[..|u| - 1]);
  }

  lemma {:induction false} TrimmedEnds(s: string)
    ensures Trim(s) != "" ==> !IsWhite(Trim(s)[0]) && !IsWhite(Trim(s)[|Trim(s)| - 1])
  {
    StartTrimmed(s);
    EndTrimmed(TrimStart(s));
    TrimEndSplits(TrimStart(s));
  }

  lemma {:induction false} StartTrimmed(s: string)
    ensures TrimStart(s) != "" ==> !IsWhite(TrimStart(s)[0])
  {
    if s != [] && IsWhite(s[0]) {
      StartTrimmed(s[1..]);
    }
  }

  lemma {:induction false} EndTrimmed(s: string)
    ensures TrimEnd(s) != "" ==> !IsWhite(TrimEnd(s)[|TrimEnd(s)| - 1])
  {
    if s != [] && IsWhite(s[|s| - 1]) {
      EndTrimmed(s[..|s| - 1]);
    }
  }

  lemma {:induction false} ReadTrimmed(s: string)
    requires ReadsAsZero(s)
    ensures ReadsAsZero(Trim(s)) && Trim(s) != ""
  {
    var left, right := TrimSplits(s);
    ReadAround(START, left, Trim(s), right);
  }

  lemma {:induction false} ReadIsAccepted(s: string)
    requires ReadsAsZero(s)
    ensures TrimSuffix(Unwrap(Trim(s))) == "0"
    decreases |s|
  {
    var t := Trim(s);
    ReadTrimmed(s);
    TrimmedEnds(s);
    ReadCore(t);
    if t[0] == '0' {
      assert t == "0" + t[1..];
      SuffixTrimmed("0", t[1..]);
    } else {
      ReadIsAccepted(t[1..|t| - 1]);
    }
  }

  /** The text is a zero with suffixes, parentheses and blanks exactly when the one pass says so. */
  lemma {:induction false} ZeroExactly(s: string)
    ensures ZeroText(s) <==> ReadsAsZero(s)
  {
    if ReadsAsZero(s) {
      ReadIsAccepted(s);
      var left, right := TrimSplits(s);
      var z := AcceptedIsZero(Trim(s));
      assert IsZero(s, z, left, right);
    }
    forall z, left, right | IsZero(s, z, left, right) ensures ReadsAsZero(s) {
      ZeroIsRead(s, z, left, right);
    }
  }

  // ----- what more text does to a zero -----

  predicate EndsInSuffix(b: string) {
    b != "" && (b[|b| - 1] == '0' || IsSuffix(b[|b| - 1]))
  }

  predicate Tail(u: string, k: nat) {
    k <= |u| && Suffixes(u[..k]) && forall c :: c in u[k..] ==> IsWhite(c)
  }

  /** Only blanks, after some suffix letters if b ends in its digit or such a letter. */
  predicate Harmless(b: string, u: string) {
    exists k: nat | k <= |u| :: Tail(u, k) && (k > 0 ==> EndsInSuffix(b))
  }

  lemma {:induction false} DigitsAtEnd(b: string)
    requires ReadsAsZero(b)
    ensures ReadAll(START, b).Digits? <==> EndsInSuffix(b)
  {
    assert b != "";
  }

  lemma {:induction false} TailIsRead(u: string, k: nat)
    requires Tail(u, k)
    ensures Done(ReadAll(Digits(0), u))
  {
    assert u == u[..k] + u[k..];
    ReadSuffixes(0, u[..k]);
    ReadBoth(Digits(0), u[..k], u[k..]);
    ReadWhite(Digits(0), u[k..]);
  }

  /** A zero stays one exactly with a harmless text behind it. */
  lemma {:induction false} HarmlessExactly(b: string, u: string)
    requires ReadsAsZero(b)
    ensures ReadsAsZero(b + u) <==> Harmless(b, u)
  {
    ReadBoth(START, b, u);
    DigitsAtEnd(b);
    if EndsInSuffix(b) {
      if ReadsAsZero(b + u) {
        var k := ReadTail(u);
        assert Tail(u, k);
      }
      forall k: nat | Tail(u, k) ensures ReadsAsZero(b + u) {
        TailIsRead(u, k);
      }
    } else {
      ReadBlanks(u);
      assert u[0..] == u && u[..0] == "";
      assert Tail(u, 0) <==> White(u);
    }
  }

  /** The text so far is no zero, but what follows completes one. */
  predicate Completes(b: string, u: string) {
    !ReadsAsZero(b) && Done(ReadAll(ReadAll(START, b), u))
  }

  // ----- when the decision is wrong -----

  /** A live condition is taken as constant false exactly when a `//` is hidden in a block comment, the text before
      that comment is a zero, and the text behind it does more than add suffixes or blanks. */
  lemma {:induction false} WronglyFalseExactly(s: string)
    ensures ConstantFalse(s) && !ZeroText(Uncommented(s)) <==>
            Hidden(s) && ReadsAsZero(Before(s)) && !Harmless(Before(s), Uncommented(Behind(s)))
  {
    ConstantFalseExactly(s);
    CleanedParts(s);
    ZeroExactly(Cleaned(s));
    ZeroExactly(Uncommented(s));
    if Hidden(s) && ReadsAsZero(Before(s)) {
      HarmlessExactly(Before(s), Uncommented(Behind(s)));
    }
  }

  /** A constant-false condition is taken as live exactly when a `//` is hidden in a block comment, the text before
      that comment is no zero yet, and the text behind it completes one. */
  lemma {:induction false} WronglyLiveExactly(s: string)
    ensures !ConstantFalse(s) && ZeroText(Uncommented(s)) <==>
            Hidden(s) && Completes(Before(s), Uncommented(Behind(s)))
  {
    ConstantFalseExactly(s);
    CleanedParts(s);
    ZeroExactly(Cleaned(s));
    ZeroExactly(Uncommented(s));
    if Hidden(s) {
      ReadBoth(START, Before(s), Uncommented(Behind(s)));
    }
  }

  /** So the decision is right about the condition read in order exactly when no `//` is hidden in a block
      comment, or what follows that comment neither spoils nor completes a zero. */
  lemma {:induction false} DecisionExactly(s: string)
    ensures (ConstantFalse(s) <==> ZeroText(Uncommented(s))) <==>
            (Hidden(s) ==>
               var before, behind := Before(s), Uncommented(Behind(s));
               (ReadsAsZero(before) ==> Harmless(before, behind)) && !Completes(before, behind))
  {
    WronglyFalseExactly(s);
    WronglyLiveExactly(s);
  }

  // ----- both kinds of wrong decision -----

  lemma {:induction false} PlusOneIsRead(b: string, t: string)
    requires b == "0" && t == "0+1"
    ensures ReadsAsZero(b) && !ReadsAsZero(t)
  {
    ReadHead(START, b);
    ReadHead(START, t);
    ReadHead(Digits(0), t[1..]);
    ReadRejected(t[1..][1..]);
  }

  /** A condition that reads 0+1 is taken as constant false. */
  lemma {:induction false} HiddenLineComment(s: string)
    requires s == "0/*//*/+1"
    ensures Uncommented(s) == "0+1" && !ZeroText("0+1") && ConstantFalse(s)
  {
    Decided(s, "0", "+1", "0+1");
    PlusOneIsRead("0", "0+1");
  }

  lemma {:induction false} ParensAreRead(b: string, t: string)
    requires b == "(0" && t == "(0)"
    ensures !ReadsAsZero(b) && ReadsAsZero(t)
  {
    ReadHead(START, b);
    ReadHead(Opening(1), b[1..]);
    assert b[1..][1..] == "" && t[..2] == b;
  }

  /** A condition that reads (0) is taken as live. */
  lemma {:induction false} HiddenParenthesis(s: string)
    requires s == "(0/*//*/)"
    ensures Uncommented(s) == "(0)" && ZeroText("(0)") && !ConstantFalse(s)
  {
    Decided(s, "(0", ")", "(0)");
    ParensAreRead("(0", "(0)");
  }

  /** What is decided is the text before the comment, what is meant is that text with the one behind it. */
  lemma {:induction false} Decided(s: string, b: string, u: string, t: string)
    requires '/' !in b && '/' !in u && s == b + ("/*//*/" + u) && t == b + u
    ensures Uncommented(s) == t && (ZeroText(t) <==> ReadsAsZero(t)) && (ConstantFalse(s) <==> ReadsAsZero(b))
  {
    HiddenBetween(b, "/*//*/", u, s);
    ConstantFalseExactly(s);
    ZeroExactly(b);
    ZeroExactly(t);
  }
}
