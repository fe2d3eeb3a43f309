/** Model of `is_constant_false` (code-graph/src/fingerprint.rs) and of the string operations of the
standard library that the preprocessor pass uses. */
module Condition {

  /** The Unicode White_Space property. */
  predicate IsWhite(c: char) {
    || '\t' <= c <= '\r' || c == ' ' || c == '\U{0085}' || c == '\U{00A0}' || c == '\U{1680}'
    || '\U{2000}' <= c <= '\U{200A}' || c == '\U{2028}' || c == '\U{2029}' || c == '\U{202F}'
    || c == '\U{205F}' || c == '\U{3000}'
  }

  predicate IsLetter(c: char) {
    'a' <= c <= 'z' || 'A' <= c <= 'Z'
  }

  predicate IsSuffix(c: char) {
    c == 'u' || c == 'U' || c == 'l' || c == 'L'
  }

  function TrimStart(s: string): (t: string)
    ensures |t| <= |s|
  {
    if s != [] && IsWhite(s[0]) then TrimStart(s[1..]) else s
  }

  function TrimEnd(s: string): (t: string)
    ensures |t| <= |s|
  {
    if s != [] && IsWhite(s[|s| - 1]) then TrimEnd(s[..|s| - 1]) else s
  }

  function Trim(s: string): (t: string)
    ensures |t| <= |s|
  {
    TrimEnd(TrimStart(s))
  }

  function TrimSuffix(s: string): string {
    if s != [] && IsSuffix(s[|s| - 1]) then TrimSuffix(s[..|s| - 1]) else s
  }

  /** Where x directly followed by y first occurs; the length of s if nowhere. */
  function Find(s: string, x: char, y: char): (i: nat)
    ensures i <= |s|
    ensures i < |s| ==> i + 1 < |s| && s[i] == x && s[i + 1] == y
  {
    if |s| < 2 then |s|
    else if s[0] == x && s[1] == y then 0
    else
      Find(s[1..], x, y) + 1
  }

  function CutLineComment(s: string): string {
    s[..Find(s, '/', '/')]
  }

  /** What follows the first block comment; nothing if it is unfinished. */
  function AfterComment(s: string, start: nat): (rest: string)
    requires start + 2 <= |s|
    ensures |rest| < |s|
  {
    var inside := s[start + 2..];
    var end := Find(inside, '*', '/');
    if end == |inside| then "" else inside[end + 2..]
  }

  /** Without block comments. */
  function DropBlockComments(s: string): string
    decreases |s|
  {
    var start := Find(s, '/', '*');
    if start == |s| then s else s[..start] + DropBlockComments(AfterComment(s, start))
  }

  predicate Wrapped(s: string) {
    |s| >= 2 && s[0] == '(' && s[|s| - 1] == ')'
  }

  function Unwrap(s: string): string
    decreases |s|
  {
    if Wrapped(s) then Unwrap(Trim(s[1..|s| - 1])) else s
  }

  /** Cut at the first `//`, freed of block comments, blanks, parentheses and suffix letters, the text is 0. */
  predicate ConstantFalse(condition: string) {
    TrimSuffix(Unwrap(Trim(DropBlockComments(CutLineComment(condition))))) == "0"
  }

  // ----- the program -----

  method IsConstantFalse(condition: string) returns (b: bool)
    ensures b == ConstantFalse(condition)
  {
    var text := condition[..Find(condition, '/', '/')];
    var cleaned := RemoveBlockComments(text);
    var expr := Trim(cleaned);
    while Wrapped(expr)
      invariant Unwrap(expr) == Unwrap(Trim(cleaned))
      decreases |expr|
    {
      expr := Trim(expr[1..|expr| - 1]);
    }
    expr := TrimSuffix(expr);
    b := expr == "0";
  }

  method RemoveBlockComments(text: string) returns (cleaned: string)
    ensures cleaned == DropBlockComments(text)
  {
    cleaned := "";
    var rest := text;
    var start := Find(rest, '/', '*');
    while start < |rest|
      invariant start == Find(rest, '/', '*')
      invariant DropBlockComments(text) == cleaned + DropBlockComments(rest)
      decreases |rest|
    {
      var tail := AfterComment(rest, start);
      Associate(cleaned, rest[..start], DropBlockComments(tail));
      cleaned := cleaned + rest[..start];
      rest := tail;
      start := Find(rest, '/', '*');
    }
    cleaned := cleaned + rest;
  }

  lemma {:induction false} Associate(a: string, b: string, c: string)
    ensures a + (b + c) == (a + b) + c
    ensures b + "" == b
  {
  }

  // ----- which comment-free conditions count as constant false -----

  /** A zero with integer suffixes, inside any number of parentheses. */
  datatype Zero = Bare(suffix: string) | Parens(left: string, inner: Zero, right: string)

  ghost predicate White(s: string) {
    forall c :: c in s ==> IsWhite(c)
  }

  ghost predicate ValidZero(z: Zero) {
    match z
    case Bare(suffix) => forall c :: c in suffix ==> IsSuffix(c)
    case Parens(left, inner, right) => White(left) && ValidZero(inner) && White(right)
  }

  function Text(z: Zero): string {
    match z
    case Bare(suffix) => "0" + suffix
    case Parens(left, inner, right) => "(" + (left + Text(inner) + right) + ")"
  }

  ghost predicate IsZero(s: string, z: Zero, left: string, right: string) {
    ValidZero(z) && White(left) && White(right) && s == left + Text(z) + right
  }

  lemma {:induction false} TrimStartSplits(s: string)
    ensures White(s[..|s| - |TrimStart(s)|]) && s[|s| - |TrimStart(s)|..] == TrimStart(s)
  {
    if s != [] && IsWhite(s[0]) {
      TrimStartSplits(s[1..]);
      var k := |s| - |TrimStart(s)|;
      assert s[..k] == [s[0]] + s[1..][..k - 1];
    }
  }

  lemma {:induction false} TrimEndSplits(s: string)
    ensures s[..|TrimEnd(s)|] == TrimEnd(s) && White(s[|TrimEnd(s)|..])
  {
    if s != [] && IsWhite(s[|s| - 1]) {
      TrimEndSplits(s[..|s| - 1]);
      var k := |TrimEnd(s)|;
      assert s[k..] == s[..|s| - 1][k..] + [s[|s| - 1]];
    }
  }

  lemma {:induction false} TrimSplits(s: string) returns (left: string, right: string)
    ensures White(left) && White(right) && s == left + Trim(s) + right
  {
    TrimStartSplits(s);
    TrimEndSplits(TrimStart(s));
    left, right := s[..|s| - |TrimStart(s)|], TrimStart(s)[|Trim(s)|..];
  }

  lemma {:induction false} TrimStartAround(left: string, core: string)
    requires White(left) && core != [] && !IsWhite(core[0])
    ensures TrimStart(left + core) == core
  {
    if left == [] {
      assert left + core == core;
    } else {
      assert left[0] in left && (left + core)[1..] == left[1..] + core;
      TrimStartAround(left[1..], core);
    }
  }

  lemma {:induction false} TrimEndAround(core: string, right: string)
    requires White(right) && core != [] && !IsWhite(core[|core| - 1])
    ensures TrimEnd(core + right) == core
  {
    if right == [] {
      assert core + right == core;
    } else {
      assert right[|right| - 1] in right && (core + right)[..|core + right| - 1] == core + right[..|right| - 1];
      TrimEndAround(core, right[..|right| - 1]);
    }
  }

  lemma {:induction false} TextEnds(z: Zero)
    requires ValidZero(z)
    ensures Text(z) != [] && !IsWhite(Text(z)[0]) && !IsWhite(Text(z)[|Text(z)| - 1])
  {
    if z.Bare? && z.suffix != [] {
      assert z.suffix[|z.suffix| - 1] in z.suffix;
    }
  }

  lemma {:induction false} TrimAround(z: Zero, left: string, right: string)
    requires ValidZero(z) && White(left) && White(right)
    ensures Trim(left + Text(z) + right) == Text(z)
  {
    TextEnds(z);
    assert left + Text(z) + right == left + (Text(z) + right);
    TrimStartAround(left, Text(z) + right);
    TrimEndAround(Text(z), right);
  }

  lemma {:induction false} SuffixTrimmed(core: string, suffix: string)
    requires (forall c :: c in suffix ==> IsSuffix(c)) && core != [] && !IsSuffix(core[|core| - 1])
    ensures TrimSuffix(core + suffix) == core
  {
    if suffix == [] {
      assert core + suffix == core;
    } else {
      assert suffix[|suffix| - 1] in suffix && (core + suffix)[..|core + suffix| - 1] == core + suffix[..|suffix| - 1];
      SuffixTrimmed(core, suffix[..|suffix| - 1]);
    }
  }

  lemma {:induction false} SuffixSplits(s: string)
    ensures |TrimSuffix(s)| <= |s| && s[..|TrimSuffix(s)|] == TrimSuffix(s)
    ensures forall c :: c in s[|TrimSuffix(s)|..] ==> IsSuffix(c)
  {
    if s != [] && IsSuffix(s[|s| - 1]) {
      SuffixSplits(s[..|s| - 1]);
      var k := |TrimSuffix(s)|;
      assert s[k..] == s[..|s| - 1][k..] + [s[|s| - 1]];
    }
  }

  lemma {:induction false} ZeroIsAccepted(z: Zero)
    requires ValidZero(z)
    ensures TrimSuffix(Unwrap(Text(z))) == "0"
  {
    match z
    case Bare(suffix) => SuffixTrimmed("0", suffix);
    case Parens(left, inner, right) =>
      var t := Text(z);
      assert t[1..|t| - 1] == left + Text(inner) + right;
      TrimAround(inner, left, right);
      ZeroIsAccepted(inner);
  }

  lemma {:induction false} AcceptedIsZero(t: string) returns (z: Zero)
    requires TrimSuffix(Unwrap(t)) == "0"
    ensures ValidZero(z) && Text(z) == t
    decreases |t|
  {
    if Wrapped(t) {
      var mid := t[1..|t| - 1];
      var left, right := TrimSplits(mid);
      var inner := AcceptedIsZero(Trim(mid));
      z := Parens(left, inner, right);
      assert t == "(" + mid + ")";
    } else {
      SuffixSplits(t);
      z := Bare(t[1..]);
      assert t == t[..1] + t[1..];
    }
  }

  // ----- the decision on any condition -----

  /** What the program looks at: cut at the first `//`, then without block comments. */
  function Cleaned(s: string): string {
    DropBlockComments(CutLineComment(s))
  }

  /** A zero literal with optional suffixes, inside any number of parentheses, with blanks anywhere between. */
  ghost predicate ZeroText(s: string) {
    exists z, left, right :: IsZero(s, z, left, right)
  }

  /** A condition is taken as constant false exactly when what is left of it is such a zero. */
  lemma {:induction false} ConstantFalseExactly(s: string)
    ensures ConstantFalse(s) <==> ZeroText(Cleaned(s))
  {
    var t := Cleaned(s);
    if ConstantFalse(s) {
      var left, right := TrimSplits(t);
      var z := AcceptedIsZero(Trim(t));
      assert IsZero(t, z, left, right);
    }
    forall z, left, right | IsZero(t, z, left, right) ensures ConstantFalse(s) {
      TrimAround(z, left, right);
      ZeroIsAccepted(z);
    }
  }

  // ----- comments in reading order -----

  /** Where the text after the block comment at start begins. */
  function CommentEnd(s: string, start: nat): (e: nat)
    requires start + 2 <= |s|
    ensures start + 2 <= e <= |s| && AfterComment(s, start) == s[e..]
  {
    var inside := s[start + 2..];
    var end := Find(inside, '*', '/');
    if end == |inside| then |s| else start + 2 + end + 2
  }

  /** Comments removed as they are read: `//` opens a comment only outside a block comment. As in the program,
      nothing takes the place of a comment. */
  function Uncommented(s: string): string
    decreases |s|
  {
    var line, block := Find(s, '/', '/'), Find(s, '/', '*');
    if line <= block then s[..line] else s[..block] + Uncommented(AfterComment(s, block))
  }

  /** The first `//` begins inside a block comment, its closing slash included. */
  predicate Hidden(s: string)
    decreases |s|
  {
    var line, block := Find(s, '/', '/'), Find(s, '/', '*');
    block < line && (line < CommentEnd(s, block) || Hidden(AfterComment(s, block)))
  }

  /** The text before that block comment, without the comments in it. */
  function Before(s: string): string
    requires Hidden(s)
    decreases |s|
  {
    var line, block := Find(s, '/', '/'), Find(s, '/', '*');
    if line < CommentEnd(s, block) then s[..block] else s[..block] + Before(AfterComment(s, block))
  }

  /** The text after it. */
  function Behind(s: string): string
    requires Hidden(s)
    decreases |s|
  {
    var line, block := Find(s, '/', '/'), Find(s, '/', '*');
    if line < CommentEnd(s, block) then AfterComment(s, block) else Behind(AfterComment(s, block))
  }

  lemma {:induction false} FindInPrefix(s: string, x: char, y: char, k: nat)
    requires k <= |s|
    ensures Find(s[..k], x, y) == if Find(s, x, y) + 2 <= k then Find(s, x, y) else k
  {
    if k >= 2 && !(s[0] == x && s[1] == y) {
      assert s[..k][1..] == s[1..][..k - 1];
      FindInPrefix(s[1..], x, y, k - 1);
    }
  }

  lemma {:induction false} FindInSuffix(s: string, x: char, y: char, e: nat)
    requires e <= Find(s, x, y)
    ensures Find(s[e..], x, y) == Find(s, x, y) - e
  {
    if e > 0 {
      assert s[e..] == s[1..][e - 1..];
      if |s| < 2 {
        assert s[e..] == "";
      } else {
        FindInSuffix(s[1..], x, y, e - 1);
      }
    }
  }

  /** The end of the comment in a prefix of the text. */
  lemma {:induction false} EndInPrefix(s: string, block: nat, line: nat)
    requires block + 2 <= line <= |s|
    ensures var k, end := line - block - 2, Find(s[block + 2..], '*', '/');
            Find(s[..line][block + 2..], '*', '/') == if end + 2 <= k then end else k
  {
    var k := line - block - 2;
    assert s[..line][block + 2..] == s[block + 2..][..k];
    FindInPrefix(s[block + 2..], '*', '/', k);
  }

  /** Cutting inside a block comment leaves it unfinished. */
  lemma {:induction false} CutLeavesOpen(s: string, block: nat, line: nat)
    requires block + 2 <= line <= |s| && (line < CommentEnd(s, block) || CommentEnd(s, block) == |s|)
    ensures AfterComment(s[..line], block) == ""
  {
    EndInPrefix(s, block, line);
  }

  /** Cutting behind it leaves it as it is. */
  lemma {:induction false} CutLeavesClosed(s: string, block: nat, line: nat)
    requires block + 2 <= line <= |s| && CommentEnd(s, block) <= line
    ensures AfterComment(s[..line], block) == s[CommentEnd(s, block)..line]
  {
    EndInPrefix(s, block, line);
    assert s[..line][CommentEnd(s, block)..] == s[CommentEnd(s, block)..line];
  }

  /** The slash that opens a block comment is not the first of `//`. */
  lemma {:induction false} BlockThenLine(s: string)
    requires Find(s, '/', '*') < Find(s, '/', '/')
    ensures Find(s, '/', '*') + 2 <= Find(s, '/', '/')
  {
  }

  lemma {:induction false} CutFirst(s: string)
    requires Find(s, '/', '/') <= Find(s, '/', '*')
    ensures Cleaned(s) == s[..Find(s, '/', '/')]
  {
    FindInPrefix(s, '/', '*', Find(s, '/', '/'));
  }

  lemma {:induction false} CutInside(s: string)
    requires var line, block := Find(s, '/', '/'), Find(s, '/', '*'); block < line < CommentEnd(s, block)
    ensures Cleaned(s) == s[..Find(s, '/', '*')]
  {
    var line, block := Find(s, '/', '/'), Find(s, '/', '*');
    BlockThenLine(s);
    FindInPrefix(s, '/', '*', line);
    CutLeavesOpen(s, block, line);
    assert s[..line][..block] == s[..block];
    assert DropBlockComments("") == "" && s[..block] + "" == s[..block];
  }

  /** Cutting behind a finished comment and what is cut of the text behind it. */
  lemma {:induction false} SameCut(s: string, block: nat, line: nat)
    requires block + 2 <= line == Find(s, '/', '/') && CommentEnd(s, block) <= line
    ensures AfterComment(s[..line], block) == CutLineComment(AfterComment(s, block))
  {
    var e := CommentEnd(s, block);
    CutLeavesClosed(s, block, line);
    FindInSuffix(s, '/', '/', e);
    assert s[e..][..line - e] == s[e..line];
  }

  lemma {:induction false} DropFirst(t: string, block: nat)
    requires block + 2 <= |t| && Find(t, '/', '*') == block
    ensures DropBlockComments(t) == t[..block] + DropBlockComments(AfterComment(t, block))
  {
  }

  lemma {:induction false} CutBehind(s: string)
    requires var line, block := Find(s, '/', '/'), Find(s, '/', '*'); block < line && CommentEnd(s, block) <= line
    ensures var block := Find(s, '/', '*'); Cleaned(s) == s[..block] + Cleaned(AfterComment(s, block))
  {
    var line, block := Find(s, '/', '/'), Find(s, '/', '*');
    BlockThenLine(s);
    FindInPrefix(s, '/', '*', line);
    SameCut(s, block, line);
    DropFirst(s[..line], block);
    assert s[..line][..block] == s[..block];
  }

  lemma {:induction false} CleanedParts(s: string)
    ensures !Hidden(s) ==> Cleaned(s) == Uncommented(s)
    ensures Hidden(s) ==> Cleaned(s) == Before(s) && Uncommented(s) == Before(s) + Uncommented(Behind(s))
    decreases |s|
  {
    var line, block := Find(s, '/', '/'), Find(s, '/', '*');
    if line <= block {
      CutFirst(s);
    } else if line < CommentEnd(s, block) {
      CutInside(s);
    } else {
      var rest := AfterComment(s, block);
      CutBehind(s);
      CleanedParts(rest);
      if Hidden(rest) {
        Associate(s[..block], Before(rest), Uncommented(Behind(rest)));
      }
    }
  }

  /** Where the two ways of removing comments meet: exactly when the first `//` is not hidden in a block
      comment, or only comments follow that block comment. */
  lemma {:induction false} CleanedExactly(s: string)
    ensures Cleaned(s) == Uncommented(s) <==> !Hidden(s) || Uncommented(Behind(s)) == ""
  {
    CleanedParts(s);
    if Hidden(s) {
      assert |Before(s) + Uncommented(Behind(s))| == |Before(s)| + |Uncommented(Behind(s))|;
      assert Before(s) + "" == Before(s);
    }
  }

  // ----- a comment that hides a line comment -----

  lemma {:induction false} FindBehind(pre: string, t: string, x: char, y: char)
    requires x !in pre
    ensures Find(pre + t, x, y) == |pre| + Find(t, x, y)
  {
    if pre == "" {
      assert pre + t == t;
    } else {
      assert (pre + t)[1..] == pre[1..] + t && pre[0] in pre;
      FindBehind(pre[1..], t, x, y);
    }
  }

  lemma {:induction false} NothingToFind(s: string, y: char)
    requires '/' !in s
    ensures Find(s, '/', y) == |s|
  {
    if |s| >= 2 {
      assert s[0] in s;
      NothingToFind(s[1..], y);
    }
  }

  lemma {:induction false} FindLater(s: string, x: char, y: char, i: nat)
    requires |s| >= 2 && !(s[0] == x && s[1] == y) && Find(s[1..], x, y) == i
    ensures Find(s, x, y) == i + 1
  {
  }

  lemma {:induction false} MarkFinds(mark: string, post: string, t: string)
    requires mark == "/*//*/" && t == mark + post
    ensures Find(t, '/', '*') == 0 && Find(t, '/', '/') == 2
    ensures Find(t[2..], '*', '/') == 2 && t[2..][4..] == post
  {
    assert t[0] == '/' && t[1] == '*' && t[2] == '/' && t[3] == '/' && t[4] == '*' && t[5] == '/';
    var u, v, w := t[1..], t[2..], t[3..];
    assert u[1..] == v && v[1..] == w && w[1..] == t[4..];
    FindLater(u, '/', '/', 0);
    FindLater(t, '/', '/', 1);
    FindLater(w, '*', '/', 0);
    FindLater(v, '*', '/', 1);
  }

  /** Between texts without slashes such a comment hides its `//`, and what is behind it is lost. */
  lemma {:induction false} HiddenBetween(pre: string, mark: string, post: string, s: string)
    requires mark == "/*//*/" && '/' !in pre && '/' !in post && s == pre + (mark + post)
    ensures Hidden(s) && Before(s) == pre && Uncommented(Behind(s)) == post
    ensures Uncommented(s) == pre + post && Cleaned(s) == pre
  {
    var t := mark + post;
    MarkFinds(mark, post, t);
    FindBehind(pre, t, '/', '*');
    FindBehind(pre, t, '/', '/');
    assert s[|pre| + 2..] == t[2..] && s[..|pre|] == pre;
    NothingToFind(post, '/');
    NothingToFind(post, '*');
    CleanedParts(s);
  }
}
