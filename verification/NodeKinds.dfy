/** The classification of node kinds in code-graph/src/fingerprint.rs. */
module NodeKinds {
  import opened SyntaxTree
  import Condition
  import Fingerprint
  import Shape
  import Kgrams

  predicate EndsWith(s: string, suffix: string) {
    |suffix| <= |s| && s[|s| - |suffix|..] == suffix
  }

  predicate Contains(s: string, part: string) {
    exists i :: 0 <= i <= |s| - |part| && StandsAt(part, s, i)
  }

  predicate StandsAt(part: string, s: string, i: nat)
    requires i + |part| <= |s|
  {
    s[i..i + |part|] == part
  }

  predicate IsIdent(kind: string) {
    kind == "identifier" || EndsWith(kind, "_identifier")
  }

  predicate IsComment(kind: string) {
    Contains(kind, "comment")
  }

  predicate IsCall(kind: string) {
    kind == "call_expression" || kind == "call" || kind == "method_invocation"
  }

  predicate IsOp(kind: string) {
    || Contains(kind, "binary") || Contains(kind, "assign") || Contains(kind, "update")
    || kind == "comparison_operator" || kind == "boolean_operator"
  }

  const NUMBERS := [
    "number", "number_literal", "integer", "float", "integer_literal", "float_literal", "int_literal",
    "decimal_integer_literal", "hex_integer_literal", "octal_integer_literal", "binary_integer_literal",
    "decimal_floating_point_literal", "hex_floating_point_literal"]

  const STRINGS := [
    "string", "string_literal", "raw_string_literal", "interpreted_string_literal", "char_literal",
    "character_literal", "rune_literal", "string_fragment"]

  datatype Opening = Digit | Quote | Neither

  /** What the first character that is not white space says. */
  function OpeningOf(text: string): Opening {
    var t := Condition.TrimStart(text);
    if t == "" then Neither
    else if '0' <= t[0] <= '9' then Digit
    else if t[0] == '"' || t[0] == '\'' || t[0] == '`' then Quote
    else Neither
  }

  predicate IsNum(kind: string, text: string) {
    kind in NUMBERS || (EndsWith(kind, "_literal") && OpeningOf(text) == Digit)
  }

  predicate IsStr(kind: string, text: string) {
    kind in STRINGS || Contains(kind, "string") || (EndsWith(kind, "_literal") && OpeningOf(text) == Quote)
  }

  function Classify(kind: string, text: string): Class {
    if IsComment(kind) then Comment
    else if IsCall(kind) then Call
    else if IsIdent(kind) then Ident
    else if IsNum(kind, text) then Num
    else if IsStr(kind, text) then Str
    else if IsOp(kind) then Op
    else Other
  }

  function GuardKind(kind: string): Option<string> {
    if kind == "if_statement" || kind == "if_expression" then Some("if")
    else if kind == "while_statement" || kind == "while_expression" then Some("while")
    else if kind == "for_statement" || kind == "for_expression" || kind == "enhanced_for_statement" then Some("for")
    else if kind == "do_statement" then Some("do")
    else if kind == "conditional_expression" || kind == "ternary_expression" then Some("ternary")
    else if kind == "match_expression" then Some("match")
    else None
  }

  function FallbackKind(kind: string): Fallback {
    if kind == "match_expression" || kind == "for_expression" then InValue
    else if kind == "for_statement" || kind == "enhanced_for_statement" then InRange
    else if kind == "conditional_expression" || kind == "ternary_expression" then SecondNamed
    else Nowhere
  }

  function AllKinds(): Kinds {
    Kinds(Classify, GuardKind, FallbackKind, (kind: string) => kind == "for_clause")
  }

  /** The class of a node does not change with its text if the kind decides it or the text opens alike. */
  lemma {:induction false} SameClass(kind: string, a: string, b: string)
    requires IsComment(kind) || IsCall(kind) || IsIdent(kind) || OpeningOf(a) == OpeningOf(b)
    ensures Classify(kind, a) == Classify(kind, b)
  {
  }

  // ----- edits of the names -----

  /** The texts of two nodes of this kind may differ so. */
  predicate MayRead(kind: string, a: string, b: string) {
    IsComment(kind) || IsCall(kind) || IsIdent(kind) || OpeningOf(a) == OpeningOf(b)
  }

  /** The tree with other identifiers, with other text in literals of the same opening, and with other lines and
      byte ranges; punctuation, operators and what is called stay, and callees stay callees. */
  ghost predicate Reworded(t: Node, u: Node)
    decreases t, 1
  {
    && t.kind == u.kind && t.named == u.named && |t.children| == |u.children|
    && (t.named ==> MayRead(t.kind, t.text, u.text))
    && forall i :: 0 <= i < |t.children| ==> RewordedChild(t, i, u)
  }

  ghost predicate RewordedChild(t: Node, i: nat, u: Node)
    requires i < |t.children| && i < |u.children|
    decreases t, 0
  {
    var c, d := t.children[i], u.children[i];
    && c.kind == d.kind && c.named == d.named && c.field == d.field
    && (c.named ==> MayRead(c.kind, c.text, d.text))
    && (!c.named || c.field == Operator ==> c.text == d.text)
    && (t.named && Classify(t.kind, t.text) == Call ==>
          && Skipped(t, i) == Skipped(u, i)
          && (c.field == Function || c.field == Name ==> LastIdent(c.text) == LastIdent(d.text)))
    && ((t.named && Classify(t.kind, t.text) == Call && Skipped(t, i)) || Reworded(c, d))
  }

  lemma {:induction false} RewordedIsSame(t: Node, u: Node)
    requires Reworded(t, u)
    ensures Shape.SameButNames(t, u, AllKinds())
    decreases t
  {
    if t.named {
      SameClass(t.kind, t.text, u.text);
    }
    forall i | 0 <= i < |t.children| ensures Shape.SameChild(t, i, u, AllKinds()) {
      var c, d := t.children[i], u.children[i];
      assert RewordedChild(t, i, u);
      if c.named {
        SameClass(c.kind, c.text, d.text);
      }
      if !(t.named && Classify(t.kind, t.text) == Call && Skipped(t, i)) {
        RewordedIsSame(c, d);
      }
    }
  }

  lemma {:induction false} RewordedSelf(t: Node)
    ensures Reworded(t, t)
    decreases t
  {
    forall i | 0 <= i < |t.children| ensures RewordedChild(t, i, t) {
      RewordedSelf(t.children[i]);
    }
  }

  // ----- renaming a whole tree -----

  type Renaming = string -> string

  /** Children a renaming leaves alone: operators, and what a call calls. */
  predicate LeftAlone(t: Node, i: nat)
    requires i < |t.children|
  {
    var f := t.children[i].field;
    f == Operator || (t.named && Classify(t.kind, t.text) == Call && (Skipped(t, i) || f == Function || f == Name))
  }

  function RenameAll(t: Node, rename: Renaming): Node
    decreases t, |t.children| + 1
  {
    var text := if t.named && Classify(t.kind, t.text) == Ident then rename(t.text) else t.text;
    t.(text := text, children := RenameFrom(t, 0, rename))
  }

  function RenameFrom(t: Node, i: nat, rename: Renaming): (children: seq<Node>)
    requires i <= |t.children|
    ensures |children| == |t.children| - i
    ensures forall x :: 0 <= x < |children| ==>
              children[x] == if LeftAlone(t, i + x) then t.children[i + x] else RenameAll(t.children[i + x], rename)
    decreases t, |t.children| - i
  {
    if i == |t.children| then []
    else [if LeftAlone(t, i) then t.children[i] else RenameAll(t.children[i], rename)] + RenameFrom(t, i + 1, rename)
  }

  lemma {:induction false} SpansKept(t: Node, u: Node, i: nat, f: Field)
    requires |t.children| == |u.children| && i <= |t.children|
    requires forall x :: 0 <= x < |t.children| ==>
               t.children[x].field == u.children[x].field && t.children[x].start == u.children[x].start
               && t.children[x].end == u.children[x].end
    ensures SpanOf(FieldFrom(t, i, f)) == SpanOf(FieldFrom(u, i, f))
    decreases |t.children| - i
  {
    if i < |t.children| {
      SpansKept(t, u, i + 1, f);
    }
  }

  /** Renaming all identifiers of a tree outside its callees is such an edit. */
  lemma {:induction false} RenamingRewords(t: Node, rename: Renaming)
    ensures Reworded(t, RenameAll(t, rename))
    decreases t
  {
    var u := RenameAll(t, rename);
    assert u.children == RenameFrom(t, 0, rename);
    forall x | 0 <= x < |t.children|
      ensures u.children[x] == if LeftAlone(t, x) then t.children[x] else RenameAll(t.children[x], rename)
    {
      assert u.children[x] == RenameFrom(t, 0, rename)[x];
      assert 0 + x == x;
    }
    SpansKept(t, u, 0, Function);
    SpansKept(t, u, 0, Name);
    SpansKept(t, u, 0, Object);
    forall i | 0 <= i < |t.children| ensures RewordedChild(t, i, u) {
      if LeftAlone(t, i) {
        RewordedSelf(t.children[i]);
      } else {
        RenamingRewords(t.children[i], rename);
      }
    }
  }

  /** With the shipped classes: renaming identifiers all over a function, and adding and removing comments
      outside callees, leaves its k-grams and its minhash as they are. */
  lemma {:induction false} NamesAndCommentsDoNotCount(t: Node, u: Node, hash: Kgrams.Hash, digest: Kgrams.Digest,
                                                      a: Kgrams.FunctionFingerprint, b: Kgrams.FunctionFingerprint)
    requires Reworded(Shape.Bare(t, AllKinds()), Shape.Bare(u, AllKinds())) && Kgrams.Fits(digest)
    requires Kgrams.IsFingerprint(a, t, AllKinds(), hash, digest)
    requires Kgrams.IsFingerprint(b, u, AllKinds(), hash, digest)
    ensures a.kgrams == b.kgrams && a.minhash == b.minhash
  {
    RewordedIsSame(Shape.Bare(t, AllKinds()), Shape.Bare(u, AllKinds()));
    Shape.NamesAndCommentsGiveNoTokens(t, u, AllKinds());
    Kgrams.TokensFixHashes(t, u, AllKinds(), hash, digest, a, b);
  }

  /** With these classes, identifier tokens and line entries, and call tokens and calls, go together. */
  lemma {:induction false} FunctionsAreConsistent(t: Node)
    requires Fingerprint.GrammarKinds(t)
    ensures var s := Fingerprint.RecordAll(Fingerprint.NOTHING, Events(t, AllKinds()));
            && Fingerprint.Occurrences(s.tokens, Fingerprint.ID) == |Fingerprint.Entries(s.vars)|
            && Fingerprint.CallTokens(s.tokens) == Fingerprint.CallNames(s.calls)
  {
    forall text ensures AllKinds().classOf("call", text) == Call {
      assert !IsComment("call");
    }
    Fingerprint.WalkIsConsistent(t, AllKinds());
  }
}
