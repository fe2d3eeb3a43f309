/** The tokens of a function do not depend on names or comments (code-graph/src/fingerprint.rs): trees of
the same shape give the same tokens. */
module Shape {
  import opened WordRuns
  import opened SyntaxTree
  import opened Fingerprint

  /** A comment between the children of a node. */
  predicate Silent(t: Node, k: Kinds) {
    t.named && ClassOf(t, k) == Comment && t.field == Unasked
  }

  /** Same shape: equal but for the text of identifiers and literals of one class, for comments, for lines
      and byte ranges, and for what is inside the callee of a call apart from the name that is called. */
  ghost predicate Alike(t: Node, u: Node, k: Kinds)
    decreases t, |t.children| + |u.children| + 1
  {
    && t.named == u.named
    && (t.named ==>
          && ClassOf(t, k) == ClassOf(u, k)
          && (ClassOf(t, k) != Comment ==> t.kind == u.kind && (Inner(ClassOf(t, k)) ==> AlikeFrom(t, 0, u, 0, k))))
  }

  /** The children from i on in t and from j on in u correspond, comments left out. */
  ghost predicate AlikeFrom(t: Node, i: nat, u: Node, j: nat, k: Kinds)
    requires i <= |t.children| && j <= |u.children|
    decreases t, |t.children| - i + |u.children| - j
  {
    if i < |t.children| && Silent(t.children[i], k) then AlikeFrom(t, i + 1, u, j, k)
    else if j < |u.children| && Silent(u.children[j], k) then AlikeFrom(t, i, u, j + 1, k)
    else if i == |t.children| || j == |u.children| then i == |t.children| && j == |u.children|
    else
      && SameRole(t, i, u, j, k)
      && (Entered(t, i, ClassOf(t, k)) ==> Alike(t.children[i], u.children[j], k))
      && AlikeFrom(t, i + 1, u, j + 1, k)
  }

  /** Corresponding children have the same field; punctuation and operators are the same; in a call, callee
      corresponds to callee, and both call the same name. */
  ghost predicate SameRole(t: Node, i: nat, u: Node, j: nat, k: Kinds)
    requires i < |t.children| && j < |u.children|
  {
    var c, d := t.children[i], u.children[j];
    && c.named == d.named && c.field == d.field
    && (!c.named || c.field == Operator ==> c.text == d.text)
    && (ClassOf(t, k) == Call ==>
          && Skipped(t, i) == Skipped(u, j)
          && (c.field == Function || c.field == Name ==> LastIdent(c.text) == LastIdent(d.text)))
  }

  // ----- operators and callees -----

  lemma {:induction false} SamePunctuation(t: Node, i: nat, u: Node, j: nat, k: Kinds)
    requires i <= |t.children| && j <= |u.children| && AlikeFrom(t, i, u, j, k)
    ensures Punctuation(t, i) == Punctuation(u, j)
    decreases |t.children| - i + |u.children| - j
  {
    if i < |t.children| && Silent(t.children[i], k) {
      SamePunctuation(t, i + 1, u, j, k);
    } else if j < |u.children| && Silent(u.children[j], k) {
      SamePunctuation(t, i, u, j + 1, k);
    } else if i < |t.children| && j < |u.children| {
      SamePunctuation(t, i + 1, u, j + 1, k);
    }
  }

  ghost predicate SameField(a: Option<Node>, b: Option<Node>, f: Field, call: bool) {
    && a.Some? == b.Some?
    && (a.Some? && f == Operator ==> a.value.text == b.value.text)
    && (a.Some? && call && (f == Function || f == Name) ==> LastIdent(a.value.text) == LastIdent(b.value.text))
  }

  lemma {:induction false} FieldsAgree(t: Node, i: nat, u: Node, j: nat, k: Kinds, f: Field)
    requires i <= |t.children| && j <= |u.children| && AlikeFrom(t, i, u, j, k) && f != Unasked
    ensures SameField(FieldFrom(t, i, f), FieldFrom(u, j, f), f, ClassOf(t, k) == Call)
    decreases |t.children| - i + |u.children| - j
  {
    if i < |t.children| && Silent(t.children[i], k) {
      FieldsAgree(t, i + 1, u, j, k, f);
    } else if j < |u.children| && Silent(u.children[j], k) {
      FieldsAgree(t, i, u, j + 1, k, f);
    } else if i < |t.children| && j < |u.children| {
      FieldsAgree(t, i + 1, u, j + 1, k, f);
      SameRoleAgrees(t, i, u, j, k, f);
    }
  }

  lemma {:induction false} SameRoleAgrees(t: Node, i: nat, u: Node, j: nat, k: Kinds, f: Field)
    requires i < |t.children| && j < |u.children| && SameRole(t, i, u, j, k)
    requires SameField(FieldFrom(t, i + 1, f), FieldFrom(u, j + 1, f), f, ClassOf(t, k) == Call)
    ensures SameField(FieldFrom(t, i, f), FieldFrom(u, j, f), f, ClassOf(t, k) == Call)
  {
  }

  lemma {:induction false} SameOwnToken(t: Node, u: Node, k: Kinds)
    requires t.named && Alike(t, u, k) && ClassOf(t, k) != Comment
    ensures TokenOf(OwnEvent(t, k)) == TokenOf(OwnEvent(u, k))
  {
    if ClassOf(t, k) == Op {
      FieldsAgree(t, 0, u, 0, k, Operator);
      SamePunctuation(t, 0, u, 0, k);
    } else if ClassOf(t, k) == Call {
      FieldsAgree(t, 0, u, 0, k, Function);
      FieldsAgree(t, 0, u, 0, k, Name);
    }
  }

  // ----- tokens -----

  function Tokens(events: seq<Event>): seq<string> {
    if events == [] then [] else Tokens(events[..|events| - 1]) + TokenOf(events[|events| - 1])
  }

  lemma {:induction false} TokensJoin(a: seq<Event>, b: seq<Event>)
    ensures Tokens(a + b) == Tokens(a) + Tokens(b)
  {
    if b == [] {
      assert a + b == a;
    } else {
      var front, last := b[..|b| - 1], b[|b| - 1];
      assert (a + b)[..|a + b| - 1] == a + front && (a + b)[|a + b| - 1] == last;
      TokensJoin(a, front);
      assert Tokens(a + b) == Tokens(a + front) + TokenOf(last);
    }
  }

  lemma {:induction false} TokensOfOne(e: Event)
    ensures Tokens([e]) == TokenOf(e)
  {
    assert [e][..0] == [];
  }

  lemma {:induction false} RecordedTokens(events: seq<Event>)
    ensures RecordAll(NOTHING, events).tokens == Tokens(events)
  {
    if events != [] {
      RecordedTokens(events[..|events| - 1]);
    }
  }

  lemma {:induction false} GuardsGiveNoTokens(t: Node, k: Kinds)
    ensures Tokens(GuardOf(t, k)) == []
  {
    if GuardOf(t, k) != [] {
      TokensOfOne(GuardOf(t, k)[0]);
    }
  }

  lemma {:induction false} TokensOfNode(t: Node, k: Kinds)
    requires t.named && ClassOf(t, k) != Comment
    ensures Tokens(Events(t, k)) ==
            TokenOf(OwnEvent(t, k)) + if Inner(ClassOf(t, k)) then Tokens(EventsFrom(t, 0, k)) else []
  {
    GuardsGiveNoTokens(t, k);
    TokensOfOne(OwnEvent(t, k));
    TokensJoin(GuardOf(t, k), [OwnEvent(t, k)]);
    TokensJoin(GuardOf(t, k) + [OwnEvent(t, k)], if Inner(ClassOf(t, k)) then EventsFrom(t, 0, k) else []);
  }

  function ChildTokens(t: Node, i: nat, k: Kinds): seq<string>
    requires i < |t.children|
  {
    if Entered(t, i, ClassOf(t, k)) then Tokens(Events(t.children[i], k)) else []
  }

  lemma {:induction false} TokensOfChild(t: Node, i: nat, k: Kinds)
    requires i < |t.children|
    ensures Tokens(EventsFrom(t, i, k)) == ChildTokens(t, i, k) + Tokens(EventsFrom(t, i + 1, k))
  {
    var rest := EventsFrom(t, i + 1, k);
    if Entered(t, i, ClassOf(t, k)) {
      TokensJoin(Events(t.children[i], k), rest);
    } else {
      assert EventsFrom(t, i, k) == rest;
    }
  }

  lemma {:induction false} SilentTokens(t: Node, i: nat, k: Kinds)
    requires i < |t.children| && Silent(t.children[i], k)
    ensures EventsFrom(t, i, k) == EventsFrom(t, i + 1, k)
  {
    assert Events(t.children[i], k) == [];
    assert [] + EventsFrom(t, i + 1, k) == EventsFrom(t, i + 1, k);
  }

  /** Renaming identifiers and adding or removing comments outside callees changes no token. */
  lemma {:induction false} AlikeTokens(t: Node, u: Node, k: Kinds)
    requires Alike(t, u, k)
    ensures Tokens(Events(t, k)) == Tokens(Events(u, k))
    decreases t, |t.children| + |u.children| + 1
  {
    if t.named && ClassOf(t, k) != Comment {
      TokensOfNode(t, k);
      TokensOfNode(u, k);
      SameOwnToken(t, u, k);
      if Inner(ClassOf(t, k)) {
        AlikeTokensFrom(t, 0, u, 0, k);
      }
    }
  }

  lemma {:induction false} AlikeTokensFrom(t: Node, i: nat, u: Node, j: nat, k: Kinds)
    requires i <= |t.children| && j <= |u.children| && ClassOf(t, k) == ClassOf(u, k) && AlikeFrom(t, i, u, j, k)
    ensures Tokens(EventsFrom(t, i, k)) == Tokens(EventsFrom(u, j, k))
    decreases t, |t.children| - i + |u.children| - j
  {
    if i < |t.children| && Silent(t.children[i], k) {
      SilentTokens(t, i, k);
      AlikeTokensFrom(t, i + 1, u, j, k);
    } else if j < |u.children| && Silent(u.children[j], k) {
      SilentTokens(u, j, k);
      AlikeTokensFrom(t, i, u, j + 1, k);
    } else if i < |t.children| && j < |u.children| {
      TokensOfChild(t, i, k);
      TokensOfChild(u, j, k);
      AlikeTokensFrom(t, i + 1, u, j + 1, k);
      if Entered(t, i, ClassOf(t, k)) {
        AlikeTokens(t.children[i], u.children[j], k);
      }
    }
  }

  // ----- trees without comments -----

  function Bare(t: Node, k: Kinds): Node
    decreases t, |t.children| + 1
  {
    t.(children := BareFrom(t, 0, k))
  }

  function BareFrom(t: Node, i: nat, k: Kinds): seq<Node>
    requires i <= |t.children|
    decreases t, |t.children| - i
  {
    if i == |t.children| then []
    else if Silent(t.children[i], k) then BareFrom(t, i + 1, k)
    else [Bare(t.children[i], k)] + BareFrom(t, i + 1, k)
  }

  function BareOption(c: Option<Node>, k: Kinds): Option<Node> {
    if c.Some? then Some(Bare(c.value, k)) else None
  }

  /** A field leads to the same child without its comments. */
  lemma {:induction false} BareFields(t: Node, i: nat, u: Node, j: nat, k: Kinds, f: Field)
    requires i <= |t.children| && j <= |u.children| && u.children[j..] == BareFrom(t, i, k) && f != Unasked
    ensures FieldFrom(u, j, f) == BareOption(FieldFrom(t, i, f), k)
    decreases |t.children| - i
  {
    if i < |t.children| {
      if Silent(t.children[i], k) {
        BareFields(t, i + 1, u, j, k, f);
      } else {
        assert u.children[j] == u.children[j..][0] == Bare(t.children[i], k);
        assert u.children[j..][1..] == u.children[j + 1..];
        BareFields(t, i + 1, u, j + 1, k, f);
      }
    }
  }

  lemma {:induction false} BareSkips(t: Node, k: Kinds)
    ensures Skips(Bare(t, k)) == Skips(t)
  {
    BareChild(t, k, Function);
    BareChild(t, k, Name);
    BareChild(t, k, Object);
  }

  lemma {:induction false} BareChild(t: Node, k: Kinds, f: Field)
    requires f != Unasked
    ensures Child(Bare(t, k), f) == BareOption(Child(t, f), k)
  {
    var u := Bare(t, k);
    assert u.children[0..] == BareFrom(t, 0, k);
    BareFields(t, 0, u, 0, k, f);
  }

  /** Taking all comments away keeps the shape. */
  lemma {:induction false} BareAlike(t: Node, k: Kinds)
    ensures Alike(t, Bare(t, k), k)
    decreases t, |t.children| + 1
  {
    var u := Bare(t, k);
    assert u.children[0..] == BareFrom(t, 0, k);
    BareAlikeFrom(t, 0, u, 0, k);
  }

  lemma {:induction false} BareAlikeFrom(t: Node, i: nat, u: Node, j: nat, k: Kinds)
    requires u == Bare(t, k) && i <= |t.children| && j <= |u.children| && u.children[j..] == BareFrom(t, i, k)
    ensures AlikeFrom(t, i, u, j, k)
    decreases t, |t.children| - i
  {
    if i < |t.children| {
      if Silent(t.children[i], k) {
        BareAlikeFrom(t, i + 1, u, j, k);
      } else {
        assert u.children[j] == u.children[j..][0] == Bare(t.children[i], k);
        assert u.children[j..][1..] == u.children[j + 1..];
        BareSkips(t, k);
        BareAlike(t.children[i], k);
        BareAlikeFrom(t, i + 1, u, j + 1, k);
      }
    } else {
      assert u.children[j..] == [];
    }
  }

  // ----- the same tree with other names, at other places -----

  /** Equal but for the text of identifiers, literals within their class, what inner nodes span, and all lines
      and byte ranges; punctuation, operators and what is called stay, and callees stay callees. */
  ghost predicate SameButNames(t: Node, u: Node, k: Kinds)
    decreases t, 1
  {
    && t.kind == u.kind && t.named == u.named && |t.children| == |u.children|
    && (t.named ==> ClassOf(t, k) == ClassOf(u, k))
    && forall i :: 0 <= i < |t.children| ==> SameChild(t, i, u, k)
  }

  ghost predicate SameChild(t: Node, i: nat, u: Node, k: Kinds)
    requires i < |t.children| && i < |u.children|
    decreases t, 0
  {
    var c, d := t.children[i], u.children[i];
    && c.named == d.named && c.field == d.field && (c.named ==> ClassOf(c, k) == ClassOf(d, k))
    && (!c.named || c.field == Operator ==> c.text == d.text)
    && (t.named && ClassOf(t, k) == Call ==>
          && Skipped(t, i) == Skipped(u, i)
          && (c.field == Function || c.field == Name ==> LastIdent(c.text) == LastIdent(d.text)))
    && ((t.named && ClassOf(t, k) == Call && Skipped(t, i)) || SameButNames(c, d, k))
  }

  /** Trees that are the same but for names have the same shape. */
  lemma {:induction false} NamesKeepShape(t: Node, u: Node, k: Kinds)
    requires SameButNames(t, u, k)
    ensures Alike(t, u, k)
    decreases t, |t.children| + 1
  {
    if t.named && Inner(ClassOf(t, k)) {
      NamesKeepShapeFrom(t, 0, u, k);
    }
  }

  lemma {:induction false} NamesKeepShapeFrom(t: Node, i: nat, u: Node, k: Kinds)
    requires SameButNames(t, u, k) && t.named && i <= |t.children|
    ensures AlikeFrom(t, i, u, i, k)
    decreases t, |t.children| - i
  {
    if i < |t.children| {
      var c, d := t.children[i], u.children[i];
      assert SameChild(t, i, u, k) && Silent(c, k) == Silent(d, k);
      NamesKeepShapeFrom(t, i + 1, u, k);
      if Silent(c, k) {
        SkipRight(t, i + 1, u, i, k);
      } else if Entered(t, i, ClassOf(t, k)) {
        NamesKeepShape(c, d, k);
      }
    }
  }

  /** A comment on the right can be passed at any time. */
  lemma {:induction false} SkipRight(t: Node, i: nat, u: Node, j: nat, k: Kinds)
    requires i <= |t.children| && j < |u.children| && Silent(u.children[j], k)
    ensures AlikeFrom(t, i, u, j, k) == AlikeFrom(t, i, u, j + 1, k)
    decreases |t.children| - i
  {
    if i < |t.children| && Silent(t.children[i], k) {
      SkipRight(t, i + 1, u, j, k);
    }
  }

  /** Renaming identifiers throughout a tree, adding and removing comments anywhere outside callees, and the
      moves of all lines and byte ranges that come with it, change no token. */
  lemma {:induction false} NamesAndCommentsGiveNoTokens(t: Node, u: Node, k: Kinds)
    requires SameButNames(Bare(t, k), Bare(u, k), k)
    ensures Tokens(Events(t, k)) == Tokens(Events(u, k))
  {
    BareAlike(t, k);
    BareAlike(u, k);
    NamesKeepShape(Bare(t, k), Bare(u, k), k);
    AlikeTokens(t, Bare(t, k), k);
    AlikeTokens(u, Bare(u, k), k);
    AlikeTokens(Bare(t, k), Bare(u, k), k);
  }

  // ----- places -----

  /** The tree without lines and byte ranges. */
  function Unplaced(t: Node): Node
    decreases t, |t.children| + 1
  {
    t.(line := 0, endLine := 0, start := 0, end := 0, children := UnplacedFrom(t, 0))
  }

  function UnplacedFrom(t: Node, i: nat): (children: seq<Node>)
    requires i <= |t.children|
    ensures |children| == |t.children| - i
    ensures forall x :: 0 <= x < |children| ==> children[x] == Unplaced(t.children[i + x])
    decreases t, |t.children| - i
  {
    if i == |t.children| then [] else [Unplaced(t.children[i])] + UnplacedFrom(t, i + 1)
  }

  /** The children of every node have byte ranges of their own. */
  ghost predicate OwnRanges(t: Node) {
    && (forall i, j :: 0 <= i < j < |t.children| ==>
          t.children[i].start != t.children[j].start || t.children[i].end != t.children[j].end)
    && forall c :: c in t.children ==> OwnRanges(c)
  }

  /** The first child with a callee field. */
  predicate InCallee(t: Node, i: nat)
    requires i < |t.children|
  {
    var f := t.children[i].field;
    (f == Function || f == Name || f == Object) && forall j :: 0 <= j < i ==> t.children[j].field != f
  }

  lemma {:induction false} FieldIsFirst(t: Node, i: nat, f: Field) returns (p: nat)
    requires i <= |t.children|
    ensures i <= p <= |t.children| && forall j :: i <= j < p ==> t.children[j].field != f
    ensures FieldFrom(t, i, f) == if p < |t.children| then Some(t.children[p]) else None
    ensures p < |t.children| ==> t.children[p].field == f
    decreases |t.children| - i
  {
    if i == |t.children| || t.children[i].field == f {
      p := i;
    } else {
      p := FieldIsFirst(t, i + 1, f);
    }
  }

  /** With ranges of their own, exactly the callee children are skipped, wherever they stand. */
  lemma {:induction false} SkippedIsCallee(t: Node, i: nat)
    requires OwnRanges(t) && i < |t.children|
    ensures Skipped(t, i) <==> InCallee(t, i)
  {
    var a := FieldIsFirst(t, 0, Function);
    var b := FieldIsFirst(t, 0, Name);
    var c := FieldIsFirst(t, 0, Object);
    var span := (t.children[i].start, t.children[i].end);
    assert Skipped(t, i) <==> span in SpanOf(Child(t, Function)) || span in SpanOf(Child(t, Name))
                              || span in SpanOf(Child(t, Object));
    assert forall p :: 0 <= p < |t.children| && t.children[p].start == span.0 && t.children[p].end == span.1 ==> p == i;
    assert span in SpanOf(Child(t, Function)) <==> i == a;
    assert span in SpanOf(Child(t, Name)) <==> i == b;
    assert span in SpanOf(Child(t, Object)) <==> i == c;
  }

  /** Moving a tree, as any edit before it does, keeps its shape. */
  lemma {:induction false} MovedIsSame(t: Node, u: Node, k: Kinds)
    requires Unplaced(t) == Unplaced(u) && OwnRanges(t) && OwnRanges(u)
    ensures SameButNames(t, u, k)
    decreases t
  {
    assert UnplacedFrom(t, 0) == UnplacedFrom(u, 0);
    forall i | 0 <= i < |t.children| ensures SameChild(t, i, u, k) {
      assert UnplacedFrom(t, 0)[i] == Unplaced(t.children[0 + i]);
      assert UnplacedFrom(u, 0)[i] == Unplaced(u.children[0 + i]);
      MovedIsSame(t.children[i], u.children[i], k);
      SkippedIsCallee(t, i);
      SkippedIsCallee(u, i);
      forall j | 0 <= j <= i ensures t.children[j].field == u.children[j].field {
        assert UnplacedFrom(t, 0)[j] == Unplaced(t.children[0 + j]);
        assert UnplacedFrom(u, 0)[j] == Unplaced(u.children[0 + j]);
      }
    }
  }

  /** Inside a callee it is different: a word of a comment at its end is taken for the name that is called. */
  lemma {:induction false} CalleeComment(callee: string, word: string)
    requires AllWord(word, IdentChar()) && word != ""
    ensures LastIdent(callee + "/*" + word + "*/") == word
  {
    LastSegment(callee, "/*", word, "*/");
  }
}
