/** The classification of node kinds in code-graph/src/fingerprint.rs as a table. */
module KindTable {
  import opened SyntaxTree
  import opened NodeKinds
  import Condition

  // ----- words in kinds -----

  ghost predicate Holds(kind: string, word: string) {
    exists front, back :: kind == front + word + back
  }

  ghost predicate Ends(kind: string, word: string) {
    exists front :: kind == front + word
  }

  /** The first character that is no blank. */
  ghost predicate StartsWith(text: string, c: char) {
    exists blanks, rest :: Begins(text, blanks, c, rest)
  }

  ghost predicate Begins(text: string, blanks: string, c: char, rest: string) {
    Condition.White(blanks) && !Condition.IsWhite(c) && text == blanks + ([c] + rest)
  }

  // ----- the table -----

  predicate NumberKind(kind: string) {
    match kind
    case "number" => true
    case "number_literal" => true
    case "integer" => true
    case "float" => true
    case "integer_literal" => true
    case "float_literal" => true
    case "int_literal" => true
    case "decimal_integer_literal" => true
    case "hex_integer_literal" => true
    case "octal_integer_literal" => true
    case "binary_integer_literal" => true
    case "decimal_floating_point_literal" => true
    case "hex_floating_point_literal" => true
    case _ => false
  }

  predicate CharacterKind(kind: string) {
    match kind
    case "char_literal" => true
    case "character_literal" => true
    case "rune_literal" => true
    case _ => false
  }

  predicate CallKind(kind: string) {
    match kind
    case "call" => true
    case "call_expression" => true
    case "method_invocation" => true
    case _ => false
  }

  ghost predicate OperatorKind(kind: string) {
    || Holds(kind, "assign") || Holds(kind, "binary") || Holds(kind, "update")
    || kind == "boolean_operator" || kind == "comparison_operator"
  }

  ghost predicate DigitFirst(text: string) {
    exists c :: '0' <= c <= '9' && StartsWith(text, c)
  }

  ghost predicate QuoteFirst(text: string) {
    StartsWith(text, '`') || StartsWith(text, '\'') || StartsWith(text, '"')
  }

  /** The class by the first line of the table that fits. */
  ghost function TableClass(kind: string, text: string): Class {
    if Holds(kind, "comment") then Comment
    else if CallKind(kind) then Call
    else if kind == "identifier" || Ends(kind, "_identifier") then Ident
    else if NumberKind(kind) || (Ends(kind, "_literal") && DigitFirst(text)) then Num
    else if Holds(kind, "string") || CharacterKind(kind) || (Ends(kind, "_literal") && QuoteFirst(text)) then Str
    else if OperatorKind(kind) then Op
    else Other
  }

  function TableGuard(kind: string): Option<string> {
    match kind
    case "if_statement" => Some("if")
    case "if_expression" => Some("if")
    case "while_statement" => Some("while")
    case "while_expression" => Some("while")
    case "for_statement" => Some("for")
    case "for_expression" => Some("for")
    case "enhanced_for_statement" => Some("for")
    case "do_statement" => Some("do")
    case "conditional_expression" => Some("ternary")
    case "ternary_expression" => Some("ternary")
    case "match_expression" => Some("match")
    case _ => None
  }

  function TableFallback(kind: string): Fallback {
    match kind
    case "match_expression" => InValue
    case "for_expression" => InValue
    case "for_statement" => InRange
    case "enhanced_for_statement" => InRange
    case "conditional_expression" => SecondNamed
    case "ternary_expression" => SecondNamed
    case _ => Nowhere
  }

  // ----- the program agrees with it -----

  lemma {:induction false} HoldsExactly(kind: string, word: string)
    ensures Holds(kind, word) <==> Contains(kind, word)
  {
    if Contains(kind, word) {
      var i :| 0 <= i <= |kind| - |word| && StandsAt(word, kind, i);
      assert kind == kind[..i] + word + kind[i + |word|..];
    }
    forall front, back | kind == front + word + back ensures Contains(kind, word) {
      assert StandsAt(word, kind, |front|);
    }
  }

  lemma {:induction false} EndsExactly(kind: string, word: string)
    ensures Ends(kind, word) <==> EndsWith(kind, word)
  {
    if EndsWith(kind, word) {
      assert kind == kind[..|kind| - |word|] + word;
    }
  }

  lemma {:induction false} StartsExactly(text: string, c: char)
    ensures StartsWith(text, c) <==>
            var t := Condition.TrimStart(text); t != "" && t[0] == c && !Condition.IsWhite(c)
  {
    Condition.TrimStartSplits(text);
    var t := Condition.TrimStart(text);
    if t != "" && t[0] == c && !Condition.IsWhite(c) {
      assert t == [c] + t[1..] && text == text[..|text| - |t|] + t;
      assert Begins(text, text[..|text| - |t|], c, t[1..]);
    }
    forall blanks, rest | Begins(text, blanks, c, rest) ensures t != "" && t[0] == c {
      Condition.TrimStartAround(blanks, [c] + rest);
    }
  }

  lemma {:induction false} OpeningExactly(text: string)
    ensures DigitFirst(text) <==> OpeningOf(text) == Digit
    ensures QuoteFirst(text) <==> OpeningOf(text) == Quote
  {
    forall c ensures StartsWith(text, c) <==>
                     var t := Condition.TrimStart(text); t != "" && t[0] == c && !Condition.IsWhite(c)
    {
      StartsExactly(text, c);
    }
    var t := Condition.TrimStart(text);
    if t != "" && '0' <= t[0] <= '9' {
      assert StartsWith(text, t[0]);
    }
  }

  lemma {:induction false} NumbersExactly(kind: string)
    ensures kind in NUMBERS <==> NumberKind(kind)
  {
  }

  lemma {:induction false} StringsExactly(kind: string)
    ensures kind in STRINGS || Contains(kind, "string") <==> Holds(kind, "string") || CharacterKind(kind)
  {
    HoldsExactly(kind, "string");
    if kind in STRINGS && !CharacterKind(kind) {
      StringWords(kind);
    }
  }

  lemma {:induction false} StringWords(kind: string)
    requires kind in STRINGS && !CharacterKind(kind)
    ensures Contains(kind, "string")
  {
    var i := if kind == "raw_string_literal" then 4 else if kind == "interpreted_string_literal" then 12 else 0;
    assert StandsAt("string", kind, i);
  }

  lemma {:induction false} NumExactly(kind: string, text: string)
    ensures IsNum(kind, text) <==> NumberKind(kind) || (Ends(kind, "_literal") && DigitFirst(text))
  {
    EndsExactly(kind, "_literal");
    NumbersExactly(kind);
    OpeningExactly(text);
  }

  lemma {:induction false} StrExactly(kind: string, text: string)
    ensures IsStr(kind, text) <==>
            Holds(kind, "string") || CharacterKind(kind) || (Ends(kind, "_literal") && QuoteFirst(text))
  {
    EndsExactly(kind, "_literal");
    StringsExactly(kind);
    OpeningExactly(text);
  }

  lemma {:induction false} OperatorsExactly(kind: string)
    ensures IsOp(kind) <==> OperatorKind(kind)
  {
    HoldsExactly(kind, "binary");
    HoldsExactly(kind, "assign");
    HoldsExactly(kind, "update");
  }

  lemma {:induction false} NamesExactly(kind: string)
    ensures IsComment(kind) <==> Holds(kind, "comment")
    ensures IsCall(kind) <==> CallKind(kind)
    ensures IsIdent(kind) <==> kind == "identifier" || Ends(kind, "_identifier")
  {
    HoldsExactly(kind, "comment");
    EndsExactly(kind, "_identifier");
  }

  /** Which class the lines of the table give, from what they ask. */
  function FirstOf(comment: bool, call: bool, name: bool, number: bool, text: bool, operator: bool): Class {
    if comment then Comment else if call then Call else if name then Ident else if number then Num
    else if text then Str else if operator then Op else Other
  }

  lemma {:induction false} TableLines(kind: string, text: string)
    ensures TableClass(kind, text) ==
            FirstOf(Holds(kind, "comment"), CallKind(kind), kind == "identifier" || Ends(kind, "_identifier"),
                    NumberKind(kind) || (Ends(kind, "_literal") && DigitFirst(text)),
                    Holds(kind, "string") || CharacterKind(kind) || (Ends(kind, "_literal") && QuoteFirst(text)),
                    OperatorKind(kind))
  {
  }

  lemma {:induction false} ClassifyLines(kind: string, text: string)
    ensures Classify(kind, text) ==
            FirstOf(IsComment(kind), IsCall(kind), IsIdent(kind), IsNum(kind, text), IsStr(kind, text), IsOp(kind))
  {
  }

  /** Every node gets the class of the table. */
  lemma {:induction false} ClassesExactly(kind: string, text: string)
    ensures Classify(kind, text) == TableClass(kind, text)
  {
    TableLines(kind, text);
    ClassifyLines(kind, text);
    NamesExactly(kind);
    NumExactly(kind, text);
    StrExactly(kind, text);
    OperatorsExactly(kind);
  }

  /** And every kind the guard and the place of its condition. */
  lemma {:induction false} GuardsExactly(kind: string)
    ensures AllKinds().guardOf(kind) == TableGuard(kind) && AllKinds().fallbackOf(kind) == TableFallback(kind)
    ensures AllKinds().isForClause(kind) <==> kind == "for_clause"
  {
  }
}
