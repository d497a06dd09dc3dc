/** The Dictionary declaration production:
      Dictionary of [ KeyType , ValueType ]
    and its spaced text. */
module DictionaryDeclarations {
  import opened Tokens
  import opened Listeners
  import opened TokenStreams
  import opened ParserRules
  import opened SubRules
  import opened AlParsers

  /** The name the rule is constructed with. */
  const RuleName: string := "Dictionary Declaration Rule"

  /** The steps after the keyword, in the order Parse runs them. */
  const AfterKeyword: seq<Step> := [OfKeyword, OpenBracket, KeyType, Comma, ValueType, CloseBracket]

  /** A trace message about the dictionary node itself. */
  function Msg(self: nat, event: TraceEvent): TraceMessage
  {
    TraceMessage(OnRule(self), RuleName, event)
  }

  /** Every step through ProcessRuleAndAdvance passes, then the closing bracket parses. */
  predicate AllStepsPass(o: Oracles, t: Option<Token>)
  {
    (forall i :: 0 <= i < 5 ==> Passes(o, AfterKeyword[i], t)) && o.parse(CloseBracket, t)
  }

  /** The step sequence after the keyword. Each of the first five steps
      ends the parse with false as soon as it does not pass; the closing
      bracket only clears the result. calls lists the steps run. */
  method RunSteps(o: Oracles, t: Option<Token>) returns (parsed: bool, ghost calls: seq<Step>)
    ensures 1 <= |calls| <= |AfterKeyword| && calls == AfterKeyword[..|calls|]
    ensures forall i :: 0 <= i < |calls| - 1 ==> Passes(o, calls[i], t)
    ensures |calls| < |AfterKeyword| ==> !Passes(o, calls[|calls| - 1], t) && !parsed
    ensures |calls| == |AfterKeyword| ==> parsed == o.parse(CloseBracket, t)
    ensures parsed <==> AllStepsPass(o, t)
  {
    parsed := true;
    calls := [OfKeyword];
    if !o.advance(OfKeyword, o.parse(OfKeyword, t)) {
      return false, calls;
    }
    calls := calls + [OpenBracket];
    if !o.advance(OpenBracket, o.parse(OpenBracket, t)) {
      return false, calls;
    }
    calls := calls + [KeyType];
    if !o.advance(KeyType, o.parse(KeyType, t)) {
      return false, calls;
    }
    calls := calls + [Comma];
    if !o.advance(Comma, o.parse(Comma, t)) {
      return false, calls;
    }
    calls := calls + [ValueType];
    if !o.advance(ValueType, o.parse(ValueType, t)) {
      return false, calls;
    }
    calls := calls + [CloseBracket];
    if !o.parse(CloseBracket, t) {
      parsed := false;
    }
    assert forall i :: 0 <= i < 5 ==> AfterKeyword[i] == calls[i];
  }

  /** Parse: enters, attaches the node to its parent before any check,
      runs the ignored "Dictionary" keyword check, reports the match, and
      fails if the stream cannot move; otherwise runs the steps. Exit is
      reported on every path. The stream moves exactly as TryMoveNext
      moves it. */
  method Parse(parser: AlParser, tokens: TokenStream, tree: SyntaxTree, o: Oracles, parentRule: nat, self: nat)
    returns (parsed: bool, ghost calls: seq<Step>)
    requires tokens.Valid() && tree.Valid() && parentRule < self < |tree.rules|
    modifies parser`traceLog, tokens, tree
    ensures tree.Valid() && tree.rules == Attach(old(tree.rules), parentRule, self)
    ensures parser.traceLog == old(parser.traceLog) + Broadcast(parser.traceListeners, Msg(self, Enter))
      + Broadcast(parser.traceListeners, Msg(self, Match)) + Broadcast(parser.traceListeners, Msg(self, Exit))
    ensures tokens.Valid()
    ensures tokens.position == if old(tokens.position) < |tokens.tokens| then old(tokens.position) + 1 else old(tokens.position)
    ensures tokens.position >= |tokens.tokens| ==> !parsed && calls == [DictionaryKeyword]
    ensures tokens.position < |tokens.tokens| ==> 2 <= |calls| <= 7 && calls == [DictionaryKeyword] + AfterKeyword[..|calls| - 1]
    ensures parsed <==> tokens.position < |tokens.tokens| && AllStepsPass(o, tokens.Current())
  {
    parser.GenerateTraceEvent(OnRule(self), RuleName, Enter);

    var token := tokens.Current();
    tree.AddChildNode(parentRule, self);

    // The keyword check runs, and its verdict is not used.
    var keyword := o.parse(DictionaryKeyword, token);
    calls := [DictionaryKeyword];
    parser.GenerateTraceEvent(OnRule(self), RuleName, Match);

    var moved;
    moved, token := tokens.TryMoveNext();
    if !moved {
      parsed := false;
    } else {
      ghost var steps;
      parsed, steps := RunSteps(o, token);
      calls := calls + steps;
    }

    parser.GenerateTraceEvent(OnRule(self), RuleName, Exit);
  }

  /** The spacing rule: a space goes before a child's text unless that text
      is ";", "," or "]", or the previous child's text is "[". */
  predicate NeedsSpace(prev: string, text: string)
  {
    text != ";" && text != "," && text != "]" && prev != "["
  }

  function Separator(gap: bool): string
  {
    if gap then " " else ""
  }

  /** Texts in order with a separator before each later one: one space
      where its gap is set, nothing where it is not. */
  function Weave(texts: seq<string>, gaps: seq<bool>): string
    requires |texts| > 0 && |gaps| == |texts| - 1
  {
    if |texts| == 1 then texts[0]
    else Weave(texts[..|texts| - 1], gaps[..|gaps| - 1]) + Separator(gaps[|gaps| - 1]) + texts[|texts| - 1]
  }

  /** Where the spacing rule puts a space: before text i + 1 exactly when it needs one. */
  function Gaps(texts: seq<string>): (g: seq<bool>)
    requires |texts| > 0
    ensures |g| == |texts| - 1
    ensures forall i :: 0 <= i < |g| ==> (g[i] <==> NeedsSpace(texts[i], texts[i + 1]))
  {
    seq(|texts| - 1, i requires 0 <= i < |texts| - 1 => NeedsSpace(texts[i], texts[i + 1]))
  }

  /** The dictionary's text over its children's texts: the texts so far,
      then the separator the rule asks for, then the next text. */
  function SpacedText(texts: seq<string>): string
    requires |texts| > 0
  {
    if |texts| == 1 then texts[0]
    else
      var k := |texts| - 1;
      SpacedText(texts[..k]) + Separator(NeedsSpace(texts[k - 1], texts[k])) + texts[k]
  }

  /** One more child adds its text, after one space when the rule asks for it. */
  lemma SpacedTextSnoc(texts: seq<string>, k: nat)
    requires 1 <= k < |texts|
    ensures SpacedText(texts[..k + 1]) == SpacedText(texts[..k]) + Separator(NeedsSpace(texts[k - 1], texts[k])) + texts[k]
  {
    assert texts[..k + 1][..k] == texts[..k];
  }

  /** The text is the children's texts woven with the spacing rule's gaps:
      exactly one space before each later text that needs one, none elsewhere. */
  lemma {:induction false} SpacedTextIsWeave(texts: seq<string>)
    requires |texts| > 0
    ensures SpacedText(texts) == Weave(texts, Gaps(texts))
    decreases |texts|
  {
    if |texts| > 1 {
      var k := |texts| - 1;
      SpacedTextIsWeave(texts[..k]);
      assert Gaps(texts)[..k - 1] == Gaps(texts[..k]);
    }
  }

  /** The text starts with the first child's text. */
  lemma {:induction false} WeaveStartsWithFirst(texts: seq<string>, gaps: seq<bool>)
    requires |texts| > 0 && |gaps| == |texts| - 1
    ensures texts[0] <= Weave(texts, gaps)
    decreases |texts|
  {
    if |texts| > 1 {
      WeaveStartsWithFirst(texts[..|texts| - 1], gaps[..|gaps| - 1]);
    }
  }

  /** With every inserted space deleted, the text is the plain in-order
      concatenation of the children's texts. */
  lemma {:induction false} WeaveWithoutSpaces(texts: seq<string>, gaps: seq<bool>)
    requires |texts| > 0 && |gaps| == |texts| - 1
    requires forall i :: 0 <= i < |gaps| ==> !gaps[i]
    ensures Weave(texts, gaps) == Concat(texts)
    decreases |texts|
  {
    if |texts| == 1 {
      assert texts[..0] == [];
    } else {
      WeaveWithoutSpaces(texts[..|texts| - 1], gaps[..|gaps| - 1]);
    }
  }

  /** The text is the children's texts, in order, with the spacing rule's
      separators, and it starts with the first child's text. */
  lemma SpacedTextShape(texts: seq<string>)
    requires |texts| > 0
    ensures SpacedText(texts) == Weave(texts, Gaps(texts))
    ensures texts[0] <= SpacedText(texts)
    ensures Weave(texts, seq(|texts| - 1, _ => false)) == Concat(texts)
  {
    SpacedTextIsWeave(texts);
    WeaveStartsWithFirst(texts, Gaps(texts));
    WeaveWithoutSpaces(texts, seq(|texts| - 1, _ => false));
  }

  /** The children of a full declaration read as it is written. */
  lemma DeclarationText()
    ensures SpacedText(["Dictionary", "of", "[", "Integer", ",", "Text", "]"]) == "Dictionary of [Integer, Text]"
  {
    var texts := ["Dictionary", "of", "[", "Integer", ",", "Text", "]"];
    assert texts[..1] == ["Dictionary"];
    SpacedTextSnoc(texts, 1);
    assert SpacedText(texts[..2]) == "Dictionary" + " " + "of";
    SpacedTextSnoc(texts, 2);
    assert SpacedText(texts[..3]) == "Dictionary of" + " " + "[";
    SpacedTextSnoc(texts, 3);
    assert SpacedText(texts[..4]) == "Dictionary of [" + "Integer";
    SpacedTextSnoc(texts, 4);
    assert SpacedText(texts[..5]) == "Dictionary of [Integer" + ",";
    SpacedTextSnoc(texts, 5);
    assert SpacedText(texts[..6]) == "Dictionary of [Integer," + " " + "Text";
    SpacedTextSnoc(texts, 6);
    assert texts[..7] == texts;
  }

  /** One round of GetText's loop: the text so far, the separator the
      rule asks for, and the next child's text. */
  lemma SpacedStep(texts: seq<string>, k: nat, text: string, prevText: string, childText: string)
    requires 1 <= k < |texts| && text == SpacedText(texts[..k]) && prevText == texts[k - 1] && childText == texts[k]
    ensures NeedsSpace(prevText, childText) ==> text + " " + childText == SpacedText(texts[..k + 1])
    ensures !NeedsSpace(prevText, childText) ==> text + childText == SpacedText(texts[..k + 1])
  {
    SpacedTextSnoc(texts, k);
  }

  /** GetText: the first child's text, then each later child's text, each
      after one space when the spacing rule asks for it. The node needs at
      least one child. */
  method GetText(tree: SyntaxTree, self: nat) returns (text: string)
    requires tree.Valid() && self < |tree.rules| && |tree.rules[self].children| > 0
    ensures text == SpacedText(ChildTexts(tree.rules, self))
  {
    var kids := tree.rules[self].children;
    ghost var texts := ChildTexts(tree.rules, self);
    var prevText := tree.GetText(kids[0]);
    text := prevText;
    assert texts[..1] == [texts[0]];
    if |kids| > 1 {
      for index := 1 to |kids|
        invariant text == SpacedText(texts[..index]) && prevText == texts[index - 1]
      {
        var childText := tree.GetText(kids[index]);
        SpacedStep(texts, index, text, prevText, childText);
        if NeedsSpace(prevText, childText) {
          text := text + " " + childText;
        } else {
          text := text + childText;
        }
        prevText := childText;
      }
    }
    assert texts[..|kids|] == texts;
  }
}
