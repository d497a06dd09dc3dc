/** The set expression production:  [ Expression ]  */
module SetExpressions {
  import opened Tokens
  import opened Listeners
  import opened SyntaxNodeTypes
  import opened TokenStreams
  import opened ParserRules
  import opened SubRules
  import opened AlParsers

  /** The name the rule is constructed with. */
  const RuleName: string := "Set Expression Rule"

  function Msg(self: nat, event: TraceEvent): TraceMessage
  {
    TraceMessage(OnRule(self), RuleName, event)
  }

  /** A symbol node for a token, not yet attached. */
  function SymbolNode(t: Option<Token>): ParserRule
  {
    ParserRule(NodeType.Symbol, Terminal(t), None, [])
  }

  /** The node ExpressionBuilder returns, not yet attached. */
  const ExpressionNode: ParserRule := ParserRule(Expression, Rule, None, [])

  /** The tree after Parse: the "[" node, and when the "[" step passes the
      expression and the "]" node, each created and attached in turn. */
  function Built(rules: seq<ParserRule>, self: nat, t: Option<Token>, isOpen: bool): seq<ParserRule>
    requires self < |rules|
  {
    var withOpen := Adopt(rules, self, SymbolNode(t));
    if isOpen then Adopt(Adopt(withOpen, self, ExpressionNode), self, SymbolNode(t)) else withOpen
  }

  /** What Parse leaves in the tree: the "[" node is always attached, even
      when its step fails; after a passing "[" the children gained are "[",
      the expression and "]", in that order, and without it only "["; no
      other node changes. */
  lemma BuiltShape(rules: seq<ParserRule>, self: nat, t: Option<Token>, isOpen: bool)
    requires WellFormed(rules) && self < |rules|
    ensures |Built(rules, self, t, isOpen)| == |rules| + if isOpen then 3 else 1
    ensures Built(rules, self, t, isOpen)[self]
      == rules[self].(children := rules[self].children + if isOpen then [|rules|, |rules| + 1, |rules| + 2] else [|rules|])
    ensures Built(rules, self, t, isOpen)[|rules|] == SymbolNode(t).(parent := Some(self))
    ensures isOpen ==> Built(rules, self, t, isOpen)[|rules| + 1] == ExpressionNode.(parent := Some(self))
    ensures isOpen ==> Built(rules, self, t, isOpen)[|rules| + 2] == SymbolNode(t).(parent := Some(self))
    ensures forall i :: 0 <= i < |rules| && i != self ==> Built(rules, self, t, isOpen)[i] == rules[i]
  {
    var n := |rules|;
    var r1 := Adopt(rules, self, SymbolNode(t));
    if isOpen {
      var r2 := Adopt(r1, self, ExpressionNode);
      var r3 := Adopt(r2, self, SymbolNode(t));
      assert r3[self].children == r2[self].children + [n + 2] == r1[self].children + [n + 1, n + 2];
    }
  }

  /** The tree Parse leaves is well formed, and its parent links stay right. */
  lemma BuiltKeepsLinks(rules: seq<ParserRule>, self: nat, t: Option<Token>, isOpen: bool)
    requires WellFormed(rules) && self < |rules|
    ensures WellFormed(Built(rules, self, t, isOpen))
    ensures Linked(rules) ==> Linked(Built(rules, self, t, isOpen))
  {
    var r1 := Adopt(rules, self, SymbolNode(t));
    AdoptShape(rules, self, SymbolNode(t));
    if isOpen {
      var r2 := Adopt(r1, self, ExpressionNode);
      AdoptShape(r1, self, ExpressionNode);
      AdoptShape(r2, self, SymbolNode(t));
    }
  }

  /** Parse: the "[" symbol node is attached before it is checked; when the
      "[" step does not pass the rule stops there, without an expression.
      Otherwise the built expression and then the "]" symbol node are
      attached, the latter again before it is checked. The result is true
      exactly when both bracket steps pass. Enter is reported first and
      Exit last, on every path; the stream is not moved. */
  method Parse(parser: AlParser, tokens: TokenStream, tree: SyntaxTree, o: Oracles, self: nat) returns (parsed: bool)
    requires tokens.Valid() && tree.Valid() && self < |tree.rules|
    modifies parser`traceLog, tree
    ensures tree.Valid()
    ensures tree.rules == Built(old(tree.rules), self, tokens.Current(), Passes(o, SetOpen, tokens.Current()))
    ensures parsed <==> Passes(o, SetOpen, tokens.Current()) && Passes(o, SetClose, tokens.Current())
    ensures parser.traceLog == old(parser.traceLog) + Broadcast(parser.traceListeners, Msg(self, Enter))
      + Broadcast(parser.traceListeners, Msg(self, Exit))
  {
    parser.GenerateTraceEvent(OnRule(self), RuleName, Enter);
    var token := tokens.Current();
    parsed := true;

    var open := tree.AddNewChild(self, SymbolNode(token));
    if !o.advance(SetOpen, o.parse(SetOpen, token)) {
      parsed := false;
    } else {
      var expression := tree.AddNewChild(self, ExpressionNode);
      var close := tree.AddNewChild(self, SymbolNode(token));
      if !o.advance(SetClose, o.parse(SetClose, token)) {
        parsed := false;
      }
    }

    parser.GenerateTraceEvent(OnRule(self), RuleName, Exit);
  }
}
