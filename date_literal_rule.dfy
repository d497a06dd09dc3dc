/** The date literal production: a single literal token of type Date. */
module DateLiterals {
  import opened Tokens
  import opened Listeners
  import opened TokenStreams
  import opened ParserRules
  import opened SubRules
  import opened AlParsers

  /** The name the rule is constructed with. */
  const RuleName: string := "Date Literal"

  function Msg(subject: TraceSubject, event: TraceEvent): TraceMessage
  {
    TraceMessage(subject, RuleName, event)
  }

  /** Parse: the result is the validator's verdict on the current token
      for the Date literal type. On success the token is consumed, the node
      is attached to its parent and the match reported, in that order; on
      failure the tree is left as it was. Enter is reported first and Exit
      last on both paths, and the stream is never moved. */
  method Parse(parser: AlParser, tokens: TokenStream, tree: SyntaxTree, o: Oracles, parentRule: nat, self: nat)
    returns (tokenValidates: bool)
    requires tokens.Valid() && tree.Valid() && parentRule < self < |tree.rules|
    modifies parser`traceLog, tree
    ensures tree.Valid()
    ensures tokenValidates == o.validator(tokens.Current(), LiteralType.Date)
    ensures tree.rules == if tokenValidates then Attach(old(tree.rules), parentRule, self) else old(tree.rules)
    ensures var ls := parser.traceListeners;
      parser.traceLog == old(parser.traceLog) + Broadcast(ls, Msg(OnRule(self), Enter))
        + (if tokenValidates then Broadcast(ls, Msg(OnToken(tokens.Current()), Consume)) + Broadcast(ls, Msg(OnRule(self), Match)) else [])
        + Broadcast(ls, Msg(OnRule(self), Exit))
    ensures unchanged(tokens)
  {
    ghost var ls := parser.traceListeners;
    parser.GenerateTraceEvent(OnRule(self), RuleName, Enter);
    ghost var entered := parser.traceLog;
    var token := tokens.Current();
    tokenValidates := o.validator(token, LiteralType.Date);
    if tokenValidates {
      parser.GenerateTraceEvent(OnToken(token), RuleName, Consume);
      tree.AddChildNode(parentRule, self);
      parser.GenerateTraceEvent(OnRule(self), RuleName, Match);
      assert parser.traceLog == entered + (Broadcast(ls, Msg(OnToken(token), Consume)) + Broadcast(ls, Msg(OnRule(self), Match)));
    }
    ghost var body := parser.traceLog;
    parser.GenerateTraceEvent(OnRule(self), RuleName, Exit);
    assert parser.traceLog == body + Broadcast(ls, Msg(OnRule(self), Exit));
  }
}
