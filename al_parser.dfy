/** The AL parser's session engine: token validation with a sticky error
    state, deduplicated error reporting, trace events, listener management,
    the rule-name table, the "expected one of" message builder and the
    forward scan used for recovery. */
module AlParsers {
  import opened Tokens
  import opened Listeners
  import opened ErrorEngine
  import opened SyntaxNodeTypes
  import opened TokenStreams

  /** The table from syntax-node type to human-readable rule name. */
  const Rules: map<NodeType, string> := map[
    ArrayDeclaration := "Array Declaration",
    BinaryExpression := "Binary Expression",
    NodeType.Boolean := "Boolean",
    CodeBlockStatement := "Code Block Statement",
    NodeType.Date := "Date",
    NodeType.DateTime := "DateTime",
    NodeType.Decimal := "Decimal",
    DictionaryDeclaration := "Dictionary Declaration",
    DimensionsDeclaration := "Dimensions Declaration",
    DotNetDeclaration := "DotNet Declaration",
    Error := "Error",
    Expression := "Expression",
    NodeType.Identifier := "Identifier",
    IndexedExpression := "Indexed Expression",
    LabelDeclaration := "Label Declaration",
    LengthDeclaration := "Length Declaration",
    ListDeclaration := "List Declaration",
    MemberAccessExpression := "Member Access Expression",
    ObjectReferenceDeclaration := "Object Reference Declaration",
    OptionValuesDeclaration := "Option Values Declaration",
    ParenthesesExpression := "Parentheses Expression",
    RangeExpression := "Range Expression",
    SetExpression := "Set Expression",
    SimpleExpression := "Simple Expression",
    Statement := "Statement",
    NodeType.Symbol := "Symbol",
    NodeType.String := "String",
    NodeType.Time := "Time",
    VariableDeclaration := "Variable Declaration",
    VariableTypeDeclaration := "Variable Type Declaration"
  ]

  /** GetRuleName: the table entry for a node type, which must be present. */
  function GetRuleName(nodeType: NodeType): (name: string)
    requires nodeType in Rules
    ensures name in Rules.Values && |name| > 0
  {
    Rules[nodeType]
  }

  /** Every node type has an entry, so GetRuleName never fails here, and
      the three productions of this model are named as they should be. */
  lemma RuleNames()
    ensures forall t: NodeType :: t in Rules
    ensures GetRuleName(DictionaryDeclaration) == "Dictionary Declaration"
    ensures GetRuleName(SetExpression) == "Set Expression"
    ensures GetRuleName(NodeType.Date) == "Date"
  {
    forall t: NodeType ensures t in Rules {
      match t
      case ArrayDeclaration =>
      case BinaryExpression =>
      case Boolean =>
      case CodeBlockStatement =>
      case Date =>
      case DateTime =>
      case Decimal =>
      case DictionaryDeclaration =>
      case DimensionsDeclaration =>
      case DotNetDeclaration =>
      case Error =>
      case Expression =>
      case Identifier =>
      case IndexedExpression =>
      case LabelDeclaration =>
      case LengthDeclaration =>
      case ListDeclaration =>
      case MemberAccessExpression =>
      case ObjectReferenceDeclaration =>
      case OptionValuesDeclaration =>
      case ParenthesesExpression =>
      case RangeExpression =>
      case SetExpression =>
      case SimpleExpression =>
      case Statement =>
      case Symbol =>
      case String =>
      case Time =>
      case VariableDeclaration =>
      case VariableTypeDeclaration =>
    }
  }

  // The shape tests of the four ValidateToken overloads.

  /** Kind and value both as expected. */
  predicate HasKindAndValue(t: Token, kind: TokenKind, value: string)
  {
    t.TokenType() == kind && t.value == value
  }

  /** The allowed-values overload's test as the code writes it: the kind is
      as expected and the value is NOT among the allowed values. */
  predicate PassesAllowedValuesTest(t: Token, kind: TokenKind, allowedValues: seq<string>)
  {
    t.TokenType() == kind && t.value !in allowedValues
  }

  /** Kind as expected. */
  predicate HasKind(t: Token, kind: TokenKind)
  {
    t.TokenType() == kind
  }

  /** A literal token, of kind Literal, of the expected literal type. */
  predicate IsLiteralOf(t: Token, lt: LiteralType)
  {
    t.LiteralToken? && t.TokenType() == Literal && t.literalType == lt
  }

  /** As written, the allowed-values overload rejects a token of the right
      kind whose value is one of the allowed values, and accepts one whose
      value is not. */
  lemma AllowedValuesTestInverted(s: Session, t: Token, kind: TokenKind, allowedValues: seq<string>, message: string)
    requires t.TokenType() == kind
    ensures t.value in allowedValues ==> !Validate(s, Check(Some(t), PassesAllowedValuesTest(t, kind, allowedValues), message)).ok
    ensures t.value !in allowedValues ==> Validate(s, Check(Some(t), PassesAllowedValuesTest(t, kind, allowedValues), message)).ok
  {
  }

  /** The literal overload: any token that is not a literal token fails,
      and a literal token passes exactly when its literal type is the
      expected one. */
  lemma LiteralOverloadVerdict(s: Session, t: Token, lt: LiteralType, message: string)
    ensures !t.LiteralToken? ==> !Validate(s, Check(Some(t), IsLiteralOf(t, lt), message)).ok
    ensures t.LiteralToken? ==> (Validate(s, Check(Some(t), IsLiteralOf(t, lt), message)).ok <==> t.literalType == lt)
  {
  }

  /** The allowed-values test as its documentation describes it: the kind
      is as expected and the value is one of the allowed values. */
  predicate IsOneOf(t: Token, kind: TokenKind, allowedValues: seq<string>)
  {
    t.TokenType() == kind && t.value in allowedValues
  }

  // The "expected one of" message.

  /** The message of FormatSetError: the message alone, or the message
      formatted with the set phrase and the encountered text. */
  datatype ErrorText = Plain(text: string) | Formatted(format: string, phrase: string, encountered: string)

  function Quote(s: string): string
  {
    "\"" + s + "\""
  }

  function Quoted(items: seq<string>): seq<string>
  {
    seq(|items|, i requires 0 <= i < |items| => Quote(items[i]))
  }

  /** The items the code actually names: the first, then the SECOND item
      in place of every interior item, then the last. */
  function Shown(items: seq<string>): seq<string>
  {
    seq(|items|, i requires 0 <= i < |items| => if 0 < i < |items| - 1 then items[1] else items[i])
  }

  /** An English listing: "a", "a or b", "a, b or c", "a, b, c or d". */
  function OrList(xs: seq<string>): string
    requires |xs| > 0
  {
    if |xs| == 1 then xs[0]
    else if |xs| == 2 then xs[0] + " or " + xs[1]
    else xs[0] + ", " + OrList(xs[1..])
  }

  /** Items separated by commas. */
  function CommaList(xs: seq<string>): string
    requires |xs| > 0
  {
    if |xs| == 1 then xs[0] else xs[0] + ", " + CommaList(xs[1..])
  }

  lemma {:induction false} CommaListSnoc(xs: seq<string>, y: string)
    requires |xs| > 0
    ensures CommaList(xs + [y]) == CommaList(xs) + ", " + y
    decreases |xs|
  {
    if |xs| == 1 {
      assert (xs + [y])[1..] == [y];
    } else {
      assert (xs + [y])[1..] == xs[1..] + [y];
      CommaListSnoc(xs[1..], y);
    }
  }

  /** A listing of two or more items is the comma list of all but the last,
      then "or" and the last. */
  lemma {:induction false} OrListSplit(xs: seq<string>)
    requires |xs| >= 2
    ensures OrList(xs) == CommaList(xs[..|xs| - 1]) + " or " + xs[|xs| - 1]
    decreases |xs|
  {
    if |xs| > 2 {
      OrListSplit(xs[1..]);
      assert xs[1..][..|xs| - 2] == xs[..|xs| - 1][1..];
    }
  }

  /** The phrase FormatSetError builds, case by case: one item "a"; two
      items "a" or "b"; three or more the first item, then the second item
      once per interior position, then "or" and the last item. */
  lemma SetPhraseShape(items: seq<string>)
    requires |items| > 0
    ensures |items| == 1 ==> OrList(Quoted(Shown(items))) == Quote(items[0])
    ensures |items| == 2 ==> OrList(Quoted(Shown(items))) == Quote(items[0]) + " or " + Quote(items[1])
    ensures |items| >= 3 ==>
      OrList(Quoted(Shown(items)))
      == CommaList([Quote(items[0])] + seq(|items| - 2, _ => Quote(items[1]))) + " or " + Quote(items[|items| - 1])
  {
    var q := Quoted(Shown(items));
    if |items| >= 3 {
      OrListSplit(q);
      assert q[..|items| - 1] == [Quote(items[0])] + seq(|items| - 2, _ => Quote(items[1]));
    }
  }

  /** As written, the phrase depends only on the count and on the first,
      second and last items. */
  lemma PhraseIgnoresInterior(a: seq<string>, b: seq<string>)
    requires |a| == |b| >= 3 && a[0] == b[0] && a[1] == b[1] && a[|a| - 1] == b[|b| - 1]
    ensures OrList(Quoted(Shown(a))) == OrList(Quoted(Shown(b)))
  {
    assert Shown(a) == Shown(b);
  }

  /** When every interior item equals the second one, the phrase is the
      plain listing of all the items. */
  lemma PhraseListsAllWhenInteriorUniform(items: seq<string>)
    requires |items| > 0
    requires forall i :: 0 < i < |items| - 1 ==> items[i] == items[1]
    ensures OrList(Quoted(Shown(items))) == OrList(Quoted(items))
  {
    assert Shown(items) == items;
  }

  /** Four items: the third is never named. */
  lemma FourItemPhrase()
    ensures OrList(Quoted(Shown(["a", "b", "c", "d"]))) == Quote("a") + ", " + Quote("b") + ", " + Quote("b") + " or " + Quote("d")
  {
    var items := ["a", "b", "c", "d"];
    assert Shown(items) == ["a", "b", "b", "d"];
    var q := Quoted(Shown(items));
    assert q == Quoted(["a", "b", "b", "d"]);
    assert q == [Quote("a"), Quote("b"), Quote("b"), Quote("d")];
    assert q[1..] == [Quote("b"), Quote("b"), Quote("d")];
    assert q[1..][1..] == [Quote("b"), Quote("d")];
  }

  /** Four items, listed as intended: every item is named once, in order. */
  lemma FourItemListing()
    ensures OrList(Quoted(["a", "b", "c", "d"])) == Quote("a") + ", " + Quote("b") + ", " + Quote("c") + " or " + Quote("d")
  {
    var q := Quoted(["a", "b", "c", "d"]);
    assert q == [Quote("a"), Quote("b"), Quote("c"), Quote("d")];
    assert q[1..] == [Quote("b"), Quote("c"), Quote("d")];
    assert q[1..][1..] == [Quote("c"), Quote("d")];
  }

  /** A token that ends ScanTillSymbolReached: a Symbol, or one of the terminators. */
  predicate StopsScan(t: Token, terminators: seq<string>)
  {
    t.TokenType() == TokenKind.Symbol || t.value in terminators
  }

  /** One parse session. State and HasErrors are the sticky error flag and
      the error flag; the registry holds every start token reported so far;
      each listener list is kept in registration order, and every
      notification made to a listener is appended to the matching log. */
  class AlParser {
    var state: int
    var hasErrors: bool
    var registry: set<Token>
    var errorListeners: seq<Listener>
    var traceListeners: seq<Listener>
    var errorLog: seq<Delivery<ParserError>>
    var traceLog: seq<Delivery<TraceMessage>>
    var enableTracing: bool
    /** The root of the last parse's tree, as an index into its syntax tree. */
    var result: Option<nat>

    constructor ()
      ensures state == 0 && !hasErrors && registry == {}
      ensures errorListeners == [] && traceListeners == [] && errorLog == [] && traceLog == []
      ensures !enableTracing && result == None
    {
      state, hasErrors, registry := 0, false, {};
      errorListeners, traceListeners, errorLog, traceLog := [], [], [], [];
      enableTracing, result := false, None;
    }

    /** The session part of the parser's state. */
    function SessionState(): Session
      reads this
    {
      Session(state, hasErrors, registry)
    }

    /** The State setter: storing 1 forces HasErrors. */
    method SetState(value: int)
      modifies this`state, this`hasErrors
      ensures SessionState() == ErrorEngine.SetState(old(SessionState()), value)
      ensures state == value && (value == 1 ==> hasErrors) && (value != 1 ==> hasErrors == old(hasErrors))
    {
      if value == 1 {
        hasErrors := true;
      }
      state := value;
    }

    /** Reset: clears HasErrors and State; the registry is kept. */
    method Reset()
      modifies this`state, this`hasErrors
      ensures state == 0 && !hasErrors
    {
      hasErrors := false;
      SetState(0);
    }

    /** ParseSource: drops the previous result, clears HasErrors and reports
        failure; State and the registry are kept. */
    method ParseSource(tokens: TokenStream) returns (ok: bool)
      modifies this`result, this`hasErrors
      ensures !ok && !hasErrors && result == None
    {
      result := None;
      hasErrors := false;
      ok := false;
    }

    method AddErrorListener(listener: Listener)
      modifies this`errorListeners
      ensures errorListeners == old(errorListeners) + [listener]
    {
      errorListeners := errorListeners + [listener];
    }

    method ClearErrorListeners()
      modifies this`errorListeners
      ensures errorListeners == []
    {
      errorListeners := [];
    }

    /** Removes the first registration of the listener, if any. */
    method RemoveErrorListener(listener: Listener)
      modifies this`errorListeners
      ensures errorListeners == RemoveFirst(old(errorListeners), listener)
    {
      errorListeners := RemoveFirst(errorListeners, listener);
    }

    method AddTraceListener(listener: Listener)
      modifies this`traceListeners
      ensures traceListeners == old(traceListeners) + [listener]
    {
      traceListeners := traceListeners + [listener];
    }

    method ClearTraceListeners()
      modifies this`traceListeners
      ensures traceListeners == []
    {
      traceListeners := [];
    }

    /** Removes the first registration of the listener, if any. */
    method RemoveTraceListener(listener: Listener)
      modifies this`traceListeners
      ensures traceListeners == RemoveFirst(old(traceListeners), listener)
    {
      traceListeners := RemoveFirst(traceListeners, listener);
    }

    /** GenerateParserError: sets HasErrors; unless the start token was
        reported before, records it and announces one error to every error
        listener in list order. */
    method GenerateParserError(startToken: Token, endToken: Token, message: string)
      modifies this`hasErrors, this`registry, this`errorLog
      ensures SessionState() == ReportError(old(SessionState()), startToken, endToken, message).after
      ensures errorLog == old(errorLog) + Deliveries(errorListeners, ReportError(old(SessionState()), startToken, endToken, message).raised)
      ensures hasErrors && registry == old(registry) + {startToken}
      ensures startToken in old(registry) ==> errorLog == old(errorLog)
      ensures startToken !in old(registry) ==>
        errorLog == old(errorLog) + Broadcast(errorListeners, ParserError(startToken, endToken, message))
    {
      hasErrors := true;
      if startToken in registry {
        assert registry == old(registry) + {startToken};
        assert Deliveries<ParserError>(errorListeners, []) == [];
        return;
      }
      var error := ParserError(startToken, endToken, message);
      registry := registry + {startToken};
      for i := 0 to |errorListeners|
        invariant hasErrors && registry == old(registry) + {startToken}
        invariant errorLog == old(errorLog) + Broadcast(errorListeners[..i], error)
      {
        assert errorListeners[..i + 1][..i] == errorListeners[..i];
        errorLog := errorLog + [Delivery(errorListeners[i], error)];
      }
      assert errorListeners[..|errorListeners|] == errorListeners;
      assert [error][1..] == [];
      assert Deliveries(errorListeners, [error]) == Broadcast(errorListeners, error) + Deliveries<ParserError>(errorListeners, []);
    }

    /** GenerateTraceEvent: announces the event to every trace listener, in list order. */
    method GenerateTraceEvent(subject: TraceSubject, ruleName: string, event: TraceEvent)
      modifies this`traceLog
      ensures traceLog == old(traceLog) + Broadcast(traceListeners, TraceMessage(subject, ruleName, event))
    {
      var m := TraceMessage(subject, ruleName, event);
      for i := 0 to |traceListeners|
        invariant traceLog == old(traceLog) + Broadcast(traceListeners[..i], m)
      {
        assert traceListeners[..i + 1][..i] == traceListeners[..i];
        traceLog := traceLog + [Delivery(traceListeners[i], m)];
      }
      assert traceListeners[..|traceListeners|] == traceListeners;
    }

    /** The trace helpers Enter, Exit and Consume on a token. */
    method TraceToken(token: Token, nodeType: NodeType, event: TraceEvent)
      requires event == Enter || event == Exit || event == Consume
      modifies this`traceLog
      ensures traceLog == old(traceLog) + Broadcast(traceListeners, TraceMessage(OnToken(Some(token)), Rules[nodeType], event))
    {
      RuleNames();
      GenerateTraceEvent(OnToken(Some(token)), GetRuleName(nodeType), event);
    }

    /** The failure branch shared by the four overloads: report only from
        the clean state, then enter the error state. */
    method Reject(token: Token, errorMessage: string)
      modifies this`state, this`hasErrors, this`registry, this`errorLog
      ensures var v := Validate(old(SessionState()), Check(Some(token), false, errorMessage));
        SessionState() == v.after && errorLog == old(errorLog) + Deliveries(errorListeners, v.raised)
    {
      if state == 0 {
        GenerateParserError(token, token, errorMessage);
      } else {
        assert Deliveries<ParserError>(errorListeners, []) == [];
      }
      SetState(1);
    }

    /** ValidateToken(token, type, value, message). */
    method ValidateTokenValue(token: Option<Token>, kind: TokenKind, value: string, errorMessage: string) returns (ok: bool)
      modifies this`state, this`hasErrors, this`registry, this`errorLog
      ensures var v := Validate(old(SessionState()), Check(token, token.Some? && HasKindAndValue(token.value, kind, value), errorMessage));
        SessionState() == v.after && ok == v.ok && errorLog == old(errorLog) + Deliveries(errorListeners, v.raised)
    {
      if token.None? {
        assert Deliveries<ParserError>(errorListeners, []) == [];
        return false;
      }
      var t := token.value;
      if t.TokenType() != kind || t.value != value {
        Reject(t, errorMessage);
        return false;
      }
      SetState(0);
      assert Deliveries<ParserError>(errorListeners, []) == [];
      return true;
    }

    /** ValidateToken(token, type, allowedValues, message), with the test as the code writes it. */
    method ValidateTokenOneOf(token: Option<Token>, kind: TokenKind, allowedValues: seq<string>, errorMessage: string) returns (ok: bool)
      modifies this`state, this`hasErrors, this`registry, this`errorLog
      ensures var v := Validate(old(SessionState()), Check(token, token.Some? && PassesAllowedValuesTest(token.value, kind, allowedValues), errorMessage));
        SessionState() == v.after && ok == v.ok && errorLog == old(errorLog) + Deliveries(errorListeners, v.raised)
    {
      if token.None? {
        assert Deliveries<ParserError>(errorListeners, []) == [];
        return false;
      }
      var t := token.value;
      if t.TokenType() != kind || t.value in allowedValues {
        Reject(t, errorMessage);
        return false;
      }
      SetState(0);
      assert Deliveries<ParserError>(errorListeners, []) == [];
      return true;
    }

    /** The allowed-values overload with the test its documentation
        describes: a token passes exactly when its kind is as expected and
        its value is one of the allowed values. */
    method ValidateTokenOneOfCorrected(token: Option<Token>, kind: TokenKind, allowedValues: seq<string>, errorMessage: string) returns (ok: bool)
      modifies this`state, this`hasErrors, this`registry, this`errorLog
      ensures var v := Validate(old(SessionState()), Check(token, token.Some? && IsOneOf(token.value, kind, allowedValues), errorMessage));
        SessionState() == v.after && ok == v.ok && errorLog == old(errorLog) + Deliveries(errorListeners, v.raised)
      ensures ok <==> token.Some? && token.value.TokenType() == kind && token.value.value in allowedValues
    {
      if token.None? {
        assert Deliveries<ParserError>(errorListeners, []) == [];
        return false;
      }
      var t := token.value;
      if t.TokenType() != kind || t.value !in allowedValues {
        Reject(t, errorMessage);
        return false;
      }
      SetState(0);
      assert Deliveries<ParserError>(errorListeners, []) == [];
      return true;
    }

    /** ValidateToken(token, type, message). */
    method ValidateTokenKind(token: Option<Token>, kind: TokenKind, errorMessage: string) returns (ok: bool)
      modifies this`state, this`hasErrors, this`registry, this`errorLog
      ensures var v := Validate(old(SessionState()), Check(token, token.Some? && HasKind(token.value, kind), errorMessage));
        SessionState() == v.after && ok == v.ok && errorLog == old(errorLog) + Deliveries(errorListeners, v.raised)
    {
      if token.None? {
        assert Deliveries<ParserError>(errorListeners, []) == [];
        return false;
      }
      var t := token.value;
      if t.TokenType() != kind {
        Reject(t, errorMessage);
        return false;
      }
      SetState(0);
      assert Deliveries<ParserError>(errorListeners, []) == [];
      return true;
    }

    /** ValidateToken(token, literalType, message). */
    method ValidateTokenLiteral(token: Option<Token>, literalType: LiteralType, errorMessage: string) returns (ok: bool)
      modifies this`state, this`hasErrors, this`registry, this`errorLog
      ensures var v := Validate(old(SessionState()), Check(token, token.Some? && IsLiteralOf(token.value, literalType), errorMessage));
        SessionState() == v.after && ok == v.ok && errorLog == old(errorLog) + Deliveries(errorListeners, v.raised)
    {
      if token.None? {
        assert Deliveries<ParserError>(errorListeners, []) == [];
        return false;
      }
      var t := token.value;
      if !t.LiteralToken? {
        Reject(t, errorMessage);
        return false;
      }
      if t.TokenType() != Literal || t.literalType != literalType {
        Reject(t, errorMessage);
        return false;
      }
      SetState(0);
      assert Deliveries<ParserError>(errorListeners, []) == [];
      return true;
    }

    /** FormatSetError: the message unchanged for no allowed values,
        otherwise the message formatted with the listing the code builds. */
    method FormatSetError(message: string, allowed: seq<string>, encountered: string) returns (r: ErrorText)
      ensures |allowed| == 0 ==> r == Plain(message)
      ensures |allowed| > 0 ==> r == Formatted(message, OrList(Quoted(Shown(allowed))), encountered)
    {
      if |allowed| == 0 {
        return Plain(message);
      }
      ghost var q := Quoted(Shown(allowed));
      var phrase := Quote(allowed[0]);
      if |allowed| > 1 {
        if |allowed| == 2 {
          phrase := phrase + " or " + Quote(allowed[1]);
        } else {
          for i := 1 to |allowed| - 1
            invariant phrase == CommaList(q[..i])
          {
            CommaListSnoc(q[..i], q[i]);
            assert q[..i + 1] == q[..i] + [q[i]];
            phrase := phrase + ", " + Quote(allowed[1]);
          }
          phrase := phrase + " or " + Quote(allowed[|allowed| - 1]);
          OrListSplit(q);
        }
      }
      return Formatted(message, phrase, encountered);
    }

    /** FormatSetError with each interior item named in its own place:
        the phrase lists every allowed value, in order. */
    method FormatSetErrorCorrected(message: string, allowed: seq<string>, encountered: string) returns (r: ErrorText)
      ensures |allowed| == 0 ==> r == Plain(message)
      ensures |allowed| > 0 ==> r == Formatted(message, OrList(Quoted(allowed)), encountered)
    {
      if |allowed| == 0 {
        return Plain(message);
      }
      ghost var q := Quoted(allowed);
      var phrase := Quote(allowed[0]);
      if |allowed| > 1 {
        if |allowed| == 2 {
          phrase := phrase + " or " + Quote(allowed[1]);
        } else {
          for i := 1 to |allowed| - 1
            invariant phrase == CommaList(q[..i])
          {
            CommaListSnoc(q[..i], q[i]);
            assert q[..i + 1] == q[..i] + [q[i]];
            phrase := phrase + ", " + Quote(allowed[i]);
          }
          phrase := phrase + " or " + Quote(allowed[|allowed| - 1]);
          OrListSplit(q);
        }
      }
      return Formatted(message, phrase, encountered);
    }

    /** ScanTillSymbolReached: moves forward over tokens that are neither a
        Symbol nor a terminator, stopping on the first one that is, or on
        the last token of the stream. */
    method ScanTillSymbolReached(tokens: TokenStream, terminators: seq<string>)
      requires tokens.Valid() && tokens.position < |tokens.tokens|
      modifies tokens
      ensures tokens.Valid() && old(tokens.position) <= tokens.position < |tokens.tokens|
      ensures forall k :: old(tokens.position) <= k < tokens.position ==> !StopsScan(tokens.tokens[k], terminators)
      ensures StopsScan(tokens.tokens[tokens.position], terminators) || tokens.EndOfStream()
    {
      while tokens.Current().value.TokenType() != TokenKind.Symbol && tokens.Current().value.value !in terminators
        invariant tokens.Valid() && old(tokens.position) <= tokens.position < |tokens.tokens|
        invariant forall k :: old(tokens.position) <= k < tokens.position ==> !StopsScan(tokens.tokens[k], terminators)
        decreases |tokens.tokens| - tokens.position
      {
        if tokens.EndOfStream() {
          break;
        }
        tokens.MoveNext();
      }
    }
  }

  /** The scripted cascade on a parser with one error listener: validations
      that fail, fail, succeed and fail deliver exactly two errors, for the
      first and the last token. */
  method CascadeScenario(listener: Listener, t1: Token, t2: Token, t3: Token, t4: Token, message: string)
    returns (log: seq<Delivery<ParserError>>)
    requires t1.TokenType() != TokenKind.Symbol && t2.TokenType() != TokenKind.Symbol
    requires t3.TokenType() == TokenKind.Symbol && t4.TokenType() != TokenKind.Symbol
    requires t1 != t4
    ensures log == [Delivery(listener, ParserError(t1, t1, message)), Delivery(listener, ParserError(t4, t4, message))]
  {
    var parser := new AlParser();
    parser.AddErrorListener(listener);
    assert parser.errorListeners == [listener];
    var e1, e4 := ParserError(t1, t1, message), ParserError(t4, t4, message);
    DeliveriesToOne(listener, e1);
    DeliveriesToOne(listener, e4);
    assert Deliveries<ParserError>([listener], []) == [];

    var ok1 := parser.ValidateTokenKind(Some(t1), TokenKind.Symbol, message);
    assert parser.SessionState() == Session(1, true, {t1});
    assert parser.errorLog == [Delivery(listener, e1)];

    var ok2 := parser.ValidateTokenKind(Some(t2), TokenKind.Symbol, message);
    assert parser.SessionState() == Session(1, true, {t1});
    assert parser.errorLog == [Delivery(listener, e1)];

    var ok3 := parser.ValidateTokenKind(Some(t3), TokenKind.Symbol, message);
    assert parser.SessionState() == Session(0, true, {t1});
    assert parser.errorLog == [Delivery(listener, e1)];

    var ok4 := parser.ValidateTokenKind(Some(t4), TokenKind.Symbol, message);
    assert parser.errorLog == [Delivery(listener, e1)] + [Delivery(listener, e4)];
    log := parser.errorLog;
  }
}
