/** The sub-rules the productions call but whose code is not part of this
    model (IdentifierRule, SymbolRule, VariableTypeDeclarationRule,
    ExpressionBuilder, ProcessRuleAndAdvance and the literal Validator).
    Each is an uninterpreted verdict: only its boolean result is modelled. */
module SubRules {
  import opened Tokens

  /** The sub-rule calls made by the productions, in source order. */
  datatype Step =
    | DictionaryKeyword   // IdentifierRule "Dictionary"
    | OfKeyword           // IdentifierRule "of"
    | OpenBracket         // SymbolRule "["
    | KeyType             // VariableTypeDeclarationRule, the key type
    | Comma               // SymbolRule ","
    | ValueType           // VariableTypeDeclarationRule, the value type
    | CloseBracket        // SymbolRule "]"
    | SetOpen             // SymbolRule "[" of a set expression
    | SetClose            // SymbolRule "]" of a set expression

  /** parse: a sub-rule's verdict on the token it is given;
      advance: ProcessRuleAndAdvance's verdict, given the sub-rule's;
      validator: the literal Validator's verdict on a token for a literal type. */
  datatype Oracles = Oracles(
    parse: (Step, Option<Token>) -> bool,
    advance: (Step, bool) -> bool,
    validator: (Option<Token>, LiteralType) -> bool)

  /** A step run through ProcessRuleAndAdvance lets the production go on. */
  predicate Passes(o: Oracles, s: Step, t: Option<Token>)
  {
    o.advance(s, o.parse(s, t))
  }
}
