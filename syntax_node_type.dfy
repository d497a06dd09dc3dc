/** The kinds of syntax-tree node the AL parser builds. */
module SyntaxNodeTypes {

  datatype NodeType =
    | ArrayDeclaration | BinaryExpression | Boolean | CodeBlockStatement | Date | DateTime
    | Decimal | DictionaryDeclaration | DimensionsDeclaration | DotNetDeclaration | Error
    | Expression | Identifier | IndexedExpression | LabelDeclaration | LengthDeclaration
    | ListDeclaration | MemberAccessExpression | ObjectReferenceDeclaration
    | OptionValuesDeclaration | ParenthesesExpression | RangeExpression | SetExpression
    | SimpleExpression | Statement | Symbol | String | Time | VariableDeclaration
    | VariableTypeDeclaration
}
