/** The values that flow between the scanner and the syntax analyzer. */
module Tokens {

  /** The thirteen token categories, in the order the source declares them. */
  datatype TokenType =
    | ReservedWord
    | Identifier
    | Number
    | Operator
    | Delimiter
    | DataType
    | LogicalOperator
    | Semicolon
    | Incremental
    | Decremental
    | AssignmentOp
    | ComparisonOp
    | Unknown

  /** A lexeme together with its category. */
  datatype Token = Token(lexeme: string, kind: TokenType)
}
