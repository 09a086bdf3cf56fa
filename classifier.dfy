/** Classification of a lexeme into one token category: two fixed keyword
    tables, the logical operators, then a case split on the first character. */
module Classifier {
  import opened Tokens

  /** The reserved-word table. */
  const ReservedWords: set<string> := {"if", "else", "then", "for", "do", "while", "read", "print"}

  /** The data-type table. */
  const DataTypes: set<string> := {"int", "char", "string", "float"}

  /** `isspace` in the C locale: space, tab, line feed, vertical tab, form feed, carriage return. */
  predicate IsSpace(c: char) {
    c == ' ' || '\t' <= c <= '\r'
  }

  /** `isdigit` in the C locale. */
  predicate IsDigit(c: char) {
    '0' <= c <= '9'
  }

  /** `isalpha` in the C locale. */
  predicate IsAlpha(c: char) {
    'a' <= c <= 'z' || 'A' <= c <= 'Z'
  }

  /** Membership in the reserved-word table. Every reserved word begins with a
      letter, which is why this test has to run before the identifier rule. */
  predicate IsReservedWord(word: string)
    ensures IsReservedWord(word) ==> |word| >= 2 && IsAlpha(word[0]) && !IsDataType(word)
  {
    word in ReservedWords
  }

  /** Membership in the data-type table. Every data type begins with a letter. */
  predicate IsDataType(word: string)
    ensures IsDataType(word) ==> |word| >= 3 && IsAlpha(word[0])
  {
    word in DataTypes
  }

  /** The three logical operators. None of them starts with a digit or a letter,
      and only `!` also starts one of the operator cases of the fallback. */
  predicate IsLogicalOperator(op: string)
    ensures IsLogicalOperator(op) ==> |op| > 0 && !IsDigit(op[0]) && !IsAlpha(op[0])
    ensures IsLogicalOperator(op) && op[0] in "<>!=" ==> op == "!"
  {
    op == "&&" || op == "||" || op == "!"
  }

  /** The category of a non-empty lexeme: the tests run in a fixed priority
      order, and the first one that holds decides. */
  function GetTokenType(lexeme: string): (t: TokenType)
    requires |lexeme| > 0
  {
    if IsReservedWord(lexeme) then ReservedWord
    else if IsDataType(lexeme) then DataType
    else if IsLogicalOperator(lexeme) then LogicalOperator
    else if IsDigit(lexeme[0]) then Number
    else if IsAlpha(lexeme[0]) then Identifier
    else
      match lexeme[0]
      case '>' | '<' | '!' =>
        if |lexeme| == 1 then Operator
        else if lexeme == "==" then ComparisonOp
        else if lexeme == ">=" || lexeme == "<=" then ComparisonOp
        else Unknown
      case '=' =>
        if |lexeme| == 1 then AssignmentOp else Unknown
      case '(' | ')' | '{' | '}' => Delimiter
      case ';' => Semicolon
      case '+' => Incremental
      case '-' => Decremental
      case _ => Unknown
  }

  /** The classification table, category by category: exactly which lexemes
      land in each category once the priority order has been applied. */
  lemma ClassificationTable(lexeme: string)
    requires |lexeme| > 0
    ensures GetTokenType(lexeme) == ReservedWord <==> lexeme in ReservedWords
    ensures GetTokenType(lexeme) == DataType <==> lexeme in DataTypes
    ensures GetTokenType(lexeme) == LogicalOperator <==> lexeme in {"&&", "||", "!"}
    ensures GetTokenType(lexeme) == Number <==> IsDigit(lexeme[0])
    ensures GetTokenType(lexeme) == Identifier <==>
              IsAlpha(lexeme[0]) && lexeme !in ReservedWords && lexeme !in DataTypes
    ensures GetTokenType(lexeme) == Operator <==> lexeme == ">" || lexeme == "<"
    ensures GetTokenType(lexeme) == ComparisonOp <==> lexeme == ">=" || lexeme == "<="
    ensures GetTokenType(lexeme) == AssignmentOp <==> lexeme == "="
    ensures GetTokenType(lexeme) == Delimiter <==> lexeme[0] in "(){}"
    ensures GetTokenType(lexeme) == Semicolon <==> lexeme[0] == ';'
    ensures GetTokenType(lexeme) == Incremental <==> lexeme[0] == '+'
    ensures GetTokenType(lexeme) == Decremental <==> lexeme[0] == '-'
  {
  }

  /** Every lexeme that none of the twelve named categories claims is Unknown;
      in particular any lexeme that starts with a character outside the
      letters, the digits and `> < ! = ( ) { } ; + - & |`. */
  lemma UnknownIsTheRest(lexeme: string)
    requires |lexeme| > 0
    requires !IsDigit(lexeme[0]) && !IsAlpha(lexeme[0])
    requires lexeme[0] !in "><!=(){};+-"
    requires lexeme != "&&" && lexeme != "||"
    ensures GetTokenType(lexeme) == Unknown
  {
  }

  /** The keyword tables win over the identifier rule. */
  lemma KeywordsWin()
    ensures forall w | w in ReservedWords :: IsAlpha(w[0]) && GetTokenType(w) == ReservedWord
    ensures forall w | w in DataTypes :: IsAlpha(w[0]) && GetTokenType(w) == DataType
  {
  }

  /** The two-character operators: only `>=` and `<=` are comparisons. The
      `==` test of the fallback is unreachable, because `==` dispatches on `=`
      and is therefore Unknown, as are `!=` and `=x`. */
  lemma TwoCharacterOperators()
    ensures GetTokenType(">=") == ComparisonOp && GetTokenType("<=") == ComparisonOp
    ensures GetTokenType("==") == Unknown
    ensures GetTokenType("!=") == Unknown
    ensures GetTokenType("=x") == Unknown
  {
  }

  /** The one-character operators: `!` is a logical operator, because the
      logical-operator test runs before the fallback; `>` and `<` are
      operators and `=` alone is the assignment operator. */
  lemma OneCharacterOperators()
    ensures GetTokenType("!") == LogicalOperator
    ensures GetTokenType("&&") == LogicalOperator && GetTokenType("||") == LogicalOperator
    ensures GetTokenType(">") == Operator && GetTokenType("<") == Operator
    ensures GetTokenType("=") == AssignmentOp
  {
  }

  /** Only the first character decides the digit, plus and minus rules, and a
      whitespace character other than a space is Unknown. */
  lemma FirstCharacterRules()
    ensures GetTokenType("1a") == Number
    ensures GetTokenType("++") == Incremental && GetTokenType("-5") == Decremental
    ensures GetTokenType("\t") == Unknown
  {
  }
}
