/** The analyzer's verdict on the token sequences that a few characteristic
    lines scan to (the line is given in each lemma's comment). */
module Scenarios {
  import opened Tokens
  import opened Analyzer

  /** `if (x < 5) then print`: the reserved word after `then` passes the
      `then` check, but no statement follows, so the final check fails. */
  lemma ThenReservedWordOnly()
    ensures Verdict([Token("if", ReservedWord), Token("(", Delimiter), Token("x", Identifier),
                     Token("<", Operator), Token("5", Number), Token(")", Delimiter),
                     Token("then", ReservedWord), Token("print", ReservedWord)])
            == StatementMissing
  {
    var ts := [Token("if", ReservedWord), Token("(", Delimiter), Token("x", Identifier),
               Token("<", Operator), Token("5", Number), Token(")", Delimiter),
               Token("then", ReservedWord), Token("print", ReservedWord)];
    assert RunTo(ts, 1) == Continue(Flags(true, false, false, false));
    assert RunTo(ts, 2) == Continue(Flags(true, true, false, false));
    assert RunTo(ts, 6) == Continue(Flags(true, true, false, false));
    assert RunTo(ts, 7) == Continue(Flags(true, true, true, false));
  }

  /** `if (x < 5) then x`: an identifier right after `then` fails at once. */
  lemma ThenIdentifier()
    ensures Verdict([Token("if", ReservedWord), Token("(", Delimiter), Token("x", Identifier),
                     Token("<", Operator), Token("5", Number), Token(")", Delimiter),
                     Token("then", ReservedWord), Token("x", Identifier)])
            == StatementMissing
  {
    var ts := [Token("if", ReservedWord), Token("(", Delimiter), Token("x", Identifier),
               Token("<", Operator), Token("5", Number), Token(")", Delimiter),
               Token("then", ReservedWord), Token("x", Identifier)];
    assert IsOpenParen(ts[1]);
    ThenWithoutReservedWord(ts, 0, 6);
  }

  /** `if (x) then print x`: a reserved word after `then` and a
      non-reserved token after it pass. */
  lemma ThenReservedWordThenIdentifier()
    ensures Verdict([Token("if", ReservedWord), Token("(", Delimiter), Token("x", Identifier),
                     Token(")", Delimiter), Token("then", ReservedWord),
                     Token("print", ReservedWord), Token("x", Identifier)])
            == Passed
  {
    var ts := [Token("if", ReservedWord), Token("(", Delimiter), Token("x", Identifier),
               Token(")", Delimiter), Token("then", ReservedWord),
               Token("print", ReservedWord), Token("x", Identifier)];
    assert RunTo(ts, 1) == Continue(Flags(true, false, false, false));
    assert RunTo(ts, 2) == Continue(Flags(true, true, false, false));
    assert RunTo(ts, 4) == Continue(Flags(true, true, false, false));
    assert RunTo(ts, 5) == Continue(Flags(true, true, true, false));
    assert RunTo(ts, 7) == Continue(Flags(true, true, true, true));
  }

  /** `if then x`: `then` before any `(` fails with the condition error. */
  lemma ThenBeforeCondition()
    ensures Verdict([Token("if", ReservedWord), Token("then", ReservedWord), Token("x", Identifier)])
            == ConditionMissing
  {
    var ts := [Token("if", ReservedWord), Token("then", ReservedWord), Token("x", Identifier)];
    ThenWithoutCondition(ts, 0, 1);
  }

  /** `if (x > 1)`: a condition without `then`. */
  lemma ConditionWithoutThen()
    ensures Verdict([Token("if", ReservedWord), Token("(", Delimiter), Token("x", Identifier),
                     Token(">", Operator), Token("1", Number), Token(")", Delimiter)])
            == ThenMissing
  {
    var ts := [Token("if", ReservedWord), Token("(", Delimiter), Token("x", Identifier),
               Token(">", Operator), Token("1", Number), Token(")", Delimiter)];
    assert RunTo(ts, 1) == Continue(Flags(true, false, false, false));
    assert RunTo(ts, 2) == Continue(Flags(true, true, false, false));
    assert RunTo(ts, 4) == Continue(Flags(true, true, false, false));
    assert RunTo(ts, 6) == Continue(Flags(true, true, false, false));
  }

  /** `then x = 5;`: without `if`, `then` is ignored and the line passes. */
  lemma ThenWithoutIf()
    ensures Verdict([Token("then", ReservedWord), Token("x", Identifier), Token("=", AssignmentOp),
                     Token("5", Number), Token(";", Semicolon)])
            == Passed
  {
    var ts := [Token("then", ReservedWord), Token("x", Identifier), Token("=", AssignmentOp),
               Token("5", Number), Token(";", Semicolon)];
    NoIfPasses(ts);
  }

  /** `if ( then print x then y`: the first `then` passes because `print` is
      reserved; the second `then` is followed by an identifier and fails. */
  lemma LaterThenIdentifier()
    ensures Verdict([Token("if", ReservedWord), Token("(", Delimiter), Token("then", ReservedWord),
                     Token("print", ReservedWord), Token("x", Identifier),
                     Token("then", ReservedWord), Token("y", Identifier)])
            == StatementMissing
  {
    var ts := [Token("if", ReservedWord), Token("(", Delimiter), Token("then", ReservedWord),
               Token("print", ReservedWord), Token("x", Identifier),
               Token("then", ReservedWord), Token("y", Identifier)];
    assert RunTo(ts, 1) == Continue(Flags(true, false, false, false));
    assert RunTo(ts, 2) == Continue(Flags(true, true, false, false));
    assert RunTo(ts, 3) == Continue(Flags(true, true, true, false));
    assert RunTo(ts, 5) == Continue(Flags(true, true, true, true));
    ThenNotBeforeReservedWord(ts, 5, Flags(true, true, true, true));
  }
}
