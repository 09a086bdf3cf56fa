/** The syntax check: one pass over the tokens with four flags that track
    `if`, a `(` condition, `then` and a statement, two early errors inside the
    pass, and three checks after it. */
module Analyzer {
  import opened Tokens

  const Passed := "Syntax analysis passed"
  const ConditionMissing := "Error: Condition missing after 'if'"
  const ThenMissing := "Error: 'then' statement missing after condition"
  const StatementMissing := "Error: Statement missing after 'then'"

  /** The four flags of the pass. */
  datatype Flags = Flags(ifFound: bool, conditionFound: bool, thenFound: bool, statementFound: bool)

  const Initial := Flags(false, false, false, false)

  /** After one token: either the flags go on, or the pass stops with a message. */
  datatype Outcome = Continue(flags: Flags) | Stop(message: string)

  predicate IsReserved(t: Token, word: string) {
    t.kind == ReservedWord && t.lexeme == word
  }

  predicate IsOpenParen(t: Token) {
    t.kind == Delimiter && t.lexeme == "("
  }

  /** Each flag is only set once the one before it is: `(` counts only after
      `if`, `then` only after a condition, a statement only after `then`. */
  predicate Ordered(f: Flags) {
    (f.conditionFound ==> f.ifFound)
    && (f.thenFound ==> f.conditionFound)
    && (f.statementFound ==> f.thenFound)
  }

  /** The flags `g` keep every flag that `f` has set. */
  predicate Keeps(f: Flags, g: Flags) {
    (f.ifFound ==> g.ifFound)
    && (f.conditionFound ==> g.conditionFound)
    && (f.thenFound ==> g.thenFound)
    && (f.statementFound ==> g.statementFound)
  }

  /** The body of the pass for the token at index `i`; the `then` case looks
      one token ahead. */
  function Step(f: Flags, tokens: seq<Token>, i: nat): (o: Outcome)
    requires i < |tokens|
    ensures o.Continue? && Ordered(f) ==> Ordered(o.flags)
    ensures o.Continue? ==> Keeps(f, o.flags)
    ensures o.Stop? <==>
              f.ifFound && IsReserved(tokens[i], "then")
              && (!f.conditionFound || i == |tokens| - 1 || tokens[i + 1].kind != ReservedWord)
  {
    var token := tokens[i];
    if token.kind == ReservedWord then
      if token.lexeme == "if" then Continue(f.(ifFound := true))
      else if f.ifFound && token.lexeme == "then" then
        if !f.conditionFound then Stop(ConditionMissing)
        else if i == |tokens| - 1 || tokens[i + 1].kind != ReservedWord then Stop(StatementMissing)
        else Continue(f.(thenFound := true))
      else Continue(f)
    else if f.ifFound && !f.conditionFound && token.kind == Delimiter then
      if token.lexeme == "(" then Continue(f.(conditionFound := true)) else Continue(f)
    else if f.thenFound && token.kind != ReservedWord then
      Continue(f.(statementFound := true))
    else Continue(f)
  }

  /** The pass over the first `n` tokens. */
  function RunTo(tokens: seq<Token>, n: nat): (o: Outcome)
    requires n <= |tokens|
  {
    if n == 0 then Continue(Initial)
    else
      match RunTo(tokens, n - 1)
      case Stop(m) => Stop(m)
      case Continue(f) => Step(f, tokens, n - 1)
  }

  /** The three checks after the pass, in the order they run. */
  function Finish(f: Flags): (m: string) {
    if f.ifFound && !f.conditionFound then ConditionMissing
    else if !f.thenFound && f.conditionFound then ThenMissing
    else if !f.statementFound && f.thenFound then StatementMissing
    else Passed
  }

  /** The message the analyzer returns for a token sequence. */
  function Verdict(tokens: seq<Token>): (m: string) {
    match RunTo(tokens, |tokens|)
    case Stop(m) => m
    case Continue(f) => Finish(f)
  }

  /** Once the pass has stopped, it stays stopped with the same message. */
  lemma {:induction false} StopPersists(tokens: seq<Token>, i: nat, n: nat)
    requires i <= n <= |tokens|
    requires RunTo(tokens, i).Stop?
    ensures RunTo(tokens, n) == RunTo(tokens, i)
    decreases n - i
  {
    if i < n {
      StopPersists(tokens, i, n - 1);
    }
  }

  /** The analyzer: the flags are updated token by token, and the pass returns
      early on the two errors it can detect mid-way. */
  method Analyze(tokens: seq<Token>) returns (message: string)
    ensures message == Verdict(tokens)
  {
    var ifFound, conditionFound, thenFound, statementFound := false, false, false, false;
    for i := 0 to |tokens|
      invariant RunTo(tokens, i) == Continue(Flags(ifFound, conditionFound, thenFound, statementFound))
    {
      var token := tokens[i];
      if token.kind == ReservedWord {
        if token.lexeme == "if" {
          ifFound := true;
        } else if ifFound && token.lexeme == "then" {
          if !conditionFound {
            StopPersists(tokens, i + 1, |tokens|);
            return ConditionMissing;
          }
          thenFound := true;
          if i == |tokens| - 1 || tokens[i + 1].kind != ReservedWord {
            StopPersists(tokens, i + 1, |tokens|);
            return StatementMissing;
          }
        }
      } else if ifFound && !conditionFound && token.kind == Delimiter {
        if token.lexeme == "(" {
          conditionFound := true;
        }
      } else if thenFound && token.kind != ReservedWord {
        statementFound := true;
      }
    }
    if ifFound && !conditionFound {
      return ConditionMissing;
    }
    if !thenFound && conditionFound {
      return ThenMissing;
    }
    if !statementFound && thenFound {
      return StatementMissing;
    }
    return Passed;
  }

  /** The analyzer returns one of its four messages and nothing else. */
  lemma VerdictMessages(tokens: seq<Token>)
    ensures Verdict(tokens) in {Passed, ConditionMissing, ThenMissing, StatementMissing}
  {
    if RunTo(tokens, |tokens|).Stop? {
      StopMessages(tokens, |tokens|);
    }
  }

  lemma {:induction false} StopMessages(tokens: seq<Token>, n: nat)
    requires n <= |tokens|
    ensures RunTo(tokens, n).Stop? ==> RunTo(tokens, n).message in {ConditionMissing, StatementMissing}
  {
    if n > 0 {
      StopMessages(tokens, n - 1);
    }
  }

  /** Whenever the pass goes on, its flags are ordered. */
  lemma {:induction false} FlagsOrdered(tokens: seq<Token>, n: nat)
    requires n <= |tokens|
    ensures RunTo(tokens, n).Continue? ==> Ordered(RunTo(tokens, n).flags)
  {
    if n > 0 {
      FlagsOrdered(tokens, n - 1);
    }
  }

  /** No flag is ever reset: a flag set after `i` tokens is still set after `n`. */
  lemma {:induction false} FlagsNeverReset(tokens: seq<Token>, i: nat, n: nat)
    requires i <= n <= |tokens|
    requires RunTo(tokens, n).Continue?
    ensures RunTo(tokens, i).Continue? && Keeps(RunTo(tokens, i).flags, RunTo(tokens, n).flags)
    decreases n - i
  {
    if i < n {
      FlagsNeverReset(tokens, i, n - 1);
    }
  }

  /** Before the first reserved word `if`, nothing is recorded. */
  lemma {:induction false} NothingBeforeIf(tokens: seq<Token>, n: nat)
    requires n <= |tokens|
    requires forall k | 0 <= k < n :: !IsReserved(tokens[k], "if")
    ensures RunTo(tokens, n) == Continue(Initial)
  {
    if n > 0 {
      NothingBeforeIf(tokens, n - 1);
    }
  }

  /** A token sequence without the reserved word `if` always passes, whatever
      else it holds. */
  lemma NoIfPasses(tokens: seq<Token>)
    requires forall k | 0 <= k < |tokens| :: !IsReserved(tokens[k], "if")
    ensures Verdict(tokens) == Passed
  {
    NothingBeforeIf(tokens, |tokens|);
  }

  /** Between the first `if` (at `first`) and the first `then` after it, the
      pass only records `if` and whether a `(` delimiter has been seen. */
  lemma {:induction false} FlagsBeforeThen(tokens: seq<Token>, first: nat, n: nat)
    requires first < n <= |tokens|
    requires IsReserved(tokens[first], "if")
    requires forall k | 0 <= k < first :: !IsReserved(tokens[k], "if")
    requires forall k | first < k < n :: !IsReserved(tokens[k], "then")
    ensures RunTo(tokens, n)
            == Continue(Flags(true, exists k | first < k < n :: IsOpenParen(tokens[k]), false, false))
  {
    if n == first + 1 {
      NothingBeforeIf(tokens, first);
    } else {
      FlagsBeforeThen(tokens, first, n - 1);
      if IsOpenParen(tokens[n - 1]) {
        assert exists k | first < k < n :: IsOpenParen(tokens[k]);
      }
    }
  }

  /** A `then` after the first `if` with no `(` delimiter between them stops
      the pass with the condition-missing error. */
  lemma ThenWithoutCondition(tokens: seq<Token>, first: nat, j: nat)
    requires first < j < |tokens|
    requires IsReserved(tokens[first], "if") && IsReserved(tokens[j], "then")
    requires forall k | 0 <= k < first :: !IsReserved(tokens[k], "if")
    requires forall k | first < k < j :: !IsReserved(tokens[k], "then") && !IsOpenParen(tokens[k])
    ensures Verdict(tokens) == ConditionMissing
  {
    FlagsBeforeThen(tokens, first, j);
    StopPersists(tokens, j + 1, |tokens|);
  }

  /** Any `then` that the pass reaches with `if` and a condition recorded,
      and that is the last token or is followed by a token that is not a
      reserved word, stops the pass with the statement-missing error. */
  lemma ThenNotBeforeReservedWord(tokens: seq<Token>, j: nat, f: Flags)
    requires j < |tokens|
    requires RunTo(tokens, j) == Continue(f) && f.ifFound && f.conditionFound
    requires IsReserved(tokens[j], "then")
    requires j == |tokens| - 1 || tokens[j + 1].kind != ReservedWord
    ensures Verdict(tokens) == StatementMissing
  {
    StopPersists(tokens, j + 1, |tokens|);
  }

  /** The first `then` after the first `if`, with a `(` delimiter between
      them, as a case of the lemma above. */
  lemma ThenWithoutReservedWord(tokens: seq<Token>, first: nat, j: nat)
    requires first < j < |tokens|
    requires IsReserved(tokens[first], "if") && IsReserved(tokens[j], "then")
    requires forall k | 0 <= k < first :: !IsReserved(tokens[k], "if")
    requires forall k | first < k < j :: !IsReserved(tokens[k], "then")
    requires exists k | first < k < j :: IsOpenParen(tokens[k])
    requires j == |tokens| - 1 || tokens[j + 1].kind != ReservedWord
    ensures Verdict(tokens) == StatementMissing
  {
    FlagsBeforeThen(tokens, first, j);
    ThenNotBeforeReservedWord(tokens, j, RunTo(tokens, j).flags);
  }

  /** After a `then` has been accepted (the flags are `if`, condition and
      `then`, no statement yet), and as long as no further reserved word
      `then` comes, the statement flag is set exactly when some token that is
      not a reserved word has followed. */
  lemma {:induction false} StatementAfterThen(tokens: seq<Token>, j: nat, n: nat)
    requires j < n <= |tokens|
    requires RunTo(tokens, j + 1) == Continue(Flags(true, true, true, false))
    requires forall k | j < k < n :: !IsReserved(tokens[k], "then")
    ensures RunTo(tokens, n)
            == Continue(Flags(true, true, true, exists k | j < k < n :: tokens[k].kind != ReservedWord))
  {
    if n > j + 1 {
      StatementAfterThen(tokens, j, n - 1);
      if tokens[n - 1].kind != ReservedWord {
        assert exists k | j < k < n :: tokens[k].kind != ReservedWord;
      }
    }
  }

  /** Once a `then` has been accepted and no further `then` follows, the line
      passes exactly when a token that is not a reserved word comes after it;
      otherwise the final check reports the missing statement. */
  lemma StatementVerdict(tokens: seq<Token>, j: nat)
    requires j < |tokens|
    requires RunTo(tokens, j + 1) == Continue(Flags(true, true, true, false))
    requires forall k | j < k < |tokens| :: !IsReserved(tokens[k], "then")
    ensures Verdict(tokens)
            == if exists k | j < k < |tokens| :: tokens[k].kind != ReservedWord then Passed else StatementMissing
  {
    StatementAfterThen(tokens, j, |tokens|);
  }

  /** The checks after the pass run in a fixed order: a missing condition is
      reported before a missing `then`, and that before a missing statement. */
  lemma FinishOrder(f: Flags)
    requires Ordered(f)
    ensures Finish(f) == ConditionMissing <==> f.ifFound && !f.conditionFound
    ensures Finish(f) == ThenMissing <==> f.conditionFound && !f.thenFound
    ensures Finish(f) == StatementMissing <==> f.thenFound && !f.statementFound
    ensures Finish(f) == Passed <==> !f.ifFound || f.statementFound
  {
  }
}
