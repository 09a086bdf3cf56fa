/** The lexical pass: one left-to-right sweep over the input line with a
    pending-lexeme buffer. Whitespace and `( ) { } ;` end the pending lexeme;
    each of them except a plain space is then a token of its own. */
module Scanner {
  import opened Tokens
  import opened Classifier

  /** Capacity of the caller's token array. */
  const MaxTokens: nat := 100

  /** The characters that end a pending lexeme. */
  predicate IsBoundary(c: char) {
    IsSpace(c) || c in "(){};"
  }

  /** A lexeme of one boundary character other than a space: the shape of
      every token emitted for a boundary character. */
  predicate IsSeparator(lexeme: string) {
    |lexeme| == 1 && IsBoundary(lexeme[0]) && lexeme[0] != ' '
  }

  /** A lexeme that holds no boundary character: the shape of every token
      flushed from the pending buffer. */
  predicate NoBoundary(lexeme: string) {
    forall k | 0 <= k < |lexeme| :: !IsBoundary(lexeme[k])
  }

  /** A lexeme paired with its category. */
  function Classify(lexeme: string): (t: Token)
    requires |lexeme| > 0
    ensures t.lexeme == lexeme && t.kind == GetTokenType(lexeme)
  {
    Token(lexeme, GetTokenType(lexeme))
  }

  /** Flushing the pending buffer: nothing when it is empty. */
  function Flush(pending: string): (ts: seq<Token>) {
    if pending == [] then [] else [Classify(pending)]
  }

  /** The token a boundary character stands for: none for a plain space. */
  function Separator(c: char): (ts: seq<Token>) {
    if c != ' ' then [Classify([c])] else []
  }

  /** What the sweep still emits, given the pending buffer and the characters
      not yet read. */
  function ScanFrom(pending: string, rest: string): (ts: seq<Token>)
    decreases |rest|
  {
    if rest == [] then Flush(pending)
    else if IsBoundary(rest[0]) then
      Flush(pending) + Separator(rest[0]) + ScanFrom([], rest[1..])
    else ScanFrom(pending + [rest[0]], rest[1..])
  }

  /** The tokens of a whole line. */
  function Tokenize(input: string): (ts: seq<Token>) {
    ScanFrom([], input)
  }

  /** One step of the sweep at a boundary character, after the tokens `done`. */
  lemma BoundaryStep(done: seq<Token>, pending: string, c: char, rest: string)
    requires IsBoundary(c)
    ensures done + ScanFrom(pending, [c] + rest) == (done + Flush(pending) + Separator(c)) + ScanFrom([], rest)
  {
    assert ([c] + rest)[0] == c && ([c] + rest)[1..] == rest;
  }

  /** One step of the sweep at any other character. */
  lemma OtherStep(pending: string, c: char, rest: string)
    requires !IsBoundary(c)
    ensures ScanFrom(pending, [c] + rest) == ScanFrom(pending + [c], rest)
  {
    assert ([c] + rest)[0] == c && ([c] + rest)[1..] == rest;
  }

  /** The sweep itself: the buffer grows character by character and is
      flushed at each boundary character and at the end of the line. */
  method Scan(input: string) returns (tokens: seq<Token>)
    ensures tokens == Tokenize(input)
  {
    tokens := [];
    var currentToken := "";
    for i := 0 to |input|
      invariant tokens + ScanFrom(currentToken, input[i..]) == Tokenize(input)
    {
      var c := input[i];
      assert input[i..] == [c] + input[i + 1..];
      if IsBoundary(c) {
        BoundaryStep(tokens, currentToken, c, input[i + 1..]);
        ghost var emitted := tokens + Flush(currentToken) + Separator(c);
        if currentToken != "" {
          tokens := tokens + [Classify(currentToken)];
          currentToken := "";
        }
        if c != ' ' {
          tokens := tokens + [Classify([c])];
        }
        assert tokens == emitted;
      } else {
        OtherStep(currentToken, c, input[i + 1..]);
        currentToken := currentToken + [c];
      }
    }
    if currentToken != "" {
      tokens := tokens + [Classify(currentToken)];
    }
  }

  lemma {:induction false} ScanWord(pending: string, word: string, rest: string)
    requires NoBoundary(word)
    ensures ScanFrom(pending, word + rest) == ScanFrom(pending + word, rest)
    decreases |word|
  {
    if word == [] {
      assert word + rest == rest && pending + word == pending;
    } else {
      assert (word + rest)[0] == word[0] && (word + rest)[1..] == word[1..] + rest;
      ScanWord(pending + [word[0]], word[1..], rest);
      assert pending + [word[0]] + word[1..] == pending + word;
    }
  }

  /** A run of non-boundary characters followed by a boundary character
      becomes one token, followed by the boundary's own token unless it is a
      space; the sweep then starts afresh. */
  lemma WordThenBoundary(word: string, b: char, rest: string)
    requires NoBoundary(word) && IsBoundary(b)
    ensures ScanFrom([], word + [b] + rest) == Flush(word) + Separator(b) + ScanFrom([], rest)
  {
    assert word + [b] + rest == word + ([b] + rest);
    ScanWord([], word, [b] + rest);
    BoundaryStep([], word, b, rest);
    assert [] + word == word;
  }

  /** A line made of one run of non-boundary characters is one token. */
  lemma SingleWord(word: string)
    requires NoBoundary(word)
    ensures Tokenize(word) == Flush(word)
  {
    ScanWord([], word, []);
    assert word + [] == word && [] + word == word;
  }

  /** The lexemes of a token sequence, concatenated in order. */
  function Lexemes(ts: seq<Token>): (s: string) {
    if ts == [] then [] else ts[0].lexeme + Lexemes(ts[1..])
  }

  /** A string with every plain space removed. */
  function RemoveSpaces(s: string): (r: string) {
    if s == [] then [] else (if s[0] == ' ' then [] else [s[0]]) + RemoveSpaces(s[1..])
  }

  /** The boundary characters of a string other than plain spaces, in order. */
  function SeparatorsOf(s: string): (r: string) {
    if s == [] then [] else (if IsBoundary(s[0]) && s[0] != ' ' then [s[0]] else []) + SeparatorsOf(s[1..])
  }

  /** The lexemes of the separator tokens of a token sequence, in order. */
  function Separators(ts: seq<Token>): (s: string) {
    if ts == [] then [] else (if IsSeparator(ts[0].lexeme) then ts[0].lexeme else []) + Separators(ts[1..])
  }

  lemma {:induction false} LexemesAppend(a: seq<Token>, b: seq<Token>)
    ensures Lexemes(a + b) == Lexemes(a) + Lexemes(b)
  {
    if a == [] {
      assert a + b == b;
    } else {
      assert (a + b)[1..] == a[1..] + b;
      LexemesAppend(a[1..], b);
    }
  }

  lemma {:induction false} SeparatorsAppend(a: seq<Token>, b: seq<Token>)
    ensures Separators(a + b) == Separators(a) + Separators(b)
  {
    if a == [] {
      assert a + b == b;
    } else {
      assert (a + b)[1..] == a[1..] + b;
      SeparatorsAppend(a[1..], b);
    }
  }

  lemma LexemesFlush(pending: string)
    ensures Lexemes(Flush(pending)) == pending
  {
    if pending != [] {
      assert Lexemes(Flush(pending)) == pending + Lexemes([]);
    }
  }

  lemma LexemesSeparator(c: char)
    ensures Lexemes(Separator(c)) == if c == ' ' then [] else [c]
  {
    if c != ' ' {
      assert Lexemes(Separator(c)) == [c] + Lexemes([]);
    }
  }

  lemma {:induction false} ScanFromLexemes(pending: string, rest: string)
    ensures Lexemes(ScanFrom(pending, rest)) == pending + RemoveSpaces(rest)
    decreases |rest|
  {
    if rest == [] {
      LexemesFlush(pending);
    } else if IsBoundary(rest[0]) {
      var c, tail := rest[0], rest[1..];
      calc {
        Lexemes(ScanFrom(pending, rest));
        Lexemes(Flush(pending) + Separator(c) + ScanFrom([], tail));
        { LexemesAppend(Flush(pending) + Separator(c), ScanFrom([], tail));
          LexemesAppend(Flush(pending), Separator(c)); }
        Lexemes(Flush(pending)) + Lexemes(Separator(c)) + Lexemes(ScanFrom([], tail));
        { LexemesFlush(pending); LexemesSeparator(c); ScanFromLexemes([], tail); }
        pending + (if c == ' ' then [] else [c]) + RemoveSpaces(tail);
      }
    } else {
      ScanFromLexemes(pending + [rest[0]], rest[1..]);
    }
  }

  /** Round trip: the lexemes of the tokens, concatenated in order, give back
      the line without its plain spaces. */
  lemma LexemesRoundTrip(input: string)
    ensures Lexemes(Tokenize(input)) == RemoveSpaces(input)
  {
    ScanFromLexemes([], input);
  }

  lemma {:induction false} ScanFromShape(pending: string, rest: string)
    requires NoBoundary(pending)
    ensures forall t | t in ScanFrom(pending, rest) ::
              |t.lexeme| > 0 && t.kind == GetTokenType(t.lexeme)
              && (IsSeparator(t.lexeme) || NoBoundary(t.lexeme))
    decreases |rest|
  {
    if rest != [] {
      if IsBoundary(rest[0]) {
        ScanFromShape([], rest[1..]);
      } else {
        ScanFromShape(pending + [rest[0]], rest[1..]);
      }
    }
  }

  /** Every token is non-empty, carries the category of its lexeme, and is
      either a single boundary character other than a space or a lexeme that
      holds no boundary character at all. */
  lemma TokenShape(input: string)
    ensures forall t | t in Tokenize(input) ::
              |t.lexeme| > 0 && t.kind == GetTokenType(t.lexeme)
              && (IsSeparator(t.lexeme) || NoBoundary(t.lexeme))
  {
    ScanFromShape([], input);
  }

  lemma SeparatorKind(lexeme: string)
    requires IsSeparator(lexeme)
    ensures GetTokenType(lexeme)
            == if lexeme[0] in "(){}" then Delimiter else if lexeme[0] == ';' then Semicolon else Unknown
  {
    ClassificationTable(lexeme);
  }

  /** A separator token is a Delimiter for `( ) { }`, a Semicolon for `;`,
      and Unknown for every whitespace character other than a space. */
  lemma SeparatorKinds(input: string)
    ensures forall t | t in Tokenize(input) && IsSeparator(t.lexeme) ::
              t.kind == if t.lexeme[0] in "(){}" then Delimiter
                        else if t.lexeme[0] == ';' then Semicolon
                        else Unknown
  {
    TokenShape(input);
    forall t | t in Tokenize(input) && IsSeparator(t.lexeme)
      ensures t.kind == if t.lexeme[0] in "(){}" then Delimiter
                        else if t.lexeme[0] == ';' then Semicolon
                        else Unknown
    {
      SeparatorKind(t.lexeme);
    }
  }

  lemma {:induction false} ScanFromSeparators(pending: string, rest: string)
    requires NoBoundary(pending)
    ensures Separators(ScanFrom(pending, rest)) == SeparatorsOf(rest)
    decreases |rest|
  {
    if rest == [] {
    } else if IsBoundary(rest[0]) {
      var sep := Separator(rest[0]);
      SeparatorsAppend(Flush(pending) + sep, ScanFrom([], rest[1..]));
      SeparatorsAppend(Flush(pending), sep);
      ScanFromSeparators([], rest[1..]);
    } else {
      ScanFromSeparators(pending + [rest[0]], rest[1..]);
    }
  }

  /** Every occurrence of `( ) { } ;` and of a whitespace character other than
      a space becomes a one-character token of its own, in input order. */
  lemma SeparatorTokens(input: string)
    ensures Separators(Tokenize(input)) == SeparatorsOf(input)
  {
    ScanFromSeparators([], input);
  }

  lemma {:induction false} ScanFromLength(pending: string, rest: string)
    ensures |ScanFrom(pending, rest)| <= |rest| + (if pending == [] then 0 else 1)
    decreases |rest|
  {
    if rest != [] {
      if IsBoundary(rest[0]) {
        ScanFromLength([], rest[1..]);
      } else {
        ScanFromLength(pending + [rest[0]], rest[1..]);
      }
    }
  }

  /** There are never more tokens than input characters. */
  lemma TokenCount(input: string)
    ensures |Tokenize(input)| <= |input|
  {
    ScanFromLength([], input);
  }

  /** A line of at most `MaxTokens` characters fits the caller's token array. */
  lemma FitsTokenArray(input: string)
    requires |input| <= MaxTokens
    ensures |Tokenize(input)| <= MaxTokens
  {
    TokenCount(input);
  }

  lemma {:induction false} RemoveSpacesEmpty(s: string)
    ensures RemoveSpaces(s) == [] <==> forall k | 0 <= k < |s| :: s[k] == ' '
  {
    if s != [] {
      RemoveSpacesEmpty(s[1..]);
      assert forall k | 1 <= k < |s| :: s[k] == s[1..][k - 1];
    }
  }

  lemma LexemesEmpty(ts: seq<Token>)
    requires forall t | t in ts :: |t.lexeme| > 0
    ensures Lexemes(ts) == [] <==> ts == []
  {
  }

  /** A line yields no token exactly when it is empty or made only of spaces. */
  lemma NoTokens(input: string)
    ensures Tokenize(input) == [] <==> forall k | 0 <= k < |input| :: input[k] == ' '
  {
    LexemesRoundTrip(input);
    TokenShape(input);
    LexemesEmpty(Tokenize(input));
    RemoveSpacesEmpty(input);
  }
}
