/** The values the delimiter/quote/comment validator works with: the three
    kinds of delimiters, what one character says about delimiters, and the
    closed set of validation outcomes. */
module ValidationTypes {

  /** Parentheses, brackets and braces. */
  datatype Delimiter = Parenthesis | Bracket | Brace

  /** What one character of the input means for the delimiter stack. */
  datatype ParsedDelimiter =
    | NotDelimiter
    | Opening(kind: Delimiter)
    | Closing(kind: Delimiter)

  /** Classifies a character: `(`, `[`, `{` open, `)`, `]`, `}` close, each
      pair with its own kind; every other character is no delimiter. */
  function ParseDelimiter(c: char): (r: ParsedDelimiter)
    ensures r.NotDelimiter? <==> c !in "([{)]}"
    ensures r.Opening? <==> c in "([{"
    ensures r.Closing? <==> c in ")]}"
    ensures !r.NotDelimiter? ==>
      && (r.kind == Parenthesis <==> c in "()")
      && (r.kind == Bracket <==> c in "[]")
      && (r.kind == Brace <==> c in "{}")
  {
    match c
    case '(' => Opening(Parenthesis)
    case '[' => Opening(Bracket)
    case '{' => Opening(Brace)
    case ')' => Closing(Parenthesis)
    case ']' => Closing(Bracket)
    case '}' => Closing(Brace)
    case _ => NotDelimiter
  }

  /** The character that closes a delimiter of the given kind; parsing it
      gives back that kind as a closer. */
  function ClosingDelimiterToCharacter(d: Delimiter): (c: char)
    ensures ParseDelimiter(c) == Closing(d)
  {
    match d
    case Parenthesis => ')'
    case Bracket => ']'
    case Brace => '}'
  }

  /** The character that opens a delimiter of the given kind. */
  function OpeningDelimiterToCharacter(d: Delimiter): (c: char)
    ensures ParseDelimiter(c) == Opening(d)
  {
    match d
    case Parenthesis => '('
    case Bracket => '['
    case Brace => '{'
  }

  /** Every closing character is the character of the kind it closes. */
  lemma ClosingCharacterRoundTrip(c: char)
    requires ParseDelimiter(c).Closing?
    ensures ClosingDelimiterToCharacter(ParseDelimiter(c).kind) == c
  {
  }

  /** Outcome of one validation run: success or exactly one error, with only
      the data that error carries. Lines and columns are 1-based. */
  datatype ValidationResult =
    | Success
    | ExtraClosingDelimiter(extra: Delimiter, line: int, column: int)
    | WrongDelimiter(expected: Delimiter, actual: Delimiter, line: int, column: int)
    | UnmatchedDelimiters(count: int)
    | UnterminatedQuote(isSingleQuote: bool)
    | UnterminatedBlockComment

  /** Two results are equal when they are the same variant and agree on the
      fields that variant carries. */
  function AreValidationResultsEqual(left: ValidationResult, right: ValidationResult): (equal: bool)
    ensures equal <==> left == right
  {
    match (left, right)
    case (Success, Success) => true
    case (ExtraClosingDelimiter(d1, l1, c1), ExtraClosingDelimiter(d2, l2, c2)) =>
      l1 == l2 && c1 == c2 && d1 == d2
    case (WrongDelimiter(e1, a1, l1, c1), WrongDelimiter(e2, a2, l2, c2)) =>
      l1 == l2 && c1 == c2 && a1 == a2 && e1 == e2
    case (UnmatchedDelimiters(n1), UnmatchedDelimiters(n2)) => n1 == n2
    case (UnterminatedQuote(q1), UnterminatedQuote(q2)) => q1 == q2
    case (UnterminatedBlockComment, UnterminatedBlockComment) => true
    case _ => false
  }
}
