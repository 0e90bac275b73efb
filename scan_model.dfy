/** The validator as values: one step of its loop as a function from state
    and character to the next state (or to the error that stops the scan),
    the scan of a whole text as repeated steps, and the end-of-input
    priority. The imperative validator in module Validator is proved to
    compute exactly `Validation`. */
module ScanModel {
  import opened ValidationTypes

  /** Everything the validator tracks besides the delimiter stack.
      `lineCommentMachine` counts consecutive '/' seen outside comments;
      `blockCommentMachine` is 1 after a '/' outside a comment or after a
      '*' inside a block comment, 0 otherwise. Inside a literal neither
      machine is updated, so both keep the values they had when the
      literal opened (after `/"` both stay 1 until the literal closes and
      the next character resets them). */
  datatype Tracking = Tracking(
    line: int,
    column: int,
    inQuotes: bool,
    inSingleQuotes: bool,
    escaped: bool,
    inComment: bool,
    inLineComment: bool,
    lineCommentMachine: int,
    blockCommentMachine: int)

  /** Line and column 1, outside quotes and comments. The quote kind is
      never read before a quote opens; it starts as false. */
  const InitialTracking := Tracking(1, 1, false, false, false, false, false, 0, 0)

  /** Facts that hold in every state the validator reaches: positions are
      1-based, the opener machines hold 0 or 1, and a comment excludes
      both an open quote and a pending escape. */
  predicate Consistent(t: Tracking) {
    && t.line >= 1
    && t.column >= 1
    && 0 <= t.lineCommentMachine <= 1
    && 0 <= t.blockCommentMachine <= 1
    && (t.lineCommentMachine == 1 ==> t.blockCommentMachine == 1)
    && (t.inComment ==> !t.inQuotes && !t.escaped && t.lineCommentMachine == 0)
  }

  /** A newline starts the next line at column 1; every other character
      moves one column to the right. */
  function AdvancePosition(t: Tracking, c: char): (r: Tracking)
    ensures r.(line := t.line, column := t.column) == t
    ensures r.line == t.line + (if c == '\n' then 1 else 0)
  {
    if c == '\n' then t.(line := t.line + 1, column := 1)
    else t.(column := t.column + 1)
  }

  /** A quote character that is not escaped opens a literal, or closes the
      one it opened; then the escape flag is set by an unescaped backslash
      and cleared by anything else. */
  function UpdateQuotes(t: Tracking, c: char): (r: Tracking)
    ensures r.(inQuotes := t.inQuotes, inSingleQuotes := t.inSingleQuotes, escaped := t.escaped) == t
    ensures r.inQuotes != t.inQuotes ==> (c == '"' || c == '\'') && !t.escaped
    ensures t.inQuotes && r.inQuotes ==> r.inSingleQuotes == t.inSingleQuotes
    ensures !t.inQuotes && r.inQuotes ==> r.inSingleQuotes == (c == '\'')
    ensures r.escaped <==> c == '\\' && !t.escaped
  {
    var toggles := (c == '"' || c == '\'') && !t.escaped
                   && (!t.inQuotes || (c == '\'') == t.inSingleQuotes);
    var quoted :=
      if !toggles then t
      else if t.inQuotes then t.(inQuotes := false)
      else t.(inQuotes := true, inSingleQuotes := c == '\'');
    quoted.(escaped := c == '\\' && !t.escaped)
  }

  /** Outside a comment: '/' counts towards a line-comment opener and
      arms the block-comment opener, '*' completes an armed block-comment
      opener, anything else disarms both; a completed opener enters the
      comment. In a line comment: a newline leaves it.
      In a block comment: '*' arms the closer, '/' right after it leaves
      the comment, anything else disarms it. */
  function UpdateComments(t: Tracking, c: char): (r: Tracking)
    ensures r.(inComment := t.inComment, inLineComment := t.inLineComment,
               lineCommentMachine := t.lineCommentMachine,
               blockCommentMachine := t.blockCommentMachine) == t
    ensures !t.inComment && r.inComment ==> c == '/' || c == '*'
    ensures !t.inComment && c != '/' && c != '*' ==>
              !r.inComment && r.lineCommentMachine == 0 && r.blockCommentMachine == 0
    ensures t.inComment && !r.inComment ==> c == if t.inLineComment then '\n' else '/'
  {
    if !t.inComment then
      var lineMachine :=
        if c == '/' then t.lineCommentMachine + 1
        else if c == '*' then t.lineCommentMachine
        else 0;
      var blockMachine :=
        if c == '/' then 1
        else if c == '*' then (if t.blockCommentMachine == 1 then 2 else t.blockCommentMachine)
        else 0;
      if lineMachine == 2 then
        t.(inComment := true, inLineComment := true, lineCommentMachine := 0, blockCommentMachine := 0)
      else if blockMachine == 2 then
        t.(inComment := true, inLineComment := false, lineCommentMachine := 0, blockCommentMachine := 0)
      else
        t.(lineCommentMachine := lineMachine, blockCommentMachine := blockMachine)
    else if t.inLineComment then
      if c == '\n' then t.(inComment := false) else t
    else
      var blockMachine :=
        if c == '*' then 1
        else if c == '/' && t.blockCommentMachine == 1 then 2
        else 0;
      if blockMachine == 2 then t.(inComment := false, blockCommentMachine := 0)
      else t.(blockCommentMachine := blockMachine)
  }

  /** The tracking update for one character: position first, then quotes
      and escapes unless in a comment, then comments unless (now) in a
      quote. It keeps the state consistent. */
  function Track(t: Tracking, c: char): (r: Tracking)
    ensures Consistent(t) ==> Consistent(r)
  {
    var positioned := AdvancePosition(t, c);
    var quoted := if !positioned.inComment then UpdateQuotes(positioned, c) else positioned;
    if !quoted.inQuotes then UpdateComments(quoted, c) else quoted
  }

  /** The state of a scan: the open delimiters, innermost last, and the
      tracking information. */
  datatype ScanState = ScanState(stack: seq<Delimiter>, tracking: Tracking)

  const Initial := ScanState([], InitialTracking)

  /** A scan either goes on with a new state or has stopped with an error. */
  datatype Progress = Scanning(state: ScanState) | Stopped(result: ValidationResult)

  /** One iteration of the validator's loop for the character `c`. Outside
      quotes and comments an opener is pushed, and a closer is checked
      against the stack at the position of `c` itself, before the position
      moves on; a closer with nothing open, or of the wrong kind, stops the
      scan. Otherwise the tracking information is updated. */
  function Step(st: ScanState, c: char): Progress {
    var t := st.tracking;
    if !t.inQuotes && !t.inComment then
      match ParseDelimiter(c)
      case NotDelimiter => Scanning(ScanState(st.stack, Track(t, c)))
      case Opening(d) => Scanning(ScanState(st.stack + [d], Track(t, c)))
      case Closing(d) =>
        if |st.stack| == 0 then Stopped(ExtraClosingDelimiter(d, t.line, t.column))
        else if st.stack[|st.stack| - 1] != d then
          Stopped(WrongDelimiter(st.stack[|st.stack| - 1], d, t.line, t.column))
        else Scanning(ScanState(st.stack[..|st.stack| - 1], Track(t, c)))
    else
      Scanning(ScanState(st.stack, Track(t, c)))
  }

  /** The scan of `s` from `st`, one character at a time, left to right;
      once stopped it stays stopped. */
  function Run(st: ScanState, s: seq<char>): Progress
    decreases |s|
  {
    if s == [] then Scanning(st)
    else
      match Run(st, s[..|s| - 1])
      case Stopped(r) => Stopped(r)
      case Scanning(before) => Step(before, s[|s| - 1])
  }

  /** The checks after the whole input, in priority order: open delimiters,
      then an open quote, then an open block comment. A line comment still
      open at the end is no error. */
  function Finish(st: ScanState): (r: ValidationResult)
    ensures !r.ExtraClosingDelimiter? && !r.WrongDelimiter?
    ensures r == Success <==>
      && st.stack == []
      && !st.tracking.inQuotes
      && !(st.tracking.inComment && !st.tracking.inLineComment)
    ensures r.UnmatchedDelimiters? ==> r.count == |st.stack| > 0
    ensures st.stack != [] ==> r == UnmatchedDelimiters(|st.stack|)
    ensures st.stack == [] && st.tracking.inQuotes ==> r == UnterminatedQuote(st.tracking.inSingleQuotes)
    ensures st.stack == [] && !st.tracking.inQuotes && st.tracking.inComment && !st.tracking.inLineComment
            ==> r == UnterminatedBlockComment
  {
    if |st.stack| != 0 then UnmatchedDelimiters(|st.stack|)
    else if st.tracking.inQuotes then UnterminatedQuote(st.tracking.inSingleQuotes)
    else if st.tracking.inComment && !st.tracking.inLineComment then UnterminatedBlockComment
    else Success
  }

  /** The result of validating `source`. */
  function Validation(source: seq<char>): ValidationResult {
    match Run(Initial, source)
    case Stopped(r) => r
    case Scanning(st) => Finish(st)
  }

  /** Scanning a concatenation is scanning the first part, then (if it did
      not stop) the second part from where the first left off. */
  lemma {:induction false} RunAppend(st: ScanState, a: seq<char>, b: seq<char>)
    ensures Run(st, a + b) == match Run(st, a)
                              case Stopped(r) => Stopped(r)
                              case Scanning(mid) => Run(mid, b)
    decreases |b|
  {
    if b == [] {
      assert a + b == a;
    } else {
      assert (a + b)[..|a + b| - 1] == a + b[..|b| - 1];
      assert (a + b)[|a + b| - 1] == b[|b| - 1];
      RunAppend(st, a, b[..|b| - 1]);
    }
  }

  /** A scan that stopped in a prefix ignores everything after it. */
  lemma StoppedIsFinal(st: ScanState, a: seq<char>, b: seq<char>)
    requires Run(st, a).Stopped?
    ensures Run(st, a + b) == Run(st, a)
  {
    RunAppend(st, a, b);
  }

  /** The tracking information evolves by `Track` whatever the stack does. */
  function TrackAll(t: Tracking, s: seq<char>): Tracking
    decreases |s|
  {
    if s == [] then t else Track(TrackAll(t, s[..|s| - 1]), s[|s| - 1])
  }

  lemma {:induction false} RunTracking(st: ScanState, s: seq<char>)
    requires Run(st, s).Scanning?
    ensures Run(st, s).state.tracking == TrackAll(st.tracking, s)
    decreases |s|
  {
    if s != [] {
      RunTracking(st, s[..|s| - 1]);
    }
  }
}
