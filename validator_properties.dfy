/** What the validator guarantees, stated over the scan model: reachable
    states are consistent, errors carry the true coordinates of the
    offending character, the first hard error decides the result, nested
    delimiters balance, escapes follow backslash parity, and quotes and
    comments hide delimiters. */
module ValidatorProperties {
  import opened ValidationTypes
  import opened ScanModel
  import opened Repetition

  // ---------------------------------------------------------------------
  // Tracking over a text

  /** Every state reached from a consistent one is consistent. */
  lemma {:induction false} TrackAllConsistent(t: Tracking, s: seq<char>)
    requires Consistent(t)
    ensures Consistent(TrackAll(t, s))
    decreases |s|
  {
    if s != [] {
      TrackAllConsistent(t, s[..|s| - 1]);
    }
  }

  /** Every state the validator reaches has 1-based positions, opener
      machines at 0 or 1, and never a comment together with a quote or a
      pending escape. */
  lemma ReachableIsConsistent(s: seq<char>)
    requires Run(Initial, s).Scanning?
    ensures Consistent(Run(Initial, s).state.tracking)
  {
    RunTracking(Initial, s);
    TrackAllConsistent(InitialTracking, s);
  }

  // ---------------------------------------------------------------------
  // Positions

  /** Index just after the last newline of `s`, or 0 when there is none:
      where the current line starts. */
  function LineStart(s: seq<char>): (k: nat)
    ensures k <= |s|
    ensures k == 0 || s[k - 1] == '\n'
    ensures '\n' !in s[k..]
    decreases |s|
  {
    if s == [] then 0
    else if s[|s| - 1] == '\n' then |s|
    else
      var k := LineStart(s[..|s| - 1]);
      assert s[k..] == s[..|s| - 1][k..] + [s[|s| - 1]];
      k
  }

  /** Only the position part of the tracking update moves line and column. */
  lemma TrackPosition(t: Tracking, c: char)
    ensures Track(t, c).line == if c == '\n' then t.line + 1 else t.line
    ensures Track(t, c).column == if c == '\n' then 1 else t.column + 1
  {
    var positioned := AdvancePosition(t, c);
    var quoted := if !positioned.inComment then UpdateQuotes(positioned, c) else positioned;
    assert quoted.line == positioned.line && quoted.column == positioned.column;
  }

  /** One more character: the newline count and the start of the line. */
  lemma CountStep(s: seq<char>)
    requires s != []
    ensures multiset(s)['\n'] == multiset(s[..|s| - 1])['\n'] + (if s[|s| - 1] == '\n' then 1 else 0)
    ensures LineStart(s) == if s[|s| - 1] == '\n' then |s| else LineStart(s[..|s| - 1])
  {
    assert s == s[..|s| - 1] + [s[|s| - 1]];
    assert multiset(s) == multiset(s[..|s| - 1]) + multiset{s[|s| - 1]};
  }

  /** After reading `s` the line is one more than its newlines and the
      column one more than the characters since the last newline. */
  lemma {:induction false} TrackAllPosition(s: seq<char>)
    ensures TrackAll(InitialTracking, s).line == 1 + multiset(s)['\n']
    ensures TrackAll(InitialTracking, s).column == 1 + |s| - LineStart(s)
    decreases |s|
  {
    if s != [] {
      var p := s[..|s| - 1];
      TrackAllPosition(p);
      TrackPosition(TrackAll(InitialTracking, p), s[|s| - 1]);
      CountStep(s);
    }
  }

  // ---------------------------------------------------------------------
  // Hard stops

  /** A stopped scan stopped at one character: the scan of the text before
      it was still going, and the step for it stopped. */
  lemma {:induction false} StopIndex(st: ScanState, s: seq<char>) returns (k: nat)
    requires Run(st, s).Stopped?
    ensures k < |s|
    ensures Run(st, s[..k]).Scanning?
    ensures Step(Run(st, s[..k]).state, s[k]) == Run(st, s)
    decreases |s|
  {
    var p := s[..|s| - 1];
    if Run(st, p).Stopped? {
      k := StopIndex(st, p);
      assert p[..k] == s[..k] && p[k] == s[k];
    } else {
      k := |s| - 1;
      assert s[..k] == p;
    }
  }

  /** An extra closer is reported at its own line and column, counted from
      1; it was read as code, outside literals and comments, and nothing
      was open when it came. */
  lemma ExtraClosingDelimiterPosition(s: seq<char>) returns (k: nat)
    requires Validation(s).ExtraClosingDelimiter?
    ensures k < |s|
    ensures s[k] == ClosingDelimiterToCharacter(Validation(s).extra)
    ensures Validation(s).line == 1 + multiset(s[..k])['\n']
    ensures Validation(s).column == 1 + k - LineStart(s[..k])
    ensures Run(Initial, s[..k]).Scanning? && Run(Initial, s[..k]).state.stack == []
    ensures !Hidden(Run(Initial, s[..k]).state.tracking)
  {
    assert Run(Initial, s).Stopped?;
    k := StopIndex(Initial, s);
    RunTracking(Initial, s[..k]);
    TrackAllPosition(s[..k]);
    ClosingCharacterRoundTrip(s[k]);
  }

  /** A closer of the wrong kind is reported at its own line and column,
      with the innermost open delimiter as the expected kind; it was read
      as code, outside literals and comments. */
  lemma WrongDelimiterPosition(s: seq<char>) returns (k: nat)
    requires Validation(s).WrongDelimiter?
    ensures k < |s|
    ensures s[k] == ClosingDelimiterToCharacter(Validation(s).actual)
    ensures Validation(s).line == 1 + multiset(s[..k])['\n']
    ensures Validation(s).column == 1 + k - LineStart(s[..k])
    ensures Run(Initial, s[..k]).Scanning?
    ensures !Hidden(Run(Initial, s[..k]).state.tracking)
    ensures var open := Run(Initial, s[..k]).state.stack;
            open != [] && open[|open| - 1] == Validation(s).expected != Validation(s).actual
  {
    assert Run(Initial, s).Stopped?;
    k := StopIndex(Initial, s);
    RunTracking(Initial, s[..k]);
    TrackAllPosition(s[..k]);
    ClosingCharacterRoundTrip(s[k]);
  }

  /** Only closers stop the scan; the other four results come from the
      checks after the whole input. */
  lemma {:induction false} StopsAreClosingErrors(st: ScanState, s: seq<char>)
    requires Run(st, s).Stopped?
    ensures Run(st, s).result.ExtraClosingDelimiter? || Run(st, s).result.WrongDelimiter?
    decreases |s|
  {
    if Run(st, s[..|s| - 1]).Stopped? {
      StopsAreClosingErrors(st, s[..|s| - 1]);
    }
  }

  /** The first hard error decides the result: whatever follows it is never
      looked at. */
  lemma FirstErrorWins(a: seq<char>, b: seq<char>)
    requires Run(Initial, a).Stopped?
    ensures Validation(a + b) == Validation(a)
  {
    StoppedIsFinal(Initial, a, b);
  }

  // ---------------------------------------------------------------------
  // Delimiters outside quotes and comments

  /** Outside quotes and comments, with no comment opener half read. */
  predicate Quiet(t: Tracking) {
    !t.inQuotes && !t.inComment && t.lineCommentMachine == 0 && t.blockCommentMachine == 0
  }

  /** A character that is neither a quote, nor '/', nor a delimiter. */
  predicate Filler(c: char) {
    ParseDelimiter(c).NotDelimiter? && c != '\'' && c != '"' && c != '/'
  }

  /** Delimiters and filler keep the scanner outside quotes and comments. */
  lemma QuietStaysQuiet(t: Tracking, c: char)
    requires Quiet(t)
    requires c != '\'' && c != '"' && c != '/'
    ensures Quiet(Track(t, c))
  {
  }

  /** In that state, with no escape pending, a character that is no quote,
      no backslash and no comment character only moves the position. */
  lemma QuietTrack(t: Tracking, c: char)
    requires Quiet(t) && !t.escaped
    requires c != '\'' && c != '"' && c != '\\' && c != '/' && c != '*'
    ensures Track(t, c) == AdvancePosition(t, c)
  {
  }

  /** A '/' followed by anything but '/' or '*' (a division, or "/ *")
      opens no comment: the next character disarms both opener machines
      and leaves the scanner outside quotes and comments. */
  lemma LoneSlash(t: Tracking, c: char)
    requires Quiet(t) && !t.escaped
    requires c != '/' && c != '*' && c != '\'' && c != '"'
    ensures !Track(t, '/').inComment
    ensures Quiet(Track(Track(t, '/'), c))
  {
  }

  /** A well-nested text: filler characters and groups of a delimiter pair
      around well-nested text. */
  datatype Nesting = Text(c: char) | Group(kind: Delimiter, body: seq<Nesting>)

  predicate WellFormed(n: Nesting)
    decreases n
  {
    match n
    case Text(c) => Filler(c)
    case Group(_, body) => forall i :: 0 <= i < |body| ==> WellFormed(body[i])
  }

  function FlattenOne(n: Nesting): seq<char>
    decreases n
  {
    match n
    case Text(c) => [c]
    case Group(k, body) =>
      [OpeningDelimiterToCharacter(k)] + Flatten(body) + [ClosingDelimiterToCharacter(k)]
  }

  function Flatten(ns: seq<Nesting>): seq<char>
    decreases ns
  {
    if ns == [] then [] else FlattenOne(ns[0]) + Flatten(ns[1..])
  }

  /** Scanning a well-nested group pushes and pops back to the same stack. */
  lemma {:induction false} BalancedOne(st: ScanState, n: Nesting)
    requires Quiet(st.tracking) && WellFormed(n)
    ensures Run(st, FlattenOne(n)).Scanning?
    ensures Run(st, FlattenOne(n)).state.stack == st.stack
    ensures Quiet(Run(st, FlattenOne(n)).state.tracking)
    decreases n
  {
    match n
    case Text(c) =>
      assert [c][..0] == [];
    case Group(k, body) =>
      var open := [OpeningDelimiterToCharacter(k)];
      var close := [ClosingDelimiterToCharacter(k)];
      assert open[..0] == [] && close[..0] == [];
      var afterOpen := Step(st, open[0]).state;
      assert Run(st, open) == Scanning(afterOpen);
      assert afterOpen.stack == st.stack + [k];
      QuietStaysQuiet(st.tracking, open[0]);
      forall i | 0 <= i < |body|
        ensures body[i] < n
      {
      }
      BalancedMany(afterOpen, body, n);
      var afterBody := Run(afterOpen, Flatten(body)).state;
      assert Run(afterBody, close) == Step(afterBody, close[0]);
      QuietStaysQuiet(afterBody.tracking, close[0]);
      RunAppend(st, open, Flatten(body));
      assert Run(st, open + Flatten(body)) == Scanning(afterBody);
      RunAppend(st, open + Flatten(body), close);
      assert FlattenOne(n) == (open + Flatten(body)) + close;
  }

  lemma {:induction false} BalancedMany(st: ScanState, ns: seq<Nesting>, parent: Nesting)
    requires Quiet(st.tracking)
    requires forall i :: 0 <= i < |ns| ==> WellFormed(ns[i]) && ns[i] < parent
    ensures Run(st, Flatten(ns)).Scanning?
    ensures Run(st, Flatten(ns)).state.stack == st.stack
    ensures Quiet(Run(st, Flatten(ns)).state.tracking)
    decreases parent, |ns|
  {
    if ns != [] {
      BalancedOne(st, ns[0]);
      var mid := Run(st, FlattenOne(ns[0])).state;
      BalancedMany(mid, ns[1..], parent);
      RunAppend(st, FlattenOne(ns[0]), Flatten(ns[1..]));
    }
  }

  /** Well-nested delimiters with filler between them validate. */
  lemma BalancedIsSuccess(ns: seq<Nesting>)
    requires forall i :: 0 <= i < |ns| ==> WellFormed(ns[i])
    ensures Validation(Flatten(ns)) == Success
  {
    BalancedMany(Initial, ns, Group(Parenthesis, ns));
  }

  /** Every character opens a delimiter. */
  predicate AllOpening(s: seq<char>) {
    forall i :: 0 <= i < |s| ==> ParseDelimiter(s[i]).Opening?
  }

  /** The kinds the openers of `s` open, in order. */
  function OpenedKinds(s: seq<char>): (kinds: seq<Delimiter>)
    requires AllOpening(s)
    ensures |kinds| == |s|
    ensures forall i :: 0 <= i < |s| ==> kinds[i] == ParseDelimiter(s[i]).kind
    decreases |s|
  {
    if s == [] then [] else OpenedKinds(s[..|s| - 1]) + [ParseDelimiter(s[|s| - 1]).kind]
  }

  /** Openers alone are all kept, in order, on the stack. */
  lemma {:induction false} OpenersStack(s: seq<char>)
    requires AllOpening(s)
    ensures Run(Initial, s).Scanning?
    ensures Run(Initial, s).state.stack == OpenedKinds(s)
    ensures Quiet(Run(Initial, s).state.tracking)
    decreases |s|
  {
    if s != [] {
      var p := s[..|s| - 1];
      assert AllOpening(p);
      OpenersStack(p);
      QuietStaysQuiet(Run(Initial, p).state.tracking, s[|s| - 1]);
    }
  }

  /** n openers and nothing else leave n unmatched delimiters. */
  lemma OpenersAreUnmatched(s: seq<char>)
    requires AllOpening(s) && s != []
    ensures Validation(s) == UnmatchedDelimiters(|s|)
  {
    OpenersStack(s);
  }

  /** The stack effect of one character: inside a quote or a comment, and
      for a non-delimiter, none; an opener pushes its kind; a closer that
      does not stop the scan pops exactly the kind it closes. */
  lemma StepStack(st: ScanState, c: char)
    requires Step(st, c).Scanning?
    ensures var next := Step(st, c).state.stack;
            var p := ParseDelimiter(c);
            if Hidden(st.tracking) || p.NotDelimiter? then next == st.stack
            else if p.Opening? then next == st.stack + [p.kind]
            else next + [p.kind] == st.stack
  {
  }

  // ---------------------------------------------------------------------
  // Quotes and escapes

  /** Inside a quote and outside comments. */
  predicate InQuote(t: Tracking) {
    t.inQuotes && !t.inComment
  }

  /** A run of backslashes. */
  predicate Backslashes(s: seq<char>) {
    forall k :: 0 <= k < |s| ==> s[k] == '\\'
  }

  /** Inside a literal, each backslash flips the escape flag, so after a
      run of them the next character is escaped exactly when the run is
      odd (if it was not escaped before). */
  lemma {:induction false} BackslashParity(t: Tracking, s: seq<char>)
    requires InQuote(t) && !t.escaped && Backslashes(s)
    ensures var u := TrackAll(t, s);
            InQuote(u) && u.inSingleQuotes == t.inSingleQuotes && u.escaped == (|s| % 2 == 1)
    decreases |s|
  {
    if s != [] {
      var shorter := s[..|s| - 1];
      BackslashParity(t, shorter);
      BackslashStep(TrackAll(t, shorter));
      assert (|s| % 2 == 1) == (|shorter| % 2 == 0);
    }
  }

  /** Inside a literal a backslash flips the escape flag and changes
      nothing else about the literal. */
  lemma BackslashStep(t: Tracking)
    requires InQuote(t)
    ensures var u := Track(t, '\\');
            InQuote(u) && u.inSingleQuotes == t.inSingleQuotes && u.escaped == !t.escaped
  {
  }

  /** The quote that opened a literal closes it after an even run of
      backslashes, and is itself escaped after an odd run. */
  lemma QuoteAfterBackslashes(t: Tracking, s: seq<char>)
    requires InQuote(t) && !t.escaped && Backslashes(s)
    ensures var q := if t.inSingleQuotes then '\'' else '"';
            Track(TrackAll(t, s), q).inQuotes == (|s| % 2 == 1)
  {
    BackslashParity(t, s);
  }

  /** Outside literals and comments. */
  predicate Plain(t: Tracking) {
    !t.inQuotes && !t.inComment
  }

  /** Outside literals and comments a backslash flips the escape flag as
      well, and leaves the scanner outside them. */
  lemma PlainBackslashStep(t: Tracking)
    requires Plain(t)
    ensures var u := Track(t, '\\'); Plain(u) && u.escaped == !t.escaped
  {
  }

  /** Outside literals and comments, after a run of backslashes the next
      character is escaped exactly when the run is odd. */
  lemma {:induction false} PlainBackslashParity(t: Tracking, s: seq<char>)
    requires Plain(t) && !t.escaped && Backslashes(s)
    ensures var u := TrackAll(t, s); Plain(u) && u.escaped == (|s| % 2 == 1)
    decreases |s|
  {
    if s != [] {
      var shorter := s[..|s| - 1];
      PlainBackslashParity(t, shorter);
      PlainBackslashStep(TrackAll(t, shorter));
      assert (|s| % 2 == 1) == (|shorter| % 2 == 0);
    }
  }

  /** Outside literals, a quote after a run of backslashes opens a literal
      exactly when the run is even, and the literal records the kind of
      that quote; after an odd run the quote is escaped. */
  lemma QuoteOpensAfterBackslashes(t: Tracking, s: seq<char>, q: char)
    requires Plain(t) && !t.escaped && Backslashes(s)
    requires q == '"' || q == '\''
    ensures Track(TrackAll(t, s), q).inQuotes == (|s| % 2 == 0)
    ensures |s| % 2 == 0 ==> Track(TrackAll(t, s), q).inSingleQuotes == (q == '\'')
  {
    PlainBackslashParity(t, s);
  }

  /** Every character of `s` is seen inside a quote or a comment. */
  ghost predicate HiddenAll(t: Tracking, s: seq<char>) {
    forall k :: 0 <= k < |s| ==> Hidden(TrackAll(t, s[..k]))
  }

  predicate Hidden(t: Tracking) {
    t.inQuotes || t.inComment
  }

  /** Characters read inside quotes or comments never touch the stack and
      never stop the scan. */
  lemma {:induction false} HiddenRun(st: ScanState, s: seq<char>)
    requires HiddenAll(st.tracking, s)
    ensures Run(st, s) == Scanning(ScanState(st.stack, TrackAll(st.tracking, s)))
    decreases |s|
  {
    if s != [] {
      var p := s[..|s| - 1];
      forall k | 0 <= k < |p|
        ensures Hidden(TrackAll(st.tracking, p[..k]))
      {
        assert p[..k] == s[..k];
      }
      HiddenRun(st, p);
      assert Hidden(TrackAll(st.tracking, s[..|s| - 1]));
    }
  }

  /** An opening double quote, n backslashes and a closing double quote:
      the literal is closed after an even run and left open after an odd
      one. */
  lemma EscapedClosingQuote(n: nat)
    ensures Validation("\"" + Repeat('\\', n) + "\"")
         == if n % 2 == 0 then Success else UnterminatedQuote(false)
  {
    var open := Track(InitialTracking, '"');
    assert InQuote(open) && !open.escaped && !open.inSingleQuotes;
    var body := Repeat('\\', n);
    forall k | 0 <= k < |body|
      ensures Hidden(TrackAll(open, body[..k]))
    {
      BackslashParity(open, body[..k]);
    }
    HiddenRun(ScanState([], open), body);
    var inside := TrackAll(open, body);
    BackslashParity(open, body);
    QuoteAfterBackslashes(open, body);
    var last := Track(inside, '"');
    assert !last.inSingleQuotes && !last.inComment;
    RunOne(Initial, '"');
    RunOne(ScanState([], inside), '"');
    RunAppend(Initial, "\"", body);
    RunAppend(Initial, "\"" + body, "\"");
    assert Run(Initial, "\"" + body + "\"") == Scanning(ScanState([], last));
  }

  /** Scanning one character is one step. */
  lemma RunOne(st: ScanState, c: char)
    ensures Run(st, [c]) == Step(st, c)
  {
    assert [c][..0] == [];
  }

  /** A quote character `q` opens a literal; any text without `q` and
      without backslashes stays inside it, whatever delimiters it holds;
      a second `q` closes it. The stack is the same afterwards. */
  lemma QuoteHidesDelimiters(st: ScanState, q: char, body: seq<char>)
    requires q == '"' || q == '\''
    requires !st.tracking.inQuotes && !st.tracking.inComment && !st.tracking.escaped
    requires q !in body && '\\' !in body
    ensures var r := Run(st, [q] + body + [q]);
            r.Scanning? && r.state.stack == st.stack
            && !r.state.tracking.inQuotes && !r.state.tracking.inComment
  {
    RunOne(st, q);
    var open := ScanState(st.stack, Track(st.tracking, q));
    assert Step(st, q) == Scanning(open);
    forall k | 0 <= k <= |body|
      ensures LiteralAfter(q, TrackAll(open.tracking, body[..k]))
    {
      LiteralBody(open.tracking, q, body[..k]);
    }
    assert HiddenAll(open.tracking, body);
    HiddenRun(open, body);
    var inside := ScanState(st.stack, TrackAll(open.tracking, body));
    assert body[..|body|] == body;
    var last := Track(inside.tracking, q);
    CloseQuote(inside.tracking, q);
    RunOne(inside, q);
    RunAppend(st, [q], body);
    RunAppend(st, [q] + body, [q]);
    assert Run(st, [q] + body + [q]) == Scanning(ScanState(st.stack, last));
  }

  /** The quote that opened a literal, unescaped, closes it. */
  lemma CloseQuote(t: Tracking, q: char)
    requires q == '"' || q == '\''
    requires LiteralAfter(q, t)
    ensures !Track(t, q).inQuotes && !Track(t, q).inComment
  {
  }

  /** Inside a literal opened by `q`, not escaped. */
  predicate LiteralAfter(q: char, t: Tracking) {
    InQuote(t) && t.inSingleQuotes == (q == '\'') && !t.escaped
  }

  lemma {:induction false} LiteralBody(t: Tracking, q: char, body: seq<char>)
    requires q == '"' || q == '\''
    requires LiteralAfter(q, t)
    requires q !in body && '\\' !in body
    ensures LiteralAfter(q, TrackAll(t, body))
    decreases |body|
  {
    if body != [] {
      LiteralBody(t, q, body[..|body| - 1]);
    }
  }

  // ---------------------------------------------------------------------
  // Comments

  /** `s` holds no "*" immediately followed by "/". */
  predicate NoBlockCloser(s: seq<char>) {
    forall k :: 0 <= k < |s| - 1 ==> !(s[k] == '*' && s[k + 1] == '/')
  }

  predicate InBlockComment(t: Tracking) {
    t.inComment && !t.inLineComment && !t.inQuotes
  }

  /** Inside a block comment only "*" followed by "/" can end it; the closer
      machine remembers whether the last character was a '*'. */
  lemma {:induction false} BlockCommentBody(t: Tracking, body: seq<char>)
    requires InBlockComment(t) && t.blockCommentMachine == 0
    requires NoBlockCloser(body)
    ensures InBlockComment(TrackAll(t, body))
    ensures TrackAll(t, body).blockCommentMachine
         == if body != [] && body[|body| - 1] == '*' then 1 else 0
    decreases |body|
  {
    if body != [] {
      var p := body[..|body| - 1];
      assert NoBlockCloser(p) by {
        forall k | 0 <= k < |p| - 1
          ensures !(p[k] == '*' && p[k + 1] == '/')
        {
          assert p[k] == body[k] && p[k + 1] == body[k + 1];
        }
      }
      BlockCommentBody(t, p);
      if |body| >= 2 {
        assert !(body[|body| - 2] == '*' && body[|body| - 1] == '/');
      }
    }
  }

  /** A block comment hides every delimiter in it: after "/*", any text
      without a closer, and "*/", the stack is what it was before, and the
      scan is back outside comments. Without the closer the comment is
      still open. */
  lemma BlockCommentHidesDelimiters(st: ScanState, body: seq<char>)
    requires !st.tracking.inQuotes && !st.tracking.inComment && st.tracking.lineCommentMachine == 0
    requires NoBlockCloser(body)
    ensures var r := Run(st, "/*" + body);
            r.Scanning? && r.state.stack == st.stack && InBlockComment(r.state.tracking)
    ensures var r := Run(st, "/*" + body + "*/");
            r.Scanning? && r.state.stack == st.stack
            && !r.state.tracking.inComment && !r.state.tracking.inQuotes
  {
    RunOne(st, '/');
    var slash := Step(st, '/').state;
    RunOne(slash, '*');
    var open := Step(slash, '*').state;
    assert open.stack == st.stack && InBlockComment(open.tracking) && open.tracking.blockCommentMachine == 0;
    RunAppend(st, "/", "*");
    assert "/" + "*" == "/*";
    forall k | 0 <= k < |body|
      ensures Hidden(TrackAll(open.tracking, body[..k]))
    {
      assert NoBlockCloser(body[..k]) by {
        forall j | 0 <= j < k - 1
          ensures !(body[..k][j] == '*' && body[..k][j + 1] == '/')
        {
          assert body[..k][j] == body[j] && body[..k][j + 1] == body[j + 1];
        }
      }
      BlockCommentBody(open.tracking, body[..k]);
    }
    HiddenRun(open, body);
    BlockCommentBody(open.tracking, body);
    RunAppend(st, "/*", body);
    var inside := ScanState(st.stack, TrackAll(open.tracking, body));
    RunOne(inside, '*');
    var star := Step(inside, '*').state;
    RunOne(star, '/');
    RunAppend(inside, "*", "/");
    assert "*" + "/" == "*/";
    RunAppend(st, "/*" + body, "*/");
  }

  predicate InLineComment(t: Tracking) {
    t.inComment && t.inLineComment && !t.inQuotes
  }

  lemma {:induction false} LineCommentBody(t: Tracking, body: seq<char>)
    requires InLineComment(t)
    requires '\n' !in body
    ensures InLineComment(TrackAll(t, body))
    decreases |body|
  {
    if body != [] {
      LineCommentBody(t, body[..|body| - 1]);
    }
  }

  /** A line comment hides every delimiter up to the end of its line:
      after "//" and text without a newline the stack is what it was
      before, and the newline leaves the comment. */
  lemma LineCommentHidesDelimiters(st: ScanState, body: seq<char>)
    requires !st.tracking.inQuotes && !st.tracking.inComment && st.tracking.lineCommentMachine == 0
    requires '\n' !in body
    ensures var r := Run(st, "//" + body);
            r.Scanning? && r.state.stack == st.stack && InLineComment(r.state.tracking)
    ensures var r := Run(st, "//" + body + "\n");
            r.Scanning? && r.state.stack == st.stack
            && !r.state.tracking.inComment && !r.state.tracking.inQuotes
  {
    RunOne(st, '/');
    var slash := Step(st, '/').state;
    RunOne(slash, '/');
    var open := Step(slash, '/').state;
    assert open.stack == st.stack && InLineComment(open.tracking);
    RunAppend(st, "/", "/");
    assert "/" + "/" == "//";
    forall k | 0 <= k < |body|
      ensures Hidden(TrackAll(open.tracking, body[..k]))
    {
      LineCommentBody(open.tracking, body[..k]);
    }
    HiddenRun(open, body);
    LineCommentBody(open.tracking, body);
    RunAppend(st, "//", body);
    var inside := ScanState(st.stack, TrackAll(open.tracking, body));
    RunOne(inside, '\n');
    RunAppend(st, "//" + body, "\n");
  }

  /** A block comment left open at the end is an error, even when the
      opener is followed by a '/': that slash does not close it. */
  lemma UnterminatedBlockCommentAtEnd(body: seq<char>)
    requires NoBlockCloser(body)
    ensures Validation("/*" + body) == UnterminatedBlockComment
  {
    BlockCommentHidesDelimiters(Initial, body);
  }

  /** A line comment left open at the end is no error, and neither is one
      ended by its newline. */
  lemma LineCommentAtEnd(body: seq<char>)
    requires '\n' !in body
    ensures Validation("//" + body) == Success
    ensures Validation("//" + body + "\n") == Success
  {
    LineCommentHidesDelimiters(Initial, body);
  }

  // ---------------------------------------------------------------------
  // Scenarios

  /** Scanning one more character is one more step, unless already stopped. */
  lemma RunSnoc(st: ScanState, s: seq<char>, c: char)
    ensures Run(st, s + [c]) == match Run(st, s)
                                case Stopped(r) => Stopped(r)
                                case Scanning(mid) => Step(mid, c)
  {
    assert (s + [c])[..|s|] == s;
  }

  lemma BalancedPair()
    ensures Validation("()") == Success
  {
    var t1 := Track(InitialTracking, '(');
    var t2 := Track(t1, ')');
    assert !t2.inQuotes && !t2.inComment;
    RunOne(Initial, '(');
    assert Run(Initial, "(") == Scanning(ScanState([Parenthesis], t1));
    RunSnoc(Initial, "(", ')');
    assert "(" + [')'] == "()";
    assert Run(Initial, "()") == Scanning(ScanState([], t2));
  }

  lemma OneUnmatched()
    ensures Validation("(") == UnmatchedDelimiters(1)
  {
    RunOne(Initial, '(');
  }

  lemma WrongCloserAtColumnTwo()
    ensures Validation("[)") == WrongDelimiter(Bracket, Parenthesis, 1, 2)
  {
    RunSnoc(Initial, "[", ')');
    RunOne(Initial, '[');
    assert "[" + [')'] == "[)";
  }

  lemma ExtraCloserAtColumnTwo()
    ensures Validation("x}") == ExtraClosingDelimiter(Brace, 1, 2)
  {
    RunSnoc(Initial, "x", '}');
    RunOne(Initial, 'x');
    assert "x" + ['}'] == "x}";
  }

  lemma SingleQuoteLeftOpen()
    ensures Validation("'a") == UnterminatedQuote(true)
  {
    RunSnoc(Initial, "'", 'a');
    RunOne(Initial, '\'');
    assert "'" + ['a'] == "'a";
  }

  /** The wrong closer is reported at its own column, 3. */
  lemma WrongCloserAtColumnThree()
    ensures Validation("([)") == WrongDelimiter(Bracket, Parenthesis, 1, 3)
  {
    var t1 := InitialTracking.(column := 2);
    var t2 := t1.(column := 3);
    QuietTrack(InitialTracking, '(');
    QuietTrack(t1, '[');
    RunOne(Initial, '(');
    assert Run(Initial, "(") == Scanning(ScanState([Parenthesis], t1));
    RunSnoc(Initial, "(", '[');
    assert "(" + ['['] == "([";
    assert Run(Initial, "([") == Scanning(ScanState([Parenthesis, Bracket], t2));
    RunSnoc(Initial, "([", ')');
    assert "([" + [')'] == "([)";
  }

  /** "/ *" is no comment opener: the parenthesis after it is read as a
      delimiter and left open. */
  lemma SpacedCommentOpener()
    ensures Validation("/ *(") == UnmatchedDelimiters(1)
  {
    var t1 := InitialTracking.(column := 2, lineCommentMachine := 1, blockCommentMachine := 1);
    var t2 := InitialTracking.(column := 3);
    var t3 := InitialTracking.(column := 4);
    SpacedCommentOpenerTracking();
    RunOne(Initial, '/');
    assert Run(Initial, "/") == Scanning(ScanState([], t1));
    RunSnoc(Initial, "/", ' ');
    assert "/" + [' '] == "/ ";
    assert Run(Initial, "/ ") == Scanning(ScanState([], t2));
    RunSnoc(Initial, "/ ", '*');
    assert "/ " + ['*'] == "/ *";
    assert Run(Initial, "/ *") == Scanning(ScanState([], t3));
    RunSnoc(Initial, "/ *", '(');
    assert "/ *" + ['('] == "/ *(";
  }

  /** The tracking along "/ *": the slash arms both opener machines, the
      blank disarms them, and the star finds nothing armed. */
  lemma SpacedCommentOpenerTracking()
    ensures Track(InitialTracking, '/')
            == InitialTracking.(column := 2, lineCommentMachine := 1, blockCommentMachine := 1)
    ensures Track(InitialTracking.(column := 2, lineCommentMachine := 1, blockCommentMachine := 1), ' ')
            == InitialTracking.(column := 3)
    ensures Track(InitialTracking.(column := 3), '*') == InitialTracking.(column := 4)
  {
  }

  /** A brace at the start of the second line is reported at line 2,
      column 1. */
  lemma ExtraCloserOnSecondLine()
    ensures Validation("{}\n}") == ExtraClosingDelimiter(Brace, 2, 1)
  {
    var t1 := InitialTracking.(column := 2);
    var t2 := t1.(column := 3);
    var t3 := t2.(line := 2, column := 1);
    QuietTrack(InitialTracking, '{');
    QuietTrack(t1, '}');
    QuietTrack(t2, '\n');
    RunOne(Initial, '{');
    assert Run(Initial, "{") == Scanning(ScanState([Brace], t1));
    RunSnoc(Initial, "{", '}');
    assert "{" + ['}'] == "{}";
    assert Run(Initial, "{}") == Scanning(ScanState([], t2));
    RunSnoc(Initial, "{}", '\n');
    assert "{}" + ['\n'] == "{}\n";
    assert Run(Initial, "{}\n") == Scanning(ScanState([], t3));
    RunSnoc(Initial, "{}\n", '}');
    assert "{}\n" + ['}'] == "{}\n}";
  }

  /** An open delimiter is reported before an open quote. */
  lemma UnmatchedBeforeQuote()
    ensures Validation("(\"") == UnmatchedDelimiters(1)
  {
    RunOne(Initial, '(');
    RunSnoc(Initial, "(", '"');
    assert "(" + ['"'] == "(\"";
  }

  /** A backslash escapes the next character outside literals too: an
      escaped single quote opens nothing. */
  lemma EscapedQuoteOutsideLiteral()
    ensures Validation("\\'") == Success
  {
    RunOne(Initial, '\\');
    RunSnoc(Initial, "\\", '\'');
    assert "\\" + ['\''] == "\\'";
  }

  /** Comment openers inside a string literal are plain text. */
  lemma CommentOpenerInsideString()
    ensures Validation("\"/*\"") == Success
  {
    QuoteHidesDelimiters(Initial, '"', "/*");
    assert ['"'] + "/*" + ['"'] == "\"/*\"";
  }
}
