/** The validator as the program runs it: a validation state whose fields
    are updated in place, with the delimiter stack in an array that doubles
    when full, and one loop over the input with early returns. */
module Validator {
  import opened ValidationTypes
  import opened ScanModel

  /** The mutable state of one validation run. The capacity of the stack is
      the length of `stackData`. */
  class ValidationState {
    var stackData: array<Delimiter>
    var stackSize: nat
    var line: int
    var character: int
    var isInsideQuotes: bool
    var isInsideSingleQuotes: bool
    var isEscaped: bool
    var isInsideComment: bool
    var isInsideLineComment: bool
    var lineCommentStateMachine: int
    var blockCommentStateMachine: int

    ghost predicate Valid()
      reads this
    {
      0 < stackData.Length && stackSize <= stackData.Length
    }

    /** The open delimiters, innermost last. */
    ghost function Stack(): seq<Delimiter>
      reads this, stackData
      requires Valid()
    {
      stackData[..stackSize]
    }

    /** The tracking fields as one value. */
    ghost function Tracked(): Tracking
      reads this
    {
      Tracking(line, character, isInsideQuotes, isInsideSingleQuotes, isEscaped,
               isInsideComment, isInsideLineComment,
               lineCommentStateMachine, blockCommentStateMachine)
    }

    ghost function Snapshot(): ScanState
      reads this, stackData
      requires Valid()
    {
      ScanState(Stack(), Tracked())
    }

    /** A fresh state: an empty stack with room for 16 delimiters, line 1,
        column 1, outside quotes and comments. */
    constructor ()
      ensures Valid() && fresh(stackData) && stackData.Length == 16
      ensures Snapshot() == Initial
    {
      stackSize := 0;
      stackData := new Delimiter[16];
      line := 1;
      character := 1;
      isInsideQuotes := false;
      isInsideSingleQuotes := false;
      isEscaped := false;
      isInsideComment := false;
      isInsideLineComment := false;
      lineCommentStateMachine := 0;
      blockCommentStateMachine := 0;
      new;
      assert Stack() == [];
    }

    /** Pushes `d`, first moving the stack to an array twice as long when the
        current one is full. */
    method PushDelimiter(d: Delimiter)
      requires Valid()
      modifies this, stackData
      ensures Valid()
      ensures old(stackSize) < old(stackData.Length) ==> stackData == old(stackData)
      ensures old(stackSize) == old(stackData.Length) ==>
                fresh(stackData) && stackData.Length == 2 * old(stackData.Length)
      ensures Stack() == old(Stack()) + [d]
      ensures Tracked() == old(Tracked())
    {
      if stackSize == stackData.Length {
        var grown := new Delimiter[2 * stackData.Length];
        for k := 0 to stackSize
          modifies grown
          invariant grown[..k] == stackData[..k]
        {
          grown[k] := stackData[k];
        }
        stackData := grown;
      }
      stackData[stackSize] := d;
      stackSize := stackSize + 1;
    }

    function StackSize(): (n: nat)
      reads this
      requires Valid()
      ensures n == |Stack()|
    {
      stackSize
    }

    function IsStackEmpty(): (empty: bool)
      reads this
      requires Valid()
      ensures empty <==> Stack() == []
    {
      stackSize == 0
    }

    /** The innermost open delimiter; the stack must not be empty. */
    function LastDelimiter(): (d: Delimiter)
      reads this, stackData
      requires Valid() && stackSize > 0
      ensures Stack() == Stack()[..|Stack()| - 1] + [d]
    {
      stackData[stackSize - 1]
    }

    /** Removes the innermost open delimiter. */
    method PopDelimiter()
      requires Valid() && stackSize > 0
      modifies this`stackSize
      ensures Valid()
      ensures Stack() == old(Stack())[..|old(Stack())| - 1]
      ensures Tracked() == old(Tracked())
    {
      stackSize := stackSize - 1;
    }

    /** Updates position, quote, escape and comment tracking for the
        character `c`, field by field. */
    method UpdateTrackingInformation(c: char)
      requires Valid()
      modifies this
      ensures Tracked() == Track(old(Tracked()), c)
      ensures stackData == old(stackData) && stackSize == old(stackSize)
      ensures Valid() && Stack() == old(Stack())
    {
      if c == '\n' {
        line := line + 1;
        character := 1;
      } else {
        character := character + 1;
      }
      ghost var positioned := Tracked();
      assert positioned == AdvancePosition(old(Tracked()), c);

      if !isInsideComment {
        UpdateQuoteTracking(c);
      }
      assert Tracked() == if !positioned.inComment then UpdateQuotes(positioned, c) else positioned;

      if !isInsideQuotes {
        UpdateCommentTracking(c);
      }
    }

    /** The quote and escape part of the tracking update, for a character
        read outside comments. */
    method UpdateQuoteTracking(c: char)
      modifies this`isInsideQuotes, this`isInsideSingleQuotes, this`isEscaped
      ensures Tracked() == UpdateQuotes(old(Tracked()), c)
    {
      if (c == '"' || c == '\'') && !isEscaped
         && (!isInsideQuotes || (c == '\'') == isInsideSingleQuotes)
      {
        isInsideQuotes := !isInsideQuotes;
        if isInsideQuotes {
          isInsideSingleQuotes := c == '\'';
        }
      }
      isEscaped := c == '\\' && !isEscaped;
    }

    /** The comment part of the tracking update, for a character read
        outside quotes. */
    method UpdateCommentTracking(c: char)
      modifies this`isInsideComment, this`isInsideLineComment
      modifies this`lineCommentStateMachine, this`blockCommentStateMachine
      ensures Tracked() == UpdateComments(old(Tracked()), c)
    {
      if !isInsideComment {
        if c == '/' {
          lineCommentStateMachine := lineCommentStateMachine + 1;
          blockCommentStateMachine := 1;
        } else if c == '*' {
          if blockCommentStateMachine == 1 {
            blockCommentStateMachine := 2;
          }
        } else {
          lineCommentStateMachine := 0;
          blockCommentStateMachine := 0;
        }

        if lineCommentStateMachine == 2 {
          isInsideComment := true;
          isInsideLineComment := true;
          lineCommentStateMachine := 0;
          blockCommentStateMachine := 0;
        } else if blockCommentStateMachine == 2 {
          isInsideComment := true;
          isInsideLineComment := false;
          lineCommentStateMachine := 0;
          blockCommentStateMachine := 0;
        }
      } else {
        if isInsideLineComment {
          if c == '\n' {
            isInsideComment := false;
          }
        } else {
          if c == '*' {
            blockCommentStateMachine := 1;
          } else if c == '/' && blockCommentStateMachine == 1 {
            blockCommentStateMachine := 2;
          } else {
            blockCommentStateMachine := 0;
          }

          if blockCommentStateMachine == 2 {
            isInsideComment := false;
            blockCommentStateMachine := 0;
          }
        }
      }
    }
  }

  /** The checks after the last character, in the order the program makes
      them: open delimiters, then an open quote, then an open block
      comment. */
  method EndOfInputResult(state: ValidationState) returns (result: ValidationResult)
    requires state.Valid()
    ensures result == Finish(state.Snapshot())
  {
    if !state.IsStackEmpty() {
      return UnmatchedDelimiters(state.StackSize());
    }
    if state.isInsideQuotes {
      return UnterminatedQuote(state.isInsideSingleQuotes);
    }
    if state.isInsideComment && !state.isInsideLineComment {
      return UnterminatedBlockComment;
    }
    return Success;
  }

  /** A scan that stops at the character at index `i` has that stop as the
      result of the whole validation. */
  lemma StopAt(source: seq<char>, i: nat, st: ScanState, r: ValidationResult)
    requires i < |source|
    requires Run(Initial, source[..i]) == Scanning(st)
    requires Step(st, source[i]) == Stopped(r)
    ensures Validation(source) == r
  {
    assert source[..i + 1][..i] == source[..i];
    assert Run(Initial, source[..i + 1]) == Stopped(r);
    StoppedIsFinal(Initial, source[..i + 1], source[i + 1..]);
    assert source[..i + 1] + source[i + 1..] == source;
  }

  /** Checks `source` for unbalanced delimiters, unterminated quotes and
      unterminated block comments, returning the first error. */
  method Validate(source: seq<char>) returns (result: ValidationResult)
    ensures result == Validation(source)
  {
    var state := new ValidationState();
    for i := 0 to |source|
      invariant state.Valid() && fresh(state.stackData)
      invariant Run(Initial, source[..i]) == Scanning(state.Snapshot())
    {
      ghost var before := state.Snapshot();
      assert source[..i + 1][..i] == source[..i];
      var c := source[i];
      assert Run(Initial, source[..i + 1]) == Step(before, c);
      if !state.isInsideQuotes && !state.isInsideComment {
        var parsed := ParseDelimiter(c);
        match parsed
        case NotDelimiter =>
        case Opening(d) =>
          state.PushDelimiter(d);
        case Closing(d) =>
          if state.IsStackEmpty() {
            result := ExtraClosingDelimiter(d, state.line, state.character);
            StopAt(source, i, before, result);
            return;
          }
          if state.LastDelimiter() != d {
            result := WrongDelimiter(state.LastDelimiter(), d, state.line, state.character);
            StopAt(source, i, before, result);
            return;
          }
          state.PopDelimiter();
      }
      state.UpdateTrackingInformation(c);
      assert Step(before, c) == Scanning(state.Snapshot());
    }
    assert source[..|source|] == source;
    result := EndOfInputResult(state);
  }
}
