/** Runs of blanks and tabs, and the blank-free view of a text that both
    detab and entab leave unchanged. Both programs put a tab stop at every
    multiple of `TAB_SIZE`, a preprocessor constant equal to 4; the modules
    write it out as the number 4, as the preprocessor does. */
module TabStops {
  import opened Repetition

  /** Output written so far, then a piece, then the rest: the same text
      as the output followed by the piece and the rest together. */
  lemma Regroup(out: seq<char>, piece: seq<char>, rest: seq<char>, whole: seq<char>)
    requires whole == piece + rest
    ensures (out + piece) + rest == out + whole
  {
  }

  predicate IsBlankOrTab(c: char) {
    c == ' ' || c == '\t'
  }

  /** The text with every blank and every tab removed: what a reader sees
      besides the spacing. */
  function Strip(s: seq<char>): seq<char>
    decreases |s|
  {
    if s == [] then []
    else (if IsBlankOrTab(s[0]) then [] else [s[0]]) + Strip(s[1..])
  }

  lemma {:induction false} StripAppend(a: seq<char>, b: seq<char>)
    ensures Strip(a + b) == Strip(a) + Strip(b)
    decreases |a|
  {
    if a == [] {
      assert a + b == b;
    } else {
      assert (a + b)[1..] == a[1..] + b;
      StripAppend(a[1..], b);
    }
  }

  lemma StripOne(c: char)
    ensures Strip([c]) == if IsBlankOrTab(c) then [] else [c]
  {
    assert [c][1..] == [];
  }

  /** Spacing alone strips to nothing. */
  lemma {:induction false} StripBlanks(s: seq<char>)
    requires forall k :: 0 <= k < |s| ==> IsBlankOrTab(s[k])
    ensures Strip(s) == []
    decreases |s|
  {
    if s != [] {
      StripBlanks(s[1..]);
    }
  }
}
