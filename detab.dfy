/** detab: replace every tab by the blanks that reach the next tab stop.
    The column that decides the width of a tab is the number of characters
    written to the output so far, counted from the start of the whole text:
    a newline does not bring it back to zero. */
module Detab {
  import opened Repetition
  import opened TabStops

  /** The blanks a tab written at `column` expands to: enough to reach the
      next tab stop, so at least one and at most 4. */
  function TabWidth(column: nat): (w: nat)
    ensures 0 < w <= 4
    ensures (column + w) % 4 == 0
  {
    4 - column % 4
  }

  /** The output detab writes for `s` when `column` characters have already
      been written before it. */
  function ExpandFrom(column: nat, s: seq<char>): seq<char>
    decreases |s|
  {
    if s == [] then []
    else if s[0] == '\t' then
      Repeat(' ', TabWidth(column)) + ExpandFrom(column + TabWidth(column), s[1..])
    else [s[0]] + ExpandFrom(column + 1, s[1..])
  }

  /** The output of detab for the whole input. */
  function Expanded(s: seq<char>): seq<char> {
    ExpandFrom(0, s)
  }

  /** detab itself: one pass over the input with a running output index,
      and an inner loop that writes the blanks of a tab. */
  method Detab(input: seq<char>) returns (result: seq<char>)
    ensures result == Expanded(input)
  {
    result := [];
    for i := 0 to |input|
      invariant result + ExpandFrom(|result|, input[i..]) == Expanded(input)
    {
      ghost var before := result;
      if input[i] == '\t' {
        var spacesCount := TabWidth(|result|);
        result := WriteBlanks(result, spacesCount);
      } else {
        result := result + [input[i]];
      }
      DetabStep(before, input[i..], result[|before|..]);
      assert input[i..][1..] == input[i + 1..];
    }
  }

  /** The inner loop of detab: writes `count` blanks after `out`. */
  method WriteBlanks(out: seq<char>, count: nat) returns (result: seq<char>)
    ensures result == out + Repeat(' ', count)
  {
    result := out;
    for j := 0 to count
      invariant result == out + Repeat(' ', j)
    {
      result := result + [' '];
    }
  }

  /** One iteration of detab: writing what the first character of `s`
      expands to leaves the rest of `s` to expand from the new column. */
  lemma DetabStep(out: seq<char>, s: seq<char>, piece: seq<char>)
    requires s != []
    requires piece == if s[0] == '\t' then Repeat(' ', TabWidth(|out|)) else [s[0]]
    ensures (out + piece) + ExpandFrom(|out| + |piece|, s[1..]) == out + ExpandFrom(|out|, s)
  {
    ExpandHead(|out|, s, piece);
    Regroup(out, piece, ExpandFrom(|out| + |piece|, s[1..]), ExpandFrom(|out|, s));
  }

  lemma ExpandHead(column: nat, s: seq<char>, piece: seq<char>)
    requires s != []
    requires piece == if s[0] == '\t' then Repeat(' ', TabWidth(column)) else [s[0]]
    ensures ExpandFrom(column, s) == piece + ExpandFrom(column + |piece|, s[1..])
  {
  }

  /** Expanding a concatenation: the second part starts at the column the
      first part reached. */
  lemma {:induction false} ExpandFromAppend(column: nat, a: seq<char>, b: seq<char>)
    ensures ExpandFrom(column, a + b)
         == ExpandFrom(column, a) + ExpandFrom(column + |ExpandFrom(column, a)|, b)
    decreases |a|
  {
    if a == [] {
      assert a + b == b;
    } else {
      assert (a + b)[0] == a[0];
      assert (a + b)[1..] == a[1..] + b;
      var next := if a[0] == '\t' then column + TabWidth(column) else column + 1;
      ExpandFromAppend(next, a[1..], b);
    }
  }

  /** The output holds no tab at all. */
  lemma {:induction false} ExpandFromHasNoTabs(column: nat, s: seq<char>)
    ensures '\t' !in ExpandFrom(column, s)
    decreases |s|
  {
    if s != [] {
      var next := if s[0] == '\t' then column + TabWidth(column) else column + 1;
      ExpandFromHasNoTabs(next, s[1..]);
    }
  }

  /** Every character other than blanks and tabs is kept, unchanged and in
      its order. */
  lemma {:induction false} ExpandFromKeepsText(column: nat, s: seq<char>)
    ensures Strip(ExpandFrom(column, s)) == Strip(s)
    decreases |s|
  {
    if s != [] {
      var piece := if s[0] == '\t' then Repeat(' ', TabWidth(column)) else [s[0]];
      var rest := ExpandFrom(column + |piece|, s[1..]);
      ExpandHead(column, s, piece);
      ExpandFromKeepsText(column + |piece|, s[1..]);
      StripAppend(piece, rest);
      if s[0] == '\t' {
        StripBlanks(piece);
      } else {
        StripOne(s[0]);
      }
      assert Strip(s) == (if IsBlankOrTab(s[0]) then [] else [s[0]]) + Strip(s[1..]);
    }
  }

  /** What detab writes for `a` is a prefix of what it writes for `a + b`,
      shorter by at least one character per character of `b`. */
  lemma ExpandFromPrefix(column: nat, a: seq<char>, b: seq<char>)
    ensures ExpandFrom(column, a) <= ExpandFrom(column, a + b)
    ensures |ExpandFrom(column, a)| + |b| <= |ExpandFrom(column, a + b)|
  {
    ExpandFromAppend(column, a, b);
    ExpandFromLength(column + |ExpandFrom(column, a)|, b);
  }

  /** The output for a prefix of the input is a prefix of the output for a
      longer one, at least one character shorter per input character. */
  lemma ExpandedPrefix(s: seq<char>, i: nat, j: nat)
    requires i <= j <= |s|
    ensures Expanded(s[..i]) <= Expanded(s[..j])
    ensures |Expanded(s[..i])| + (j - i) <= |Expanded(s[..j])|
  {
    assert s[..j] == s[..i] + s[i..j];
    ExpandFromPrefix(0, s[..i], s[i..j]);
  }

  /** Every character other than a tab is copied, unchanged and in place:
      it follows the output for the text before it, in the output for the
      whole text. */
  lemma ExpandedCopies(s: seq<char>, i: nat)
    requires i < |s| && s[i] != '\t'
    ensures Expanded(s[..i + 1]) == Expanded(s[..i]) + [s[i]]
    ensures Expanded(s[..i + 1]) <= Expanded(s)
    ensures Expanded(s)[|Expanded(s[..i])|] == s[i]
  {
    assert s[..i + 1] == s[..i] + [s[i]];
    ExpandFromAppend(0, s[..i], [s[i]]);
    ExpandHead(|Expanded(s[..i])|, [s[i]], [s[i]]);
    ExpandedPrefix(s, i + 1, |s|);
    assert s[..|s|] == s;
  }

  /** Text without tabs is returned as it is. */
  lemma {:induction false} ExpandFromTabFree(column: nat, s: seq<char>)
    requires '\t' !in s
    ensures ExpandFrom(column, s) == s
    decreases |s|
  {
    if s != [] {
      assert s == [s[0]] + s[1..];
      ExpandFromTabFree(column + 1, s[1..]);
    }
  }

  /** Each tab becomes between one and 4 blanks, so the output is no
      shorter than the input and at most 3 longer per tab. */
  lemma {:induction false} ExpandFromLength(column: nat, s: seq<char>)
    ensures |s| <= |ExpandFrom(column, s)| <= |s| + 3 * multiset(s)['\t']
    decreases |s|
  {
    if s != [] {
      assert s == [s[0]] + s[1..];
      assert multiset(s)['\t'] == multiset([s[0]])['\t'] + multiset(s[1..])['\t'];
      var next := if s[0] == '\t' then column + TabWidth(column) else column + 1;
      ExpandFromLength(next, s[1..]);
    }
  }

  /** Right after a tab the output length is the first tab stop strictly
      beyond the output length before it, and the tab contributed blanks
      only. */
  lemma TabReachesNextStop(prefix: seq<char>)
    ensures var before := |Expanded(prefix)|;
            var after := |Expanded(prefix + ['\t'])|;
            && before < after <= before + 4
            && after % 4 == 0
            && Expanded(prefix + ['\t']) == Expanded(prefix) + Repeat(' ', after - before)
  {
    ExpandFromAppend(0, prefix, ['\t']);
    var before := |Expanded(prefix)|;
    assert ExpandFrom(before, ['\t']) == Repeat(' ', TabWidth(before)) + ExpandFrom(before + TabWidth(before), []);
  }

  /** The width of a tab follows the output length of the whole text, not
      the column within the line: after "ab\n" three characters have been
      written, so a tab is one blank. */
  lemma NewlineKeepsColumn()
    ensures Expanded("ab\n\tx") == "ab\n x"
  {
    assert ExpandFrom(4, "x") == "x";
    assert ExpandFrom(3, "\tx") == Repeat(' ', 1) + ExpandFrom(4, "x");
    assert Repeat(' ', 1) == " ";
    assert ExpandFrom(2, "\n\tx") == "\n" + ExpandFrom(3, "\tx");
    assert ExpandFrom(1, "b\n\tx") == "b" + ExpandFrom(2, "\n\tx");
  }
}
