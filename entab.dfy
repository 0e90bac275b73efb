/** entab: replace every run of blanks by as many tabs as reach tab stops,
    then the blanks that remain. Positions are input indices counted from
    the start of the whole text, with the tab stops detab uses. */
module Entab {
  import opened Repetition
  import opened TabStops
  import Detab

  /** End of the run of blanks that starts at `i`: the first index at or
      after `i` that is not a blank, or the end of the input. */
  function RunEnd(s: seq<char>, i: nat): (e: nat)
    requires i <= |s|
    ensures i <= e <= |s|
    ensures forall k :: i <= k < e ==> s[k] == ' '
    ensures e == |s| || s[e] != ' '
    decreases |s| - i
  {
    if i < |s| && s[i] == ' ' then RunEnd(s, i + 1) else i
  }

  /** What replaces the blanks at input positions `start` up to `end`: a tab
      for every tab stop passed on the way, each taking the position to
      that stop, then blanks for the rest. */
  function Fill(start: nat, end: nat): seq<char>
    requires start <= end
    decreases end - start
  {
    if start < end / 4 * 4 then ['\t'] + Fill((start / 4 + 1) * 4, end)
    else Repeat(' ', end - start)
  }

  /** The output entab writes for the input from index `i` on. */
  function CompressFrom(s: seq<char>, i: nat): seq<char>
    requires i <= |s|
    decreases |s| - i
  {
    if i == |s| then []
    else if s[i] != ' ' then [s[i]] + CompressFrom(s, i + 1)
    else
      var e := RunEnd(s, i);
      Fill(i, e) + CompressFrom(s, e)
  }

  /** The output of entab for the whole input. */
  function Compressed(s: seq<char>): seq<char> {
    CompressFrom(s, 0)
  }

  /** A run of blanks ending at a non-blank (or at the end) is exactly the
      run RunEnd finds. */
  lemma {:induction false} RunEndAt(s: seq<char>, start: nat, i: nat)
    requires start <= i <= |s|
    requires forall k :: start <= k < i ==> s[k] == ' '
    requires i == |s| || s[i] != ' '
    ensures RunEnd(s, start) == i
    decreases i - start
  {
    if start < i {
      RunEndAt(s, start + 1, i);
    }
  }

  /** The two inner loops of entab: for the blanks at positions
      `blanksStart` up to `i`, tabs while a tab stop lies ahead of `j`, then
      blanks until `j` reaches `i`. */
  method WriteBlankRun(prefix: seq<char>, blanksStart: nat, i: nat) returns (result: seq<char>)
    requires blanksStart <= i
    ensures result == prefix + Fill(blanksStart, i)
  {
    result := prefix;
    var j := blanksStart;
    while j < i / 4 * 4
      invariant blanksStart <= j <= i
      invariant result + Fill(j, i) == prefix + Fill(blanksStart, i)
      decreases i - j
    {
      Regroup(result, ['\t'], Fill((j / 4 + 1) * 4, i), Fill(j, i));
      result := result + ['\t'];
      j := (j / 4 + 1) * 4;
    }
    ghost var afterTabs := result;
    ghost var tabsEnd := j;
    while j < i
      invariant tabsEnd <= j <= i
      invariant result == afterTabs + Repeat(' ', j - tabsEnd)
    {
      result := result + [' '];
      j := j + 1;
    }
  }

  /** entab itself: a pass over the input and its terminator, holding back
      a run of blanks until the first non-blank (or the terminator) and
      then writing tabs up to the last tab stop and blanks for the rest. */
  method Entab(input: seq<char>) returns (result: seq<char>)
    ensures result == Compressed(input)
  {
    result := [];
    var countingBlanks := false;
    var blanksStart := 0;
    var i := 0;
    while true
      invariant 0 <= i <= |input|
      invariant countingBlanks ==> blanksStart < i
      invariant countingBlanks ==> forall k :: blanksStart <= k < i ==> input[k] == ' '
      invariant countingBlanks ==> result + CompressFrom(input, blanksStart) == Compressed(input)
      invariant !countingBlanks ==> result + CompressFrom(input, i) == Compressed(input)
      decreases |input| - i
    {
      var atEnd := i == |input|;
      if !countingBlanks {
        if !atEnd && input[i] == ' ' {
          countingBlanks := true;
          blanksStart := i;
        } else if !atEnd {
          result := CopyChar(input, i, result);
        }
      } else if atEnd || input[i] != ' ' {
        countingBlanks := false;
        result := FlushRun(input, blanksStart, i, result);
        if !atEnd {
          result := CopyChar(input, i, result);
        }
      }
      if atEnd {
        assert CompressFrom(input, i) == [];
        break;
      }
      i := i + 1;
    }
  }

  /** Writes the held-back run of blanks that ends at `i`, leaving the
      input from `i` on to compress. */
  method FlushRun(input: seq<char>, blanksStart: nat, i: nat, prefix: seq<char>) returns (result: seq<char>)
    requires blanksStart < i <= |input|
    requires forall k :: blanksStart <= k < i ==> input[k] == ' '
    requires i == |input| || input[i] != ' '
    ensures result + CompressFrom(input, i) == prefix + CompressFrom(input, blanksStart)
  {
    RunEndAt(input, blanksStart, i);
    RunStep(input, blanksStart, i, prefix);
    result := WriteBlankRun(prefix, blanksStart, i);
  }

  /** Copies the non-blank at `i`, leaving the input after it to compress. */
  method CopyChar(input: seq<char>, i: nat, prefix: seq<char>) returns (result: seq<char>)
    requires i < |input| && input[i] != ' '
    ensures result + CompressFrom(input, i + 1) == prefix + CompressFrom(input, i)
  {
    CopiedStep(input, i, prefix);
    result := prefix + [input[i]];
  }

  /** Copying a non-blank leaves the input after it to compress. */
  lemma CopiedStep(s: seq<char>, i: nat, out: seq<char>)
    requires i < |s| && s[i] != ' '
    ensures out + CompressFrom(s, i) == (out + [s[i]]) + CompressFrom(s, i + 1)
  {
    Regroup(out, [s[i]], CompressFrom(s, i + 1), CompressFrom(s, i));
  }

  /** Writing the fill of a whole run of blanks leaves the input after the
      run to compress. */
  lemma RunStep(s: seq<char>, start: nat, i: nat, out: seq<char>)
    requires start < i <= |s| && i <= RunEnd(s, start)
    requires i == |s| || s[i] != ' '
    ensures out + CompressFrom(s, start) == (out + Fill(start, i)) + CompressFrom(s, i)
  {
    assert RunEnd(s, start) == i;
    CompressRun(s, start);
    Regroup(out, Fill(start, i), CompressFrom(s, i), CompressFrom(s, start));
  }

  lemma CompressRun(s: seq<char>, start: nat)
    requires start < |s| && s[start] == ' '
    ensures CompressFrom(s, start) == Fill(start, RunEnd(s, start)) + CompressFrom(s, RunEnd(s, start))
  {
  }

  /** Two groups of blanks side by side are one group. */
  lemma SpacesAppend(m: nat, n: nat)
    ensures Repeat(' ', m) + Repeat(' ', n) == Repeat(' ', m + n)
  {
    assert forall k :: 0 <= k < m + n ==> (Repeat(' ', m) + Repeat(' ', n))[k] == ' ';
  }

  lemma TabsSplit(n: nat)
    requires n > 0
    ensures Repeat('\t', n) == ['\t'] + Repeat('\t', n - 1)
  {
    var r := ['\t'] + Repeat('\t', n - 1);
    forall k | 0 <= k < n
      ensures r[k] == Repeat('\t', n)[k]
    {
      if k > 0 {
        assert r[k] == Repeat('\t', n - 1)[k - 1];
      }
    }
    assert r == Repeat('\t', n);
  }

  /** The closed form of a fill: as many tabs as tab stops lie after
      `start` up to `end`, then the blanks after the last of them. */
  lemma {:induction false} FillTabsThenBlanks(start: nat, end: nat)
    requires start <= end
    ensures Fill(start, end) ==
      if end / 4 > start / 4 then Repeat('\t', end / 4 - start / 4) + Repeat(' ', end % 4)
      else Repeat(' ', end - start)
    decreases end - start
  {
    if start < end / 4 * 4 {
      var next := (start / 4 + 1) * 4;
      FillTabsThenBlanks(next, end);
      var n := end / 4 - start / 4;
      TabsSplit(n);
      if end / 4 > next / 4 {
        Regroup(['\t'], Repeat('\t', n - 1), Repeat(' ', end % 4), Repeat('\t', n - 1) + Repeat(' ', end % 4));
      } else {
        assert Repeat('\t', n - 1) == [];
      }
    }
  }

  /** Same spacing: the tabs and blanks of a run expand, with detab's tab
      stops, to exactly as many blanks as the run had. */
  lemma {:induction false} FillSameSpacing(start: nat, end: nat)
    requires start <= end
    ensures Detab.ExpandFrom(start, Fill(start, end)) == Repeat(' ', end - start)
    decreases end - start
  {
    if start < end / 4 * 4 {
      var next := (start / 4 + 1) * 4;
      var rest := Fill(next, end);
      FillSameSpacing(next, end);
      assert Detab.TabWidth(start) == next - start;
      Detab.ExpandHead(start, ['\t'] + rest, Repeat(' ', next - start));
      assert (['\t'] + rest)[1..] == rest;
      SpacesAppend(next - start, end - next);
    } else {
      Detab.ExpandFromTabFree(start, Repeat(' ', end - start));
    }
  }

  /** A run is replaced by fewer than 4 blanks, and by no more
      characters than it had blanks. */
  lemma FillBounds(start: nat, end: nat)
    requires start <= end
    ensures multiset(Fill(start, end))[' '] < 4
    ensures |Fill(start, end)| <= end - start
  {
    FillTabsThenBlanks(start, end);
    if end / 4 > start / 4 {
      var n := end / 4 - start / 4;
      assert multiset(Repeat('\t', n))[' '] == 0;
      assert multiset(Repeat(' ', end % 4))[' '] == end % 4 by {
        assert multiset(Repeat(' ', end % 4)) == multiset{}[' ' := end % 4] by {
          SpacesMultiset(end % 4);
        }
      }
      assert multiset(Repeat('\t', n) + Repeat(' ', end % 4)) == multiset(Repeat('\t', n)) + multiset(Repeat(' ', end % 4));
    } else {
      SpacesMultiset(end - start);
    }
  }

  lemma {:induction false} SpacesMultiset(n: nat)
    ensures multiset(Repeat(' ', n)) == multiset{}[' ' := n]
    decreases n
  {
    if n > 0 {
      SpacesMultiset(n - 1);
      assert Repeat(' ', n) == Repeat(' ', n - 1) + [' '];
    }
  }

  /** Every non-blank character is copied once and in order; only the
      spacing changes. */
  lemma {:induction false} CompressFromKeepsText(s: seq<char>, i: nat)
    requires i <= |s|
    ensures Strip(CompressFrom(s, i)) == Strip(s[i..])
    decreases |s| - i
  {
    if i < |s| {
      assert s[i..] == [s[i]] + s[i + 1..];
      StripAppend([s[i]], s[i + 1..]);
      if s[i] != ' ' {
        CompressFromKeepsText(s, i + 1);
        StripAppend([s[i]], CompressFrom(s, i + 1));
      } else {
        var e := RunEnd(s, i);
        CompressFromKeepsText(s, e);
        StripAppend(Fill(i, e), CompressFrom(s, e));
        StripFill(i, e);
        assert s[i..] == s[i..e] + s[e..];
        StripAppend(s[i..e], s[e..]);
        StripBlanks(s[i..e]);
      }
    }
  }

  /** A fill holds no text, only tabs and blanks. */
  lemma StripFill(start: nat, end: nat)
    requires start <= end
    ensures Strip(Fill(start, end)) == []
  {
    FillTabsThenBlanks(start, end);
    StripBlanks(Fill(start, end));
  }

  /** Text without blanks is returned as it is. */
  lemma {:induction false} CompressFromBlankFree(s: seq<char>, i: nat)
    requires i <= |s|
    requires ' ' !in s
    ensures CompressFrom(s, i) == s[i..]
    decreases |s| - i
  {
    if i < |s| {
      CompressFromBlankFree(s, i + 1);
      assert s[i..] == [s[i]] + s[i + 1..];
    }
  }

  /** The output is never longer than the input. */
  lemma {:induction false} CompressFromLength(s: seq<char>, i: nat)
    requires i <= |s|
    ensures |CompressFrom(s, i)| <= |s| - i
    decreases |s| - i
  {
    if i < |s| {
      if s[i] != ' ' {
        CompressFromLength(s, i + 1);
      } else {
        var e := RunEnd(s, i);
        CompressFromLength(s, e);
        FillBounds(i, e);
      }
    }
  }

  /** Splitting the input where no run of blanks is cut in two: the
      output up to `i` is the output for the text before `i` alone, and
      the rest follows. */
  lemma {:induction false} CompressSplit(s: seq<char>, i: nat, j: nat)
    requires j <= i <= |s|
    requires i == 0 || i == |s| || s[i] != ' ' || s[i - 1] != ' '
    ensures CompressFrom(s, j) == CompressFrom(s[..i], j) + CompressFrom(s, i)
    decreases i - j
  {
    var before := s[..i];
    if j == i {
      assert CompressFrom(before, j) == [];
    } else if s[j] != ' ' {
      CompressSplit(s, i, j + 1);
      assert before[j] == s[j];
      assert CompressFrom(before, j) == [s[j]] + CompressFrom(before, j + 1);
      Regroup([s[j]], CompressFrom(before, j + 1), CompressFrom(s, i), CompressFrom(s, j + 1));
    } else {
      var e := RunEnd(s, j);
      var stop := if i == |s| || s[i] != ' ' then i else i - 1;
      assert stop == |s| || s[stop] != ' ';
      assert e <= stop;
      RunEndAt(before, j, e);
      CompressSplit(s, i, e);
      assert CompressFrom(before, j) == Fill(j, e) + CompressFrom(before, e);
      Regroup(Fill(j, e), CompressFrom(before, e), CompressFrom(s, i), CompressFrom(s, e));
    }
  }

  /** Every character other than a blank is copied once, in place: it
      comes right after the output for the text before it. */
  lemma CompressedCopies(s: seq<char>, i: nat)
    requires i < |s| && s[i] != ' '
    ensures Compressed(s) == Compressed(s[..i]) + [s[i]] + CompressFrom(s, i + 1)
  {
    CompressSplit(s, i, 0);
  }

  /** Blanks at the very end are replaced too: when the input ends in a
      run of blanks starting at `start`, the terminator ends that run as a
      non-blank would, and its fill closes the output. */
  lemma TrailingBlanks(s: seq<char>, start: nat)
    requires start <= |s|
    requires start == 0 || s[start - 1] != ' '
    requires forall k :: start <= k < |s| ==> s[k] == ' '
    ensures Compressed(s) == Compressed(s[..start]) + Fill(start, |s|)
  {
    CompressSplit(s, start, 0);
    if start == |s| {
      assert CompressFrom(s, start) == [];
      assert Fill(start, |s|) == [];
    } else {
      FinalRun(s, start);
    }
  }

  /** A run of blanks that lasts to the end of the input is replaced by
      its fill. */
  lemma FinalRun(s: seq<char>, start: nat)
    requires start < |s|
    requires forall k :: start <= k < |s| ==> s[k] == ' '
    ensures CompressFrom(s, start) == Fill(start, |s|)
  {
    RunEndAt(s, start, |s|);
    CompressRun(s, start);
    assert CompressFrom(s, |s|) == [];
  }

  /** detab undoes entab on text without tabs, from any position whose
      column equals its index. */
  lemma {:induction false} RoundTripFrom(s: seq<char>, i: nat)
    requires i <= |s|
    requires '\t' !in s
    ensures Detab.ExpandFrom(i, CompressFrom(s, i)) == s[i..]
    decreases |s| - i
  {
    if i < |s| {
      if s[i] != ' ' {
        RoundTripFrom(s, i + 1);
        RoundTripCopied(s, i);
      } else {
        var e := RunEnd(s, i);
        RoundTripFrom(s, e);
        RoundTripRun(s, i, e);
      }
    }
  }

  /** Round-trip step for a copied character. */
  lemma RoundTripCopied(s: seq<char>, i: nat)
    requires i < |s| && s[i] != ' ' && s[i] != '\t'
    requires Detab.ExpandFrom(i + 1, CompressFrom(s, i + 1)) == s[i + 1..]
    ensures Detab.ExpandFrom(i, CompressFrom(s, i)) == s[i..]
  {
    var rest := CompressFrom(s, i + 1);
    assert CompressFrom(s, i) == [s[i]] + rest;
    assert ([s[i]] + rest)[0] == s[i] && ([s[i]] + rest)[1..] == rest;
    assert s[i..] == [s[i]] + s[i + 1..];
  }

  /** Round-trip step for a run of blanks. */
  lemma RoundTripRun(s: seq<char>, i: nat, e: nat)
    requires i < |s| && s[i] == ' ' && e == RunEnd(s, i)
    requires Detab.ExpandFrom(e, CompressFrom(s, e)) == s[e..]
    ensures Detab.ExpandFrom(i, CompressFrom(s, i)) == s[i..]
  {
    var fill := Fill(i, e);
    var rest := CompressFrom(s, e);
    CompressRun(s, i);
    Detab.ExpandFromAppend(i, fill, rest);
    FillSameSpacing(i, e);
    assert i + |Detab.ExpandFrom(i, fill)| == e;
    RunIsBlanks(s, i);
    assert s[i..] == s[i..e] + s[e..];
  }

  /** The run of blanks RunEnd finds, as a text. */
  lemma RunIsBlanks(s: seq<char>, i: nat)
    requires i <= |s|
    ensures s[i..RunEnd(s, i)] == Repeat(' ', RunEnd(s, i) - i)
  {
  }

  /** "The same spacing": entab followed by detab gives back any text
      that holds no tabs. */
  lemma RoundTrip(s: seq<char>)
    requires '\t' !in s
    ensures Detab.Expanded(Compressed(s)) == s
  {
    RoundTripFrom(s, 0);
  }

  /** One blank or one tab at column `column` cannot bring the length of
      the replacement of the rest of the run down by more than one. */
  lemma FillStep(column: nat, next: nat, end: nat)
    requires column < next <= end
    requires next == column + 1 || next == (column / 4 + 1) * 4
    ensures |Fill(column, end)| <= 1 + |Fill(next, end)|
  {
  }

  /** "The minimum number of tabs and blanks": any sequence of blanks and
      tabs that spans the same columns is at least as long as the
      replacement entab writes. */
  lemma {:induction false} FillIsShortest(start: nat, end: nat, t: seq<char>)
    requires start <= end
    requires forall k :: 0 <= k < |t| ==> IsBlankOrTab(t[k])
    requires |Detab.ExpandFrom(start, t)| == end - start
    ensures |Fill(start, end)| <= |t|
    decreases |t|
  {
    if t == [] {
      assert end == start;
    } else {
      var next := if t[0] == '\t' then start + Detab.TabWidth(start) else start + 1;
      assert |Detab.ExpandFrom(start, t)| == (next - start) + |Detab.ExpandFrom(next, t[1..])|;
      FillIsShortest(next, end, t[1..]);
      FillStep(start, next, end);
    }
  }

  /** A blank or a tab at input index `i` that covers the blanks up to
      `next` saves entab at most one character of output. */
  lemma RunStepShorter(s: seq<char>, i: nat, next: nat)
    requires i < next <= |s|
    requires forall k :: i <= k < next ==> s[k] == ' '
    requires next == i + 1 || next == (i / 4 + 1) * 4
    ensures |CompressFrom(s, i)| <= 1 + |CompressFrom(s, next)|
  {
    var e := RunEnd(s, i);
    CompressRun(s, i);
    if next < e {
      RunEndAt(s, next, e);
      CompressRun(s, next);
      FillStep(i, next, e);
    } else {
      FillStep(i, e, e);
    }
  }

  /** Any text `u` that detab turns into the input from index `i` on is at
      least as long as what entab writes for it. */
  lemma {:induction false} CompressFromIsShortest(s: seq<char>, i: nat, u: seq<char>)
    requires i <= |s|
    requires Detab.ExpandFrom(i, u) == s[i..]
    ensures |CompressFrom(s, i)| <= |u|
    decreases |u|
  {
    if u == [] {
      assert i == |s|;
    } else {
      var piece := if u[0] == '\t' then Repeat(' ', Detab.TabWidth(i)) else [u[0]];
      Detab.ExpandHead(i, u, piece);
      var next := i + |piece|;
      assert s[i..] == piece + Detab.ExpandFrom(next, u[1..]);
      assert next <= |s| && s[next..] == s[i..][|piece|..];
      assert forall k :: i <= k < next ==> s[k] == s[i..][k - i] == piece[k - i];
      CompressFromIsShortest(s, next, u[1..]);
      if u[0] == '\t' || u[0] == ' ' {
        RunStepShorter(s, i, next);
      }
    }
  }

  /** "The minimum number of tabs and blanks", for the whole text: no text
      that detab turns into `s` is shorter than what entab writes for `s`. */
  lemma CompressedIsShortest(s: seq<char>, u: seq<char>)
    requires Detab.Expanded(u) == s
    ensures |Compressed(s)| <= |u|
  {
    CompressFromIsShortest(s, 0, u);
  }

  /** Why RoundTrip is stated for texts without tabs: entab counts a tab
      already in its input as one position, while detab widens it to the
      next tab stop, so the blanks after it are regrouped at the wrong
      stops and the text widens. */
  lemma TabsBreakSpacing()
    ensures Compressed("\t    x") == "\t\t x"
    ensures |Detab.Expanded("\t    x")| == 9
    ensures |Detab.Expanded(Compressed("\t    x"))| == 10
  {
    TabThenBlanksCompressed();
    TabThenBlanksWidths();
  }

  /** entab regroups the four blanks after a leading tab as if the tab
      were one column wide. */
  lemma TabThenBlanksCompressed()
    ensures Compressed("\t    x") == "\t\t x"
  {
    var s := "\t    x";
    RunEndAt(s, 1, 5);
    assert Fill(1, 5) == ['\t'] + Fill(4, 5) == "\t ";
    assert CompressFrom(s, 5) == "x";
    assert CompressFrom(s, 1) == "\t x";
  }

  /** The widths detab gives the input and the output of that example. */
  lemma TabThenBlanksWidths()
    ensures |Detab.Expanded("\t    x")| == 9
    ensures |Detab.Expanded("\t\t x")| == 10
  {
    var s := "\t    x";
    assert s[1..] == "    x";
    Detab.ExpandFromTabFree(4, "    x");
    assert Detab.ExpandFrom(0, s) == Repeat(' ', 4) + "    x";
    var c := "\t\t x";
    assert c[1..] == "\t x" && c[1..][1..] == " x";
    Detab.ExpandFromTabFree(8, " x");
    assert Detab.ExpandFrom(4, "\t x") == Repeat(' ', 4) + " x";
    assert Detab.ExpandFrom(0, c) == Repeat(' ', 4) + Detab.ExpandFrom(4, "\t x");
  }
}
