/** Python's `textwrap.dedent`: remove the longest run of spaces and tabs that
    every non-blank line starts with, and empty the lines that hold nothing but
    spaces and tabs. */
module Textwrap {
  import opened Wrappers
  import opened Strings

  predicate IsIndentChar(c: char)
  {
    c == ' ' || c == '\t'
  }

  /** A line made only of spaces and tabs (the empty line included). */
  predicate IsBlank(line: string)
  {
    forall i :: 0 <= i < |line| ==> IsIndentChar(line[i])
  }

  predicate HasNonBlank(lines: seq<string>)
  {
    exists i :: 0 <= i < |lines| && !IsBlank(lines[i])
  }

  /** `p` is whitespace that starts every non-blank line. */
  predicate IsCommonIndent(p: string, lines: seq<string>)
  {
    IsBlank(p) && forall i :: 0 <= i < |lines| && !IsBlank(lines[i]) ==> p <= lines[i]
  }

  /** The leading run of spaces and tabs of a line. */
  function Indent(line: string): (p: string)
    ensures p <= line && IsBlank(p)
    ensures |p| < |line| ==> !IsIndentChar(line[|p|])
  {
    if line != [] && IsIndentChar(line[0]) then [line[0]] + Indent(line[1..]) else []
  }

  /** The longest common prefix of two strings. */
  function CommonPrefix(a: string, b: string): (p: string)
    ensures p <= a && p <= b
    ensures |p| == |a| || |p| == |b| || a[|p|] != b[|p|]
  {
    if a != [] && b != [] && a[0] == b[0] then [a[0]] + CommonPrefix(a[1..], b[1..]) else []
  }

  lemma PrefixOfPrefix(p: string, q: string, s: string)
    requires p <= s && q <= s && |p| <= |q|
    ensures p <= q
  {
    assert p == s[..|p|] && q == s[..|q|];
    assert q[..|p|] == s[..|p|];
  }

  lemma PrefixTrans(p: string, q: string, s: string)
    requires p <= q && q <= s
    ensures p <= s
  {
    assert q == s[..|q|];
    assert p == q[..|p|];
    assert s[..|q|][..|p|] == s[..|p|];
  }

  /** Every common prefix of `a` and `b` is a prefix of `CommonPrefix(a, b)`. */
  lemma CommonPrefixLongest(q: string, a: string, b: string)
    requires q <= a && q <= b
    ensures q <= CommonPrefix(a, b)
  {
    var p := CommonPrefix(a, b);
    PrefixOfPrefix(q, p, a);
  }

  /** Whitespace that starts a line also starts its indentation. */
  lemma BlankPrefixOfIndent(p: string, line: string)
    requires IsBlank(p) && p <= line
    ensures p <= Indent(line)
  {
    PrefixOfPrefix(p, Indent(line), line);
  }

  /** The longest whitespace prefix shared by the indentations of all non-blank
      lines, or None when every line is blank (textwrap's `margin`). */
  function CommonIndent(lines: seq<string>): (m: Option<string>)
    ensures m.None? ==> forall i :: 0 <= i < |lines| ==> IsBlank(lines[i])
    ensures m.Some? ==> IsBlank(m.value)
    ensures m.Some? ==> forall i :: 0 <= i < |lines| && !IsBlank(lines[i]) ==> m.value <= Indent(lines[i])
  {
    if lines == [] then None
    else
      var rest := CommonIndent(lines[1..]);
      if IsBlank(lines[0]) then rest
      else match rest
        case None => Some(Indent(lines[0]))
        case Some(m) =>
          var p := CommonPrefix(Indent(lines[0]), m);
          assert IsBlank(p) by { PrefixOfPrefix(p, m, m); assert p <= m; }
          assert forall i :: 1 <= i < |lines| && !IsBlank(lines[i]) ==> p <= Indent(lines[i]) by {
            forall i | 1 <= i < |lines| && !IsBlank(lines[i]) ensures p <= Indent(lines[i]) {
              assert lines[1..][i - 1] == lines[i];
              PrefixTrans(p, m, Indent(lines[i]));
            }
          }
          Some(p)
  }

  lemma {:induction false} CommonIndentSomeIff(lines: seq<string>)
    ensures CommonIndent(lines).Some? <==> HasNonBlank(lines)
  {
    if lines != [] {
      CommonIndentSomeIff(lines[1..]);
      if HasNonBlank(lines[1..]) {
        var j :| 0 <= j < |lines[1..]| && !IsBlank(lines[1..][j]);
        assert !IsBlank(lines[j + 1]);
      }
      if HasNonBlank(lines) && IsBlank(lines[0]) {
        var j :| 0 <= j < |lines| && !IsBlank(lines[j]);
        assert j > 0 && lines[1..][j - 1] == lines[j];
      }
    }
  }

  /** textwrap's margin as a string: empty when no line is non-blank. */
  function Margin(lines: seq<string>): string
  {
    match CommonIndent(lines)
    case None => []
    case Some(m) => m
  }

  /** The margin is whitespace that starts every non-blank line. */
  lemma MarginIsCommonIndent(lines: seq<string>)
    ensures IsCommonIndent(Margin(lines), lines)
  {
    var m := Margin(lines);
    forall i | 0 <= i < |lines| && !IsBlank(lines[i]) ensures m <= lines[i] {
      CommonIndentSomeIff(lines);
      PrefixTrans(m, Indent(lines[i]), lines[i]);
    }
  }

  /** No longer whitespace starts every non-blank line: any common indentation
      is a prefix of the margin. */
  lemma {:induction false} MarginIsLongest(p: string, lines: seq<string>)
    requires IsCommonIndent(p, lines) && HasNonBlank(lines)
    ensures p <= Margin(lines)
  {
    CommonIndentSomeIff(lines);
    if lines != [] {
      var tail := lines[1..];
      assert IsCommonIndent(p, tail) by {
        forall i | 0 <= i < |tail| && !IsBlank(tail[i]) ensures p <= tail[i] {
          assert tail[i] == lines[i + 1];
        }
      }
      CommonIndentSomeIff(tail);
      if IsBlank(lines[0]) {
        MarginIsLongest(p, tail);
      } else {
        BlankPrefixOfIndent(p, lines[0]);
        if HasNonBlank(tail) {
          MarginIsLongest(p, tail);
          CommonPrefixLongest(p, Indent(lines[0]), Margin(tail));
        }
      }
    }
  }

  /** One line of the output: blank lines become empty, others lose the margin. */
  function DedentLine(line: string, margin: string): string
  {
    if IsBlank(line) then []
    else if margin <= line then line[|margin|..]
    else line
  }

  function DedentLines(lines: seq<string>, margin: string): (out: seq<string>)
    ensures |out| == |lines|
  {
    seq(|lines|, i requires 0 <= i < |lines| => DedentLine(lines[i], margin))
  }

  /** Python `textwrap.dedent(text)`. */
  function Dedent(text: string): string
  {
    var lines := Split(text);
    Join(DedentLines(lines, Margin(lines)))
  }

  lemma DedentLinesNoNewlines(lines: seq<string>, margin: string)
    requires NoNewlines(lines)
    ensures NoNewlines(DedentLines(lines, margin))
  {
    var out := DedentLines(lines, margin);
    forall i | 0 <= i < |out| ensures '\n' !in out[i] {
      assert '\n' !in lines[i];
    }
  }

  /** The lines of the result are the input's lines, each dedented. */
  lemma DedentSplit(text: string)
    ensures Split(Dedent(text)) == DedentLines(Split(text), Margin(Split(text)))
  {
    var lines := Split(text);
    DedentLinesNoNewlines(lines, Margin(lines));
    SplitJoin(DedentLines(lines, Margin(lines)));
  }

  /** Dedenting keeps every line: the number of newlines is unchanged. */
  lemma DedentKeepsLineCount(text: string)
    ensures |Split(Dedent(text))| == |Split(text)|
    ensures Count(Dedent(text), '\n') == Count(text, '\n')
  {
    DedentSplit(text);
  }

  /** Each output line is its input line with one shared whitespace prefix taken
      off, and blank input lines come out empty. */
  lemma DedentLineShape(text: string)
    ensures var lines, out, m := Split(text), Split(Dedent(text)), Margin(Split(text));
      IsCommonIndent(m, lines) && |out| == |lines| &&
      forall i :: 0 <= i < |lines| ==>
        (IsBlank(lines[i]) ==> out[i] == []) && (!IsBlank(lines[i]) ==> lines[i] == m + out[i])
  {
    var lines := Split(text);
    var m := Margin(lines);
    DedentSplit(text);
    MarginIsCommonIndent(lines);
    var out := Split(Dedent(text));
    forall i | 0 <= i < |lines| && !IsBlank(lines[i]) ensures lines[i] == m + out[i] {
      assert out[i] == lines[i][|m|..];
    }
  }

  lemma BlankAppend(p: string, s: string)
    requires IsBlank(p)
    ensures IsBlank(p + s) <==> IsBlank(s)
  {
    if IsBlank(s) {
      assert forall i :: |p| <= i < |p + s| ==> (p + s)[i] == s[i - |p|];
    }
    if IsBlank(p + s) {
      assert forall i :: 0 <= i < |s| ==> s[i] == (p + s)[i + |p|];
    }
  }

  /** A dedented non-blank line stays non-blank, and a blank one becomes empty. */
  lemma DedentBlankness(text: string)
    ensures var lines, out := Split(text), Split(Dedent(text));
      |out| == |lines| &&
      forall i :: 0 <= i < |lines| ==>
        (IsBlank(out[i]) <==> IsBlank(lines[i])) && (IsBlank(out[i]) ==> out[i] == [])
  {
    DedentLineShape(text);
    var lines, out, m := Split(text), Split(Dedent(text)), Margin(Split(text));
    forall i | 0 <= i < |lines| && !IsBlank(lines[i]) ensures !IsBlank(out[i]) {
      BlankAppend(m, out[i]);
    }
  }

  /** `out` is `lines` with the whitespace prefix `m` taken off every non-blank
      line and every blank line emptied. */
  predicate DedentedBy(out: seq<string>, lines: seq<string>, m: string)
  {
    |out| == |lines| &&
    forall i :: 0 <= i < |lines| ==>
      (IsBlank(lines[i]) ==> out[i] == []) && (!IsBlank(lines[i]) ==> lines[i] == m + out[i])
  }

  lemma ShiftCommonIndent(out: seq<string>, lines: seq<string>, m: string, p: string)
    requires DedentedBy(out, lines, m) && IsBlank(m) && IsCommonIndent(p, out)
    ensures IsCommonIndent(m + p, lines)
  {
    BlankAppend(m, p);
    forall i | 0 <= i < |lines| && !IsBlank(lines[i]) ensures m + p <= lines[i] {
      BlankAppend(m, out[i]);
      assert p <= out[i];
      assert (m + out[i])[..|m + p|] == m + out[i][..|p|];
    }
  }

  /** After dedenting, no non-empty whitespace starts every non-blank line. */
  lemma DedentLeavesNoCommonIndent(text: string, p: string)
    requires IsCommonIndent(p, Split(Dedent(text)))
    requires HasNonBlank(Split(Dedent(text)))
    ensures p == []
  {
    DedentLineShape(text);
    DedentBlankness(text);
    var lines, out, m := Split(text), Split(Dedent(text)), Margin(Split(text));
    assert DedentedBy(out, lines, m);
    ShiftCommonIndent(out, lines, m, p);
    assert HasNonBlank(lines) by {
      var j :| 0 <= j < |out| && !IsBlank(out[j]);
      assert !IsBlank(lines[j]);
    }
    MarginIsLongest(m + p, lines);
  }

  /** Dedenting a second time changes nothing. */
  lemma DedentIdempotent(text: string)
    ensures Dedent(Dedent(text)) == Dedent(text)
  {
    var out := Split(Dedent(text));
    DedentBlankness(text);
    var m := Margin(out);
    if HasNonBlank(out) {
      MarginIsCommonIndent(out);
      DedentLeavesNoCommonIndent(text, m);
    } else {
      CommonIndentSomeIff(out);
    }
    assert m == [];
    assert DedentLines(out, m) == out by {
      forall i | 0 <= i < |out| ensures DedentLine(out[i], m) == out[i] {
        assert out[i][|m|..] == out[i];
      }
    }
    JoinSplit(Dedent(text));
  }

  /** Dedenting never makes the text longer. */
  lemma DedentNotLonger(text: string)
    ensures |Dedent(text)| <= |text|
  {
    var lines := Split(text);
    JoinSplit(text);
    JoinLengthMonotone(DedentLines(lines, Margin(lines)), lines);
  }

  /** Prefix every non-blank line with the same whitespace. */
  function ReindentLines(lines: seq<string>, prefix: string): (out: seq<string>)
    ensures |out| == |lines|
  {
    seq(|lines|, i requires 0 <= i < |lines| => if IsBlank(lines[i]) then lines[i] else prefix + lines[i])
  }

  function Reindent(prefix: string, text: string): string
  {
    Join(ReindentLines(Split(text), prefix))
  }

  lemma IndentCons(c: char, s: string)
    requires IsIndentChar(c)
    ensures Indent([c] + s) == [c] + Indent(s)
  {
    assert ([c] + s)[1..] == s;
  }

  lemma {:induction false} IndentOfPrefixed(prefix: string, line: string)
    requires IsBlank(prefix)
    ensures Indent(prefix + line) == prefix + Indent(line)
  {
    if prefix == [] {
      assert prefix + line == line;
    } else {
      var c, tail := prefix[0], prefix[1..];
      assert prefix == [c] + tail;
      assert IsBlank(tail) by {
        forall i | 0 <= i < |tail|
          ensures IsIndentChar(tail[i])
        {
          assert tail[i] == prefix[i + 1];
        }
      }
      assert prefix + line == [c] + (tail + line);
      IndentCons(c, tail + line);
      IndentOfPrefixed(tail, line);
      assert [c] + (tail + Indent(line)) == prefix + Indent(line);
    }
  }

  lemma CommonPrefixCons(c: char, a: string, b: string)
    ensures CommonPrefix([c] + a, [c] + b) == [c] + CommonPrefix(a, b)
  {
    assert ([c] + a)[1..] == a && ([c] + b)[1..] == b;
  }

  lemma {:induction false} CommonPrefixOfPrefixed(prefix: string, a: string, b: string)
    ensures CommonPrefix(prefix + a, prefix + b) == prefix + CommonPrefix(a, b)
  {
    if prefix == [] {
      assert prefix + a == a && prefix + b == b;
    } else {
      var c, tail := prefix[0], prefix[1..];
      assert prefix + a == [c] + (tail + a);
      assert prefix + b == [c] + (tail + b);
      CommonPrefixCons(c, tail + a, tail + b);
      CommonPrefixOfPrefixed(tail, a, b);
      assert [c] + (tail + CommonPrefix(a, b)) == prefix + CommonPrefix(a, b);
    }
  }

  lemma {:induction false} CommonIndentOfReindented(lines: seq<string>, prefix: string)
    requires IsBlank(prefix)
    ensures CommonIndent(ReindentLines(lines, prefix)) ==
      match CommonIndent(lines)
      case None => None
      case Some(m) => Some(prefix + m)
  {
    if lines != [] {
      var re := ReindentLines(lines, prefix);
      assert re[1..] == ReindentLines(lines[1..], prefix);
      CommonIndentOfReindented(lines[1..], prefix);
      if !IsBlank(lines[0]) {
        assert re[0] == prefix + lines[0];
        BlankAppend(prefix, lines[0]);
        IndentOfPrefixed(prefix, lines[0]);
        match CommonIndent(lines[1..])
        case None =>
        case Some(m) =>
          CommonPrefixOfPrefixed(prefix, Indent(lines[0]), m);
      }
    }
  }

  lemma DedentReindentedLine(line: string, prefix: string, m: string, m': string)
    requires IsBlank(prefix)
    requires !IsBlank(line) ==> m <= line && m' == prefix + m
    ensures DedentLine(if IsBlank(line) then line else prefix + line, m') == DedentLine(line, m)
  {
    BlankAppend(prefix, line);
    if !IsBlank(line) {
      var rest := line[|m|..];
      assert line == m + rest;
      assert prefix + line == m' + rest;
    }
  }

  lemma DedentReindentedLines(lines: seq<string>, prefix: string)
    requires IsBlank(prefix)
    ensures DedentLines(ReindentLines(lines, prefix), Margin(ReindentLines(lines, prefix)))
         == DedentLines(lines, Margin(lines))
  {
    var re := ReindentLines(lines, prefix);
    var m, m' := Margin(lines), Margin(re);
    CommonIndentOfReindented(lines, prefix);
    CommonIndentSomeIff(lines);
    MarginIsCommonIndent(lines);
    assert HasNonBlank(lines) ==> m' == prefix + m;
    forall i | 0 <= i < |lines| ensures DedentLine(re[i], m') == DedentLine(lines[i], m) {
      DedentReindentedLine(lines[i], prefix, m, m');
    }
  }

  /** Indenting every non-blank line by the same whitespace and dedenting again
      gives the same text as dedenting alone. */
  lemma DedentReindent(prefix: string, text: string)
    requires IsBlank(prefix)
    ensures Dedent(Reindent(prefix, text)) == Dedent(text)
  {
    var lines := Split(text);
    var re := ReindentLines(lines, prefix);
    assert NoNewlines(re) by {
      forall i | 0 <= i < |re| ensures '\n' !in re[i] {
        assert '\n' !in prefix && '\n' !in lines[i];
      }
    }
    SplitJoin(re);
    DedentReindentedLines(lines, prefix);
  }
}
