/** Line handling of the aggregation loop: Rust's `str::lines` (which gives
    the `LINES_COUNT` field) and the optional line numbering of a file's
    content (`{:<6}| ` before each line). */
module LineText {
  import opened Text

  /** A line ended by "\n" loses one trailing "\r" as well. */
  function StripCr(line: string): string {
    if line != [] && line[|line| - 1] == '\r' then line[..|line| - 1] else line
  }

  /** `str::lines`: the pieces between "\n" characters, each without a
      "\r" just before its "\n"; a final "\n" does not start another line and
      the empty string has no lines. */
  function Lines(s: string): (r: seq<string>)
    ensures forall i :: 0 <= i < |r| ==> '\n' !in r[i]
    ensures s != [] ==> |r| >= 1
    decreases |s|
  {
    if s == [] then []
    else match IndexOf(s, '\n')
      case None => [s]
      case Some(i) =>
        [StripCr(s[..i])] + Lines(s[i + 1..])
  }

  /** The `LINES_COUNT` of a file. */
  function LineCount(content: string): nat {
    |Lines(content)|
  }

  /** The number of lines is the number of "\n" characters, plus one for a
      last line that is not ended by "\n". */
  lemma {:induction false} LineCountFormula(s: string)
    ensures LineCount(s) == multiset(s)['\n'] + (if s != [] && s[|s| - 1] != '\n' then 1 else 0)
    decreases |s|
  {
    if s != [] {
      match IndexOf(s, '\n')
      case None =>
        assert s[|s| - 1] in s;
      case Some(i) =>
        var rest := s[i + 1..];
        LineCountFormula(rest);
        NewlinesAfterFirst(s, i);
        assert LineCount(s) == 1 + LineCount(rest);
        if rest != [] {
          assert s[|s| - 1] == rest[|rest| - 1];
        }
    }
  }

  lemma NewlinesAfterFirst(s: string, i: nat)
    requires IndexOf(s, '\n') == Some(i)
    ensures multiset(s)['\n'] == multiset(s[i + 1..])['\n'] + 1
  {
    assert s == s[..i] + ['\n'] + s[i + 1..];
    assert multiset(s[..i])['\n'] == 0;
  }

  /** A trailing "\n" does not add an empty line. */
  lemma TrailingNewlineAddsNoLine(s: string)
    requires s != [] && s[|s| - 1] != '\n'
    ensures LineCount(s + "\n") == LineCount(s)
  {
    LineCountFormula(s);
    LineCountFormula(s + "\n");
    assert multiset(s + "\n") == multiset(s) + multiset{'\n'};
  }

  /** "\n" when `s` ends with one, otherwise nothing. */
  function FinalNewline(s: string): string {
    if s != [] && s[|s| - 1] == '\n' then "\n" else ""
  }

  /** Without carriage returns, the lines joined by "\n" give the text back,
      up to its final "\n". */
  lemma {:induction false} LinesRoundTrip(s: string)
    requires '\r' !in s
    ensures Join(Lines(s), "\n") + FinalNewline(s) == s
    decreases |s|
  {
    if s != [] {
      var k := IndexOf(s, '\n');
      if k.None? {
        assert s[|s| - 1] in s;
      } else {
        var i := k.value;
        if i + 1 == |s| {
          RoundTripLastLine(s, i);
        } else {
          NoCharInSuffix(s, i + 1, '\r');
          LinesRoundTrip(s[i + 1..]);
          RoundTripStep(s, i);
        }
      }
    }
  }

  /** The round trip for a text whose only "\n" ends it. */
  lemma RoundTripLastLine(s: string, i: nat)
    requires '\r' !in s && IndexOf(s, '\n') == Some(i) && i + 1 == |s|
    ensures Join(Lines(s), "\n") + FinalNewline(s) == s
  {
    var first := s[..i];
    assert Lines(s) == [first] by {
      LinesStep(s, i);
      assert s[i + 1..] == [];
    }
    assert s == first + "\n" by {
      SplitAt(s, i);
    }
  }

  /** A non-empty suffix ends as the whole text does. */
  lemma FinalNewlineSuffix(s: string, j: nat)
    requires j < |s|
    ensures FinalNewline(s[j..]) == FinalNewline(s)
  {
    assert s[j..][|s| - j - 1] == s[|s| - 1];
  }

  /** The round trip for `s` from the round trip for what follows its
      first "\n". */
  lemma RoundTripStep(s: string, i: nat)
    requires '\r' !in s && IndexOf(s, '\n') == Some(i) && i + 1 < |s|
    requires Join(Lines(s[i + 1..]), "\n") + FinalNewline(s[i + 1..]) == s[i + 1..]
    ensures Join(Lines(s), "\n") + FinalNewline(s) == s
  {
    var first, rest := s[..i], s[i + 1..];
    assert Lines(s) == [first] + Lines(rest) by {
      LinesStep(s, i);
    }
    assert s == first + "\n" + rest by {
      SplitAt(s, i);
    }
    FinalNewlineSuffix(s, i + 1);
    JoinedStep(s, first, Lines(rest), rest, FinalNewline(rest), Lines(s), FinalNewline(s));
  }

  lemma JoinedStep(s: string, first: string, ls: seq<string>, rest: string, tail: string, whole: seq<string>, final: string)
    requires ls != [] && Join(ls, "\n") + tail == rest
    requires whole == [first] + ls && s == first + "\n" + rest && final == tail
    ensures Join(whole, "\n") + final == s
  {
    JoinCons(first, ls, "\n");
    AppendAssoc(first + "\n", Join(ls, "\n"), tail);
  }

  lemma AppendAssoc<T>(a: seq<T>, b: seq<T>, c: seq<T>)
    ensures (a + b) + c == a + (b + c)
  {
  }

  /** One step of `Lines`: the text up to the first "\n" (here without a
      "\r"), then the lines of what follows it. */
  lemma LinesStep(s: string, i: nat)
    requires '\r' !in s && IndexOf(s, '\n') == Some(i)
    ensures Lines(s) == [s[..i]] + Lines(s[i + 1..])
  {
    if i > 0 {
      assert s[..i][i - 1] == s[i - 1];
    }
  }

  /** A character absent from the text is absent from each of its lines. */
  lemma {:induction false} LinesAvoidChar(s: string, c: char)
    requires c !in s
    ensures forall i :: 0 <= i < |Lines(s)| ==> c !in Lines(s)[i]
    decreases |s|
  {
    var k := IndexOf(s, '\n');
    if s != [] && k.Some? {
      var i := k.value;
      NoCharInSuffix(s, i + 1, c);
      LinesAvoidChar(s[i + 1..], c);
      var first := s[..i];
      assert c !in StripCr(first);
    }
  }

  lemma NoCharInSuffix(s: string, i: nat, c: char)
    requires i <= |s| && c !in s
    ensures c !in s[i..]
  {
  }

  lemma JoinCons(first: string, ls: seq<string>, sep: string)
    requires ls != []
    ensures Join([first] + ls, sep) == first + sep + Join(ls, sep)
  {
    assert ([first] + ls)[1..] == ls;
  }

  /** Splitting a "\n"-join of lines gives the lines back, provided no line
      holds "\n" or ends with "\r" and the last one is not empty. */
  lemma {:induction false} LinesOfJoin(ls: seq<string>)
    requires forall i :: 0 <= i < |ls| ==> '\n' !in ls[i] && StripCr(ls[i]) == ls[i]
    requires ls == [] || ls[|ls| - 1] != []
    ensures Lines(Join(ls, "\n")) == ls
  {
    if |ls| == 1 {
      assert IndexOf(ls[0], '\n').None?;
    } else if |ls| > 1 {
      var s := Join(ls, "\n");
      var tail := Join(ls[1..], "\n");
      assert s == ls[0] + "\n" + tail;
      assert s[|ls[0]|] == '\n' && s[..|ls[0]|] == ls[0];
      assert IndexOf(s, '\n') == Some(|ls[0]|);
      assert s[|ls[0]| + 1..] == tail;
      LinesOfJoin(ls[1..]);
    }
  }

  /** `format!("{:<6}| {}", i + 1, line)`: the line at index `i`, numbered from 1. */
  function NumberedLine(i: nat, line: string): string {
    PadRight(NatToString(i + 1), 6) + "| " + line
  }

  /** The numbered form of every line, in order. */
  function NumberLines(lines: seq<string>): seq<string> {
    seq(|lines|, i requires 0 <= i < |lines| => NumberedLine(i, lines[i]))
  }

  /** The content placed in a file block before trimming: its lines numbered
      and joined by "\n" when numbering is on, the raw content otherwise. */
  function FormatContent(content: string, addLineNumbers: bool): string {
    if addLineNumbers then Join(NumberLines(Lines(content)), "\n") else content
  }

  /** Below a million lines, a numbered line is the number left-justified in
      six columns, then "| ", then the original line, which can all be read
      back. */
  lemma NumberedLineParts(i: nat, line: string)
    requires i + 1 < 1000000
    ensures |NumberedLine(i, line)| == 8 + |line|
    ensures NumberedLine(i, line)[8..] == line
    ensures NumberedLine(i, line)[6..8] == "| "
    ensures TrimEnd(NumberedLine(i, line)[..6]) == NatToString(i + 1)
    ensures ParseNat(TrimEnd(NumberedLine(i, line)[..6])) == i + 1
  {
    assert Pow10(6) == 1000000;
    NatToStringWidth(i + 1, 6, 1000000);
    NatToStringRoundTrip(i + 1);
    var d := NatToString(i + 1);
    var p := PadRight(d, 6);
    assert NumberedLine(i, line)[..6] == p;
    PaddedDigitsTrim(d, 6);
  }

  /** Trimming the padding off a left-justified number gives the number. */
  lemma {:induction false} PaddedDigitsTrim(d: string, width: nat)
    requires d != [] && forall k :: 0 <= k < |d| ==> IsDigit(d[k])
    ensures TrimEnd(PadRight(d, width)) == d
    decreases width
  {
    if |d| < width {
      var p := PadRight(d, width);
      assert p[..|p| - 1] == PadRight(d, width - 1);
      PaddedDigitsTrim(d, width - 1);
    }
  }

  /** A numbered line holds no "\n", is never empty, and ends as its line
      does (or with the space of "| " when the line is empty). */
  lemma NumberedLineShape(i: nat, line: string)
    requires '\n' !in line
    ensures var n := NumberedLine(i, line);
      && '\n' !in n && n != []
      && n[|n| - 1] == (if line == [] then ' ' else line[|line| - 1])
  {
    var d := NatToString(i + 1);
    assert '\n' !in d;
    var p := PadRight(d, 6);
    assert '\n' !in p by {
      forall k | 0 <= k < |p| ensures p[k] != '\n' {
        if k < |d| {
          assert p[k] == d[k];
        }
      }
    }
  }

  /** Joining lines without "\n" by "\n" puts one "\n" between each two,
      and the text ends as the last line does. */
  lemma {:induction false} JoinNewlines(ls: seq<string>)
    requires ls != [] && forall i :: 0 <= i < |ls| ==> '\n' !in ls[i]
    ensures multiset(Join(ls, "\n"))['\n'] == |ls| - 1
    ensures EndsWith(Join(ls, "\n"), ls[|ls| - 1])
  {
    if |ls| == 1 {
      assert multiset(ls[0])['\n'] == 0;
    } else {
      var tail := Join(ls[1..], "\n");
      JoinNewlines(ls[1..]);
      assert Join(ls, "\n") == ls[0] + "\n" + tail;
      assert multiset(ls[0])['\n'] == 0;
      assert multiset(ls[0] + "\n" + tail) == multiset(ls[0]) + multiset("\n") + multiset(tail);
    }
  }

  /** Numbering keeps the number of lines, whatever the content. */
  lemma FormatContentLineCount(content: string)
    ensures LineCount(FormatContent(content, true)) == LineCount(content)
  {
    var ls := Lines(content);
    var ns := NumberLines(ls);
    var s := Join(ns, "\n");
    LineCountFormula(s);
    if ls != [] {
      forall i | 0 <= i < |ns| ensures '\n' !in ns[i] && ns[i] != [] {
        NumberedLineShape(i, ls[i]);
      }
      JoinNewlines(ns);
      var last := ns[|ns| - 1];
      assert s[|s| - 1] == last[|last| - 1];
      NumberedLineShape(|ls| - 1, ls[|ls| - 1]);
    }
  }

  /** With numbering on, when no line of the content keeps a "\r" at its
      end, line `i` of the formatted content is the `i`-th line of the
      content with its number in front. */
  lemma FormatContentLines(content: string)
    requires forall i :: 0 <= i < |Lines(content)| ==> StripCr(Lines(content)[i]) == Lines(content)[i]
    ensures Lines(FormatContent(content, true)) == NumberLines(Lines(content))
  {
    var ls := Lines(content);
    var ns := NumberLines(ls);
    forall i | 0 <= i < |ns| ensures '\n' !in ns[i] && StripCr(ns[i]) == ns[i] {
      NumberedLineShape(i, ls[i]);
      assert StripCr(ls[i]) == ls[i];
    }
    LinesOfJoin(ns);
  }
}
