/** The ignore list of the combine command: four built-in names, then the
    patterns of the folder's `.gitignore` in file order, then the names given
    on the command line. Nothing is deduplicated. */
module IgnoreList {
  import opened Text

  /** The folder's `.gitignore` as the program finds it: absent, present but
      not openable, or readable as a sequence of line reads, each of which
      yields a line or fails. */
  datatype Gitignore = Missing | CannotOpen | Readable(lines: seq<Option<string>>)

  /** The names every ignore list starts with, in this order. */
  const DefaultIgnores: seq<string> := [".git", "node_modules", "__pycache__", "target"]

  /** A trimmed line is a pattern when it is not empty and not a comment. */
  predicate Kept(trimmed: string) {
    trimmed != [] && trimmed[0] != '#'
  }

  /** The lines read before the first failed read. */
  function ReadLines(lines: seq<Option<string>>): (r: seq<string>)
    ensures |r| <= |lines|
    ensures forall i :: 0 <= i < |r| ==> lines[i] == Some(r[i])
    ensures |r| < |lines| ==> lines[|r|].None?
  {
    if lines == [] || lines[0].None? then [] else [lines[0].value] + ReadLines(lines[1..])
  }

  /** What one line contributes: its trimmed form, if that is kept. */
  function LinePattern(line: string): seq<string> {
    var trimmed := Trim(line);
    if Kept(trimmed) then [trimmed] else []
  }

  /** The trimmed form of every kept line, in file order. */
  function Patterns(ls: seq<string>): seq<string> {
    if ls == [] then [] else LinePattern(ls[0]) + Patterns(ls[1..])
  }

  /** The list the reader builds from a `.gitignore`. */
  function GitignoreList(g: Gitignore): seq<string> {
    DefaultIgnores + (if g.Readable? then Patterns(ReadLines(g.lines)) else [])
  }

  /** The list of the combine command: the `.gitignore` list, then the
      names given with `-i`, if any. */
  function CombineList(g: Gitignore, extra: Option<seq<string>>): seq<string> {
    GitignoreList(g) + (if extra.Some? then extra.value else [])
  }

  /** Reads the patterns of a `.gitignore` after the four defaults; a missing
      or unopenable file leaves the defaults alone. */
  method ReadGitignore(g: Gitignore) returns (ignorePatterns: seq<string>)
    ensures ignorePatterns == GitignoreList(g)
    ensures ignorePatterns[..|DefaultIgnores|] == DefaultIgnores
  {
    ignorePatterns := DefaultIgnores;
    if g.Readable? {
      ignorePatterns := PushPatterns(ignorePatterns, ReadLines(g.lines));
    }
  }

  /** The loop over the lines that `map_while(Result::ok)` yields (those
      before the first line that cannot be read): each kept line is pushed,
      trimmed, onto the list. */
  method PushPatterns(start: seq<string>, read: seq<string>) returns (ignorePatterns: seq<string>)
    ensures ignorePatterns == start + Patterns(read)
  {
    ignorePatterns := start;
    for i := 0 to |read|
      invariant ignorePatterns == start + Patterns(read[..i])
    {
      assert read[..i + 1] == read[..i] + [read[i]];
      PatternsSnoc(read[..i], read[i]);
      ignorePatterns := AddLine(ignorePatterns, read[i]);
    }
    assert read[..|read|] == read;
  }

  /** One line of the loop: trim it, and push it when it is kept. */
  method AddLine(patterns: seq<string>, line: string) returns (next: seq<string>)
    ensures next == patterns + LinePattern(line)
  {
    next := patterns;
    var trimmed := Trim(line);
    if Kept(trimmed) {
      next := next + [trimmed];
    }
  }

  /** The combine command's list: the `.gitignore` list extended with the
      `-i` names in the order given. */
  method CombineIgnoreList(g: Gitignore, extra: Option<seq<string>>) returns (ignorePatterns: seq<string>)
    ensures ignorePatterns == CombineList(g, extra)
  {
    ignorePatterns := ReadGitignore(g);
    if extra.Some? {
      ignorePatterns := ignorePatterns + extra.value;
    }
  }

  /** The patterns of two runs of lines are the patterns of each, in order. */
  lemma {:induction false} PatternsAppend(a: seq<string>, b: seq<string>)
    ensures Patterns(a + b) == Patterns(a) + Patterns(b)
  {
    if a == [] {
      assert a + b == b;
    } else {
      assert (a + b)[1..] == a[1..] + b;
      PatternsAppend(a[1..], b);
    }
  }

  /** One more line adds its own pattern, if any, at the end. */
  lemma PatternsSnoc(ls: seq<string>, line: string)
    ensures Patterns(ls + [line]) == Patterns(ls) + LinePattern(line)
  {
    PatternsAppend(ls, [line]);
    assert [line][1..] == [];
  }

  /** `p` is the trimmed form of one of the lines `ls`, and is kept. */
  ghost predicate KeptLineOf(ls: seq<string>, p: string) {
    exists i :: 0 <= i < |ls| && Trim(ls[i]) == p && Kept(p)
  }

  /** A pattern is exactly the trimmed form of some line that is kept. */
  lemma {:induction false} PatternsMembership(ls: seq<string>, p: string)
    ensures p in Patterns(ls) <==> KeptLineOf(ls, p)
  {
    if ls != [] {
      PatternsMembership(ls[1..], p);
      if exists i :: 0 <= i < |ls| && Trim(ls[i]) == p && Kept(p) {
        var i :| 0 <= i < |ls| && Trim(ls[i]) == p && Kept(p);
        if i > 0 {
          assert ls[1..][i - 1] == ls[i];
        }
      }
      if p in Patterns(ls[1..]) {
        var i :| 0 <= i < |ls[1..]| && Trim(ls[1..][i]) == p && Kept(p);
        assert ls[i + 1] == ls[1..][i];
      }
    }
  }

  /** Every pattern is trimmed, not empty and not a comment, and there are
      no more patterns than lines. */
  lemma {:induction false} PatternsClean(ls: seq<string>)
    ensures |Patterns(ls)| <= |ls|
    ensures forall i :: 0 <= i < |Patterns(ls)| ==> Kept(Patterns(ls)[i]) && Trim(Patterns(ls)[i]) == Patterns(ls)[i]
  {
    if ls != [] {
      PatternsClean(ls[1..]);
      TrimIdempotent(ls[0]);
    }
  }

  /** Reading the patterns back as lines gives the same patterns. */
  lemma {:induction false} PatternsIdempotent(ls: seq<string>)
    ensures Patterns(Patterns(ls)) == Patterns(ls)
  {
    if ls != [] {
      var head := LinePattern(ls[0]);
      PatternsIdempotent(ls[1..]);
      PatternsAppend(head, Patterns(ls[1..]));
      if head != [] {
        TrimIdempotent(ls[0]);
        assert Patterns(head) == head + Patterns([]) by {
          assert head[1..] == [];
        }
      }
    }
  }

  /** When every line can be read, the reader sees all of them. */
  lemma {:induction false} ReadAllLines(lines: seq<Option<string>>)
    requires forall i :: 0 <= i < |lines| ==> lines[i].Some?
    ensures |ReadLines(lines)| == |lines|
  {
    if lines != [] {
      ReadAllLines(lines[1..]);
    }
  }

  /** The combine list starts with the four defaults and ends with the
      `-i` names. */
  lemma CombineListEnds(g: Gitignore, extra: seq<string>)
    ensures var l := CombineList(g, Some(extra));
      l[..4] == DefaultIgnores && l[|l| - |extra|..] == extra
  {
    var l := CombineList(g, Some(extra));
    var mid := if g.Readable? then Patterns(ReadLines(g.lines)) else [];
    assert l == DefaultIgnores + mid + extra;
  }

  /** A name is in the combine list exactly when it is a default, a `-i`
      name, or the trimmed form of a kept line read from the `.gitignore`. */
  lemma CombineListMembership(g: Gitignore, extra: seq<string>, p: string)
    ensures p in CombineList(g, Some(extra)) <==>
          || p in DefaultIgnores
          || p in extra
          || (g.Readable? && KeptLineOf(ReadLines(g.lines), p))
  {
    var mid := if g.Readable? then Patterns(ReadLines(g.lines)) else [];
    assert CombineList(g, Some(extra)) == DefaultIgnores + (mid + extra);
    InThreeParts(DefaultIgnores, mid, extra, p);
    if g.Readable? {
      PatternsMembership(ReadLines(g.lines), p);
    }
  }

  lemma InThreeParts<T>(a: seq<T>, b: seq<T>, c: seq<T>, x: T)
    ensures x in a + (b + c) <==> x in a || x in b || x in c
  {
  }
}
