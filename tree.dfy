/** The folder diagram of `create_folder_tree`: one line per directory and
    per shown file, directories first and names ascending at every level,
    drawn with "├──"/"└──" connectors and "│" rails. */
module FolderTree {
  import opened Text
  import opened Order
  import opened Walker

  /** The key of `sort_by_key(|a| (!is_dir, file_name))`: directories
      before files, then by name. */
  predicate EntryLe(a: Node, b: Node) {
    if a.Dir? != b.Dir? then a.Dir? else StrLe(a.name, b.name)
  }

  lemma EntryLeTotalPreorder()
    ensures TotalPreorder(EntryLe)
  {
    StrLtStrictTotal();
    forall a: Node, b: Node, c: Node | EntryLe(a, b) && EntryLe(b, c) ensures EntryLe(a, c) {
      if a.Dir? == b.Dir? == c.Dir? && a.name != b.name && b.name != c.name {
        LexTransitive(a.name, b.name, c.name, CharLt);
      }
    }
    forall a: Node, b: Node ensures EntryLe(a, b) || EntryLe(b, a) {
      LexTrichotomy(a.name, b.name, CharLt);
    }
  }

  /** The listing without the entries whose name is on the ignore list
      (files and directories alike). */
  function Visible(cs: seq<Node>, ignore: seq<string>): (r: seq<Node>)
    ensures forall e :: e in r <==> e in cs && e.name !in ignore
  {
    if cs == [] then []
    else
      assert cs == cs[..|cs| - 1] + [cs[|cs| - 1]];
      Visible(cs[..|cs| - 1], ignore) + (if cs[|cs| - 1].name in ignore then [] else [cs[|cs| - 1]])
  }

  /** Filtering keeps every shown entry as often as the listing holds it. */
  lemma {:induction false} VisibleCounts(cs: seq<Node>, ignore: seq<string>)
    ensures forall e :: multiset(Visible(cs, ignore))[e] == if e.name in ignore then 0 else multiset(cs)[e]
  {
    if cs != [] {
      var init, last := cs[..|cs| - 1], cs[|cs| - 1];
      VisibleCounts(init, ignore);
      assert cs == init + [last];
    }
  }

  /** The entries of one level, in the order they are drawn. */
  function SortedEntries(cs: seq<Node>, ignore: seq<string>): (r: seq<Node>)
    ensures forall e :: e in r <==> e in cs && e.name !in ignore
  {
    var v := Visible(cs, ignore);
    var r := SortBy(v, EntryLe);
    assert forall e :: e in r <==> e in multiset(v);
    r
  }

  /** Each level is drawn directories first, then by ascending name, and
      lists every entry not on the ignore list exactly as often as the
      directory holds it. */
  lemma SortedEntriesOrder(cs: seq<Node>, ignore: seq<string>)
    ensures SortedBy(SortedEntries(cs, ignore), EntryLe)
    ensures multiset(SortedEntries(cs, ignore)) == multiset(Visible(cs, ignore))
  {
    EntryLeTotalPreorder();
    SortBySorted(Visible(cs, ignore), EntryLe);
  }

  /** The tree's file filter: the name ends with one of the extensions as
      written (leading dots included). */
  predicate ShownInTree(name: string, exts: Option<seq<string>>) {
    exts.None? || exists i :: 0 <= i < |exts.value| && EndsWith(name, exts.value[i])
  }

  /** One line of the diagram. */
  datatype TreeLine = TreeLine(prefix: string, last: bool, name: string, isDir: bool)

  function Connector(last: bool): string {
    if last then "└──" else "├──"
  }

  function LineText(l: TreeLine): string {
    l.prefix + Connector(l.last) + " " + l.name + (if l.isDir then "/\n" else "\n")
  }

  /** The prefix handed to the children of a directory: a rail unless the
      directory is the last entry of its level, then three spaces. */
  function ChildPrefix(prefix: string, last: bool): (r: string)
    ensures prefix <= r && |r| == |prefix| + 4
  {
    prefix + (if last then " " else "│") + "   "
  }

  function RenderLines(ls: seq<TreeLine>): string {
    if ls == [] then "" else LineText(ls[0]) + RenderLines(ls[1..])
  }

  lemma {:induction false} RenderLinesAppend(a: seq<TreeLine>, b: seq<TreeLine>)
    ensures RenderLines(a + b) == RenderLines(a) + RenderLines(b)
  {
    if a != [] {
      assert (a + b)[1..] == a[1..] + b;
      RenderLinesAppend(a[1..], b);
    } else {
      assert a + b == b;
    }
  }

  /** The lines of a directory's listing below `prefix`. */
  function TreeLines(cs: seq<Node>, exts: Option<seq<string>>, ignore: seq<string>, prefix: string): seq<TreeLine>
    decreases cs, 2
  {
    var es := SortedEntries(cs, ignore);
    LevelLines(cs, es, |es|, exts, ignore, prefix)
  }

  /** The lines of the first `k` entries of the level `es`. */
  function LevelLines(cs: seq<Node>, es: seq<Node>, k: nat, exts: Option<seq<string>>, ignore: seq<string>, prefix: string): seq<TreeLine>
    requires k <= |es| && forall e :: e in es ==> e in cs
    decreases cs, 1, k
  {
    if k == 0 then []
    else
      assert es[k - 1] in es;
      LevelLines(cs, es, k - 1, exts, ignore, prefix) + EntryLines(es[k - 1], k == |es|, exts, ignore, prefix)
  }

  /** The lines of one entry: a directory's own line and then its listing,
      or a file's line when the file is shown. */
  function EntryLines(e: Node, last: bool, exts: Option<seq<string>>, ignore: seq<string>, prefix: string): seq<TreeLine>
    decreases e, 0
  {
    match e
    case Dir(n, kids) => [TreeLine(prefix, last, n, true)] + TreeLines(kids, exts, ignore, ChildPrefix(prefix, last))
    case File(n, _, _) => if ShownInTree(n, exts) then [TreeLine(prefix, last, n, false)] else []
  }

  /** `create_folder_tree_inner`: draws one level, recursing into each
      directory with the extended prefix. */
  method CreateFolderTreeInner(entries: seq<Node>, exts: Option<seq<string>>, ignore: seq<string>, prefix: string)
    returns (tree: string)
    ensures tree == RenderLines(TreeLines(entries, exts, ignore, prefix))
    decreases entries, 1
  {
    tree := "";
    var contents := SortedEntries(entries, ignore);
    for i := 0 to |contents|
      invariant tree == RenderLines(LevelLines(entries, contents, i, exts, ignore, prefix))
    {
      var isLast := i == |contents| - 1;
      LevelLinesNext(entries, contents, i, exts, ignore, prefix);
      RenderLinesAppend(LevelLines(entries, contents, i, exts, ignore, prefix), EntryLines(contents[i], isLast, exts, ignore, prefix));
      assert contents[i] in entries;
      var text := DrawEntry(contents[i], isLast, exts, ignore, prefix);
      tree := tree + text;
    }
  }

  /** One pass of the loop: a directory's line and then its subtree, or a
      file's line when the tree shows the file. */
  method DrawEntry(e: Node, isLast: bool, exts: Option<seq<string>>, ignore: seq<string>, prefix: string)
    returns (text: string)
    ensures text == RenderLines(EntryLines(e, isLast, exts, ignore, prefix))
    decreases e, 0
  {
    if e.Dir? {
      EntryRenderDir(e, isLast, exts, ignore, prefix);
      var sub := CreateFolderTreeInner(e.children, exts, ignore, ChildPrefix(prefix, isLast));
      text := prefix + Connector(isLast) + " " + e.name + "/\n" + sub;
    } else {
      EntryRenderFile(e, isLast, exts, ignore, prefix);
      if ShownInTree(e.name, exts) {
        text := prefix + Connector(isLast) + " " + e.name + "\n";
      } else {
        text := "";
      }
    }
  }

  lemma LevelLinesNext(cs: seq<Node>, es: seq<Node>, i: nat, exts: Option<seq<string>>, ignore: seq<string>, prefix: string)
    requires i < |es| && forall e :: e in es ==> e in cs
    ensures LevelLines(cs, es, i + 1, exts, ignore, prefix)
         == LevelLines(cs, es, i, exts, ignore, prefix) + EntryLines(es[i], i == |es| - 1, exts, ignore, prefix)
  {
  }

  /** The text of a directory's lines: its own line, then its listing. */
  lemma EntryRenderDir(e: Node, last: bool, exts: Option<seq<string>>, ignore: seq<string>, prefix: string)
    requires e.Dir?
    ensures RenderLines(EntryLines(e, last, exts, ignore, prefix)) ==
      prefix + Connector(last) + " " + e.name + "/\n" + RenderLines(TreeLines(e.children, exts, ignore, ChildPrefix(prefix, last)))
  {
    var line := TreeLine(prefix, last, e.name, true);
    var sub := TreeLines(e.children, exts, ignore, ChildPrefix(prefix, last));
    assert EntryLines(e, last, exts, ignore, prefix) == [line] + sub;
    assert ([line] + sub)[1..] == sub;
  }

  /** The text of a file's line, or nothing for a file the tree hides. */
  lemma EntryRenderFile(e: Node, last: bool, exts: Option<seq<string>>, ignore: seq<string>, prefix: string)
    requires e.File?
    ensures RenderLines(EntryLines(e, last, exts, ignore, prefix)) ==
      if ShownInTree(e.name, exts) then prefix + Connector(last) + " " + e.name + "\n" else ""
  {
  }

  /** `create_folder_tree`: the diagram of a whole folder, from an empty prefix. */
  method CreateFolderTree(entries: seq<Node>, exts: Option<seq<string>>, ignore: seq<string>)
    returns (tree: string)
    ensures tree == RenderLines(TreeLines(entries, exts, ignore, ""))
  {
    tree := CreateFolderTreeInner(entries, exts, ignore, "");
  }

  /** What every line of a listing below `prefix` satisfies. */
  ghost predicate LineOk(l: TreeLine, exts: Option<seq<string>>, ignore: seq<string>, prefix: string) {
    && l.name !in ignore
    && (!l.isDir ==> ShownInTree(l.name, exts))
    && prefix <= l.prefix
  }

  /** No line names an ignored entry, every file line passes the tree's
      filter, and every line begins with the prefix it was drawn under. */
  lemma {:induction false} TreeLinesOk(cs: seq<Node>, exts: Option<seq<string>>, ignore: seq<string>, prefix: string)
    ensures forall l :: l in TreeLines(cs, exts, ignore, prefix) ==> LineOk(l, exts, ignore, prefix)
    decreases cs, 2
  {
    var es := SortedEntries(cs, ignore);
    LevelLinesOk(cs, es, |es|, exts, ignore, prefix);
  }

  lemma {:induction false} LevelLinesOk(cs: seq<Node>, es: seq<Node>, k: nat, exts: Option<seq<string>>, ignore: seq<string>, prefix: string)
    requires k <= |es| && forall e :: e in es ==> e in cs && e.name !in ignore
    ensures forall l :: l in LevelLines(cs, es, k, exts, ignore, prefix) ==> LineOk(l, exts, ignore, prefix)
    decreases cs, 1, k
  {
    if k > 0 {
      LevelLinesOk(cs, es, k - 1, exts, ignore, prefix);
      assert es[k - 1] in es;
      EntryLinesOk(es[k - 1], k == |es|, exts, ignore, prefix);
    }
  }

  lemma {:induction false} EntryLinesOk(e: Node, last: bool, exts: Option<seq<string>>, ignore: seq<string>, prefix: string)
    requires e.name !in ignore
    ensures forall l :: l in EntryLines(e, last, exts, ignore, prefix) ==> LineOk(l, exts, ignore, prefix)
    decreases e, 0
  {
    match e
    case Dir(n, kids) =>
      var cp := ChildPrefix(prefix, last);
      TreeLinesOk(kids, exts, ignore, cp);
      forall l | l in TreeLines(kids, exts, ignore, cp) ensures prefix <= l.prefix {
        assert cp <= l.prefix;
        assert l.prefix[..|prefix|] == cp[..|prefix|];
      }
    case File(_, _, _) =>
  }

  /** The lines drawn at the level of `prefix` itself. */
  function TopLevel(ls: seq<TreeLine>, prefix: string): seq<TreeLine> {
    if ls == [] then []
    else TopLevel(ls[..|ls| - 1], prefix) + (if |ls[|ls| - 1].prefix| == |prefix| then [ls[|ls| - 1]] else [])
  }

  lemma {:induction false} TopLevelAppend(a: seq<TreeLine>, b: seq<TreeLine>, prefix: string)
    ensures TopLevel(a + b, prefix) == TopLevel(a, prefix) + TopLevel(b, prefix)
    decreases |b|
  {
    if b != [] {
      assert (a + b)[..|a + b| - 1] == a + b[..|b| - 1];
      TopLevelAppend(a, b[..|b| - 1], prefix);
    } else {
      assert a + b == a;
    }
  }

  lemma {:induction false} TopLevelNone(ls: seq<TreeLine>, prefix: string)
    requires forall l :: l in ls ==> |l.prefix| != |prefix|
    ensures TopLevel(ls, prefix) == []
    decreases |ls|
  {
    if ls != [] {
      TopLevelNone(ls[..|ls| - 1], prefix);
    }
  }

  /** The level `es` as it should be drawn: each directory, and each file
      that passes the filter, in order, the connector "└──" going to the
      last entry of the level whether it is drawn or not. */
  function DrawnLevel(es: seq<Node>, k: nat, exts: Option<seq<string>>, prefix: string): seq<TreeLine>
    requires k <= |es|
  {
    if k == 0 then []
    else
      var e := es[k - 1];
      DrawnLevel(es, k - 1, exts, prefix)
        + (if e.Dir? || ShownInTree(e.name, exts) then [TreeLine(prefix, k == |es|, e.name, e.Dir?)] else [])
  }

  /** The top level of the diagram is exactly the sorted visible entries
      that are drawn, with the connector rule of `DrawnLevel`. */
  lemma TopLevelDrawn(cs: seq<Node>, exts: Option<seq<string>>, ignore: seq<string>, prefix: string)
    ensures var es := SortedEntries(cs, ignore);
      TopLevel(TreeLines(cs, exts, ignore, prefix), prefix) == DrawnLevel(es, |es|, exts, prefix)
  {
    var es := SortedEntries(cs, ignore);
    LevelTopLevel(cs, es, |es|, exts, ignore, prefix);
  }

  lemma {:induction false} LevelTopLevel(cs: seq<Node>, es: seq<Node>, k: nat, exts: Option<seq<string>>, ignore: seq<string>, prefix: string)
    requires k <= |es| && forall e :: e in es ==> e in cs
    ensures TopLevel(LevelLines(cs, es, k, exts, ignore, prefix), prefix) == DrawnLevel(es, k, exts, prefix)
  {
    if k > 0 {
      LevelTopLevel(cs, es, k - 1, exts, ignore, prefix);
      var e, last := es[k - 1], k == |es|;
      var before, own := LevelLines(cs, es, k - 1, exts, ignore, prefix), EntryLines(e, last, exts, ignore, prefix);
      assert LevelLines(cs, es, k, exts, ignore, prefix) == before + own;
      TopLevelAppend(before, own, prefix);
      EntryTopLevel(e, last, exts, ignore, prefix);
      calc {
        TopLevel(LevelLines(cs, es, k, exts, ignore, prefix), prefix);
        TopLevel(before + own, prefix);
        TopLevel(before, prefix) + TopLevel(own, prefix);
        DrawnLevel(es, k - 1, exts, prefix) + TopLevel(own, prefix);
        DrawnLevel(es, k, exts, prefix);
      }
    } else {
      assert LevelLines(cs, es, k, exts, ignore, prefix) == [];
    }
  }

  /** Of an entry's lines, only its own line (if drawn) is at its level. */
  lemma EntryTopLevel(e: Node, last: bool, exts: Option<seq<string>>, ignore: seq<string>, prefix: string)
    ensures TopLevel(EntryLines(e, last, exts, ignore, prefix), prefix)
         == if e.Dir? || ShownInTree(e.name, exts) then [TreeLine(prefix, last, e.name, e.Dir?)] else []
  {
    var line := TreeLine(prefix, last, e.name, e.Dir?);
    assert TopLevel([line], prefix) == [line] by {
      assert [line][..0] == [];
    }
    if e.Dir? {
      var sub := TreeLines(e.children, exts, ignore, ChildPrefix(prefix, last));
      TreeLinesOk(e.children, exts, ignore, ChildPrefix(prefix, last));
      TopLevelNone(sub, prefix);
      TopLevelAppend([line], sub, prefix);
      assert EntryLines(e, last, exts, ignore, prefix) == [line] + sub;
    }
  }

  /** A last entry that is a hidden file leaves the level without a "└──":
      with only ".rs" files shown, "a.rs" beside "b.txt" is drawn with "├──". */
  lemma HiddenLastFileKeepsOpenConnector()
    ensures var cs := [File("b.txt", None, ""), File("a.rs", None, "")];
      TreeLines(cs, Some(["rs"]), [], "") == [TreeLine("", false, "a.rs", false)]
  {
    var cs := [File("b.txt", None, ""), File("a.rs", None, "")];
    var exts := Some(["rs"]);
    var es := SortedEntries(cs, []);
    TwoFilesSorted(cs[0], cs[1]);
    LevelLinesNext(cs, es, 0, exts, [], "");
    LevelLinesNext(cs, es, 1, exts, [], "");
    assert ShownInTree("a.rs", exts) by {
      assert EndsWith("a.rs", exts.value[0]);
    }
    assert !ShownInTree("b.txt", exts) by {
      assert !EndsWith("b.txt", exts.value[0]);
    }
    assert EntryLines(es[0], false, exts, [], "") == [TreeLine("", false, "a.rs", false)];
    assert EntryLines(es[1], true, exts, [], "") == [];
  }

  lemma TwoFilesSorted(b: Node, a: Node)
    requires b == File("b.txt", None, "") && a == File("a.rs", None, "")
    ensures SortedEntries([b, a], []) == [a, b]
  {
    var cs := [b, a];
    assert Visible(cs[..1], []) == cs[..1];
    assert Visible(cs, []) == cs;
    assert !StrLe("b.txt", "a.rs");
    assert SortBy(cs[..1], EntryLe) == [b];
    assert InsertBy(a, [b], EntryLe) == [a, b];
  }

  /** The tree tests suffixes while the walk tests extensions: "bars" is
      drawn for the extension "rs" but never collected. */
  lemma SuffixIsNotExtension()
    ensures ShownInTree("bars", Some(["rs"]))
    ensures !KeepFile("bars", Some(["rs"]))
  {
    assert EndsWith("bars", ["rs"][0]);
    assert LastIndexOf("bars", '.').None?;
  }

  /** The tree keeps the dots of an extension the walk strips: with "..rs",
      "a.rs" is collected (this lemma) but not drawn (the next). */
  lemma DoubledDotCollected()
    ensures KeepFile("a.rs", Some(["..rs"]))
  {
    var name, ext := "a.rs", "..rs";
    assert name[..|name| - 1][..|name| - 2] == "a.";
    assert LastIndexOf(name, '.') == Some(1);
    assert name[2..] == "rs";
    assert Extension(name) == Some("rs");
    assert ext[1..][1..] == "rs";
    assert TrimStartDots(ext) == "rs";
    assert ExtensionMatches(name, ["..rs"][0]);
  }

  lemma DoubledDotNotDrawn()
    ensures !ShownInTree("a.rs", Some(["..rs"]))
  {
    assert !EndsWith("a.rs", "..rs");
  }

  /** For an extension written with at most one leading dot, a collected
      file is also drawn. */
  lemma CollectedFileDrawn(name: string, ext: string)
    requires ext == TrimStartDots(ext) || ext == "." + TrimStartDots(ext)
    requires ExtensionMatches(name, ext)
    ensures EndsWith(name, ext)
  {
    var r := TrimStartDots(ext);
    assert EndsWith(name, "." + r);
    if ext == r {
      assert name[|name| - |r|..] == (name[|name| - |r| - 1..])[1..];
    }
  }

  /** A file whose name is on the ignore list is collected by the walk but
      never drawn. */
  lemma IgnoredFileCollectedNotDrawn(cs: seq<Node>, exts: Option<seq<string>>, ignore: seq<string>, prefix: string, k: nat)
    requires k < |cs| && cs[k].File? && cs[k].name in ignore && KeepFile(cs[k].name, exts)
    ensures [cs[k].name] in Collect([], cs, exts, ignore)
    ensures forall l :: l in TreeLines(cs, exts, ignore, prefix) ==> l.name != cs[k].name
  {
    IgnoredNameFileCollected([], cs, exts, ignore, k);
    assert [] + [cs[k].name] == [cs[k].name];
    TreeLinesOk(cs, exts, ignore, prefix);
  }
}
