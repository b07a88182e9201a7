/** File discovery: the recursive walk of `get_all_files` and the bullet
    list of `create_file_list`. A directory is an in-memory tree of
    entries listed in the order the file system returns them; a path is
    the sequence of its components. */
module Walker {
  import opened Text
  import opened Order
  import opened LineText

  /** A directory entry. A file carries its text, `None` when it cannot be
      read as text, and its formatted modification time. */
  datatype Node =
    | Dir(name: string, children: seq<Node>)
    | File(name: string, content: Option<string>, modified: string)

  predicate DistinctNames(cs: seq<Node>) {
    forall i, j :: 0 <= i < j < |cs| ==> cs[i].name != cs[j].name
  }

  /** Entries of one directory have distinct names, at every level. */
  ghost predicate WellFormedEntries(cs: seq<Node>)
    decreases cs
  {
    && DistinctNames(cs)
    && forall k :: 0 <= k < |cs| ==> (cs[k].Dir? ==> WellFormedEntries(cs[k].children))
  }

  /** `Path::extension` of a file name: the text after the last ".", unless
      there is no "." or the only "." begins the name, and never for "..". */
  function Extension(name: string): (r: Option<string>)
    ensures r.Some? ==> '.' !in r.value && EndsWith(name, "." + r.value) && |r.value| + 1 < |name|
    ensures r.None? ==> name == ".." || '.' !in name || (name[0] == '.' && '.' !in name[1..])
  {
    if name == ".." then None
    else match LastIndexOf(name, '.')
      case None => None
      case Some(i) =>
        if i == 0 then None
        else
          assert name[|name| - |name[i + 1..]| - 1..] == "." + name[i + 1..];
          Some(name[i + 1..])
  }

  /** `str::trim_start_matches(".")`: every leading "." removed. */
  function TrimStartDots(s: string): (r: string)
    ensures r == [] || r[0] != '.'
    ensures |r| <= |s| && r == s[|s| - |r|..]
    ensures forall i :: 0 <= i < |s| - |r| ==> s[i] == '.'
  {
    if s != [] && s[0] == '.' then TrimStartDots(s[1..]) else s
  }

  /** The file's extension is `ext` once `ext` loses its leading dots. */
  predicate ExtensionMatches(name: string, ext: string) {
    Extension(name) == Some(TrimStartDots(ext))
  }

  /** The walk's file filter: every file when no extensions are given,
      otherwise a file whose extension equals one of them exactly. */
  predicate KeepFile(name: string, exts: Option<seq<string>>) {
    exts.None? || exists i :: 0 <= i < |exts.value| && ExtensionMatches(name, exts.value[i])
  }

  /** The files the walk below `dir` gathers, before sorting: a directory is
      entered unless its name is ignored, a file is kept when it passes the
      extension filter (its name is not compared with the ignore list). */
  function Collect(dir: Path, cs: seq<Node>, exts: Option<seq<string>>, ignore: seq<string>): seq<Path>
    decreases cs
  {
    if cs == [] then []
    else Collect(dir, cs[..|cs| - 1], exts, ignore) + CollectEntry(dir, cs[|cs| - 1], exts, ignore)
  }

  /** What one entry of `dir` contributes to the walk. */
  function CollectEntry(dir: Path, entry: Node, exts: Option<seq<string>>, ignore: seq<string>): seq<Path>
    decreases entry
  {
    match entry
    case Dir(n, kids) => if n in ignore then [] else Collect(dir + [n], kids, exts, ignore)
    case File(n, _, _) => if KeepFile(n, exts) then [dir + [n]] else []
  }

  /** `rel` leads from the directory holding `entry`, through `entry`, to a
      file the walk keeps: each directory on the way is not ignored and the
      file passes the extension filter. */
  ghost predicate SelectedIn(entry: Node, rel: Path, exts: Option<seq<string>>, ignore: seq<string>)
    decreases entry
  {
    && rel != []
    && entry.name == rel[0]
    && if |rel| == 1 then entry.File? && KeepFile(entry.name, exts)
       else
         && entry.Dir?
         && entry.name !in ignore
         && exists k :: 0 <= k < |entry.children| && SelectedIn(entry.children[k], rel[1..], exts, ignore)
  }

  /** The walk's result as a set: exactly the kept files below `dir`. */
  lemma {:induction false} CollectMembership(dir: Path, cs: seq<Node>, exts: Option<seq<string>>, ignore: seq<string>, p: Path)
    ensures p in Collect(dir, cs, exts, ignore) <==>
      && |dir| < |p| && dir <= p
      && exists k :: 0 <= k < |cs| && SelectedIn(cs[k], p[|dir|..], exts, ignore)
    decreases cs, 1
  {
    if cs != [] {
      var init, last := cs[..|cs| - 1], cs[|cs| - 1];
      CollectMembership(dir, init, exts, ignore, p);
      EntryMembership(dir, last, exts, ignore, p);
      if |dir| < |p| && dir <= p {
        var rel := p[|dir|..];
        if exists k :: 0 <= k < |cs| && SelectedIn(cs[k], rel, exts, ignore) {
          var k :| 0 <= k < |cs| && SelectedIn(cs[k], rel, exts, ignore);
          if k < |init| {
            assert init[k] == cs[k];
          }
        }
        if exists k :: 0 <= k < |init| && SelectedIn(init[k], rel, exts, ignore) {
          var k :| 0 <= k < |init| && SelectedIn(init[k], rel, exts, ignore);
          assert cs[k] == init[k];
        }
      }
    }
  }

  lemma {:induction false} EntryMembership(dir: Path, entry: Node, exts: Option<seq<string>>, ignore: seq<string>, p: Path)
    ensures p in CollectEntry(dir, entry, exts, ignore) <==>
      |dir| < |p| && dir <= p && SelectedIn(entry, p[|dir|..], exts, ignore)
    decreases entry, 0
  {
    match entry
    case Dir(n, kids) =>
      if n !in ignore {
        CollectMembership(dir + [n], kids, exts, ignore, p);
        if |dir| < |p| && dir <= p {
          var rel := p[|dir|..];
          assert rel[1..] == p[|dir| + 1..];
          assert (dir + [n] <= p) <==> p[|dir|] == n;
        }
      }
    case File(n, _, _) =>
      if |dir| < |p| && dir <= p && p[|dir|..] == [n] {
        assert p == dir + [n];
      }
  }

  /** Each gathered path lies below `dir` and starts with the name of one of
      its entries. */
  lemma CollectedBelow(dir: Path, cs: seq<Node>, exts: Option<seq<string>>, ignore: seq<string>, p: Path)
    requires p in Collect(dir, cs, exts, ignore)
    ensures |dir| < |p| && dir <= p
    ensures exists k :: 0 <= k < |cs| && cs[k].name == p[|dir|]
  {
    CollectMembership(dir, cs, exts, ignore, p);
  }

  /** The ignore list is only consulted for directories: a file whose name
      is on it is still collected. */
  lemma IgnoredNameFileCollected(dir: Path, cs: seq<Node>, exts: Option<seq<string>>, ignore: seq<string>, k: nat)
    requires k < |cs| && cs[k].File? && cs[k].name in ignore && KeepFile(cs[k].name, exts)
    ensures dir + [cs[k].name] in Collect(dir, cs, exts, ignore)
  {
    var p := dir + [cs[k].name];
    assert p[|dir|..] == [cs[k].name];
    CollectMembership(dir, cs, exts, ignore, p);
  }

  /** An empty extension list keeps no file at all. */
  lemma {:induction false} NoExtensionsNoFiles(dir: Path, cs: seq<Node>, ignore: seq<string>)
    ensures Collect(dir, cs, Some([]), ignore) == []
    decreases cs
  {
    if cs != [] {
      NoExtensionsNoFiles(dir, cs[..|cs| - 1], ignore);
      match cs[|cs| - 1]
      case Dir(n, kids) => NoExtensionsNoFiles(dir + [n], kids, ignore);
      case File(_, _, _) =>
    }
  }

  /** An extension may be given with or without its leading dots. */
  lemma LeadingDotsIgnored(name: string, ext: string)
    ensures ExtensionMatches(name, "." + ext) == ExtensionMatches(name, ext)
  {
    assert ("." + ext)[1..] == ext;
  }

  lemma NoDuplicatesAppend(a: seq<Path>, b: seq<Path>)
    requires NoDuplicates(a) && NoDuplicates(b)
    requires forall x :: x in a ==> x !in b
    ensures NoDuplicates(a + b)
  {
    forall i, j | 0 <= i < j < |a + b| ensures (a + b)[i] != (a + b)[j] {
      if i < |a| && j >= |a| {
        assert (a + b)[i] in a && (a + b)[j] == b[j - |a|];
      }
    }
  }

  /** With distinct names in every directory, no path is gathered twice. */
  lemma {:induction false} CollectNoDuplicates(dir: Path, cs: seq<Node>, exts: Option<seq<string>>, ignore: seq<string>)
    requires WellFormedEntries(cs)
    ensures NoDuplicates(Collect(dir, cs, exts, ignore))
    decreases cs
  {
    if cs != [] {
      var init, last := cs[..|cs| - 1], cs[|cs| - 1];
      assert WellFormedEntries(init) by {
        forall k | 0 <= k < |init| ensures init[k] == cs[k] { }
      }
      CollectNoDuplicates(dir, init, exts, ignore);
      var a, b := Collect(dir, init, exts, ignore), CollectEntry(dir, last, exts, ignore);
      if last.Dir? && last.name !in ignore {
        CollectNoDuplicates(dir + [last.name], last.children, exts, ignore);
      }
      forall x | x in a ensures x !in b {
        CollectedBelow(dir, init, exts, ignore, x);
        var k :| 0 <= k < |init| && init[k].name == x[|dir|];
        assert init[k] == cs[k] && k < |cs| - 1;
        if x in b {
          EntryMembership(dir, last, exts, ignore, x);
        }
      }
      NoDuplicatesAppend(a, b);
    }
  }

  /** `get_all_files` as a value: the gathered files in path order. */
  function CollectedFiles(dir: Path, cs: seq<Node>, exts: Option<seq<string>>, ignore: seq<string>): seq<Path> {
    SortPaths(Collect(dir, cs, exts, ignore))
  }

  /** The walk yields each kept file once, in strictly ascending path order,
      and nothing else. */
  lemma CollectedFilesSpec(dir: Path, cs: seq<Node>, exts: Option<seq<string>>, ignore: seq<string>, p: Path)
    requires WellFormedEntries(cs)
    ensures StrictlyAscending(CollectedFiles(dir, cs, exts, ignore))
    ensures p in CollectedFiles(dir, cs, exts, ignore) <==>
      && |dir| < |p| && dir <= p
      && exists k :: 0 <= k < |cs| && SelectedIn(cs[k], p[|dir|..], exts, ignore)
  {
    var c := Collect(dir, cs, exts, ignore);
    CollectNoDuplicates(dir, cs, exts, ignore);
    NoDuplicatesPermutation(c, SortPaths(c));
    SortedNoDuplicatesAscending(SortPaths(c));
    CollectMembership(dir, cs, exts, ignore, p);
    assert p in c <==> p in multiset(c);
  }

  /** Every path of the walk's result lies strictly below `dir`. */
  lemma CollectedFilesBelow(dir: Path, cs: seq<Node>, exts: Option<seq<string>>, ignore: seq<string>)
    ensures forall p :: p in CollectedFiles(dir, cs, exts, ignore) ==> dir <= p && |dir| < |p|
  {
    forall p | p in CollectedFiles(dir, cs, exts, ignore) ensures dir <= p && |dir| < |p| {
      assert p in multiset(Collect(dir, cs, exts, ignore));
      CollectedBelow(dir, cs, exts, ignore, p);
    }
  }

  /** The entry named `name` in a listing (the first, should names repeat). */
  function FindEntry(cs: seq<Node>, name: string): (r: Option<Node>)
    ensures r.Some? ==> r.value in cs && r.value.name == name
    ensures r.None? ==> forall k :: 0 <= k < |cs| ==> cs[k].name != name
  {
    if cs == [] then None
    else if cs[0].name == name then Some(cs[0])
    else FindEntry(cs[1..], name)
  }

  /** The entry reached by following `rel` down from a directory listing. */
  function EntryAt(cs: seq<Node>, rel: Path): Option<Node>
    decreases |rel|
  {
    if rel == [] then None
    else match FindEntry(cs, rel[0])
      case None => None
      case Some(e) =>
        if |rel| == 1 then Some(e)
        else if e.Dir? then EntryAt(e.children, rel[1..])
        else None
  }

  lemma FindDistinct(cs: seq<Node>, k: nat)
    requires DistinctNames(cs) && k < |cs|
    ensures FindEntry(cs, cs[k].name) == Some(cs[k])
  {
    if k > 0 {
      FindDistinct(cs[1..], k - 1);
    }
  }

  lemma {:induction false} SelectedResolves(cs: seq<Node>, k: nat, rel: Path, exts: Option<seq<string>>, ignore: seq<string>)
    requires WellFormedEntries(cs) && k < |cs| && SelectedIn(cs[k], rel, exts, ignore)
    ensures EntryAt(cs, rel).Some? && EntryAt(cs, rel).value.File?
    ensures EntryAt(cs, rel).value.name == rel[|rel| - 1]
    decreases |rel|
  {
    FindDistinct(cs, k);
    if |rel| > 1 {
      var kids := cs[k].children;
      var j :| 0 <= j < |kids| && SelectedIn(kids[j], rel[1..], exts, ignore);
      SelectedResolves(kids, j, rel[1..], exts, ignore);
      assert rel[1..][|rel| - 2] == rel[|rel| - 1];
    }
  }

  /** With distinct names in every directory, each path the walk returns
      leads back to a file of that name: the file that is then read. */
  lemma CollectedResolves(dir: Path, cs: seq<Node>, exts: Option<seq<string>>, ignore: seq<string>, p: Path)
    requires WellFormedEntries(cs) && p in CollectedFiles(dir, cs, exts, ignore)
    ensures |dir| < |p|
    ensures EntryAt(cs, p[|dir|..]).Some? && EntryAt(cs, p[|dir|..]).value.File?
    ensures EntryAt(cs, p[|dir|..]).value.name == p[|p| - 1]
  {
    SortedFromWalk(dir, cs, exts, ignore, p);
    CollectMembership(dir, cs, exts, ignore, p);
    SelectedAt(cs, dir, p, exts, ignore);
  }

  lemma SelectedAt(cs: seq<Node>, dir: Path, p: Path, exts: Option<seq<string>>, ignore: seq<string>)
    requires WellFormedEntries(cs) && |dir| < |p|
    requires exists k :: 0 <= k < |cs| && SelectedIn(cs[k], p[|dir|..], exts, ignore)
    ensures EntryAt(cs, p[|dir|..]).Some? && EntryAt(cs, p[|dir|..]).value.File?
    ensures EntryAt(cs, p[|dir|..]).value.name == p[|p| - 1]
  {
    var rel := p[|dir|..];
    var k :| 0 <= k < |cs| && SelectedIn(cs[k], rel, exts, ignore);
    SelectedResolves(cs, k, rel, exts, ignore);
    assert rel[|rel| - 1] == p[|p| - 1];
  }

  lemma SortedFromWalk(dir: Path, cs: seq<Node>, exts: Option<seq<string>>, ignore: seq<string>, p: Path)
    requires p in CollectedFiles(dir, cs, exts, ignore)
    ensures p in Collect(dir, cs, exts, ignore)
  {
    assert p in multiset(CollectedFiles(dir, cs, exts, ignore));
  }

  /** `get_all_files`: lists the directory, recurses into the directories
      that are not ignored, keeps the files that pass the filter, and sorts. */
  method GetAllFiles(folderPath: Path, entries: seq<Node>, exts: Option<seq<string>>, ignore: seq<string>)
    returns (allFiles: seq<Path>)
    ensures allFiles == CollectedFiles(folderPath, entries, exts, ignore)
    decreases entries
  {
    allFiles := [];
    for i := 0 to |entries|
      invariant multiset(allFiles) == multiset(Collect(folderPath, entries[..i], exts, ignore))
    {
      assert entries[..i + 1][..i] == entries[..i];
      match entries[i]
      case Dir(name, children) =>
        if name !in ignore {
          var sub := GetAllFiles(folderPath + [name], children, exts, ignore);
          allFiles := allFiles + sub;
        }
      case File(name, _, _) =>
        if KeepFile(name, exts) {
          allFiles := allFiles + [folderPath + [name]];
        }
    }
    assert entries[..|entries|] == entries;
    allFiles := SortPaths(allFiles);
    PathLeTotalOrder();
    SortedUnique(allFiles, CollectedFiles(folderPath, entries, exts, ignore), PathLe);
  }

  /** `strip_prefix(root)` followed by `display()`: the components below
      `root` joined by "/". */
  function RelativeDisplay(p: Path, root: Path): string
    requires root <= p
  {
    Join(p[|root|..], "/")
  }

  /** The bullet of one file in the file list. */
  function Bullet(p: Path, root: Path): string
    requires root <= p
  {
    "- " + RelativeDisplay(p, root)
  }

  function Bullets(files: seq<Path>, root: Path): seq<string>
    requires forall i :: 0 <= i < |files| ==> root <= files[i]
  {
    seq(|files|, i requires 0 <= i < |files| => Bullet(files[i], root))
  }

  /** `create_file_list`: one bullet per gathered file, joined by "\n". */
  function CreateFileList(folderPath: Path, entries: seq<Node>, exts: Option<seq<string>>, ignore: seq<string>): string {
    var files := CollectedFiles(folderPath, entries, exts, ignore);
    forall i | 0 <= i < |files| ensures folderPath <= files[i] {
      assert files[i] in multiset(Collect(folderPath, entries, exts, ignore));
      CollectedBelow(folderPath, entries, exts, ignore, files[i]);
    }
    Join(Bullets(files, folderPath), "\n")
  }

  /** No name holds a line break. */
  ghost predicate PlainNames(cs: seq<Node>)
    decreases cs
  {
    forall k :: 0 <= k < |cs| ==>
      && '\n' !in cs[k].name && '\r' !in cs[k].name
      && (cs[k].Dir? ==> PlainNames(cs[k].children))
  }

  lemma JoinAvoids(parts: seq<string>, sep: string, c: char)
    requires c !in sep && forall i :: 0 <= i < |parts| ==> c !in parts[i]
    ensures c !in Join(parts, sep)
  {
    if |parts| > 1 {
      JoinAvoids(parts[1..], sep, c);
    }
  }

  lemma {:induction false} SelectedNamesPlain(entry: Node, rel: Path, exts: Option<seq<string>>, ignore: seq<string>)
    requires SelectedIn(entry, rel, exts, ignore) && PlainNames([entry])
    ensures forall i :: 0 <= i < |rel| ==> '\n' !in rel[i] && '\r' !in rel[i]
    decreases entry
  {
    assert [entry][0] == entry;
    if |rel| > 1 {
      var k :| 0 <= k < |entry.children| && SelectedIn(entry.children[k], rel[1..], exts, ignore);
      assert PlainNames([entry.children[k]]) by {
        assert [entry.children[k]][0] == entry.children[k];
      }
      SelectedNamesPlain(entry.children[k], rel[1..], exts, ignore);
      forall i | 1 <= i < |rel| ensures '\n' !in rel[i] && '\r' !in rel[i] {
        assert rel[i] == rel[1..][i - 1];
      }
    }
  }

  /** When no name holds a line break, the file list has one line per
      gathered file, and line `i` is the bullet of the `i`-th file. */
  lemma FileListLines(folderPath: Path, entries: seq<Node>, exts: Option<seq<string>>, ignore: seq<string>)
    requires PlainNames(entries)
    ensures var files := CollectedFiles(folderPath, entries, exts, ignore);
      && (forall i :: 0 <= i < |files| ==> folderPath <= files[i])
      && Lines(CreateFileList(folderPath, entries, exts, ignore)) == Bullets(files, folderPath)
  {
    var files := CollectedFiles(folderPath, entries, exts, ignore);
    forall i | 0 <= i < |files| ensures folderPath <= files[i] && PlainLine(RelativeDisplay(files[i], folderPath)) {
      CollectedPlain(folderPath, entries, exts, ignore, files[i]);
    }
    var bs := Bullets(files, folderPath);
    forall i | 0 <= i < |bs| ensures '\n' !in bs[i] && StripCr(bs[i]) == bs[i] {
      BulletPlain(RelativeDisplay(files[i], folderPath));
    }
    LinesOfJoin(bs);
  }

  /** Neither a line break nor a carriage return. */
  predicate PlainLine(s: string) {
    '\n' !in s && '\r' !in s
  }

  /** A gathered path is below the folder and its display holds no line break. */
  lemma CollectedPlain(folderPath: Path, entries: seq<Node>, exts: Option<seq<string>>, ignore: seq<string>, p: Path)
    requires PlainNames(entries) && p in CollectedFiles(folderPath, entries, exts, ignore)
    ensures folderPath <= p && PlainLine(RelativeDisplay(p, folderPath))
  {
    SortedFromWalk(folderPath, entries, exts, ignore, p);
    CollectMembership(folderPath, entries, exts, ignore, p);
    SelectedPlain(entries, folderPath, p, exts, ignore);
  }

  lemma SelectedPlain(cs: seq<Node>, dir: Path, p: Path, exts: Option<seq<string>>, ignore: seq<string>)
    requires PlainNames(cs) && |dir| < |p|
    requires exists k :: 0 <= k < |cs| && SelectedIn(cs[k], p[|dir|..], exts, ignore)
    ensures PlainLine(Join(p[|dir|..], "/"))
  {
    var rel := p[|dir|..];
    var k :| 0 <= k < |cs| && SelectedIn(cs[k], rel, exts, ignore);
    assert PlainNames([cs[k]]) by {
      assert [cs[k]][0] == cs[k];
    }
    SelectedNamesPlain(cs[k], rel, exts, ignore);
    JoinAvoids(rel, "/", '\n');
    JoinAvoids(rel, "/", '\r');
  }

  /** A bullet of a plain display is one line with no carriage return. */
  lemma BulletPlain(d: string)
    requires PlainLine(d)
    ensures '\n' !in "- " + d && StripCr("- " + d) == "- " + d
  {
    if d != [] {
      assert ("- " + d)[|d| + 1] == d[|d| - 1];
    }
  }
}
