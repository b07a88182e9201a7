/** The built-in templates of the combiner and the fields filled into
    them. A field map (`HashMap`) is visited in an order the program does
    not choose; the order is a parameter, and when no value holds a
    placeholder of a field every order renders the same text. */
module Layout {
  import opened Text
  import opened LineText
  import opened Template

  type Fields = seq<(string, string)>

  /** The placeholders of the document templates, in the order they appear. */
  const DocumentNames: seq<string> :=
    ["TOTAL_FILES", "DATE_GENERATED", "FOLDER_TREE", "FILES_INCLUDED", "FILE_CONTENTS"]

  /** The literal text of the XML document template around its placeholders. */
  const XmlOutputText: seq<string> := [
    "<file_overview>\nTotal files: ", "\nDate generated: ", "\nFolder Structure:\n",
    "\n\nFiles included:\n", "\n</file_overview>\n\n", ""]

  const XmlOutputTemplate: string := Interleave(XmlOutputText, Tokens(DocumentNames))

  /** The placeholders of the XML file template; it has no file name. */
  const XmlFileNames: seq<string> := ["FILE_PATH", "LINES_COUNT", "MODIFIED_TIME", "FILE_CONTENT"]

  const XmlFileText: seq<string> := [
    "<file path=\"", "\" lines=\"", "\" modified=\"", "\">\n", "\n</file>\n\n"]

  const XmlFileTemplate: string := Interleave(XmlFileText, Tokens(XmlFileNames))

  const MarkdownOutputText: seq<string> := [
    "# File Overview\n\n- **Total files:** ", "\n- **Date generated:** ",
    "\n\n## Folder Structure\n\n```\n", "\n```\n\n## Files Included\n\n",
    "\n\n\n## Files Contents\n\n---\n", ""]

  const MarkdownOutputTemplate: string := Interleave(MarkdownOutputText, Tokens(DocumentNames))

  const MarkdownFileNames: seq<string> :=
    ["FILE_NAME", "FILE_PATH", "LINES_COUNT", "MODIFIED_TIME", "FILE_CONTENT"]

  const MarkdownFileText: seq<string> := [
    "### ", "\n\n- **Path:** `", "`\n- **Lines:** ", "\n- **Modified:** ",
    "\n\n```\n", "\n```\n\n---\n\n"]

  const MarkdownFileTemplate: string := Interleave(MarkdownFileText, Tokens(MarkdownFileNames))

  /** The keys of the file fields, in the order the program lists them. */
  const FileFieldNames: seq<string> :=
    ["FILE_PATH", "FILE_NAME", "LINES_COUNT", "MODIFIED_TIME", "FILE_CONTENT"]

  /** `order` lists each index below `n` exactly once. */
  ghost predicate IsPermutation(order: seq<nat>, n: nat) {
    && |order| == n
    && (forall i :: 0 <= i < n ==> order[i] < n)
    && (forall j :: 0 <= j < n ==> j in order)
    && (forall i, k :: 0 <= i < k < n ==> order[i] != order[k])
  }

  /** The entries of a field map in the order `order` visits them. */
  function Permute(fields: Fields, order: seq<nat>): (r: Fields)
    ensures (forall i :: 0 <= i < |order| ==> order[i] < |fields|) ==>
      |r| == |order| && forall i :: 0 <= i < |order| ==> r[i] == fields[order[i]]
  {
    if order == [] then []
    else (if order[0] < |fields| then [fields[order[0]]] else []) + Permute(fields, order[1..])
  }

  /** The entries of the field map; the visiting order is a parameter. */
  lemma PermuteSameEntries(fields: Fields, order: seq<nat>)
    requires IsPermutation(order, |fields|)
    ensures forall e :: e in Permute(fields, order) <==> e in fields
  {
    var p := Permute(fields, order);
    forall e | e in fields ensures e in p {
      var j :| 0 <= j < |fields| && fields[j] == e;
      assert j in order;
      var i :| 0 <= i < |order| && order[i] == j;
      assert p[i] == e;
    }
    forall e | e in p ensures e in fields {
      var i :| 0 <= i < |p| && p[i] == e;
      assert fields[order[i]] == e;
    }
  }

  /** Visiting a map with distinct keys meets each key once. */
  lemma PermuteDistinctKeys(fields: Fields, order: seq<nat>)
    requires IsPermutation(order, |fields|) && DistinctKeys(fields)
    ensures DistinctKeys(Permute(fields, order))
  {
    var p := Permute(fields, order);
    forall i, k | 0 <= i < k < |p| ensures p[i].0 != p[k].0 {
      var a, b := order[i], order[k];
      assert a != b;
      if a < b {
        assert fields[a].0 != fields[b].0;
      } else {
        assert fields[b].0 != fields[a].0;
      }
    }
  }

  /** The fields of one file block, in the order the program lists them. */
  function FileFields(relPath: string, name: string, content: string, modified: string, addLineNumbers: bool): Fields {
    [ ("FILE_PATH", relPath),
      ("FILE_NAME", name),
      ("LINES_COUNT", NatToString(LineCount(content))),
      ("MODIFIED_TIME", modified),
      ("FILE_CONTENT", Trim(FormatContent(content, addLineNumbers))) ]
  }

  /** The fields of the document, in the order the program lists them. */
  function OuterFields(totalFiles: nat, dateGenerated: string, folderTree: string, filesIncluded: string, fileContents: string): Fields {
    [ ("TOTAL_FILES", NatToString(totalFiles)),
      ("DATE_GENERATED", dateGenerated),
      ("FOLDER_TREE", Trim(folderTree)),
      ("FILES_INCLUDED", filesIncluded),
      ("FILE_CONTENTS", fileContents) ]
  }

  lemma DigitsAvoidBrace(n: nat)
    ensures '{' !in NatToString(n)
  {
    var d := NatToString(n);
    forall k | 0 <= k < |d| ensures d[k] != '{' {
      assert IsDigit(d[k]);
    }
  }

  lemma JoinAvoidsBrace(ls: seq<string>, sep: string)
    requires '{' !in sep && forall i :: 0 <= i < |ls| ==> '{' !in ls[i]
    ensures '{' !in Join(ls, sep)
  {
    if |ls| > 1 {
      JoinAvoidsBrace(ls[..|ls| - 1], sep);
    }
  }

  /** Numbering adds digits, spaces, "|" and line breaks only. */
  lemma FormatAvoidsBrace(content: string, addLineNumbers: bool)
    requires '{' !in content
    ensures '{' !in FormatContent(content, addLineNumbers)
  {
    if addLineNumbers {
      var ls := Lines(content);
      var ns := NumberLines(ls);
      LinesAvoidChar(content, '{');
      forall i | 0 <= i < |ns| ensures '{' !in ns[i] {
        DigitsAvoidBrace(i + 1);
        var d := NatToString(i + 1);
        var p := PadRight(d, 6);
        assert '{' !in p by {
          forall k | 0 <= k < |p| ensures p[k] != '{' {
            if k < |d| {
              assert p[k] == d[k];
            }
          }
        }
        assert ns[i] == p + "| " + ls[i];
      }
      JoinAvoidsBrace(ns, "\n");
    }
  }

  /** Content without "{" stays without placeholders once formatted. */
  lemma FormatNoTokens(content: string, addLineNumbers: bool, keys: seq<string>)
    requires '{' !in content
    ensures NoTokens(FormatContent(content, addLineNumbers), keys)
  {
    FormatAvoidsBrace(content, addLineNumbers);
    NoBraceNoTokens(FormatContent(content, addLineNumbers), keys);
  }

  /** Text without "{" holds no placeholder. */
  lemma NoBraceNoTokens(s: string, keys: seq<string>)
    requires '{' !in s
    ensures NoTokens(s, keys)
  {
    forall j | 0 <= j < |keys| ensures !Occurs(s, Token(keys[j])) {
      var pat := Token(keys[j]);
      forall i: nat | i + |pat| <= |s| ensures !At(s, pat, i) {
        assert s[i..i + |pat|][0] == s[i] != '{';
      }
    }
  }

  /** A part of a text without placeholders holds none either. */
  lemma NoTokensSlice(s: string, a: nat, b: nat, keys: seq<string>)
    requires a <= b <= |s| && NoTokens(s, keys)
    ensures NoTokens(s[a..b], keys)
  {
    forall j | 0 <= j < |keys| ensures !Occurs(s[a..b], Token(keys[j])) {
      var pat := Token(keys[j]);
      forall i: nat | i + |pat| <= b - a ensures !At(s[a..b], pat, i) {
        var u, v := s[a..b][i..i + |pat|], s[a + i..a + i + |pat|];
        assert |u| == |v| && forall t :: 0 <= t < |u| ==> u[t] == s[a + i + t] == v[t];
        assert u == v;
        assert !At(s, pat, a + i);
      }
    }
  }

  /** Trimming cannot create a placeholder. */
  lemma TrimNoTokens(s: string, keys: seq<string>)
    requires NoTokens(s, keys)
    ensures NoTokens(Trim(s), keys)
  {
    TrimSlice(s);
    var a := |s| - |TrimStart(s)|;
    NoTokensSlice(s, a, a + |Trim(s)|, keys);
  }

  /** The characters of the placeholder names of the built-in templates. */
  predicate KeyChar(c: char) {
    'A' <= c <= 'Z' || c == '_'
  }

  ghost predicate KeyName(k: string) {
    forall i :: 0 <= i < |k| ==> KeyChar(k[i])
  }

  /** A character that is no brace and no name character is in no
      placeholder of such a name. */
  lemma ForeignChar(c: char, k: string)
    requires KeyName(k) && !KeyChar(c) && c != '{' && c != '}'
    ensures c !in Token(k)
  {
  }

  /** Literals whose first characters are line breaks, quotes or
      backquotes separate placeholders of such names. */
  lemma SeparatorsFrom(lits: seq<string>, keys: seq<string>)
    requires forall j :: 0 <= j < |keys| ==> KeyName(keys[j])
    requires forall i :: 1 <= i < |lits| ==>
      if lits[i] == [] then i == |lits| - 1 else lits[i][0] in "\n\"`"
    ensures Separators(lits, keys)
  {
    forall i, j | 1 <= i < |lits| && lits[i] != [] && 0 <= j < |keys|
      ensures lits[i][0] !in Token(keys[j])
    {
      ForeignChar(lits[i][0], keys[j]);
    }
  }

  lemma NamesAreKeyNames()
    ensures forall j :: 0 <= j < |DocumentNames| ==> KeyName(DocumentNames[j])
    ensures forall j :: 0 <= j < |FileFieldNames| ==> KeyName(FileFieldNames[j])
  {
  }

  /** In each built-in template, the literal after a placeholder starts with
      a line break, a quote or a backquote, or ends the template. */
  lemma TemplateSeparators()
    ensures Separators(XmlOutputText, DocumentNames) && Separators(MarkdownOutputText, DocumentNames)
    ensures Separators(XmlFileText, FileFieldNames) && Separators(MarkdownFileText, FileFieldNames)
  {
    NamesAreKeyNames();
    SeparatorsFrom(XmlOutputText, DocumentNames);
    SeparatorsFrom(MarkdownOutputText, DocumentNames);
    SeparatorsFrom(XmlFileText, FileFieldNames);
    SeparatorsFrom(MarkdownFileText, FileFieldNames);
  }

  /** A built-in-shaped template renders, whatever order its fields are
      visited in, to its literals with the value of each placeholder
      between them, provided the keys are distinct and no inserted value
      holds a placeholder of a key. */
  lemma RenderFilled(lits: seq<string>, names: seq<string>, vals: seq<string>, keys: seq<string>, fields: Fields, order: seq<nat>)
    requires |lits| == |names| + 1 && |vals| == |names|
    requires forall i :: 0 <= i < |lits| ==> '{' !in lits[i]
    requires Separators(lits, keys)
    requires DistinctKeys(fields) && IsPermutation(order, |fields|)
    requires forall m :: 0 <= m < |fields| ==> fields[m].0 in keys && BraceFree(fields[m].0)
    requires forall i :: 0 <= i < |names| ==> (names[i], vals[i]) in fields && NoTokens(vals[i], keys)
    ensures Render(Interleave(lits, Tokens(names)), Permute(fields, order)) == Interleave(lits, vals)
  {
    PermuteSameEntries(fields, order);
    PermuteDistinctKeys(fields, order);
    var g := Permute(fields, order);
    forall m | 0 <= m < |g| ensures g[m].0 in keys && BraceFree(g[m].0) {
      assert g[m] in fields;
    }
    forall m | 0 <= m < |g| && g[m].0 in names ensures NoTokens(g[m].1, keys) {
      var i :| 0 <= i < |names| && names[i] == g[m].0;
      LookupDistinct(g, names[i], vals[i]);
      LookupDistinct(g, g[m].0, g[m].1);
    }
    forall i | 0 <= i < |names| ensures BraceFree(names[i]) && Lookup(g, names[i]) == Some(vals[i]) {
      LookupDistinct(g, names[i], vals[i]);
    }
    RenderInterleavedValues(lits, names, vals, keys, g);
  }

  lemma DocumentNamesDistinct()
    ensures forall i, j :: 0 <= i < j < |DocumentNames| ==> DocumentNames[i] != DocumentNames[j]
  {
    var n := DocumentNames;
    assert n[0][0] == 'T' && n[1][0] == 'D' && n[2][0] == 'F' && n[3][0] == 'F' && n[4][0] == 'F';
    assert n[2][1] == 'O' && n[3][1] == 'I' && n[4][1] == 'I';
    assert n[3][4] == 'S' && n[4][4] == '_';
  }

  lemma FileFieldNamesDistinct()
    ensures forall i, j :: 0 <= i < j < |FileFieldNames| ==> FileFieldNames[i] != FileFieldNames[j]
  {
    var n := FileFieldNames;
    assert n[0][0] == 'F' && n[1][0] == 'F' && n[2][0] == 'L' && n[3][0] == 'M' && n[4][0] == 'F';
    assert n[0][5] == 'P' && n[1][5] == 'N' && n[4][5] == 'C';
  }

  lemma NamesBraceFree()
    ensures forall i :: 0 <= i < |DocumentNames| ==> BraceFree(DocumentNames[i])
    ensures forall i :: 0 <= i < |FileFieldNames| ==> BraceFree(FileFieldNames[i])
  {
  }

  lemma XmlTextOk()
    ensures forall i :: 0 <= i < |XmlOutputText| ==> '{' !in XmlOutputText[i]
    ensures forall i :: 0 <= i < |XmlFileText| ==> '{' !in XmlFileText[i]
  {
  }

  lemma MarkdownOutputTextOk()
    ensures forall i :: 0 <= i < |MarkdownOutputText| ==> '{' !in MarkdownOutputText[i]
  {
  }

  lemma MarkdownFileTextOk()
    ensures forall i :: 0 <= i < |MarkdownFileText| ==> '{' !in MarkdownFileText[i]
  {
  }

  /** The document fields are, in order, the count, the date, the trimmed
      tree, the list and the contents under the document names; none of
      their values holds a placeholder when the date, tree, list and
      contents hold none. */
  lemma OuterFieldsTokenFree(total: nat, now: string, tree: string, list: string, contents: string)
    requires NoTokens(now, DocumentNames) && NoTokens(tree, DocumentNames)
    requires NoTokens(list, DocumentNames) && NoTokens(contents, DocumentNames)
    ensures var f := OuterFields(total, now, tree, list, contents);
      var vals := [NatToString(total), now, Trim(tree), list, contents];
      && DistinctKeys(f)
      && (forall m :: 0 <= m < |f| ==> f[m].0 in DocumentNames && BraceFree(f[m].0))
      && forall i :: 0 <= i < 5 ==> (DocumentNames[i], vals[i]) in f && NoTokens(vals[i], DocumentNames)
  {
    var f := OuterFields(total, now, tree, list, contents);
    DigitsAvoidBrace(total);
    NoBraceNoTokens(NatToString(total), DocumentNames);
    TrimNoTokens(tree, DocumentNames);
    NamesBraceFree();
    OuterKeysDistinct(total, now, tree, list, contents);
    assert forall i :: 0 <= i < 5 ==> f[i].0 == DocumentNames[i];
  }

  lemma OuterKeysDistinct(total: nat, now: string, tree: string, list: string, contents: string)
    ensures DistinctKeys(OuterFields(total, now, tree, list, contents))
  {
    var f := OuterFields(total, now, tree, list, contents);
    assert forall i :: 0 <= i < 5 ==> f[i].0 == DocumentNames[i];
    DocumentNamesDistinct();
  }

  /** The file fields carry the file field names, without braces; the
      line count and the trimmed content hold no placeholder when the
      formatted content holds none. */
  lemma FileFieldsTokenFree(rel: string, name: string, content: string, modified: string, addLineNumbers: bool)
    requires NoTokens(FormatContent(content, addLineNumbers), FileFieldNames)
    ensures var f := FileFields(rel, name, content, modified, addLineNumbers);
      && DistinctKeys(f)
      && (forall m :: 0 <= m < |f| ==> f[m].0 == FileFieldNames[m] && f[m].0 in FileFieldNames && BraceFree(f[m].0))
      && NoTokens(f[2].1, FileFieldNames) && NoTokens(f[4].1, FileFieldNames)
  {
    DigitsAvoidBrace(LineCount(content));
    NoBraceNoTokens(NatToString(LineCount(content)), FileFieldNames);
    TrimNoTokens(FormatContent(content, addLineNumbers), FileFieldNames);
    NamesBraceFree();
    FileKeysDistinct(rel, name, content, modified, addLineNumbers);
  }

  lemma FileKeysDistinct(rel: string, name: string, content: string, modified: string, addLineNumbers: bool)
    ensures DistinctKeys(FileFields(rel, name, content, modified, addLineNumbers))
  {
    var f := FileFields(rel, name, content, modified, addLineNumbers);
    assert forall i :: 0 <= i < 5 ==> f[i].0 == FileFieldNames[i];
    FileFieldNamesDistinct();
  }

  /** In XML mode, whatever order the field map is visited in, the document
      is the overview (file count, date, trimmed tree, file list) and then
      the concatenated file blocks, provided no value holds a placeholder
      of a document field. */
  lemma XmlDocumentShape(total: nat, now: string, tree: string, list: string, contents: string, order: seq<nat>)
    requires IsPermutation(order, 5)
    requires NoTokens(now, DocumentNames) && NoTokens(tree, DocumentNames)
    requires NoTokens(list, DocumentNames) && NoTokens(contents, DocumentNames)
    ensures Render(XmlOutputTemplate, Permute(OuterFields(total, now, tree, list, contents), order))
         == Interleave(XmlOutputText, [NatToString(total), now, Trim(tree), list, contents])
  {
    OuterFieldsTokenFree(total, now, tree, list, contents);
    XmlTextOk();
    TemplateSeparators();
    RenderFilled(XmlOutputText, DocumentNames, [NatToString(total), now, Trim(tree), list, contents],
      DocumentNames, OuterFields(total, now, tree, list, contents), order);
  }

  /** In Markdown mode the document has the same parts under Markdown
      headings, the tree in a code fence, in every visiting order, under
      the same proviso. */
  lemma MarkdownDocumentShape(total: nat, now: string, tree: string, list: string, contents: string, order: seq<nat>)
    requires IsPermutation(order, 5)
    requires NoTokens(now, DocumentNames) && NoTokens(tree, DocumentNames)
    requires NoTokens(list, DocumentNames) && NoTokens(contents, DocumentNames)
    ensures Render(MarkdownOutputTemplate, Permute(OuterFields(total, now, tree, list, contents), order))
         == Interleave(MarkdownOutputText, [NatToString(total), now, Trim(tree), list, contents])
  {
    OuterFieldsTokenFree(total, now, tree, list, contents);
    MarkdownOutputTextOk();
    TemplateSeparators();
    RenderFilled(MarkdownOutputText, DocumentNames, [NatToString(total), now, Trim(tree), list, contents],
      DocumentNames, OuterFields(total, now, tree, list, contents), order);
  }

  /** An XML file block holds the relative path, the line count, the time
      and the trimmed (possibly numbered) content, in every visiting order,
      provided the path, the time and the formatted content hold no
      placeholder of a file field. The file name is not used. */
  lemma XmlFileBlockShape(rel: string, name: string, content: string, modified: string, addLineNumbers: bool, order: seq<nat>)
    requires IsPermutation(order, 5)
    requires NoTokens(rel, FileFieldNames) && NoTokens(modified, FileFieldNames)
    requires NoTokens(FormatContent(content, addLineNumbers), FileFieldNames)
    ensures Render(XmlFileTemplate, Permute(FileFields(rel, name, content, modified, addLineNumbers), order))
         == Interleave(XmlFileText, [rel, NatToString(LineCount(content)), modified, Trim(FormatContent(content, addLineNumbers))])
  {
    var f := FileFields(rel, name, content, modified, addLineNumbers);
    var vals := [rel, NatToString(LineCount(content)), modified, Trim(FormatContent(content, addLineNumbers))];
    FileFieldsTokenFree(rel, name, content, modified, addLineNumbers);
    XmlTextOk();
    TemplateSeparators();
    assert f[0] == (XmlFileNames[0], vals[0]);
    assert f[2] == (XmlFileNames[1], vals[1]);
    assert f[3] == (XmlFileNames[2], vals[2]);
    assert f[4] == (XmlFileNames[3], vals[3]);
    RenderFilled(XmlFileText, XmlFileNames, vals, FileFieldNames, f, order);
  }

  /** A Markdown file block: the file name as a heading, then the path,
      line count and time, then the trimmed content in a code fence, when
      the name too holds no placeholder of a file field. */
  lemma MarkdownFileBlockShape(rel: string, name: string, content: string, modified: string, addLineNumbers: bool, order: seq<nat>)
    requires IsPermutation(order, 5)
    requires NoTokens(rel, FileFieldNames) && NoTokens(name, FileFieldNames) && NoTokens(modified, FileFieldNames)
    requires NoTokens(FormatContent(content, addLineNumbers), FileFieldNames)
    ensures Render(MarkdownFileTemplate, Permute(FileFields(rel, name, content, modified, addLineNumbers), order))
         == Interleave(MarkdownFileText, [name, rel, NatToString(LineCount(content)), modified, Trim(FormatContent(content, addLineNumbers))])
  {
    var f := FileFields(rel, name, content, modified, addLineNumbers);
    var vals := [name, rel, NatToString(LineCount(content)), modified, Trim(FormatContent(content, addLineNumbers))];
    FileFieldsTokenFree(rel, name, content, modified, addLineNumbers);
    MarkdownFileTextOk();
    TemplateSeparators();
    assert f[1] == (MarkdownFileNames[0], vals[0]);
    assert f[0] == (MarkdownFileNames[1], vals[1]);
    assert f[2] == (MarkdownFileNames[2], vals[2]);
    assert f[3] == (MarkdownFileNames[3], vals[3]);
    assert f[4] == (MarkdownFileNames[4], vals[4]);
    RenderFilled(MarkdownFileText, MarkdownFileNames, vals, FileFieldNames, f, order);
  }
}
