/** `process_folder`: the combine pipeline. It walks the folder, picks
    the output and file templates for the mode, draws the folder tree,
    lists the files, renders one block per readable file and renders the
    document around them. A field map (`HashMap`) is visited in an order
    the program does not choose; each such order is a parameter here. */
module Combiner {
  import opened Text
  import opened Order
  import opened LineText
  import opened Template
  import opened Walker
  import opened FolderTree
  import opened Layout

  /** Why a run stops before writing: the messages of the program's panics. */
  datatype Failure =
    | CustomTemplatesMissing
    | TemplateUnreadable
    | InvalidMode(mode: string)

  datatype Outcome =
    | Written(text: string)
    | FolderMissing
    | Failed(failure: Failure)

  datatype Result<T> = Ok(value: T) | Err(error: Failure)

  datatype Templates = Templates(output: CombinerTemplate, file: CombinerTemplate)

  /** The templates for a mode, compared without regard to ASCII case. A
      custom template is `None` when its option is absent and `Some(None)`
      when its file cannot be read; the output template is read first. */
  function SelectTemplates(mode: string, customOutput: Option<Option<string>>, customFile: Option<Option<string>>): Result<Templates> {
    var m := ToLowerAscii(mode);
    if m == "xml" then
      Ok(Templates(CombinerTemplate.FromString(XmlOutputTemplate), CombinerTemplate.FromString(XmlFileTemplate)))
    else if m == "markdown" then
      Ok(Templates(CombinerTemplate.FromString(MarkdownOutputTemplate), CombinerTemplate.FromString(MarkdownFileTemplate)))
    else if m == "custom" then
      if customOutput.None? || customFile.None? then Err(CustomTemplatesMissing)
      else if customOutput.value.None? || customFile.value.None? then Err(TemplateUnreadable)
      else Ok(Templates(CombinerTemplate(customOutput.value.value), CombinerTemplate(customFile.value.value)))
    else Err(InvalidMode(mode))
  }

  /** The mode is read without regard to ASCII case: two spellings that
      lower-case alike select the same templates, or both fail the same way
      (an invalid mode is reported as it was written). */
  lemma ModeCaseInsensitive(m1: string, m2: string, customOutput: Option<Option<string>>, customFile: Option<Option<string>>)
    requires ToLowerAscii(m1) == ToLowerAscii(m2)
    ensures SelectTemplates(m1, customOutput, customFile).Ok? == SelectTemplates(m2, customOutput, customFile).Ok?
    ensures SelectTemplates(m1, customOutput, customFile).Ok? ==>
      SelectTemplates(m1, customOutput, customFile) == SelectTemplates(m2, customOutput, customFile)
    ensures SelectTemplates(m1, customOutput, customFile).Err? ==>
      SelectTemplates(m1, customOutput, customFile).error.InvalidMode? == SelectTemplates(m2, customOutput, customFile).error.InvalidMode?
  {
  }

  /** "XML", "Markdown" and "CUSTOM" are the modes "xml", "markdown" and "custom". */
  lemma ModeSpellings(customOutput: Option<Option<string>>, customFile: Option<Option<string>>)
    ensures SelectTemplates("XML", customOutput, customFile).Ok?
    ensures SelectTemplates("XML", customOutput, customFile).value.output.template == XmlOutputTemplate
    ensures SelectTemplates("Markdown", customOutput, customFile).Ok?
    ensures SelectTemplates("Markdown", customOutput, customFile).value.file.template == MarkdownFileTemplate
    ensures SelectTemplates("CUSTOM", customOutput, customFile) == SelectTemplates("custom", customOutput, customFile)
  {
    assert ToLowerAscii("XML") == "xml";
    assert ToLowerAscii("Markdown") == "markdown";
    assert ToLowerAscii("CUSTOM") == "custom";
    assert ToLowerAscii("custom") == "custom";
  }

  /** Custom mode needs both template options, whatever the other one
      holds; any mode but the three is rejected; the built-in modes never
      fail and never look at the custom templates. */
  lemma ModeOutcomes(mode: string, customOutput: Option<Option<string>>, customFile: Option<Option<string>>)
    ensures var m := ToLowerAscii(mode);
      && (m == "custom" && (customOutput.None? || customFile.None?) ==>
            SelectTemplates(mode, customOutput, customFile) == Err(CustomTemplatesMissing))
      && (m == "custom" && customOutput.Some? && customFile.Some? ==>
            (SelectTemplates(mode, customOutput, customFile).Ok? <==> customOutput.value.Some? && customFile.value.Some?))
      && (m != "xml" && m != "markdown" && m != "custom" ==>
            SelectTemplates(mode, customOutput, customFile) == Err(InvalidMode(mode)))
      && (m == "xml" || m == "markdown" ==>
            SelectTemplates(mode, customOutput, customFile).Ok? &&
            SelectTemplates(mode, customOutput, customFile) == SelectTemplates(mode, None, None))
  {
  }

  /** `fs::read_to_string` of the file at `rel` below the folder, with its
      modification time: `None` when the path names no file or the file
      cannot be read as text. */
  function ReadFile(entries: seq<Node>, rel: Path): Option<(string, string)> {
    match EntryAt(entries, rel)
    case Some(File(_, Some(content), modified)) => Some((content, modified))
    case _ => None
  }

  /** Every file of the walk lies strictly below the folder. */
  ghost predicate Below(root: Path, files: seq<Path>) {
    forall i :: 0 <= i < |files| ==> |root| < |files[i]|
  }

  /** The block of one file, or `None` when it is skipped. */
  function FileBlock(fileTemplate: string, root: Path, entries: seq<Node>, p: Path, addLineNumbers: bool, order: seq<nat>): (r: Option<string>)
    requires |root| < |p|
    ensures r.Some? <==> ReadFile(entries, p[|root|..]).Some?
  {
    var rel := p[|root|..];
    match ReadFile(entries, rel)
    case None => None
    case Some((content, modified)) =>
      Some(Render(fileTemplate, Permute(FileFields(Join(rel, "/"), p[|p| - 1], content, modified, addLineNumbers), order)))
  }

  /** The blocks of the first `k` files, unreadable files skipped; the
      field map of file `i` is visited in the order `fileOrder(i)`. */
  function FileBlocks(fileTemplate: string, root: Path, entries: seq<Node>, files: seq<Path>, k: nat,
                      addLineNumbers: bool, fileOrder: nat -> seq<nat>): seq<string>
    requires k <= |files| && Below(root, files)
  {
    if k == 0 then []
    else
      FileBlocks(fileTemplate, root, entries, files, k - 1, addLineNumbers, fileOrder)
      + AsSeq(FileBlock(fileTemplate, root, entries, files[k - 1], addLineNumbers, fileOrder(k - 1)))
  }

  function AsSeq(o: Option<string>): (r: seq<string>)
    ensures |r| == if o.Some? then 1 else 0
  {
    match o
    case None => []
    case Some(b) => [b]
  }

  /** How many of the first `k` files can be read. */
  function ReadableCount(root: Path, entries: seq<Node>, files: seq<Path>, k: nat): nat
    requires k <= |files| && Below(root, files)
  {
    if k == 0 then 0
    else ReadableCount(root, entries, files, k - 1) + (if ReadFile(entries, files[k - 1][|root|..]).Some? then 1 else 0)
  }

  /** One block per readable file: unreadable files are skipped. */
  lemma {:induction false} BlocksOfReadableFiles(fileTemplate: string, root: Path, entries: seq<Node>, files: seq<Path>, k: nat,
                                addLineNumbers: bool, fileOrder: nat -> seq<nat>)
    requires k <= |files| && Below(root, files)
    ensures |FileBlocks(fileTemplate, root, entries, files, k, addLineNumbers, fileOrder)| == ReadableCount(root, entries, files, k)
  {
    if k > 0 {
      BlocksOfReadableFiles(fileTemplate, root, entries, files, k - 1, addLineNumbers, fileOrder);
      BlockCount(fileTemplate, root, entries, files[k - 1], addLineNumbers, fileOrder(k - 1));
    }
  }

  lemma BlockCount(fileTemplate: string, root: Path, entries: seq<Node>, p: Path, addLineNumbers: bool, order: seq<nat>)
    requires |root| < |p|
    ensures |AsSeq(FileBlock(fileTemplate, root, entries, p, addLineNumbers, order))| ==
      if ReadFile(entries, p[|root|..]).Some? then 1 else 0
  {
  }

  /** As many blocks as files only when every file can be read. */
  lemma {:induction false} ReadableCountBound(root: Path, entries: seq<Node>, files: seq<Path>, k: nat)
    requires k <= |files| && Below(root, files)
    ensures ReadableCount(root, entries, files, k) <= k
    ensures ReadableCount(root, entries, files, k) == k <==>
      forall i :: 0 <= i < k ==> ReadFile(entries, files[i][|root|..]).Some?
  {
    if k > 0 {
      ReadableCountBound(root, entries, files, k - 1);
    }
  }

  /** The document written for a folder. `TOTAL_FILES` counts every file
      of the walk, readable or not, and `FILES_INCLUDED` is the text of
      `create_file_list`. */
  function Document(ts: Templates, root: Path, entries: seq<Node>, exts: Option<seq<string>>, ignore: seq<string>,
                    addLineNumbers: bool, now: string, fileOrder: nat -> seq<nat>, outerOrder: seq<nat>): string
  {
    var files := CollectedFiles(root, entries, exts, ignore);
    var blocks := AllBlocks(ts.file.template, root, entries, exts, ignore, addLineNumbers, fileOrder);
    var fields := OuterFields(|files|, now, RenderLines(TreeLines(entries, exts, ignore, "")),
                              CreateFileList(root, entries, exts, ignore), Join(blocks, ""));
    Render(ts.output.template, Permute(fields, outerOrder))
  }

  /** The blocks of every file the walk collects. */
  function AllBlocks(fileTemplate: string, root: Path, entries: seq<Node>, exts: Option<seq<string>>, ignore: seq<string>,
                     addLineNumbers: bool, fileOrder: nat -> seq<nat>): seq<string>
  {
    var files := CollectedFiles(root, entries, exts, ignore);
    CollectedFilesBelow(root, entries, exts, ignore);
    FileBlocks(fileTemplate, root, entries, files, |files|, addLineNumbers, fileOrder)
  }

  /** What `process_folder` does: `folder` is the folder's listing, or
      `None` when the path is not a directory. */
  function Process(folder: Option<seq<Node>>, root: Path, exts: Option<seq<string>>, ignore: seq<string>,
                   addLineNumbers: bool, mode: string, customOutput: Option<Option<string>>, customFile: Option<Option<string>>,
                   now: string, fileOrder: nat -> seq<nat>, outerOrder: seq<nat>): Outcome
  {
    if folder.None? then FolderMissing
    else match SelectTemplates(mode, customOutput, customFile)
      case Err(f) => Failed(f)
      case Ok(ts) => Written(Document(ts, root, folder.value, exts, ignore, addLineNumbers, now, fileOrder, outerOrder))
  }

  /** In XML mode the written document is the XML overview of the walk:
      the number of files found, the date, the trimmed tree, the file list,
      then the concatenated file blocks, in every visiting order of the
      field map, provided none of these texts holds the placeholder of a
      document field. */
  lemma XmlModeDocument(entries: seq<Node>, root: Path, exts: Option<seq<string>>, ignore: seq<string>,
                        addLineNumbers: bool, mode: string, customOutput: Option<Option<string>>, customFile: Option<Option<string>>,
                        now: string, fileOrder: nat -> seq<nat>, outerOrder: seq<nat>)
    requires ToLowerAscii(mode) == "xml" && IsPermutation(outerOrder, 5)
    requires NoTokens(now, DocumentNames) && NoTokens(RenderLines(TreeLines(entries, exts, ignore, "")), DocumentNames)
    requires NoTokens(CreateFileList(root, entries, exts, ignore), DocumentNames)
    requires NoTokens(Join(AllBlocks(XmlFileTemplate, root, entries, exts, ignore, addLineNumbers, fileOrder), ""), DocumentNames)
    ensures Process(Some(entries), root, exts, ignore, addLineNumbers, mode, customOutput, customFile, now, fileOrder, outerOrder)
         == Written(Interleave(XmlOutputText, [
              NatToString(|CollectedFiles(root, entries, exts, ignore)|), now,
              Trim(RenderLines(TreeLines(entries, exts, ignore, ""))),
              CreateFileList(root, entries, exts, ignore),
              Join(AllBlocks(XmlFileTemplate, root, entries, exts, ignore, addLineNumbers, fileOrder), "")]))
  {
    XmlDocumentShape(|CollectedFiles(root, entries, exts, ignore)|, now, RenderLines(TreeLines(entries, exts, ignore, "")),
      CreateFileList(root, entries, exts, ignore), Join(AllBlocks(XmlFileTemplate, root, entries, exts, ignore, addLineNumbers, fileOrder), ""), outerOrder);
  }

  /** In Markdown mode the document has the same parts under Markdown
      headings, under the same proviso. */
  lemma MarkdownModeDocument(entries: seq<Node>, root: Path, exts: Option<seq<string>>, ignore: seq<string>,
                             addLineNumbers: bool, mode: string, customOutput: Option<Option<string>>, customFile: Option<Option<string>>,
                             now: string, fileOrder: nat -> seq<nat>, outerOrder: seq<nat>)
    requires ToLowerAscii(mode) == "markdown" && IsPermutation(outerOrder, 5)
    requires NoTokens(now, DocumentNames) && NoTokens(RenderLines(TreeLines(entries, exts, ignore, "")), DocumentNames)
    requires NoTokens(CreateFileList(root, entries, exts, ignore), DocumentNames)
    requires NoTokens(Join(AllBlocks(MarkdownFileTemplate, root, entries, exts, ignore, addLineNumbers, fileOrder), ""), DocumentNames)
    ensures Process(Some(entries), root, exts, ignore, addLineNumbers, mode, customOutput, customFile, now, fileOrder, outerOrder)
         == Written(Interleave(MarkdownOutputText, [
              NatToString(|CollectedFiles(root, entries, exts, ignore)|), now,
              Trim(RenderLines(TreeLines(entries, exts, ignore, ""))),
              CreateFileList(root, entries, exts, ignore),
              Join(AllBlocks(MarkdownFileTemplate, root, entries, exts, ignore, addLineNumbers, fileOrder), "")]))
  {
    MarkdownDocumentShape(|CollectedFiles(root, entries, exts, ignore)|, now, RenderLines(TreeLines(entries, exts, ignore, "")),
      CreateFileList(root, entries, exts, ignore), Join(AllBlocks(MarkdownFileTemplate, root, entries, exts, ignore, addLineNumbers, fileOrder), ""), outerOrder);
  }

  /** The block a readable file has in XML mode (`markdown` false) or in
      Markdown mode: the template text with the file's path, line count,
      time and trimmed content in place, the Markdown block starting with
      the file name. */
  function ExpectedBlock(markdown: bool, root: Path, entries: seq<Node>, p: Path, addLineNumbers: bool): (r: Option<string>)
    requires |root| < |p|
    ensures r.Some? <==> ReadFile(entries, p[|root|..]).Some?
  {
    var rel := p[|root|..];
    match ReadFile(entries, rel)
    case None => None
    case Some((content, modified)) =>
      var shown := Trim(FormatContent(content, addLineNumbers));
      var count := NatToString(LineCount(content));
      if markdown then Some(Interleave(MarkdownFileText, [p[|p| - 1], Join(rel, "/"), count, modified, shown]))
      else Some(Interleave(XmlFileText, [Join(rel, "/"), count, modified, shown]))
  }

  /** The expected blocks of the first `k` files, unreadable files skipped. */
  function ExpectedBlocks(markdown: bool, root: Path, entries: seq<Node>, files: seq<Path>, k: nat, addLineNumbers: bool): seq<string>
    requires k <= |files| && Below(root, files)
  {
    if k == 0 then []
    else ExpectedBlocks(markdown, root, entries, files, k - 1, addLineNumbers)
         + AsSeq(ExpectedBlock(markdown, root, entries, files[k - 1], addLineNumbers))
  }

  /** The path, the time and the formatted content of a readable file (and
      in Markdown mode its name) hold no placeholder of a file field. */
  ghost predicate TokenFreeFile(markdown: bool, root: Path, entries: seq<Node>, p: Path, addLineNumbers: bool)
    requires |root| < |p|
  {
    match ReadFile(entries, p[|root|..])
    case None => true
    case Some((content, modified)) =>
      && NoTokens(Join(p[|root|..], "/"), FileFieldNames) && NoTokens(modified, FileFieldNames)
      && NoTokens(FormatContent(content, addLineNumbers), FileFieldNames)
      && (markdown ==> NoTokens(p[|p| - 1], FileFieldNames))
  }

  function BlockTemplate(markdown: bool): string {
    if markdown then MarkdownFileTemplate else XmlFileTemplate
  }

  /** A file's block in a built-in mode has the expected form, in every
      visiting order of its field map. */
  lemma FileBlockInShape(markdown: bool, root: Path, entries: seq<Node>, p: Path, addLineNumbers: bool, order: seq<nat>)
    requires |root| < |p| && IsPermutation(order, 5)
    requires TokenFreeFile(markdown, root, entries, p, addLineNumbers)
    ensures FileBlock(BlockTemplate(markdown), root, entries, p, addLineNumbers, order)
         == ExpectedBlock(markdown, root, entries, p, addLineNumbers)
  {
    var rel := p[|root|..];
    match ReadFile(entries, rel)
    case None =>
    case Some((content, modified)) =>
      if markdown {
        MarkdownFileBlockShape(Join(rel, "/"), p[|p| - 1], content, modified, addLineNumbers, order);
      } else {
        XmlFileBlockShape(Join(rel, "/"), p[|p| - 1], content, modified, addLineNumbers, order);
      }
  }

  /** Blocks that each have their expected form make the expected blocks. */
  lemma {:induction false} FileBlocksAsExpected(markdown: bool, fileTemplate: string, root: Path, entries: seq<Node>, files: seq<Path>, k: nat,
                                                addLineNumbers: bool, fileOrder: nat -> seq<nat>)
    requires k <= |files| && Below(root, files)
    requires forall i :: 0 <= i < k ==>
      FileBlock(fileTemplate, root, entries, files[i], addLineNumbers, fileOrder(i)) == ExpectedBlock(markdown, root, entries, files[i], addLineNumbers)
    ensures FileBlocks(fileTemplate, root, entries, files, k, addLineNumbers, fileOrder)
         == ExpectedBlocks(markdown, root, entries, files, k, addLineNumbers)
  {
    if k > 0 {
      FileBlocksAsExpected(markdown, fileTemplate, root, entries, files, k - 1, addLineNumbers, fileOrder);
      calc {
        FileBlocks(fileTemplate, root, entries, files, k, addLineNumbers, fileOrder);
        FileBlocks(fileTemplate, root, entries, files, k - 1, addLineNumbers, fileOrder)
          + AsSeq(FileBlock(fileTemplate, root, entries, files[k - 1], addLineNumbers, fileOrder(k - 1)));
        { var i := k - 1;
          assert FileBlock(fileTemplate, root, entries, files[i], addLineNumbers, fileOrder(i))
              == ExpectedBlock(markdown, root, entries, files[i], addLineNumbers); }
        ExpectedBlocks(markdown, root, entries, files, k - 1, addLineNumbers)
          + AsSeq(ExpectedBlock(markdown, root, entries, files[k - 1], addLineNumbers));
        ExpectedBlocks(markdown, root, entries, files, k, addLineNumbers);
      }
    }
  }

  /** The blocks of the first `k` files are their expected blocks, in order,
      one per readable file. */
  lemma FileBlocksInShape(markdown: bool, root: Path, entries: seq<Node>, files: seq<Path>, k: nat,
                          addLineNumbers: bool, fileOrder: nat -> seq<nat>)
    requires k <= |files| && Below(root, files)
    requires forall i :: 0 <= i < k ==> IsPermutation(fileOrder(i), 5)
    requires forall i :: 0 <= i < k ==> TokenFreeFile(markdown, root, entries, files[i], addLineNumbers)
    ensures FileBlocks(BlockTemplate(markdown), root, entries, files, k, addLineNumbers, fileOrder)
         == ExpectedBlocks(markdown, root, entries, files, k, addLineNumbers)
  {
    var t := BlockTemplate(markdown);
    forall i | 0 <= i < k
      ensures FileBlock(t, root, entries, files[i], addLineNumbers, fileOrder(i)) == ExpectedBlock(markdown, root, entries, files[i], addLineNumbers)
    {
      FileBlockInShape(markdown, root, entries, files[i], addLineNumbers, fileOrder(i));
    }
    FileBlocksAsExpected(markdown, t, root, entries, files, k, addLineNumbers, fileOrder);
  }

  /** In XML and Markdown mode the blocks of the document are the expected
      blocks of the collected files, in walk order, when every file's path,
      time, formatted content and (for Markdown) name hold no placeholder
      of a file field. */
  lemma AllBlocksInShape(markdown: bool, root: Path, entries: seq<Node>, exts: Option<seq<string>>, ignore: seq<string>,
                         addLineNumbers: bool, fileOrder: nat -> seq<nat>)
    requires forall i :: 0 <= i < |CollectedFiles(root, entries, exts, ignore)| ==> IsPermutation(fileOrder(i), 5)
    requires forall i :: 0 <= i < |CollectedFiles(root, entries, exts, ignore)| ==>
      |root| < |CollectedFiles(root, entries, exts, ignore)[i]| &&
      TokenFreeFile(markdown, root, entries, CollectedFiles(root, entries, exts, ignore)[i], addLineNumbers)
    ensures Below(root, CollectedFiles(root, entries, exts, ignore))
    ensures AllBlocks(BlockTemplate(markdown), root, entries, exts, ignore, addLineNumbers, fileOrder)
         == ExpectedBlocks(markdown, root, entries, CollectedFiles(root, entries, exts, ignore),
                           |CollectedFiles(root, entries, exts, ignore)|, addLineNumbers)
  {
    var files := CollectedFiles(root, entries, exts, ignore);
    CollectedFilesBelow(root, entries, exts, ignore);
    FileBlocksInShape(markdown, root, entries, files, |files|, addLineNumbers, fileOrder);
  }

  /** `process_folder`: `now` is the generation time as formatted text; the
      written document is returned rather than stored. */
  method ProcessFolder(folder: Option<seq<Node>>, root: Path, exts: Option<seq<string>>, ignore: seq<string>,
                       addLineNumbers: bool, mode: string,
                       customOutput: Option<Option<string>>, customFile: Option<Option<string>>,
                       now: string, fileOrder: nat -> seq<nat>, outerOrder: seq<nat>)
    returns (outcome: Outcome)
    ensures outcome == Process(folder, root, exts, ignore, addLineNumbers, mode, customOutput, customFile, now, fileOrder, outerOrder)
  {
    if folder.None? {
      return FolderMissing;
    }
    var entries := folder.value;
    var allFiles := GetAllFiles(root, entries, exts, ignore);
    var selected := SelectTemplates(mode, customOutput, customFile);
    if selected.Err? {
      return Failed(selected.error);
    }
    var outputTemplate, fileTemplate := selected.value.output, selected.value.file;
    var folderTree := CreateFolderTree(entries, exts, ignore);
    CollectedFilesBelow(root, entries, exts, ignore);
    var filesIncluded := Join(Bullets(allFiles, root), "\n");
    var allFileContents := RenderFileBlocks(fileTemplate, root, entries, allFiles, addLineNumbers, fileOrder);
    var fields := OuterFields(|allFiles|, now, folderTree, filesIncluded, Join(allFileContents, ""));
    var outputContent := outputTemplate.GenerateOutputFileContent(Permute(fields, outerOrder));
    outcome := Written(outputContent);
  }

  /** The aggregation loop of `process_folder`: one rendered block per
      readable file, in the order of `files`; a file that cannot be read is
      skipped with a warning. */
  method RenderFileBlocks(fileTemplate: CombinerTemplate, root: Path, entries: seq<Node>, files: seq<Path>,
                          addLineNumbers: bool, fileOrder: nat -> seq<nat>)
    returns (allFileContents: seq<string>)
    requires Below(root, files)
    ensures allFileContents == FileBlocks(fileTemplate.template, root, entries, files, |files|, addLineNumbers, fileOrder)
  {
    allFileContents := [];
    for i := 0 to |files|
      invariant allFileContents == FileBlocks(fileTemplate.template, root, entries, files, i, addLineNumbers, fileOrder)
    {
      var block := RenderFileBlock(fileTemplate, root, entries, files[i], addLineNumbers, fileOrder(i));
      allFileContents := allFileContents + block;
    }
  }

  /** One pass of the aggregation loop: the rendered block of a readable
      file, nothing for a file that cannot be read. */
  method RenderFileBlock(fileTemplate: CombinerTemplate, root: Path, entries: seq<Node>, filePath: Path,
                         addLineNumbers: bool, order: seq<nat>)
    returns (block: seq<string>)
    requires |root| < |filePath|
    ensures block == AsSeq(FileBlock(fileTemplate.template, root, entries, filePath, addLineNumbers, order))
  {
    var relativePath := filePath[|root|..];
    var read := ReadFile(entries, relativePath);
    if read.Some? {
      var content, modTime := read.value.0, read.value.1;
      var fields := FileFields(Join(relativePath, "/"), filePath[|filePath| - 1], content, modTime, addLineNumbers);
      var fileContent := fileTemplate.GenerateOutputFileContent(Permute(fields, order));
      block := [fileContent];
    } else {
      block := [];
    }
  }
}
