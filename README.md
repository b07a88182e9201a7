# fcom combine engine, modelled in Dafny

`fcom` is a command-line tool. It walks a folder and writes one document that describes the folder:
- a header with the file count, the date, a box-drawn folder tree and a bullet list of the files;
- then one block per file, holding its path, line count, modification time and (optionally line-numbered) text.

The document is XML-like or Markdown, or it comes from two user-supplied templates. This project models the engine behind the `combine` command:

- **Template** (`src/combiner/template.rs`): a template holds `{NAME}` placeholders. `generate_output_file_content` replaces each placeholder with `str::replace`, one field at a time, in the order the field map is visited.
- **Layout**: the four built-in templates of `src/combiner/mod.rs`, as text pieces between placeholders. It also holds the two field lists that `process_folder` fills in, and the visiting order of a `HashMap`. That order is a permutation given as a parameter.
- **Walker** (`get_all_files`, `create_file_list`): the recursive walk that collects files by extension and prunes ignored directories. Its result is sorted as `Vec<PathBuf>::sort` sorts, and the walk also produces the `- path` bullet list.
- **FolderTree** (`create_folder_tree`, `create_folder_tree_inner`): the box-drawing diagram. Entries are sorted directories first, then by name. Ignored names are hidden, and files are kept by `ends_with` on the extension filter.
- **Combiner** (`process_folder`): the mode match, the loop that renders one block per readable file, and the outer document.
- **IgnoreList** (`read_gitignore` and the `-i` extension in `src/main.rs`): the ignore list is four defaults, then the trimmed, non-comment lines of `.gitignore`, then the `-i` names.
- **Text**, **Order**, **LineText**: the Rust library behaviour the core relies on. Text covers `trim`, `to_lowercase` on ASCII, `usize::to_string` and `{:<6}` padding. Order covers the ordering of `str`, `OsString` and `PathBuf`, and sorting. LineText covers `str::lines` and line numbering.

A folder is an in-memory tree of `Node`s, listed in the order the file system returns them. A file carries its text, or `None` when it cannot be read as text, and its formatted modification time. A path is the sequence of its components. `process_folder` returns the document it would write, as an `Outcome`. The three fatal cases are values of that `Outcome`:
- a missing folder (`FolderMissing`);
- custom mode without both template paths;
- an unknown mode, or an unreadable custom template.

The model follows the code exactly, including these behaviours that are easy to miss:
- Substitution is a fold of `replace` over the map entries, so an inserted value is not protected from later keys: a value containing `{KEY}` is expanded when KEY is visited later (`Template.LaterKeyExpandsEarlierValue`).
- `TOTAL_FILES` is the number of files the walk collected, unreadable ones included, so it can exceed the number of blocks written (`Combiner.XmlModeDocument`, `Combiner.BlocksOfReadableFiles`).
- `get_all_files` compares ignore names against directories only: a file whose name is in the ignore list is still collected (`Walker.IgnoredNameFileCollected`). The tree hides it (`FolderTree.IgnoredFileCollectedNotDrawn`).
- The walk and the tree filter extensions differently, so they can disagree (`FolderTree.SuffixIsNotExtension`, `FolderTree.DoubledDotCollected`, `FolderTree.DoubledDotNotDrawn`):
  - the walk compares `Path::extension` with the filter string after stripping its leading dots;
  - the tree tests whether the file name ends with the raw filter string.
- The last entry of a level is drawn with `└──` only if that entry is visible. When the last entry is a file hidden by the extension filter, no drawn line gets `└──` (`FolderTree.HiddenLastFileKeepsOpenConnector`).
- The ignore list is a concatenation, not a union: duplicates are kept (`IgnoreList.CombineListEnds`).

## Model

| member | source | states |
|---|---|---|
| Template.ReplaceAll | src/combiner/template.rs:27 | `str::replace`: the occurrences of the pattern, found left to right without overlapping, each replaced; its properties are stated by `ReplaceAllAbsent`, `ReplaceAfterValue` and `ReplacePieces` |
| Template.Render | src/combiner/template.rs:24-30 | the fold of `generate_output_file_content`: one replace-all per entry, in visiting order; stated by `GenerateOutputFileContent`, `RenderPieces` and `RenderInterleavedValues` |
| Template.CombinerTemplate.FromString | src/combiner/template.rs:10-14 | `from_string` keeps the text unchanged as the template (used by `RenderWithoutPlaceholders`) |
| Template.CombinerTemplate.GenerateOutputFileContent | src/combiner/template.rs:24-30 | the loop's output is the template after replacing `{key}` by its value for each field in visiting order (`Render`) |
| Template.ReplaceAllAbsent | src/combiner/template.rs:27 | replacing a pattern that does not occur leaves the text unchanged |
| Template.RenderWithoutPlaceholders | src/combiner/template.rs:10-30 | a template built by `from_string` with none of the fields' tokens renders to itself |
| Template.Lookup | src/combiner/template.rs:26 | the value found for a name is an entry of the fields; none is found exactly when no field has that name |
| Template.ReplacePieces | src/combiner/template.rs:27 | replacing one token in a well-formed template (literal text without `{`, brace-free names) substitutes exactly the occurrences of that placeholder, piece by piece |
| Template.RenderPieces | src/combiner/template.rs:24-30 | with brace-free keys and values, rendering substitutes each placeholder by the first matching field and leaves unknown placeholders as they are |
| Template.ResolveKeepsWellFormed | src/combiner/template.rs:26-28 | substituting brace-free values keeps a template well formed and keeps its piece count |
| Template.LookupDistinct | src/combiner/template.rs:26 | with distinct keys, the value found for a name is the value of its one entry |
| Template.RenderOrderIndependent | src/combiner/template.rs:26-28 | with distinct, brace-free keys and values, any two visiting orders of the same entries render the same text |
| Template.ResolveSameLookups | src/combiner/template.rs:26-28 | two field lists that give every name the same value resolve any template alike |
| Template.AdjacentPlaceholders | src/combiner/template.rs:24-30 | `{A}{B}` with A=x, B=y renders `xy`, whichever entry is visited first |
| Template.AdjacentPlaceholdersIn | src/combiner/template.rs:24-30 | the same for every brace-free field list giving A=x and B=y |
| Template.UnknownPlaceholderKept | src/combiner/template.rs:27 | `{C}` without a field stays literally in the output |
| Template.LaterKeyExpandsEarlierValue | src/combiner/template.rs:26-28 | a value `{B}` is expanded when B is visited after A, and kept when B is visited first |
| Template.RenderInterleaved | src/combiner/template.rs:24-30 | a template of literal pieces and placeholders renders to the pieces interleaved with the fields' values |
| Template.ReplaceAfterValue | src/combiner/template.rs:27 | text in which the pattern does not occur, followed by nothing or by a character absent from the pattern, passes through a replace-all unchanged: no occurrence straddles its end |
| Template.ReplaceWoven | src/combiner/template.rs:27 | one replace-all over literals and slots (placeholders, or values holding no placeholder of a key) replaces exactly the placeholders of its key, even when the values hold braces |
| Template.RenderWoven | src/combiner/template.rs:24-30 | the whole fold over such literals and slots resolves each placeholder to the first value of its key, when no inserted value holds a placeholder of a key |
| Template.RenderInterleavedValues | src/combiner/template.rs:24-30 | a template whose literals hold no `{` and separate placeholders by characters foreign to them renders to its literals with the looked-up values between them, whatever braces those values hold, provided none holds a placeholder of a key |
| Template.ResolveKeepsSlots | src/combiner/template.rs:26-28 | substituting a key keeps every slot a placeholder or a placeholder-free value |
| Layout.Permute | src/combiner/template.rs:26 | the visited sequence lists `fields[order[i]]` at position i |
| Layout.PermuteSameEntries | src/combiner/template.rs:26 | visiting a map in any order visits exactly its entries |
| Layout.PermuteDistinctKeys | src/combiner/template.rs:26 | a visiting order keeps keys distinct |
| Layout.RenderFilled | src/combiner/template.rs:24-30 | a built-in-shaped template rendered with a field map with distinct keys, in any visiting order, yields the pieces interleaved with the values of its placeholders, whenever no value holds a placeholder of a key |
| Layout.FileFields | src/combiner/mod.rs:150-164 | the five file fields: path, name, line count, time and trimmed (possibly numbered) content; stated by `FileFieldsTokenFree` and the file block lemmas |
| Layout.OuterFields | src/combiner/mod.rs:178-192 | the five document fields: count, date, trimmed tree, file list and contents; stated by `OuterFieldsTokenFree` and the document lemmas |
| Layout.NoBraceNoTokens | src/combiner/template.rs:27 | text without `{` holds no placeholder |
| Layout.NoTokensSlice | src/combiner/template.rs:27 | a part of a text without placeholders holds none |
| Layout.TrimNoTokens | src/combiner/mod.rs:159 | trimming a text without placeholders leaves none |
| Layout.FormatNoTokens | src/combiner/mod.rs:139-148 | content without `{`, numbered or not, holds no placeholder |
| Layout.SeparatorsFrom | src/combiner/mod.rs:8-58 | literals starting with a line break, a quote or a backquote separate placeholders whose names are capitals and `_` |
| Layout.TemplateSeparators | src/combiner/mod.rs:8-58 | in all four built-in templates each literal after a placeholder starts with a line break, `"` or a backquote, or ends the template |
| Layout.DocumentNamesDistinct | src/combiner/mod.rs:178-192 | the five document placeholder names are distinct |
| Layout.FileFieldNamesDistinct | src/combiner/mod.rs:150-164 | the five file field names are distinct |
| Layout.NamesBraceFree | src/combiner/mod.rs:150-192 | no field name contains a brace |
| Layout.XmlTextOk | src/combiner/mod.rs:8-24 | the literal text of both XML templates holds no `{` outside placeholders |
| Layout.MarkdownOutputTextOk | src/combiner/mod.rs:26-45 | the same for the Markdown document template |
| Layout.MarkdownFileTextOk | src/combiner/mod.rs:47-58 | the same for the Markdown file template |
| Layout.OuterFieldsTokenFree | src/combiner/mod.rs:178-192 | the document fields are, in order, the count, the date, the trimmed tree, the list and the contents under the document names, with distinct keys, and none holds a placeholder when the date, tree, list and contents hold none |
| Layout.OuterKeysDistinct | src/combiner/mod.rs:178-192 | the document field map has distinct keys |
| Layout.FileFieldsTokenFree | src/combiner/mod.rs:150-164 | the file fields carry the five file names in order with distinct keys, and the line count and trimmed content hold no placeholder when the formatted content holds none |
| Layout.FileKeysDistinct | src/combiner/mod.rs:150-164 | the file field map has distinct keys |
| Layout.XmlDocumentShape | src/combiner/mod.rs:8-18 | the XML document template renders to its text with count, date, trimmed tree, list and contents in place, in every visiting order, when none of them holds a placeholder of a document field |
| Layout.MarkdownDocumentShape | src/combiner/mod.rs:26-45 | the same for the Markdown document, under the same condition |
| Layout.XmlFileBlockShape | src/combiner/mod.rs:20-24 | an XML file block holds the path, the line count, the time and the trimmed content, in every visiting order, when the path, time and formatted content hold no placeholder of a file field; the name is never used |
| Layout.MarkdownFileBlockShape | src/combiner/mod.rs:47-58 | a Markdown file block holds the name, path, line count, time and trimmed content, in every visiting order, under the same condition on the name too |
| LineText.Lines | src/combiner/mod.rs:138 | no line holds a newline, and a non-empty text has at least one line |
| LineText.LineCountFormula | src/combiner/mod.rs:138 | the line count is the number of newlines, plus one when the text does not end in a newline |
| LineText.TrailingNewlineAddsNoLine | src/combiner/mod.rs:138 | a final newline does not add a line |
| LineText.LinesRoundTrip | src/combiner/mod.rs:138 | for text without `\r`, joining the lines with newlines and restoring a final newline gives the text back |
| LineText.LinesStep | src/combiner/mod.rs:138 | the first line ends at the first newline and the rest are the lines after it |
| LineText.LinesAvoidChar | src/combiner/mod.rs:138 | a character absent from the text is absent from every line |
| LineText.LinesOfJoin | src/combiner/mod.rs:139-145 | lines without newlines or a trailing `\r`, joined by newlines, split back into the same lines |
| LineText.NumberedLineParts | src/combiner/mod.rs:143 | below a million lines, a numbered line is the number left-justified in 6 columns, then `\| `, then the line, and the number parses back |
| LineText.PaddedDigitsTrim | src/combiner/mod.rs:143 | trimming the padding of a padded number gives the number |
| LineText.FormatContent | src/combiner/mod.rs:139-148 | the content, or its lines numbered and joined by line breaks; stated by `FormatContentLineCount` and `FormatContentLines` |
| LineText.NumberedLine | src/combiner/mod.rs:143 | `{:<6}\| ` then the line; stated by `NumberedLineParts` and `NumberedLineShape` |
| LineText.NumberedLineShape | src/combiner/mod.rs:143 | a numbered line holds no line break, is not empty, and ends with the line's last character, or a space for an empty line |
| LineText.JoinNewlines | src/combiner/mod.rs:145 | joining n lines without line breaks by line breaks puts n - 1 line breaks in, and ends with the last line |
| LineText.FormatContentLineCount | src/combiner/mod.rs:138-145 | numbering keeps the line count, for every content, line endings in `\r\n` included |
| LineText.FormatContentLines | src/combiner/mod.rs:139-148 | when no line of the content keeps a trailing `\r`, the lines of the numbered text are the numbered lines of the content |
| Text.TrimStart | src/main.rs:129 | the result is a suffix with no leading whitespace, and only whitespace was removed |
| Text.TrimEnd | src/combiner/mod.rs:159 | the result is a prefix with no trailing whitespace, and only whitespace was removed |
| Text.Trim | src/combiner/mod.rs:159 | the result neither starts nor ends with whitespace |
| Text.TrimStartSuffix | src/main.rs:129 | the left trim is a suffix of the text |
| Text.TrimEndPrefix | src/main.rs:129 | the right trim is a prefix of the text |
| Text.TrimBlank | src/main.rs:129-130 | a line trims to empty exactly when all its characters are whitespace |
| Text.TrimSlice | src/combiner/mod.rs:159 | the trimmed text is one contiguous slice of the text, and everything before and after it is whitespace |
| Text.TrimIdempotent | src/main.rs:129 | trimming twice is trimming once |
| Text.NatToString | src/combiner/mod.rs:157 | the decimal text is non-empty and all digits, and starts with `0` only for zero |
| Text.NatToStringRoundTrip | src/combiner/mod.rs:157 | parsing the decimal text gives the number back |
| Text.NatToStringWidth | src/combiner/mod.rs:143 | a number below 10^w has at most w digits |
| Text.PadRight | src/combiner/mod.rs:143 | padding keeps the text as a prefix, reaches the width, and adds only spaces |
| Text.ToLowerAscii | src/combiner/mod.rs:87 | every character is lowered, and the length is kept |
| Text.ToLowerIdempotent | src/combiner/mod.rs:87 | lowering twice is lowering once |
| Text.LastIndexOf | src/combiner/mod.rs:287 | the index found is the last occurrence; none is found exactly when the character is absent |
| Order.StrLtStrictTotal | src/combiner/mod.rs:221 | the ordering of names is a strict total order |
| Order.PathLeTotalOrder | src/combiner/mod.rs:295 | the ordering of paths is a total order |
| Order.SortBy | src/combiner/mod.rs:221 | sorting keeps exactly the same elements (a permutation) |
| Order.SortBySorted | src/combiner/mod.rs:221 | a stable sort by a total preorder is sorted |
| Order.SortedUnique | src/combiner/mod.rs:295 | two sorted permutations under a total order are equal, so the sorted file list does not depend on the listing order |
| Order.SortPaths | src/combiner/mod.rs:295 | sorting paths gives a sorted permutation |
| Order.SortedNoDuplicatesAscending | src/combiner/mod.rs:295 | a sorted list without duplicates is strictly ascending |
| Walker.Collect | src/combiner/mod.rs:278-294 | the unsorted walk of a listing, entry by entry; stated by `CollectMembership` and `CollectNoDuplicates` |
| Walker.CollectEntry | src/combiner/mod.rs:281-293 | the walk of one entry; stated by `EntryMembership` |
| Walker.KeepFile | src/combiner/mod.rs:285-290 | a file is kept when there is no filter or its extension equals a filter string without its leading dots; stated by `NoExtensionsNoFiles` and `LeadingDotsIgnored` |
| Walker.CollectedFiles | src/combiner/mod.rs:272-297 | the sorted walk; stated by `CollectedFilesSpec` |
| Walker.RelativeDisplay | src/combiner/mod.rs:267 | the path below the folder, its names joined by `/`; stated by `FileListLines` |
| Walker.CreateFileList | src/combiner/mod.rs:260-270 | one `- relative/path` line per collected file, joined by line breaks; stated by `FileListLines` |
| Walker.Extension | src/combiner/mod.rs:287-288 | the extension follows the last `.`, contains no `.` and leaves a non-empty stem; there is none for `..`, for names without `.`, or when the only `.` leads the name |
| Walker.TrimStartDots | src/combiner/mod.rs:289 | only leading dots are removed, and the result does not start with one |
| Walker.CollectMembership | src/combiner/mod.rs:278-294 | a path is collected exactly when it lies below the folder and names a kept file reached through directories that are not ignored |
| Walker.EntryMembership | src/combiner/mod.rs:281-293 | the same for one entry: a directory contributes its walk unless its name is ignored, and a file contributes itself if kept |
| Walker.CollectedBelow | src/combiner/mod.rs:280 | every collected path extends the folder path by an entry of the folder |
| Walker.IgnoredNameFileCollected | src/combiner/mod.rs:281-293 | a kept file whose name is in the ignore list is still collected |
| Walker.NoExtensionsNoFiles | src/combiner/mod.rs:285-290 | an empty extension list collects nothing |
| Walker.LeadingDotsIgnored | src/combiner/mod.rs:289 | the filters `.rs` and `rs` select the same files |
| Walker.CollectNoDuplicates | src/combiner/mod.rs:278-294 | with distinct names per directory, no path is collected twice |
| Walker.CollectedFilesSpec | src/combiner/mod.rs:272-297 | the result is strictly ascending and holds exactly the selected files |
| Walker.CollectedFilesBelow | src/combiner/mod.rs:272-297 | every result lies strictly below the folder |
| Walker.SelectedResolves | src/combiner/mod.rs:128-136 | a selected relative path leads to a file entry with the path's last name |
| Walker.CollectedResolves | src/combiner/mod.rs:128-136 | every collected path, taken relative to the folder, leads to that file |
| Walker.GetAllFiles | src/combiner/mod.rs:272-297 | the loop's result is the sorted walk |
| Walker.FileListLines | src/combiner/mod.rs:260-270 | when no name holds a line break, the list has one `- relative/path` line per collected file, in sorted order |
| FolderTree.EntryLeTotalPreorder | src/combiner/mod.rs:221 | directories first, then by name, is a total preorder |
| FolderTree.Visible | src/combiner/mod.rs:216-220 | exactly the entries whose names are not ignored remain |
| FolderTree.VisibleCounts | src/combiner/mod.rs:216-220 | each entry whose name is not ignored remains as many times as the listing holds it, and ignored ones not at all |
| FolderTree.ShownInTree | src/combiner/mod.rs:242-246 | a file is drawn when there is no filter or its name ends with one of the filter strings; stated by `SuffixIsNotExtension`, `DoubledDotNotDrawn` and `CollectedFileDrawn` |
| FolderTree.TreeLines | src/combiner/mod.rs:209-258 | the lines of one level, entries sorted, each with its subtree; stated by `TreeLinesOk`, `TopLevelDrawn` and `CreateFolderTreeInner` |
| FolderTree.EntryLines | src/combiner/mod.rs:224-254 | the lines of one entry: a directory line and its subtree, or a file line when shown; stated by `EntryLinesOk`, `EntryTopLevel` and `EntryRenderDir`/`EntryRenderFile` |
| FolderTree.SortedEntries | src/combiner/mod.rs:216-221 | the drawn entries are exactly the entries whose names are not ignored |
| FolderTree.SortedEntriesOrder | src/combiner/mod.rs:221 | they are sorted directories first, then by name, and are a permutation of the visible entries |
| FolderTree.TwoFilesSorted | src/combiner/mod.rs:221 | `a.rs` is drawn before `b.txt` whatever the listing order |
| FolderTree.ChildPrefix | src/combiner/mod.rs:235 | a child's prefix extends its parent's by four columns |
| FolderTree.CreateFolderTreeInner | src/combiner/mod.rs:209-258 | the loop's text is the rendering of the level's lines with their subtrees |
| FolderTree.DrawEntry | src/combiner/mod.rs:224-254 | one iteration adds the entry's lines: a directory with its subtree, or a file if the filter shows it |
| FolderTree.LevelLinesNext | src/combiner/mod.rs:223-255 | each iteration appends the lines of one entry, the last one marked last |
| FolderTree.EntryRenderDir | src/combiner/mod.rs:228-241 | a directory draws `prefix connector name/` and then its subtree under the child prefix |
| FolderTree.EntryRenderFile | src/combiner/mod.rs:242-254 | a file draws `prefix connector name` when shown, and nothing otherwise |
| FolderTree.CreateFolderTree | src/combiner/mod.rs:201-207 | the tree is the top-level rendering with an empty prefix |
| FolderTree.TreeLinesOk | src/combiner/mod.rs:209-258 | no drawn name is ignored, every drawn file passes the filter, and every prefix extends the starting prefix |
| FolderTree.LevelLinesOk | src/combiner/mod.rs:223-255 | the same for each level of the loop |
| FolderTree.EntryLinesOk | src/combiner/mod.rs:228-254 | the same for one entry |
| FolderTree.TopLevelDrawn | src/combiner/mod.rs:223-255 | the lines at the starting prefix are the sorted entries that are drawn, one each, in order, with their last flags |
| FolderTree.EntryTopLevel | src/combiner/mod.rs:228-254 | one entry draws one line at its own level when it is a directory or a shown file, and none otherwise |
| FolderTree.HiddenLastFileKeepsOpenConnector | src/combiner/mod.rs:224 | when the last sorted entry is a file hidden by the filter, the visible last line keeps `├──` |
| FolderTree.SuffixIsNotExtension | src/combiner/mod.rs:242-246 | `bars` is drawn with filter `rs` but not collected |
| FolderTree.DoubledDotCollected | src/combiner/mod.rs:289 | `a.rs` is collected with filter `..rs` |
| FolderTree.DoubledDotNotDrawn | src/combiner/mod.rs:246 | `a.rs` is not drawn with filter `..rs` |
| FolderTree.CollectedFileDrawn | src/combiner/mod.rs:242-246 | with a filter of at most one leading dot, a collected file is drawn |
| FolderTree.IgnoredFileCollectedNotDrawn | src/combiner/mod.rs:216-221 | a kept file with an ignored name is collected but never drawn |
| Combiner.SelectTemplates | src/combiner/mod.rs:87-109 | the templates for a mode, or the failure; stated by `ModeCaseInsensitive`, `ModeSpellings` and `ModeOutcomes` |
| Combiner.Document | src/combiner/mod.rs:178-192 | the output template rendered with the document fields; stated by `XmlModeDocument` and `MarkdownModeDocument` |
| Combiner.Process | src/combiner/mod.rs:72-199 | a missing folder, a template failure, or the written document; stated by `ProcessFolder` and the mode document lemmas |
| Combiner.FileBlocks | src/combiner/mod.rs:127-176 | the blocks of the first k files, unreadable files skipped; stated by `BlocksOfReadableFiles` and `FileBlocksInShape` |
| Combiner.ModeCaseInsensitive | src/combiner/mod.rs:87 | modes equal up to ASCII case select the same templates or the same kind of failure |
| Combiner.ModeSpellings | src/combiner/mod.rs:87-95 | `XML`, `Markdown` and `CUSTOM` select as their lower-case forms |
| Combiner.ModeOutcomes | src/combiner/mod.rs:87-109 | custom mode without both paths fails; with both it succeeds exactly when both read; an unknown mode fails naming itself; xml and markdown always succeed and ignore the custom paths |
| Combiner.FileBlock | src/combiner/mod.rs:136-175 | a file gets a block exactly when it can be read |
| Combiner.BlocksOfReadableFiles | src/combiner/mod.rs:127-176 | the number of blocks is the number of readable files |
| Combiner.ReadableCountBound | src/combiner/mod.rs:127-176 | there are at most as many blocks as files, and as many exactly when every file reads |
| Combiner.XmlModeDocument | src/combiner/mod.rs:72-199 | in XML mode the document is the XML header with the collected count, the date, the trimmed tree and the file list, then the blocks concatenated |
| Combiner.MarkdownModeDocument | src/combiner/mod.rs:72-199 | the same for Markdown mode |
| Combiner.ExpectedBlock | src/combiner/mod.rs:136-175 | the block a readable file is expected to have in XML or Markdown mode; none exactly when the file cannot be read |
| Combiner.FileBlockInShape | src/combiner/mod.rs:136-175 | in XML and Markdown mode a file's block is its expected block, in every visiting order, when its path, time, formatted content and (for Markdown) name hold no placeholder of a file field |
| Combiner.FileBlocksAsExpected | src/combiner/mod.rs:127-176 | blocks that each have their expected form concatenate to the expected blocks |
| Combiner.FileBlocksInShape | src/combiner/mod.rs:127-176 | the blocks of the first k files are their expected blocks, in order, one per readable file |
| Combiner.AllBlocksInShape | src/combiner/mod.rs:127-176 | the blocks of the document are the expected blocks of the collected files in walk order, under the same condition on every file |
| Combiner.ProcessFolder | src/combiner/mod.rs:72-199 | the outcome is a missing folder, a template failure, or the written document |
| Combiner.RenderFileBlocks | src/combiner/mod.rs:127-176 | the loop collects the blocks of the readable files in file order |
| Combiner.RenderFileBlock | src/combiner/mod.rs:128-175 | one iteration adds one block for a readable file and none otherwise |
| IgnoreList.LinePattern | src/main.rs:129-132 | the trimmed line when it is neither empty nor a comment; stated by `AddLine` and `PatternsClean` |
| IgnoreList.Patterns | src/main.rs:128-133 | the patterns of the lines, in order; stated by `PatternsMembership`, `PatternsClean` and `PatternsIdempotent` |
| IgnoreList.GitignoreList | src/main.rs:116-140 | the four defaults, then the patterns of the readable lines; stated by `ReadGitignore` |
| IgnoreList.CombineList | src/main.rs:156-159 | the `.gitignore` list extended with the `-i` names; stated by `CombineListEnds` and `CombineListMembership` |
| IgnoreList.ReadLines | src/main.rs:128 | the lines read are the leading successful reads, stopping at the first failure |
| IgnoreList.ReadGitignore | src/main.rs:116-140 | the list is the four defaults then the patterns of the readable lines; a missing or unopenable file gives the defaults |
| IgnoreList.PushPatterns | src/main.rs:128-133 | the loop appends the patterns of the lines read, in order |
| IgnoreList.AddLine | src/main.rs:129-132 | one line adds its trimmed form when that is neither empty nor a comment |
| IgnoreList.CombineIgnoreList | src/main.rs:156-159 | the combine list is the `.gitignore` list extended with the `-i` names |
| IgnoreList.PatternsMembership | src/main.rs:128-133 | a pattern is exactly the trimmed form of a line that is kept |
| IgnoreList.PatternsClean | src/main.rs:129-131 | every pattern is trimmed, non-empty and not a comment, and there are no more patterns than lines |
| IgnoreList.PatternsIdempotent | src/main.rs:128-133 | reading the patterns back as lines gives the same patterns |
| IgnoreList.ReadAllLines | src/main.rs:128 | when every read succeeds, every line is seen |
| IgnoreList.CombineListEnds | src/main.rs:118-159 | the combine list starts with the four defaults and ends with the `-i` names |
| IgnoreList.CombineListMembership | src/main.rs:118-159 | a name is in the combine list exactly when it is a default, an `-i` name or a kept `.gitignore` line |

## Left out

- File system access is replaced by the in-memory `Node` tree: `read_dir`, `is_dir`, `read_to_string`, `metadata` and `fs::write`. The document is returned rather than written. The failure of `fs::write` and its `expect` are not modelled.
- Panics on unexpected I/O are not modelled: the `unwrap` on `read_dir`, on directory entries, on `metadata`, on `modified`, on `strip_prefix` and on `file_name`/`to_str`. A file is assumed to have a modification time even when its text cannot be read. The `Node` tree has no cycles and no symbolic links.
- `from_file` is not modelled as I/O. A custom template path is `Option<Option<string>>`: `None` when the option is absent, and `Some(None)` when the file cannot be read, which the model reports as `TemplateUnreadable` where the program panics.
- Timestamps are opaque strings supplied as inputs, formatted by `chrono` from the local clock. This includes the date-of-generation format `%Y-%m-d %H:%M:%S` at src/combiner/mod.rs:183, which lacks a `%` before `d`. The model does not look inside the timestamp.
- Printing is left out: the error message for a missing folder, the per-file warning, the `.gitignore` open failure message, and the final success message.
- Command-line parsing (`clap`) and the `tree` and `list` subcommands' own glue in `src/main.rs` are not modelled. `create_folder_tree` and `create_file_list` themselves are modelled.
- Characters: `trim` and `to_lowercase` are modelled on ASCII (ASCII whitespace and ASCII letters only). `to_string_lossy` and `display` are the identity on names, and names are compared by code point.
- The visiting order of each `HashMap` is a parameter (a permutation per map), because the program does not choose it.
- Combiner.XmlModeDocument: states the document only when the date, the tree, the file list and the blocks hold no placeholder of a document field (`{TOTAL_FILES}` and the like). Braces are allowed otherwise. With such a placeholder in a value, a later key may expand it, and `Combiner.ProcessFolder` states only the general result.
- Combiner.MarkdownModeDocument: the same condition as the XML case.
- Layout.XmlDocumentShape: requires that no value holds a placeholder of a document field, for the same reason.
- Layout.MarkdownDocumentShape: the same condition.
- Layout.XmlFileBlockShape: requires that the path, the time and the formatted content hold no placeholder of a file field (`{FILE_PATH}` and the like), for the same reason.
- Layout.MarkdownFileBlockShape: the same condition, on the file name too.
- Combiner.FileBlockInShape: the same per-file condition; `Combiner.FileBlocksInShape` and `Combiner.AllBlocksInShape` require it of every file.
- Combiner.FileBlocksInShape: see `Combiner.FileBlockInShape`.
- Combiner.AllBlocksInShape: see `Combiner.FileBlockInShape`.
- LineText.FormatContentLines: requires that no line of the content keeps a trailing `\r` after `str::lines`. Only a line ending in `\r\r\n`, or a final line ending in a bare `\r`, keeps one. When such a line is followed by a line break, splitting the numbered text strips that `\r` from the numbered line. `LineText.FormatContentLineCount` holds for all content.
- Order.SortBy: states a permutation, not stability; stability does not matter for the keys the program sorts by.
- LineText.LinesRoundTrip: stated for text without `\r`, because `str::lines` drops a `\r` before each newline and the round trip cannot restore it.
- LineText.NumberedLineParts: stated below one million lines, where the number fits the six-column field.
- Walker.FileListLines: stated for names without line breaks, since a name holding a newline would split a bullet.
