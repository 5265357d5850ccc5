# todo: a verified model of the issue editor and the blocker stack

This project models, in Dafny, the core of `todo`, a command-line tool that
lets its user edit a GitHub issue tree as a local text file. An issue is a
title line with a checkbox that carries its close state, a body, further
comments, an embedded "blockers" section (a stack of headers and action
items), and nested sub-issues. The tool fetches the tree, writes it as
markdown (or typst), reads the edited file back, and computes the GitHub
calls that bring the remote side in line with the edit. A last-fetched
state serves as the base of a three-way comparison.

The model follows the program file by file, with one Dafny module per
source file or tight group of files:

- **Shared text handling.** `Wrappers` (Option and Result) and `Strings`
  model the Rust string operations the program relies on (`trim`, `split`,
  `lines`, `strip_prefix`, number parsing).
- **Markers and headers** (`src/lib.rs`, `src/issue/marker.rs`,
  `src/marker.rs`, `src/issue/util.rs`, `src/open/util.rs`,
  `src/open_interactions/util.rs`). These are modelled in `Extensions`,
  `Headers`, `MarkerText`, `IssueMarker`, `FileMarker`, `Indentation`,
  `IssueUtil`, `OpenUtil` and `OpenInteractionsUtil`. Decode and encode of
  header lines and HTML-comment markers are proved to be inverses.
- **The blocker sequence.** `IssueBlocker` covers the classifier,
  `build_from_lines` and the serialiser of `src/issue/blocker.rs`.
  `BlockerOps` covers the stack operations of
  `src/blocker_interactions/operations.rs`. `BlockerStandard` covers the
  validator and formatter of `src/blocker_interactions/standard.rs`.
  `BlockerText` covers the older, text-based stack of
  `src/blocker/operations.rs`. `BlockerRewrite` covers
  `src/blocker_rewrite.rs`, and `BlockerIo` covers the project rules of
  `src/blocker/io.rs`.
- **Issue values** (`src/issue/types.rs`, `src/issue/error.rs`). These are
  modelled in `IssueTypes` and `IssueError`: links, comment identities,
  close states and their GitHub and checkbox forms, title-line parsing,
  ancestry, and error spans.
- **The editor's issue file** (`src/open/issue.rs`, `src/open/line.rs`,
  `src/open/format.rs`, `src/open.rs`). These are modelled in `OpenIssue`,
  `OpenIssueSerialize`, `OpenIssueParse`, `OpenIssueActions`, `OpenLine`,
  `OpenFormat` and `OpenCommand`. Title lines, sub-issue lines and a title
  with a plain body are proved to read back through the parser; whole
  issues with comments, sub-issues or blockers are not (see "## Left out").
- **Synchronisation** (`src/open_interactions/sink.rs`, `tree.rs`,
  `github_sync.rs`, `sync.rs`, `src/open/sync.rs`, `src/github.rs`). These
  are modelled in `Sink`, `MergeTree`, `GithubSync`, `CommentSync`,
  `OiSync`, `OpenSync` and `Github`. They cover the breadth-first tree
  iterator, the per-node diff, the three-way node comparison and tree
  resolution, the planning of GitHub calls, and URL write-back.
- **Files and paths** (`src/open_interactions/files.rs`,
  `src/open/files.rs`, `touch.rs`, `conflict.rs`). These are modelled in
  `Sanitize`, `IssueFiles`, `OpenFiles`, `Touch` and `Conflict`.
- **The in-memory GitHub client used by the tests** (`src/mock_github.rs`).
  This is modelled in `MockGithub`, a class whose fields are the stored
  issues, comments, sub-issue links and the number counters. Some of its
  behaviour is modelled as written:
  - One issue-number counter is shared by all repositories.
  - `create_issue` can overwrite an issue that `add_issue` preloaded under
    the same number.
  - The order of hash-map iteration is a choice the caller makes.
- **Side tools.** `Clockify` covers the name matching of
  `src/clockify.rs`. `Milestones` covers `src/milestones.rs`. `Todos` and
  `TaskSort` cover `src/todos.rs`, including the in-place quicksort over an
  array. `ManualStats` covers `src/manual_stats.rs`. `DaySections` covers
  `src/day_section.rs` and `src/quickfix.rs`.

Where the program works by updating state, the model does too. Examples
are the tree iterator, the loops of the parser, formatter and serialiser,
the action collection, the GitHub call planning, the blocker stacks, the
sync options, the mock client and the task sort. These are methods with
loop invariants, and classes with `modifies` frames. Each method is proved
against a specification function, and the properties the program relies
on are proved about those functions as lemmas.

Some of the program's files contain stubs or depend on files that are not
part of this model. Where that happens, the model uses the nearest
definition the repository does contain. These cases are listed under
"Left out".

## Model

| member | source | states |
|---|---|---|
| Headers.New | src/lib.rs:21-27 | the level is clamped to at least 1 and the content is kept |
| Headers.Decode | src/lib.rs:31-57 | a decoded header has level at least 1 and re-encodes to the trimmed input |
| Headers.DecodeComplete | src/lib.rs:31-57 | every trimmed line made of a run of '#', one space and non-blank content decodes to that level and content |
| Headers.DecodeEncode | src/lib.rs:31-62 | decode inverts encode exactly for headers with level at least 1 and non-empty content without trailing whitespace |
| Headers.Encode | src/lib.rs:59-62 | the text is exactly `level` hashes, one space and the content |
| Headers.ContentEqIgnoreCaseProps | src/lib.rs:65-67 | case-insensitive content equality holds exactly when the lengths agree and every character agrees after ASCII lower-casing |
| MarkerText.HtmlInner | src/issue/marker.rs:62-68 | the inside of a comment exists exactly when the text starts with `<!--` and ends with `-->` without overlap, and is that middle part trimmed |
| MarkerText.HtmlInnerOf | src/issue/marker.rs:62-68 | wrapping a body in `<!--` … `-->` gives back the trimmed body as the inside |
| MarkerText.CommentIdOf | src/issue/marker.rs:101-112 | a comment URL `base#issuecomment-N` has id N |
| MarkerText.DecodeUrlPart | src/issue/marker.rs:87-118 | the URL tail of decode: sub-issue URLs are trimmed, comment URLs contain the anchor and have a u64 id, plain URLs are non-empty with neither anchor nor sub prefix |
| MarkerText.DecodePlain | src/issue/marker.rs:114-117 | a plain URL without a comment anchor decodes as itself with its immutable flag |
| MarkerText.DecodeComment | src/issue/marker.rs:101-112 | a comment URL decodes with the id written after its anchor and its immutable flag |
| MarkerText.DecodeSub | src/issue/marker.rs:95-98 | `sub ` followed by a trimmed URL decodes as that sub-issue URL |
| MarkerText.KeywordPrefixes | src/issue/marker.rs:71-85 | no keyword check fires on a text starting with `immutable ` or `sub ` |
| IssueMarker.Decode | src/issue/marker.rs:38-120 | a blank line holds no marker |
| IssueMarker.Encode | src/issue/marker.rs:124-144 | every marker but the blockers header is written as an HTML comment |
| IssueMarker.DecodeProps | src/issue/marker.rs:38-120 | every decoded blockers section has level at least 1 and a blockers title, every issue URL is non-empty without a comment anchor, every sub-issue URL is trimmed |
| IssueMarker.DecodeShorthandComment | src/issue/marker.rs:42-44 | `!c` or `!C` with any surrounding whitespace decodes to the new-comment marker |
| IssueMarker.DecodeShorthandBlockers | src/issue/marker.rs:47-49 | `!b` or `!B` with any surrounding whitespace decodes to a level-1 "Blockers" section |
| IssueMarker.DecodeBlockersHeader | src/issue/marker.rs:52-58 | a header whose content, lower-cased and without trailing ':', is "blockers" or "blocker" decodes to a blockers section with that same header |
| IssueMarker.DecodeUnwrapped | src/issue/marker.rs:61-63 | text that is neither a shorthand, nor a blockers header, nor wrapped in `<!--` … `-->` is not a marker |
| IssueMarker.DecodeWrapped | src/issue/marker.rs:66-67 | a wrapped text decodes as its trimmed inside |
| IssueMarker.DecodeCommentWithoutId | src/issue/marker.rs:101-107 | a comment URL whose anchor is not followed by a u64 is not a marker |
| IssueMarker.DecodeEncode | src/issue/marker.rs:124-144 | decode inverts encode for every well-formed marker |
| IssueMarker.DecodeEncodeIssueUrl | src/issue/marker.rs:126-131 | decode inverts encode for issue-URL markers, mutable or immutable |
| IssueMarker.DecodeEncodeComment | src/issue/marker.rs:133-138 | decode inverts encode for comment markers |
| IssueMarker.DecodeEncodeSubIssue | src/issue/marker.rs:132 | decode inverts encode for sub-issue markers |
| IssueMarker.DecodeNewComment | src/issue/marker.rs:139 | decode inverts encode for the new-comment marker |
| IssueMarker.DecodeOmittedStart | src/issue/marker.rs:141 | decode inverts encode for the start of an omitted fold |
| IssueMarker.DecodeOmittedEnd | src/issue/marker.rs:142 | decode inverts encode for the end of an omitted fold |
| FileMarker.Decode | src/marker.rs:37-113 | a blank line holds no marker, under either extension |
| FileMarker.Encode | src/marker.rs:117-158 | in markdown every marker but the blockers header is an HTML comment; in typst every marker is a `// ` comment line |
| FileMarker.DecodeFixed | src/marker.rs:37-113 | the corrected decoder finds no marker on a blank line and reads markdown exactly as the written decoder does |
| FileMarker.DecodeHashBlockers | src/marker.rs:42-47 | any run of '#', a space, "blockers" in any case and any number of trailing ':' decodes to the blockers section |
| FileMarker.HashBlockersWhole | src/marker.rs:40-46 | the header form must fill the line: a trimmed blockers header line ends in 's' or ':' |
| FileMarker.DecodeInnerText | src/marker.rs:59-112 | the inside text of every well-formed marker decodes back to that marker |
| FileMarker.InnerTextTrimmed | src/marker.rs:117-158 | the inside text of every marker is non-empty with no surrounding whitespace |
| FileMarker.DecodeWrapped | src/marker.rs:54-60 | an HTML comment decodes as its trimmed inside under either extension |
| FileMarker.NotBlockersLine | src/marker.rs:42-52 | a line whose first character is not '#', '/' or an upper-case letter (for example '<' or a lower-case letter) is neither blockers line form |
| FileMarker.DecodeEncodeMd | src/marker.rs:117-158 | decode inverts the markdown encoding for every well-formed marker |
| FileMarker.DecodeMdBlockers | src/marker.rs:42-47 | the markdown blockers header decodes to the blockers section |
| FileMarker.TypEncodingUnread | src/marker.rs:37 | as written, decode ignores the extension, so every well-formed marker other than the blockers section, encoded for typst, decodes to no marker |
| FileMarker.SlashLineAsWritten | src/marker.rs:49-56 | as written, a `//` line is read only when it is the typst blockers line |
| FileMarker.DecodeFixedTypLine | src/marker.rs:117-158 | the corrected decoder reads a typst comment line through the marker's inside text |
| FileMarker.DecodeFixedEncodeTyp | src/marker.rs:117-158 | with the corrected decoder, decode inverts the typst encoding for every well-formed marker |
| FileMarker.DecodeFixedMd | src/marker.rs:37-113 | the corrected decoder reads markdown exactly as the written decoder does |
| FileMarker.DecodeFixedExtends | src/marker.rs:37-113 | wherever the written decoder finds a marker the corrected one finds the same marker |
| FileMarker.TypLineEqIgnoreCase | src/marker.rs:50 | two typst comment lines are equal ignoring case exactly when their texts are |
| FileMarker.InnerTextNotBlockers | src/marker.rs:64-66 | only the blockers marker has an inside text that reads as the blockers word |
| FileMarker.TypBlockersInner | src/marker.rs:50-52 | a typst blockers line, read by the corrected decoder, is the blockers section |
| Indentation.IndentLen | src/issue/util.rs:67-79 | the leading run of tabs and spaces: all of it is indentation and the next character is not |
| Indentation.WidthOf | src/issue/util.rs:39-51 | a line proposes an indent width between 2 and 8 |
| Indentation.DetectWidth | src/issue/util.rs:37-53 | the detected width is between 2 and 8, and 4 when no line proposes one |
| Indentation.DetectWidthFirst | src/issue/util.rs:37-53 | the width is the one proposed by the first line that proposes one |
| Indentation.NormalizeLine | src/issue/util.rs:57-93 | the character-by-character rewrite of one line equals the normalised-line definition |
| Indentation.NormalizedLineShape | src/issue/util.rs:82-91 | a normalised line's indentation is the old tabs plus whole levels of spaces as tabs, then the leftover spaces, followed by the unindented text (same code at src/open/util.rs:29-90 and src/blocker_rewrite.rs:365-415) |
| Indentation.LevelArith | src/issue/util.rs:82-84 | moving whole levels of spaces into tabs keeps the column count |
| Indentation.NormalizedLineProps | src/issue/util.rs:57-93 | a normalised line is empty exactly when the line was, keeps the text after its indentation and the indentation depth, and has fewer spaces than one level after its tabs |
| Indentation.NormalizedLineIdempotent | src/issue/util.rs:57-93 | normalising a line twice with the same width is the same as once |
| Indentation.FullLevels | src/issue/util.rs:82-91 | n full levels of spaces become n tabs |
| Indentation.NormalizedLineNoNewline | src/issue/util.rs:57-93 | normalising never introduces a line break |
| Indentation.Normalized | src/issue/util.rs:55-95 | the output has one line per input line and its i-th line is the i-th input line normalised |
| Indentation.NormalizeAll | src/issue/util.rs:55-95 | the loop over lines yields every line normalised, in order |
| Indentation.NormalizeIssueIndentation | src/issue/util.rs:35-96 | the method's result is the normalised content |
| IssueUtil.IsBlockersMarker | src/issue/util.rs:17-28 | a blank line never opens the blockers section |
| IssueUtil.BoldBlockers | src/issue/util.rs:26-27 | any indentation, then `**Blockers**` in any case, then anything, opens the blockers section |
| IssueUtil.ShorthandIsMarker | src/issue/util.rs:19-21 | the `!b` shorthand, padded or not, opens the blockers section |
| IssueUtil.HeaderIsMarker | src/issue/util.rs:19-21 | a header of any level whose text names the blockers opens the section |
| IssueUtil.EncodedIsMarker | src/issue/util.rs:17-28 | every encoded blockers marker is recognised |
| IssueUtil.OtherMarkers | src/issue/util.rs:17-28 | no other encoded marker opens the blockers section |
| IssueUtil.NotBoldByFirst | src/issue/util.rs:26-27 | a line starting with neither whitespace, a letter nor '*' is not the bold blockers form |
| OpenUtil.IsBlockersMarker | src/open/util.rs:14-22 | a blank line never opens the blockers section |
| OpenUtil.HashHeaderIsMarker | src/open/util.rs:14-22 | a `#…# Blockers` header of any level, with any trailing ':', opens the blockers section |
| OpenUtil.EncodedIsMarker | src/open/util.rs:14-22 | the blockers marker encoded for either extension opens the section |
| OpenUtil.ExtractCheckboxTitle | src/open/util.rs:94-104 | a title is found only on a trimmed line starting with `- [ ] ` or `- [x] `, and is non-empty and trimmed (same code at src/open_interactions/util.rs:7-17) |
| OpenUtil.ExtractCheckboxLine | src/open/util.rs:94-104 | the title of an indented checkbox line, followed by whitespace or by a space and an HTML comment, is read back unchanged |
| OpenUtil.BoxedLine | src/open/util.rs:100-103 | after the box, the title is the text before the first `<!--`, trimmed, and there is none when that is empty |
| OpenUtil.FirstComment | src/open/util.rs:102 | after a title free of '<', the first comment opening is the one the tail brings, and there is none in a blank tail |
| OpenUtil.UpperCheckedRejected | src/open/util.rs:100 | a box ticked with an upper-case X gives no title |
| OpenUtil.ReplacementEncodes | src/open/util.rs:111-114 | the replacement text is the extension's encoding of the blockers marker |
| OpenUtil.ExpandLineProps | src/open/util.rs:118-126 | with the corrected indentation, a shorthand line becomes the marker after the line's own leading whitespace and opens the blockers section; every other line is unchanged |
| OpenUtil.ExpandLineIdempotent | src/open/util.rs:118-126 | expanding a second time changes nothing |
| OpenUtil.ExpandBlockerShorthand | src/open/util.rs:116-129 | the expansion keeps the number of lines and rewrites each line on its own |
| OpenUtil.ExpandTrailingSpaceAsWritten | src/open/util.rs:122 | as written, `!b ` (with a trailing space) keeps the `!` as its indentation and becomes `!# Blockers`, which opens no blockers section |
| OpenUtil.TypstHeaderOfLevel | src/open/util.rs:137-142 | a markdown header of level 1 to 3 becomes the typst header of the same level and text; src/open.rs:176-192 has the same converter |
| OpenUtil.TypstHeaderKeeps | src/open/util.rs:143-145 | deeper headers and every other line are kept |
| OpenUtil.ConvertMarkdownToTypst | src/open/util.rs:133-149 | the conversion keeps the number of lines and converts each line on its own |
| OpenInteractionsUtil.HeaderLineProps | src/open_interactions/util.rs:22-29 | a decodable header keeps its level and content as a typst header; other lines are kept |
| OpenInteractionsUtil.AgreesWithPrefixConversion | src/open_interactions/util.rs:20-32 | on a trimmed header of level 1 to 3 this conversion agrees with the prefix-matching one of src/open/util.rs |
| OpenInteractionsUtil.HeaderLineNoNewline | src/open_interactions/util.rs:24-28 | a converted line has no line break when the input line had none |
| OpenInteractionsUtil.ConvertMarkdownToTypst | src/open_interactions/util.rs:20-32 | the conversion keeps the number of lines and converts each line on its own |
| IssueBlocker.ToNat | src/issue/blocker.rs:18-26 | a header level is a number from 1 to 5 |
| IssueBlocker.FromNat | src/issue/blocker.rs:29-38 | a level exists exactly for 1..=5, and converting it back gives the number |
| IssueBlocker.FromNatToNat | src/issue/blocker.rs:18-38 | converting a level to its number and back gives the level |
| IssueBlocker.ClassifyLine | src/issue/blocker.rs:81-133 | nothing is returned exactly for the empty line; a tab-led line is a comment with one tab removed; two leading spaces not introducing '-' make a comment of the trimmed text |
| IssueBlocker.ClassifyToRaw | src/issue/blocker.rs:65-133 | classifying the raw form of a line gives the line back |
| IssueBlocker.SpaceIndentedComment | src/issue/blocker.rs:93-96 | two or more spaces before text not starting with '-' make a comment of that text |
| IssueBlocker.DeepHeaderIsItem | src/issue/blocker.rs:116-119 | more than five '#' before a space make the whole trimmed line an item |
| IssueBlocker.RPosition | src/issue/blocker.rs:261-277 | the position found is the last child of that level, and none is found when no child has it |
| IssueBlocker.AddItemLands | src/issue/blocker.rs:249-277 | the item is appended to exactly the section the level path designates |
| IssueBlocker.BuildFromLines | src/issue/blocker.rs:184-246 | every header and item survives in order, and a line list in which every comment follows an item or a comment is read back exactly by the tree's lines |
| IssueBlocker.FlushPending | src/issue/blocker.rs:194-203 | flushing pushes the pending item with its comments where the level stack points, moving its lines from held back into the tree |
| IssueBlocker.OpenSection | src/issue/blocker.rs:205-225 | a header line adds a fresh section at the end of the open spine and appends its header to the tree's lines |
| IssueBlocker.PopLevels | src/issue/blocker.rs:212-216 | the header's pop loop drops exactly the open levels at or deeper than the new header, never the root |
| IssueBlocker.Parse | src/issue/blocker.rs:178-181 | parsing a text keeps every classified header and item in order and, for well-formed line lists, reproduces the lines exactly |
| IssueBlocker.IsEmptyNoItem | src/issue/blocker.rs:280-282 | a section is empty exactly when its lines hold no item, so header-only trees are empty |
| IssueBlocker.TreeLinesWellFormed | src/issue/blocker.rs:312-337 | in the lines of any tree a comment only follows its item or another comment |
| IssueBlocker.SerializeIsRaw | src/issue/blocker.rs:285-337 | with every level in range, serialize writes exactly the raw form of the tree's lines, items with their comments before child headers |
| IssueBlocker.ClassifyAllRaw | src/issue/blocker.rs:65-133 | classifying the raw lines gives the lines back |
| IssueBlocker.RawNoNewline | src/issue/blocker.rs:65-71 | a raw line is never empty and has no line break when its text has none |
| IssueBlocker.ParseSerialize | src/issue/blocker.rs:178-309 | reading back the serialised text of a tree whose lines are classifiable and free of line breaks gives the tree's lines |
| BlockerOps.NoItemTexts | src/blocker_interactions/operations.rs:62-66 | a line list has no item text exactly when it holds no item |
| BlockerOps.LenCountsItems | src/blocker_interactions/operations.rs:62-66 | len counts exactly the item lines of the tree: own items plus the items of all children |
| BlockerOps.CurrentIsLastItem | src/blocker_interactions/operations.rs:127-136 | current is the text of the last item line of the tree, never a comment |
| BlockerOps.CurrentExists | src/blocker_interactions/operations.rs:68-70 | there is a current item exactly when the tree is not empty |
| BlockerOps.CurrentRaw | src/blocker_interactions/operations.rs:72-74 | current_raw is present exactly when current is, and is its raw item line |
| BlockerOps.RightmostNonEmpty | src/blocker_interactions/operations.rs:127-136 | the index found is the rightmost non-empty child, and none when every child is empty |
| BlockerOps.LastChildIsNonEmpty | src/blocker_interactions/operations.rs:127-136 | the child last_item descends into is the rightmost non-empty one, and its last item is the tree's |
| BlockerOps.PathToLastIsTitles | src/blocker_interactions/operations.rs:139-160 | the path to the current item is the non-empty titles of the sections leading to it, and empty when there is no item |
| BlockerOps.CurrentWithContextJoin | src/blocker_interactions/operations.rs:76-91 | the context is absent exactly for an empty tree, and otherwise is hierarchy, header path and item text joined by ": " |
| BlockerOps.PopRemovesLast | src/blocker_interactions/operations.rs:228-237 | pop removes exactly the last item line and returns its text; with no item it returns nothing and changes nothing |
| BlockerOps.PopKeepsHeaders | src/blocker_interactions/operations.rs:228-237 | pop leaves every header in place |
| BlockerOps.PopIsCurrent | src/blocker_interactions/operations.rs:102-104 | pop returns the item current showed |
| BlockerOps.PopThenCurrent | src/blocker_interactions/operations.rs:422-432 | after a pop the current item is the one before the popped one, also across sections |
| BlockerOps.AddToDeepestSpec | src/blocker_interactions/operations.rs:242-255 | a section that refuses the item holds no item; one that takes it gains it as its last item line |
| BlockerOps.AddKeepsHeaders | src/blocker_interactions/operations.rs:239-261 | adding an item leaves every header in place |
| BlockerOps.AddAppends | src/blocker_interactions/operations.rs:239-261 | add appends exactly one item line, leaves the headers alone |
| BlockerOps.PopUndoesAdd | src/blocker_interactions/operations.rs:93-104 | pop right after add returns the added item and restores the item lines |
| BlockerOps.AddIsCurrent | src/blocker_interactions/operations.rs:93-100 | after add the added item, comments included, is current |
| BlockerOps.RenderHeadersIsLines | src/blocker_interactions/operations.rs:118-123 | the flat header rendering is the section's header followed by its lines, which serialize writes |
| BlockerOps.ListIsSkeleton | src/blocker_interactions/operations.rs:106-116 | list has one entry per header and item line in document order, headers flagged true, items false, comments omitted |
| BlockerOps.NestedShape | src/blocker_interactions/operations.rs:195-225 | the nested rendering has one line per line of the tree and every line starts with the indentation it was given |
| BlockerOps.BlockerStack.Add | src/blocker_interactions/operations.rs:93-100 | the tree becomes the item added to the deepest section, the item is current, and the length grows by one |
| BlockerOps.BlockerStack.Pop | src/blocker_interactions/operations.rs:102-104 | returns the text current showed, the tree loses that item, and an empty tree is unchanged |
| BlockerStandard.OnlyCommentsSkeleton | src/blocker_interactions/standard.rs:13-15 | a line list has nothing left without its comments exactly when every line is a comment |
| BlockerStandard.SemanticallyEmptyParse | src/blocker_interactions/standard.rs:13-15 | a text is semantically empty exactly when no classified line is a header or an item |
| BlockerStandard.FirstError | src/blocker_interactions/standard.rs:27-53 | the error reported is the first comment line that is first or follows an empty line outside a code block, and there is none exactly when no line is misplaced |
| BlockerStandard.Validate | src/blocker_interactions/standard.rs:27-53 | the validation loop reports exactly that first error |
| BlockerStandard.FormatLines | src/blocker_interactions/standard.rs:55-111 | the formatting loop produces the formatted lines |
| BlockerStandard.PushLine | src/blocker_interactions/standard.rs:67-109 | one classified line is pushed with its canonical prefix and, before a header, a blank line unless the previous line is a header of strictly higher rank |
| BlockerStandard.FormatBlockerContent | src/blocker_interactions/standard.rs:23-114 | the method's result is the validation error or the joined formatted lines |
| BlockerStandard.FormattedKeepsContent | src/blocker_interactions/standard.rs:55-111 | whatever the code blocks, the non-empty output lines are exactly the canonical forms of the classified input lines, in order: items as "- text", comments as a tab and the text |
| BlockerStandard.ClassifiedReadsBack | src/blocker_interactions/standard.rs:74-106 | every classified line other than the blank item reads back from its canonical form |
| BlockerStandard.OutranksRaw | src/blocker_interactions/standard.rs:79-93 | the header test on a written line sees the line's own header level |
| BlockerStandard.FenceOfRaw | src/blocker_interactions/standard.rs:59-62 | a written line is a code-block fence only if the input line was one |
| BlockerStandard.FormattedIsLayout | src/blocker_interactions/standard.rs:55-111 | without code blocks the formatter writes exactly the intended layout: empty lines removed, one empty line before a header unless the previous line is a header of strictly higher rank |
| BlockerStandard.LayoutReadsBack | src/blocker_interactions/standard.rs:55-111 | when every line is canonical, classifying the layout gives the lines back |
| BlockerStandard.LayoutCommentsFollow | src/blocker_interactions/standard.rs:27-53 | in the layout a comment line never comes first and never follows an empty line |
| BlockerStandard.LayoutValid | src/blocker_interactions/standard.rs:27-53 | the layout of canonical lines opening with a non-comment passes validation |
| BlockerStandard.ValidFirstNotComment | src/blocker_interactions/standard.rs:46-49 | the first classified line of a valid text without code blocks is not a comment |
| BlockerStandard.FormatOutput | src/blocker_interactions/standard.rs:23-114 | formatting a valid text without code blocks or blank items writes the layout of its classified lines, whose lines are again canonical |
| BlockerStandard.FormatIdempotent | src/blocker_interactions/standard.rs:23-114 | formatting is idempotent on texts without code blocks or blank items |
| BlockerStandard.FormatContentIdempotent | src/blocker_interactions/standard.rs:23-114 | the same law stated on texts |
| BlockerStandard.OneLineFormat | src/blocker_interactions/standard.rs:100-106 | a single line that is neither a comment nor a fence formats to its canonical form |
| BlockerStandard.BlankItemNotIdempotent | src/blocker_interactions/standard.rs:105-108 | as written, a line of one space formats to "- ", which formats again to "- -": formatting is not idempotent |
| BlockerStandard.BlankItemIff | src/blocker_interactions/standard.rs:105-108 | a line is the blank item exactly when it classifies as an item with empty text |
| BlockerStandard.FormatFixedIdempotent | src/blocker_interactions/standard.rs:23-114 | the corrected formatter, which drops blank items, is idempotent on every text without code blocks |
| BlockerText.LastWhere | src/blocker/operations.rs:84-111 | the position found is the last line passing the test, and there is none exactly when no line passes |
| BlockerText.CandidateIsContent | src/blocker/operations.rs:42-111 | without space-indented comments, current and pop look at the same line |
| BlockerText.CurrentOf | src/blocker/operations.rs:42-50 | current is absent exactly when no line is a candidate, and otherwise is a candidate line |
| BlockerText.ListIsClassified | src/blocker/operations.rs:114-137 | list reads one entry per header and item, in order, the same entries the tree stack's list reads off the classified lines |
| BlockerText.ContextIsJoin | src/blocker/operations.rs:57-72 | the context is absent exactly when current is, and otherwise is hierarchy, parent headers and the line without its item prefix joined by ": " |
| BlockerText.EmptyIsSemanticallyEmpty | src/blocker/operations.rs:140-142 | without space-indented comments, a text has no current line exactly when it is semantically empty |
| BlockerText.AppendedLines | src/blocker/operations.rs:75-80 | the text add formats has the old lines followed by the new one |
| BlockerText.AddMakesCurrent | src/blocker/operations.rs:75-80 | after a successful add of a non-blank item line, that item in canonical form is the current line |
| BlockerText.PopRemovesLastContent | src/blocker/operations.rs:84-111 | pop removes the last header or item line and every line after it, which are all empty or comments; what remains is the text before it |
| BlockerText.IsContent | src/blocker/operations.rs:95-100 | a line is content exactly when it classifies as a header or an item |
| BlockerText.LastContentIndex | src/blocker/operations.rs:92-103 | the collecting loop returns the position of the last content line |
| BlockerText.BlockerText.constructor | src/blocker/operations.rs:22-24 | the stack holds the given content |
| BlockerText.BlockerText.Add | src/blocker/operations.rs:75-80 | the content becomes the formatted text with the new line appended; on a format error the content is unchanged and the error is reported |
| BlockerText.BlockerText.Pop | src/blocker/operations.rs:84-111 | returns the removed line and keeps the formatted remainder; without a content line nothing is returned and nothing changes |
| BlockerText.PopTakesCurrent | src/blocker/operations.rs:42-111 | without space-indented comments, pop removes exactly the line current returned and reports none exactly when the stack is empty |
| Sanitize.Cleaned | src/blocker_rewrite.rs:55-71 | the mapped and filtered characters are all letters, digits, '-' or '_', and no more than the input |
| Sanitize.SanitizeTitle | src/open_interactions/files.rs:17-33 | a sanitised title holds only letters, digits, '-' and '_' and has no underscore at either end (same code at src/open/files.rs:16-32 and src/blocker_rewrite.rs:55-71) |
| Sanitize.CleanedAppend | src/open/files.rs:16-32 | cleaning works character by character, distributing over concatenation |
| Sanitize.DroppedChar | src/open/files.rs:24-29 | a character other than a kept one or a space is dropped without trace |
| Sanitize.SpacesBecomeUnderscores | src/open_interactions/files.rs:20-28 | a title made of kept characters and spaces keeps its length through cleaning, each space becoming '_' |
| Sanitize.SanitizeIdempotent | src/open_interactions/files.rs:17-33 | a sanitised title is its own sanitisation |
| BlockerRewrite.CheckboxPrefixes | src/blocker_rewrite.rs:286-308 | a line is a checkbox exactly when it starts with "- [ ] ", "- [x] " or "- [X] ", and is ticked exactly for the two ticked forms |
| BlockerRewrite.OrderedNumber | src/blocker_rewrite.rs:299-305 | an ordered item has digits only before its first ". " |
| BlockerRewrite.ParseItemText | src/blocker_rewrite.rs:311-361 | an entry is found exactly for list-item text, and is completed exactly when it is a ticked checkbox |
| BlockerRewrite.ParseListItem | src/blocker_rewrite.rs:311-361 | parse_list_item finds an entry exactly when is_list_item holds |
| BlockerRewrite.CompletedIffTicked | src/blocker_rewrite.rs:311-361 | an item counts as completed exactly when it starts with "- [x] " or "- [X] " |
| BlockerRewrite.CheckboxEntry | src/blocker_rewrite.rs:311-361 | a checkbox item's text is the rest of the line, ticked unless the box is blank |
| BlockerRewrite.BulletEntry | src/blocker_rewrite.rs:311-361 | a bullet item's text is the rest of the line, and it is open |
| BlockerRewrite.OrderedEntry | src/blocker_rewrite.rs:311-361 | a numbered item "n. text" is an open entry with that text |
| BlockerRewrite.FirstBodyEnd | src/blocker_rewrite.rs:206-238 | the body ends at the first marker line after the title, or at the end of the lines |
| BlockerRewrite.BodyEnd | src/blocker_rewrite.rs:202-238 | the body end lies within the lines and after the title line |
| BlockerRewrite.BodySliceAsWritten | src/blocker_rewrite.rs:243 | as written, the slice exists exactly when there is a line; it then holds the lines after the first up to, not including, the first line that ends the body, and none of its lines ends it |
| BlockerRewrite.EmptyContentSliceAsWritten | src/blocker_rewrite.rs:243 | for empty content no line exists, so the written slice starts past its end and the source panics: the as-written slice is absent |
| BlockerRewrite.Blockers | src/blocker_rewrite.rs:196-283 | the blockers of a file: in the corrected reading, empty content has none; BlockerRewrite.ParseBlockersFromIssue computes them and BlockerRewrite.AllItemsAreBlockers and BlockerRewrite.TrailingTextNoBlockers say which lines they are |
| BlockerRewrite.BodyStopsAtMarker | src/blocker_rewrite.rs:216-236 | nothing after the first sub-issue or comment marker line reaches the body |
| BlockerRewrite.SubIssueLineEndsBody | src/blocker_rewrite.rs:216-220 | a sub-issue marker line ends the body |
| BlockerRewrite.BlockStart | src/blocker_rewrite.rs:253-270 | the final block of list items and blank lines is maximal: nothing after its start is text, and a text line precedes it |
| BlockerRewrite.TrailingTextNoBlockers | src/blocker_rewrite.rs:262-282 | a body ending in a non-list text line has no blockers |
| BlockerRewrite.AllItemsAreBlockers | src/blocker_rewrite.rs:262-282 | a body made only of list items yields one entry per line, in order |
| BlockerRewrite.FindBodyEnd | src/blocker_rewrite.rs:202-238 | the scanning loop finds the body end |
| BlockerRewrite.Classify | src/blocker_rewrite.rs:257-268 | one step of the list scan classifies the trimmed line |
| BlockerRewrite.ScanList | src/blocker_rewrite.rs:251-270 | the scan ends inside a list exactly when the final block holds a list item, and its start yields the same entries as the whole block |
| BlockerRewrite.CollectEntries | src/blocker_rewrite.rs:273-280 | the collecting loop keeps the entries of the list items in order |
| BlockerRewrite.ParseBlockersFromIssue | src/blocker_rewrite.rs:196-283 | the method's result is the entries of the last list block of the body |
| BlockerIo.WorkspaceUrgentFiles | src/blocker/io.rs:731-733 | every workspace's urgent.md and urgent.typ are urgent files |
| BlockerIo.UrgentHasSlash | src/blocker/io.rs:731-733 | an urgent file always lies inside a workspace |
| BlockerIo.FileStem | src/blocker/io.rs:176-183 | the file stem exists exactly when a file name does, and is a non-empty prefix of it |
| BlockerIo.OwnershipHierarchy | src/blocker/io.rs:176-183 | the hierarchy is the project's file stem when fully qualified, and empty otherwise |
| BlockerIo.HierarchyOfProjectFile | src/blocker/io.rs:176-183 | the hierarchy of "workspace/project.md" is the project name |
| BlockerIo.ParseWorkspace | src/blocker/io.rs:193-204 | a path with two or more slashes is an error carrying the count, one without a slash has no workspace |
| BlockerIo.WorkspaceOfPath | src/blocker/io.rs:193-204 | a path "workspace/project" names its workspace |
| BlockerIo.NoWorkspace | src/blocker/io.rs:193-204 | a path without a slash names no workspace |
| BlockerIo.UrgentFlagIff | src/blocker/io.rs:350-356 | only add and open carry the urgent flag, and exactly when it is set |
| BlockerIo.CheckUrgentCreation | src/blocker/io.rs:737-748 | creating an urgent file fails exactly when a different one exists, naming that one |
| BlockerIo.SearchPattern | src/blocker/io.rs:645-694 | the search runs without a ".md" or ".typ" suffix |
| BlockerIo.ExactMatch | src/blocker/io.rs:645-694 | the match picked has exactly the pattern as file name, and none is picked when no match has |
| BlockerIo.ResolveProjectPath | src/blocker/io.rs:645-694 | a pattern with a slash is taken as is; with no match it is an error unless touching; one exact match is taken, otherwise the chooser decides |
| BlockerIo.ExactMatchWins | src/blocker/io.rs:645-694 | a pattern with an extension that names a match's file picks that match |
| BlockerIo.TouchedPatternHasExt | src/blocker/io.rs:645-694 | a touched pattern without a match becomes a new project file with an extension |
| BlockerIo.ProjectState.SetCurrentProject | src/blocker/io.rs:224-279 | a bad path changes nothing; switching away from an existing urgent project to a non-urgent one is refused; switching to urgent saves the previous non-urgent project; otherwise the current project becomes the path |
| IssueError.NewContext | src/issue/error.rs:64-66 | a parse context keeps the content and the file name it was given |
| IssueError.LineSpan | src/issue/error.rs:79-83 | the span of line n starts at that line's offset and is as long as the line; past the last line its length is 0 |
| IssueError.FirstLineOffset | src/issue/error.rs:74-76 | lines 0 and 1 (1-based numbering) both start at offset 0 |
| IssueError.NextLineOffset | src/issue/error.rs:74-76 | each line starts one line break after the end of the line before it |
| IssueError.OffsetPastEnd | src/issue/error.rs:74-76 | past the last line the offset is the width of all lines with their breaks |
| IssueError.SpanIsLine | src/issue/error.rs:79-83 | the span of every existing line lies inside the content and picks out exactly that line |
| IssueTypes.NewLink | src/issue/types.rs:16-29 | a link is made exactly from a github.com URL whose path is owner/repo/issues/number with a u64 number |
| IssueTypes.ParseLink | src/issue/types.rs:32-35 | a parsed link is an issue URL whose text is the input |
| IssueTypes.LinkRoundTrip | src/issue/types.rs:38-55 | the link written for owner, repo and number parses back and its accessors return the same owner, repo and number |
| IssueTypes.CommentId | src/issue/types.rs:78-83 | only a created comment has an id, and it is the comment's id |
| IssueTypes.CommentUser | src/issue/types.rs:86-91 | only a created comment has a user, and it is the comment's user |
| IssueTypes.CommentAccessors | src/issue/types.rs:94-101 | a comment has an id exactly when it has a user, and only a created comment is neither the body nor pending |
| IssueTypes.ToGithubState | src/issue/types.rs:199-204 | the state is "open" exactly when the issue is not closed, otherwise "closed" |
| IssueTypes.ToGithubStateReason | src/issue/types.rs:207-214 | a reason is sent exactly for the closed states |
| IssueTypes.FromGithub | src/issue/types.rs:220-236 | a state other than "closed" reads as open; "closed" with reason not_planned reads as not planned, any other reason as closed; never a duplicate |
| IssueTypes.GithubRoundTrip | src/issue/types.rs:199-236 | every state except a duplicate survives the trip to GitHub's state and reason and back |
| IssueTypes.DuplicateReason | src/issue/types.rs:189-196 | the reason is the duplicate reason exactly when the state is one that should be removed |
| IssueTypes.FromCheckbox | src/issue/types.rs:244-252 | a recognised checkbox content yields a valid state |
| IssueTypes.ToCheckbox | src/issue/types.rs:255-262 | the checkbox text is never empty and holds no closing bracket |
| IssueTypes.CheckboxRoundTrip | src/issue/types.rs:244-262 | reading the checkbox written for a state gives that state back |
| IssueTypes.UpperCheckbox | src/issue/types.rs:244-252 | an upper-case X also reads as closed |
| IssueTypes.UnknownCheckbox | src/issue/types.rs:244-252 | content that is none of the symbols and is not a number is not a state |
| IssueTypes.ParseCheckboxPrefix | src/issue/types.rs:998-1016 | a line is no checkbox exactly when it lacks "- [" or a later "]"; otherwise the content between is either a state with the text after "] ", or reported invalid as it stands; conversely a checkbox read is the line "- [", a content holding no "]" that reads as that state, "] " and the returned rest |
| IssueTypes.CheckboxPrefixRoundTrip | src/issue/types.rs:998-1016 | the checkbox written for a state reads back as that state with the rest of the line |
| IssueTypes.InvalidCheckboxContent | src/issue/types.rs:998-1016 | unrecognised bracket content is reported unchanged |
| IssueTypes.ParseChildTitleLine | src/issue/types.rs:1019-1043 | an invalid checkbox is reported exactly when the checkbox parser reports it, with its content; a line is a child title exactly when its checkbox reads, the text before the first sub marker trims to something non-blank, a `-->` follows when there is a sub marker, and there is no `<!--` at all when there is none |
| IssueTypes.SubChildTitle | src/issue/types.rs:1019-1043 | a checkbox line with a non-blank title before a sub marker is a child title with that title |
| IssueTypes.PlainChildTitle | src/issue/types.rs:1019-1043 | a checkbox line whose rest is a plain non-blank title is a child title |
| IssueTypes.BlankChildTitle | src/issue/types.rs:1019-1043 | a checkbox line whose rest is blank is not a child title |
| IssueTypes.ParseIdentityInfo | src/issue/types.rs:953-976 | only non-blank text is an identity; a linked identity has a user without spaces and a valid issue link |
| IssueTypes.IdentityRoundTrip | src/issue/types.rs:431-436 | the identity text written by encode parses back to the same identity |
| IssueTypes.LocalIdentity | src/issue/types.rs:953-976 | text after "local:" is always a local path, whatever it holds |
| IssueTypes.ParseCommentIdentity | src/issue/types.rs:980-995 | never the body; a created comment has a user without spaces and a u64 id; anything else is pending |
| IssueTypes.CommentIdentityRoundTrip | src/issue/types.rs:980-995 | the comment marker text written for a comment reads back as that created comment |
| IssueTypes.RootAncestry | src/issue/types.rs:454-460 | a root ancestry has the owner and repo and an empty lineage |
| IssueTypes.ChildAncestry | src/issue/types.rs:463-471 | a child keeps owner and repo and its lineage is the parent's lineage with the parent number appended |
| IssueTypes.ChildLineage | src/issue/types.rs:308-312 | a child's lineage is one longer than the parent's: the parent's ancestry lineage, then the parent's own number last |
| IssueTypes.ChildLineageIsChildAncestry | src/issue/types.rs:308-312 | the lineage from the linked metadata agrees with the lineage from the ancestry |
| IssueTypes.DescendantAncestry | src/issue/types.rs:463-471 | descending through a path of parents keeps owner and repo and appends the whole path |
| IssueTypes.GetChildMut | src/issue/types.rs:1275-1284 | the method's walk finds exactly the node the index path names, and nothing when an index is out of range |
| IssueTypes.NoneExtends | src/issue/types.rs:1275-1284 | a path that leaves the tree stays outside it whatever follows |
| IssueTypes.ChildAtBounds | src/issue/types.rs:1275-1284 | the empty path names the issue itself; an index past the children names nothing |
| IssueTypes.LabelList | src/issue/types.rs:909 | labels are the trimmed, non-empty comma-separated parts |
| IssueTypes.OverlappingMarkerAsWritten | src/issue/types.rs:919-931 | as written, a title line ending in `<!-->` passes the marker-order test and would slice with the end before the start |
| IssueTypes.ParseTitleLine | src/issue/types.rs:885-948 | with the marker order test corrected: a line without a checkbox is an invalid title, unrecognised checkbox content is reported as it stands, a parsed title line has the checkbox's state and a trimmed title, and a `-->` overlapping the `<!--` is a malformed marker |
| Sink.Number | src/issue/types.rs:373-375 | only a linked issue has a number, and it is the link's number |
| Sink.UrlStr | src/issue/types.rs:378-380 | only a linked issue has a URL, and it is the link's URL |
| Sink.HasChanges | src/open_interactions/sink.rs:73-83 | a diff has changes exactly when it differs from the empty diff |
| Sink.StepSize | src/open_interactions/sink.rs:128-144 | each step of the iterator takes exactly one node out of the queued subtrees |
| Sink.HorizontalIter.constructor | src/open_interactions/sink.rs:114-122 | the queue holds the root alone, with the empty path and no parent number |
| Sink.HorizontalIter.Next | src/open_interactions/sink.rs:128-144 | pops the front node and queues its children with their extended paths and the popped node's number as parent number; an empty queue yields nothing |
| Sink.DrainStep | src/open_interactions/sink.rs:128-144 | draining yields the front node first, then what the step leaves |
| Sink.DrainPlaced | src/open_interactions/sink.rs:128-144 | every node drained from a queue of placed nodes sits where its path says |
| Sink.DrainLayered | src/open_interactions/sink.rs:128-144 | draining a level-ordered queue never goes back up a level |
| Sink.DrainCovers | src/open_interactions/sink.rs:128-144 | every node below a queued node is eventually yielded with its full path |
| Sink.DrainCount | src/open_interactions/sink.rs:128-144 | draining yields one node per node of the queued subtrees |
| Sink.TraversalShape | src/open_interactions/sink.rs:160-162 | the traversal yields the root first, every node where its path says, level by level, as many nodes as the tree has |
| Sink.TraversalComplete | src/open_interactions/sink.rs:160-162 | every node of the tree is yielded with its path |
| Sink.CollectHorizontal | src/open_interactions/sink.rs:160-162 | running the iterator until it is empty yields exactly the traversal |
| Sink.TraversalPlaced | src/open_interactions/sink.rs:160-162 | every yielded node sits where its path says |
| Sink.IssuesAtLevelExact | src/open_interactions/sink.rs:164-166 | the nodes at level l are exactly the tree's nodes at depth l, each where its path says |
| Sink.MaxDepthIsDeepest | src/open_interactions/sink.rs:168-170 | the maximum depth bounds every path in the tree and is reached by one; a lone root has depth 0 |
| Sink.FindOldNode | src/open_interactions/sink.rs:269-279 | following the index path gives exactly the node the path names, none once an index is out of range |
| Sink.FindOldByIdentity | src/open_interactions/sink.rs:283-292 | a pending identity finds nothing; otherwise the first node in breadth-first order with the same URL |
| Sink.FoundByIdentity | src/open_interactions/sink.rs:283-292 | what is found is a node of the tree with that URL; when nothing is found, no node of the tree has that URL |
| Sink.Collect | src/open_interactions/sink.rs:431-443 | the method appends to the list exactly the pending paths below the node |
| Sink.CollectPendingIssuesAtLevel | src/open_interactions/sink.rs:427-447 | the method returns the pending paths of the whole tree at the level |
| Sink.PendingPathsSound | src/open_interactions/sink.rs:427-447 | every gathered path extends the prefix, has the target length and leads to a pending node |
| Sink.PendingPathsComplete | src/open_interactions/sink.rs:427-447 | every pending node at the target length below the prefix is gathered |
| Sink.PendingAtLevelExact | src/open_interactions/sink.rs:427-447 | the gathered paths are exactly the paths of the target length that lead to a pending node |
| Sink.ReplaceAt | src/open_interactions/sink.rs:450-459 | a write through a path succeeds exactly when the path names a node |
| Sink.ReplaceThenGet | src/open_interactions/sink.rs:450-459 | what was written through a path is what the path then names |
| Sink.GetThenReplace | src/open_interactions/sink.rs:450-459 | writing back the node a path names leaves the tree unchanged |
| Sink.ReplaceTwice | src/open_interactions/sink.rs:450-459 | of two writes through the same path, the second wins |
| Sink.IssuesEqual | src/open_interactions/sink.rs:605-627 | two trees compare equal exactly when they are the same tree |
| Sink.CommentMapKeys | src/open_interactions/sink.rs:200-266 | the keys of the old comment map are exactly the ids of the old comments |
| Sink.CommentMapUnique | src/open_interactions/sink.rs:200-266 | with distinct ids, each comment is what the map holds for its id |
| Sink.Updates | src/open_interactions/sink.rs:200-266 | the updates are exactly the comments on GitHub whose text differs from the old comment with their id |
| Sink.ComputeNodeDiff | src/open_interactions/sink.rs:183-266 | the method's diff is the diff defined for the new and old node |
| Sink.SelfDiffNoChanges | src/open_interactions/sink.rs:183-266 | a node diffed against itself has no changes when it holds no new comment with text, no pending child and no two comments with one id |
| Sink.UpdatesNone | src/open_interactions/sink.rs:200-266 | when every comment matches the old text for its id, nothing is updated |
| Sink.SelfDiffDuplicateIds | src/open_interactions/sink.rs:200-266 | two comments with one id and different text make a node differ from itself |
| Sink.DiffWithoutExisting | src/open_interactions/sink.rs:186-199 | without an old state only the pending later comments and the pending children are collected |
| Sink.DiffAgainstExisting | src/open_interactions/sink.rs:200-266 | against an old state, body and state changes are flagged, new comments with text are created, changed comments updated, vanished ones deleted, pending children created |
| Github.OriginalComments | src/github.rs:49-51 | each stored comment keeps the id and body of the fetched comment, in order |
| Github.OriginalSubIssues | src/github.rs:61-66 | each stored sub-issue keeps the number and state of the fetched one, in order |
| Github.ParseGithubIssueUrl | src/github.rs:82-121 | the trimmed text is refused in both SSH forms, and otherwise yields owner and repo without slashes and a u64 number |
| Github.ParseTrimmed | src/github.rs:82-121 | the SSH forms are reported with the path that follows them, other texts go to the path reader |
| Github.ParsePath | src/github.rs:82-121 | owner, repo and a u64 number come from a path owner/repo/issues/N; any other path is an error |
| Github.ParsedContainsMarkers | src/github.rs:124-127 | a text that parses as an issue URL also passes the github.com and /issues/ test |
| Github.ExtractIssueNumber | src/open/issue.rs:574 | stand-in for the helper called here but not defined in the source (see "## Left out"): a number is found exactly when the URL parses as an issue URL, and it is the parsed number |
| Github.IssueUrlRoundTrip | src/github.rs:82-121 | every issue URL written for owner, repo and number parses back to them |
| Github.PullUrlRejected | src/github.rs:82-121 | a pull-request URL is not an issue URL |
| Github.NotIssuesRejected | src/github.rs:82-121 | a path whose third part is not "issues" is refused |
| OpenIssue.Body | src/open/issue.rs:106-117 | the body sent to GitHub starts with the first comment's body; without blockers it is exactly that, otherwise the blockers section follows under its heading |
| OpenIssue.ParseCheckboxPrefix | src/open/issue.rs:387-398 | a state and the rest come back exactly when the detailed checkbox parser recognises the line |
| OpenIssue.CheckboxPrefixRoundTrip | src/open/issue.rs:387-398 | the checkbox the serialiser writes reads back as its state with the text after it |
| OpenIssue.ParseTitleLine | src/open/issue.rs:338-384 | with the marker order test corrected: a line without a checkbox or without a marker is an error; a parsed title line has a trimmed title, its URL and ownership and non-empty labels |
| OpenIssue.TitleLineRoundTrip | src/open/issue.rs:338-384 | every title line the serialiser writes parses back to the same metadata and labels |
| OpenIssue.LabelsRoundTrip | src/open/issue.rs:338-384 | the label list written before a title reads back, with the title after it |
| OpenIssue.LabelListOfJoin | src/open/issue.rs:338-384 | splitting the joined labels at commas and trimming the pieces gives the labels back |
| OpenIssue.MarkerRoundTrip | src/open/issue.rs:338-384 | the marker part of a written title line reads back to its title, URL and ownership |
| OpenIssue.OverlappingTitleRejected | src/open/issue.rs:359-371 | a title line whose closing `-->` overlaps its `<!--` is reported as a malformed marker |
| OpenIssue.ParseChildTitleLine | src/open/issue.rs:402-431 | a sub-issue line has a checkbox whose state it takes, and is owned with a trimmed title; without a URL its title is non-blank and the rest holds no `<!--`; with a URL, the URL is trimmed and the rest holds the sub marker |
| OpenIssue.ArrowBeforeSubAsWritten | src/open/issue.rs:402-431 | as written, a sub-issue line with a `-->` before its sub marker slices with the end before the start |
| OpenIssue.ArrowBeforeSubRejected | src/open/issue.rs:402-431 | with the `-->` searched after the sub marker, that line is not a sub-issue line |
| OpenIssue.ChildTitleLineRoundTrip | src/open/issue.rs:402-431 | every sub-issue line the serialiser writes reads back to its metadata, as owned |
| OpenIssue.StateOf | src/open/issue.rs:632-704 | "closed" reads as closed and every other state as open |
| OpenIssue.GithubComments | src/open/issue.rs:632-704 | each fetched comment keeps its id and text, in order, owned exactly when the current user wrote it |
| OpenIssue.GithubChild | src/open/issue.rs:632-704 | a fetched sub-issue becomes a leaf child with its URL, state and labels, its non-empty body as the only comment |
| OpenIssue.FromGithub | src/open/issue.rs:632-704 | the issue has the fetched title and labels, its canonical URL, closed-ness exactly when GitHub says "closed", is owned when the current user opened it; its body is the first comment and each fetched comment follows in order with its id, body and ownership; each sub-issue becomes a leaf child in order with its title, URL, state, ownership and labels, holding its body as its only comment unless that body is empty; no blockers |
| OpenIssue.FromGithubBody | src/open/issue.rs:632-704 | the body an issue built from GitHub sends back is the body it was built from |
| OpenIssue.FromGithubUrl | src/open/issue.rs:632-704 | the URL of an issue built from GitHub parses back to its owner, repository and number |
| OpenIssue.FromMeta | src/open/issue.rs:711-768 | the stored issue is owned, without labels or blockers, with the stored comments and its sub-issues reduced to URL and state |
| OpenIssue.Equal | src/open/issue.rs:775-815 | two issues are equal exactly when state, body, later comments and sub-issue URLs and states agree; titles, labels, ownership and blockers are ignored |
| OpenIssue.FromMetaMatchesFromGithub | src/open/issue.rs:632-815 | an issue rebuilt from the state stored at a fetch equals the issue built from that fetch, whoever the current user is |
| OpenIssue.EqualSeesComments | src/open/issue.rs:775-815 | two issues that differ in state, body or a later comment are not equal |
| OpenIssue.GetChildMut | src/open/issue.rs:613-622 | the method's walk finds exactly the sub-issue the index path names, and nothing when an index is out of range |
| OpenIssue.NoneBelow | src/open/issue.rs:613-622 | a path that leaves the tree stays outside it whatever follows |
| OpenIssue.ReplaceAtFound | src/open/issue.rs:613-622 | a sub-issue written through a path is found there, and nothing changes when the path leads nowhere |
| OpenIssue.ReplaceAtKeepsRoot | src/open/issue.rs:613-622 | a write through a path leaves the root's own fields and its number of children alone |
| OpenIssueSerialize.Indent | src/open/issue.rs:439-539 | the indentation for depth n is n tabs |
| OpenIssueSerialize.PushComments | src/open/issue.rs:439-539 | the comments loop appends what the comment fold defines, every comment after the body in order |
| OpenIssueSerialize.PushChildren | src/open/issue.rs:439-539 | the sub-issues loop appends what the sub-issue fold defines |
| OpenIssueSerialize.SerializeAtDepth | src/open/issue.rs:439-539 | the method pushes exactly the lines the serialisation defines for the issue at the depth |
| OpenIssueSerialize.Serialize | src/open/issue.rs:434-436 | the text is the depth-0 lines joined, and it starts with the issue's title line |
| OpenIssueSerialize.ContentIndented | src/open/issue.rs:439-539 | every line after the title line is indented one level deeper than the title, so the whole text belongs to the issue when read back |
| OpenIssueSerialize.ClosedChildOmitted | src/open/issue.rs:439-539 | a closed sub-issue is written as its line and the omitted marker, never with its body |
| OpenIssueSerialize.TextLines | src/open/issue.rs:434-436 | read back line by line, the text gives the lines written when none holds a line break |
| OpenIssueParse.ReadChildBody | src/open/issue.rs:130-333 | the loop reading the lines under a sub-issue stops where they end and returns them stripped of their indentation |
| OpenIssueParse.PopTrailingEmpty | src/open/issue.rs:130-333 | the loop drops exactly the trailing empty lines |
| OpenIssueParse.StepLine | src/open/issue.rs:130-333 | one turn of the parser's loop does what the step function defines |
| OpenIssueParse.ParseAtDepth | src/open/issue.rs:130-333 | the method returns what the parse specification gives: an empty file and a bad first-line indentation are errors, otherwise the title line and the walk over the lines below it |
| OpenIssueParse.ParseSpec | src/open/issue.rs:130-333 | no lines is an empty-file error; a first line without the depth's indentation is an indentation error; a parsed issue reads at least its title line and stops at the end or at the first line that closes the issue at its depth, and the sub-issues it collects are leaves |
| OpenIssueParse.Parse | src/open/issue.rs:121-126 | the content with its indentation normalised is read from depth 0 and line 1 |
| OpenIssueParse.DepthZeroReadsAll | src/open/issue.rs:130-333 | at depth 0 the whole file is read |
| OpenIssueParse.TitleReadBack | src/open/issue.rs:130-384 | whatever follows it, a written title line reads back as the metadata and labels written |
| OpenIssueParse.BodyRoundTrip | src/open/issue.rs:130-539 | an issue with a title and a plain body reads back from its written lines as that title and body, with nothing left over |
| OpenIssueActions.PadLevels | src/open/issue.rs:565-610 | the padding loop gives at least depth+1 levels and keeps the existing ones |
| OpenIssueActions.ActionFor | src/open/issue.rs:565-610 | the loop body picks the action defined for the sub-issue: create one without URL, update a fetched one whose state changed, nothing otherwise |
| OpenIssueActions.CollectActionsRecursive | src/open/issue.rs:565-610 | the method returns the levels the recursive collection defines |
| OpenIssueActions.CollectActions | src/open/issue.rs:544-562 | (src/open_interactions/github_sync.rs:27-45 has the same walk) the method returns the action levels the specification defines, reading issue numbers from URLs; OpenIssueActions.CollectActionsSound and OpenIssueActions.CollectActionsComplete state what those levels hold |
| OpenIssueActions.CollectSound | src/open/issue.rs:565-610 | every action the walk adds names a sub-issue at its path and depth, and only the actions its state calls for |
| OpenIssueActions.CollectActionsSound | src/open/issue.rs:544-610 | every action returned for an issue with a URL is sound: creations name URL-less sub-issues at their depth, updates change a fetched sub-issue's state; completeness is OpenIssueActions.CollectActionsComplete |
| OpenIssueActions.NewRootAlone | src/open/issue.rs:544-562 | a root without a URL yields one creation alone, nothing for its sub-issues |
| OpenIssueActions.CollectChildrenExtends | src/open/issue.rs:565-610 | running the loop further only appends to the levels |
| OpenIssueActions.CollectExtends | src/open/issue.rs:565-610 | the recursive walk only appends: no level is lost and no action already collected is dropped or changed |
| OpenIssueActions.ActionAtIsChildAction | src/open/issue.rs:565-610 | the action found by walking an index path from the front is the action the sub-issue at that path calls for under its parent |
| OpenIssueActions.HereEmitted | src/open/issue.rs:579-606 | whatever action an issue's own sub-issue calls for is in the walk's result at the issue's depth |
| OpenIssueActions.CollectComplete | src/open/issue.rs:565-610 | completeness of the walk: every action any sub-issue below the starting issue calls for is in the result, at its parent's depth |
| OpenIssueActions.CollectActionsComplete | src/open/issue.rs:544-610 | for a root with a URL, every sub-issue at any depth that calls for an action gets it, at the level of its parent's depth |
| OpenIssueActions.ChangedStateUpdated | src/open/issue.rs:590-604 | a fetched sub-issue at any depth whose closed-ness differs from the fetched state gets an UpdateIssueState with its new state at its parent's level |
| OpenIssueActions.NewDescendantCreated | src/open/issue.rs:580-589 | a URL-less sub-issue at any depth under a parent whose URL has an issue number gets a CreateIssue with its path, title and state at its parent's level |
| OpenIssueActions.NewChildCreated | src/open/issue.rs:565-610 | a new sub-issue of a root with an issue number is created at level 0 under that number |
| OpenIssueActions.LeafNeedsNothing | src/open/issue.rs:544-562 | a root with a URL and no sub-issues needs nothing: one empty level |
| MergeTree.ContentEqEquivalence | src/open_interactions/tree.rs:195-221 | node content equality is reflexive, symmetric and transitive |
| MergeTree.ContentIgnoresShape | src/open_interactions/tree.rs:195-221 | title, URL, ownership, sub-issues and timestamp do not take part in node content |
| MergeTree.ContentSeesComments | src/open_interactions/tree.rs:208-213 | a later comment with different text makes the contents differ |
| MergeTree.CompareNode | src/open_interactions/tree.rs:156-192 | an auto-resolution needs two distinct timestamps and takes the newer side; a conflict only when timestamps are missing or equal |
| MergeTree.FirstSyncTable | src/open_interactions/tree.rs:158-168 | without consensus: no change iff equal contents; never LocalOnly or RemoteOnly |
| MergeTree.ConsensusTable | src/open_interactions/tree.rs:171-191 | with consensus: (local changed, remote changed) decides NoChange / LocalOnly / RemoteOnly / timestamp resolution, both directions |
| MergeTree.CompareSymmetric | src/open_interactions/tree.rs:156-192 | swapping local and remote mirrors the resolution |
| MergeTree.ApplyRemote | src/open_interactions/tree.rs:354-371 | the result has the remote close state, labels, timestamp and (both bodies present) remote node content; title, URL, children and the body's id and ownership stay |
| MergeTree.ApplyRemoteIdempotent | src/open_interactions/tree.rs:354-371 | applying the remote content twice equals applying it once (local body present) |
| MergeTree.ApplyRemoteNodeContent | src/open_interactions/tree.rs:354-371 | the in-place steps compute ApplyRemote |
| MergeTree.UrlMapValue | src/open_interactions/tree.rs:315-321 | a URL map entry is one of the children, with that URL |
| MergeTree.UrlMapHas | src/open_interactions/tree.rs:315-321 | every child URL is a key of the map |
| MergeTree.NewRemote | src/open_interactions/tree.rs:343-350 | every appended child is a remote child whose URL is not a local child's |
| MergeTree.NewRemoteComplete | src/open_interactions/tree.rs:343-350 | every remote URL missing locally brings its remote child |
| MergeTree.NewRemoteOfSame | src/open_interactions/tree.rs:343-350 | identical child lists bring nothing new |
| MergeTree.BuildUrlMap | src/open_interactions/tree.rs:315-321 | the map collected by the loop is the last-wins URL map |
| MergeTree.ResolveNode | src/open_interactions/tree.rs:282-311 | the match on the resolution computes the node step |
| MergeTree.ResolveChildrenInPlace | src/open_interactions/tree.rs:323-341 | the in-place loop over children computes the children specification |
| MergeTree.AppendNewRemote | src/open_interactions/tree.rs:343-350 | appends exactly the new remote children and sets local_needs_update iff any |
| MergeTree.ResolveTreeRecursive | src/open_interactions/tree.rs:270-351 | the recursive method computes Resolve |
| MergeTree.ResolveTree | src/open_interactions/tree.rs:242-268 | resolve_tree computes ResolveTreeSpec |
| MergeTree.ResolveGrows | src/open_interactions/tree.rs:270-351 | the walk only sets flags and appends conflict paths, keeping has_conflicts consistent |
| MergeTree.TreeConflictsIff | src/open_interactions/tree.rs:242-268 | has_conflicts iff conflict_paths is non-empty |
| MergeTree.ConflictRecorded | src/open_interactions/tree.rs:307-310 | a Conflict node's path is recorded and has_conflicts set |
| MergeTree.ChildConflictKept | src/open_interactions/tree.rs:333-340 | conflict paths recorded in a sub-issue survive in the parent's result |
| MergeTree.NodeOutcome | src/open_interactions/tree.rs:284-306 | RemoteOnly / remote-newer apply remote content and set local_needs_update; LocalOnly / local-newer keep the node and set remote_needs_update |
| MergeTree.ResolvedChildren | src/open_interactions/tree.rs:323-350 | children keep their place and URLs; appended ones are remote children absent locally, and each such remote URL is appended with local_needs_update |
| MergeTree.IdenticalUnchanged | src/open_interactions/tree.rs:270-351 | identical local and remote with equal or no consensus change nothing |
| MergeTree.IdenticalTreesNoFlags | src/open_interactions/tree.rs:242-268 | resolve_tree on identical trees returns the tree with all flags false |
| GithubSync.SyncChildren | src/open_interactions/github_sync.rs:79-101 | one child per sub-issue, in input order |
| GithubSync.FromGithub | src/open_interactions/github_sync.rs:47-110 | canonical URL, owned iff login matches, closed iff "closed", body first then comments with ids in order, one leaf child per sub-issue with exactly one body comment |
| GithubSync.FromGithubGenerations | src/open_interactions/github_sync.rs:79-101 | differs from the src/open/issue.rs construction only in sub-issues with an empty body |
| GithubSync.FromGithubSameKey | src/open_interactions/github_sync.rs:47-110 | both generations give equal divergence keys |
| GithubSync.FromMetaMatchesFetch | src/open_interactions/github_sync.rs:112-170 | from_meta of the state stored at a fetch equals, as PartialEq compares, from_github of that fetch |
| CommentSync.Plan | src/open_interactions/sync.rs:129-215 | a lenient run never fails, and a run that succeeds reports whether closed-ness changed |
| CommentSync.KnownBody | src/open_interactions/sync.rs:176-177 | the text of the first known comment with the id, empty when the id is unknown |
| CommentSync.KnownBodyOf | src/open_interactions/sync.rs:176-177 | with distinct ids, the text found under a comment's id is that comment's |
| CommentSync.HeadCalls | src/open_interactions/sync.rs:135-156 | only state and body updates are issued before the comments |
| CommentSync.Deletes | src/open_interactions/sync.rs:162-171 | every deletion names a known id the file no longer holds |
| CommentSync.Pushes | src/open_interactions/sync.rs:173-197 | the comment loop only updates or creates comments, and a lenient run never stops |
| CommentSync.StateUpdateIff | src/open_interactions/sync.rs:135-144 | a state update with the new GitHub state is sent iff closed-ness changed, and the result reports exactly that |
| CommentSync.BodyUpdateIff | src/open_interactions/sync.rs:146-156 | a body update with the new body is sent iff the body differs |
| CommentSync.DeletesExactly | src/open_interactions/sync.rs:162-171 | the deletion loop deletes an id iff it is known and absent from the file |
| CommentSync.DeletedIff | src/open_interactions/sync.rs:159-171 | over the whole run, a comment is deleted iff its id is known and absent from the file's later comments |
| CommentSync.UnchangedNotTouched | src/open_interactions/sync.rs:162-186 | a comment kept with its known text is neither deleted nor updated |
| CommentSync.Owned | src/open_interactions/sync.rs:175-177 | the owned comments of a list, each from the list |
| CommentSync.NotOwnedSilent | src/open_interactions/sync.rs:175-177 | dropping the non-owned comments leaves the calls and the outcome unchanged |
| CommentSync.MismatchIff | src/open_interactions/sync.rs:187-189 | a strict run fails iff some owned comment has an unknown id, and it reports the first such id |
| CommentSync.PushesOnlyChanges | src/open_interactions/sync.rs:178-195 | every update carries an owned comment's changed text under a known id; every creation carries a new non-empty owned comment |
| CommentSync.PushesComplete | src/open_interactions/sync.rs:178-195 | unless the run stopped, every owned comment that needs an update or a creation gets it |
| CommentSync.SyncedSendsNothing | src/open_interactions/sync.rs:129-215 | a file equal to the known state sends no call and returns Ok(false) |
| CommentSync.NoDeletes | src/open_interactions/sync.rs:162-171 | nothing is deleted when every known id is still present |
| CommentSync.MatchingPushes | src/open_interactions/sync.rs:173-197 | comments equal to the known ones send nothing |
| OiSync.SyncOptions.constructor | src/open_interactions/sync.rs:67-72 | stores the merge mode and the pull flag |
| OiSync.SyncOptions.TakeMergeMode | src/open_interactions/sync.rs:76-78 | returns the stored mode or Normal, and leaves nothing stored |
| OiSync.SyncOptions.PeekMergeMode | src/open_interactions/sync.rs:81-83 | returns the mode a take would return without consuming it |
| OiSync.TakeTwice | src/open_interactions/sync.rs:53-56 | the second take of a mode is Normal |
| OiSync.ApplyMergeMode | src/open_interactions/sync.rs:278-350 | hands over to git iff the mode is Normal and the resolution has conflicts; otherwise never asks to update both sides when there are conflicts |
| OiSync.ResetIgnoresHistory | src/open_interactions/sync.rs:332-348 | Reset{Local} gives (local, false, true), Reset{Remote} gives (remote, true, false), whatever the consensus |
| OiSync.ForceWithoutConflicts | src/open_interactions/sync.rs:311-330 | without conflicts Force gives the same as Normal |
| OiSync.ForceWithConflicts | src/open_interactions/sync.rs:311-326 | with conflicts Force gives the same as Reset and never hands over to git |
| OiSync.IdenticalSidesNoWork | src/open_interactions/sync.rs:292-330 | equal local and remote trees give (tree, false, false) in Normal and Force mode |
| OiSync.ConsensusKnown | src/open_interactions/sync.rs:160 | the known ids are exactly the ids of the consensus comments |
| OiSync.ConsensusBody | src/open_interactions/sync.rs:176-177 | the known text under an id is that of the first consensus comment with it |
| OiSync.KnownBodyAppend | src/open_interactions/sync.rs:176-177 | a later known comment cannot change the text found under an earlier id |
| OiSync.CollectIds | src/open_interactions/sync.rs:159-160 | collects exactly the ids of the comments |
| OiSync.PushesStopped | src/open_interactions/sync.rs:187-189 | after an IdMismatch no further comment produces a call |
| OiSync.DeleteRemoved | src/open_interactions/sync.rs:162-171 | the deletion loop issues exactly the deletions of the specification |
| OiSync.PushComments | src/open_interactions/sync.rs:173-197 | the update-and-create loop issues exactly the calls of the specification and stops at the first unknown id |
| OiSync.SyncLocalIssueToGithub | src/open_interactions/sync.rs:129-215 | issues exactly the planned calls in order and returns the state change or IdMismatch |
| OiSync.KeptCommentUntouched | src/open_interactions/sync.rs:162-186 | a consensus comment the file keeps unchanged is neither deleted nor updated |
| OiSync.RunAction | src/open_interactions/sync.rs:226-265 | one action as the specification step |
| OiSync.ExecuteIssueActions | src/open_interactions/sync.rs:219-271 | runs every action of every level in order, and the count equals the number of actions |
| OiSync.ExecCounts | src/open_interactions/sync.rs:258-264 | every action counts once and every creation consumes one client answer |
| OiSync.CreatesIn | src/open_interactions/sync.rs:228 | the creations among the actions |
| OiSync.ChildUrlSet | src/open_interactions/sync.rs:249-254 | creating a sub-issue at an existing path writes the new URL into that node and leaves the root's metadata alone |
| OiSync.NewRootPublished | src/open_interactions/sync.rs:228-258 | the actions for a tree without URL create only the root, return its number and write its URL |
| OpenSync.OriginalKnown | src/open/sync.rs:51-67 | one known comment per stored original comment, absent text read as empty |
| OpenSync.OriginalIds | src/open/sync.rs:51 | collects exactly the original ids |
| OpenSync.DeleteRemoved | src/open/sync.rs:54-60 | the deletion loop issues exactly the deletions of the specification |
| OpenSync.PushComments | src/open/sync.rs:63-86 | the update-and-create loop issues exactly the specified calls, skipping unknown ids |
| OpenSync.SyncLocalIssueToGithub | src/open/sync.rs:19-104 | issues exactly the planned calls in order and returns whether closed-ness changed |
| OpenSync.StateChangedIff | src/open/sync.rs:25-35 | returns true iff closed-ness differs from the stored state, and exactly then a state update is sent |
| OpenSync.BodyUpdatedIff | src/open/sync.rs:37-47 | a body update is sent iff the body differs from the stored one, absent read as empty |
| OpenSync.DeletedIff | src/open/sync.rs:53-60 | a comment is deleted iff its id is among the originals and absent from the file |
| OpenSync.OriginalIdsIff | src/open/sync.rs:51 | an id is known iff some original comment has it |
| OpenSync.LenientAndOwnedOnly | src/open/sync.rs:63-80 | an unknown id never fails the sync, and non-owned comments never produce a call |
| OpenSync.RunAction | src/open/sync.rs:115-145 | one action as the specification step |
| OpenSync.RunLevel | src/open/sync.rs:112-146 | one level's actions in order |
| OpenSync.ExecuteIssueActions | src/open/sync.rs:107-151 | runs every action of every level in order and returns their number |
| OpenSync.ExecCounts | src/open/sync.rs:138-144 | every action counts once |
| OpenSync.CreatedUrlWritten | src/open/sync.rs:121-136 | a created sub-issue is linked to its parent and its URL is written into the node at its path |
| OpenLine.ParseCheckboxPrefixIsSpec | src/open/line.rs:156-178 | the checkbox prefix reads `- [ ] ` as open; `- [x] `, `- [X] `, `- [-] ` and `- [<digits>] ` (the bracket closed at the first `] `) as closed; anything else is not a checkbox |
| OpenLine.CheckboxForms | src/open/line.rs:157-168 | each of the four fixed boxes yields its checked state and exactly the rest of the line |
| OpenLine.DuplicateBox | src/open/line.rs:170-177 | a bracket holding only digits (a duplicate reference, even an empty one) is a closed box followed by the rest of the line |
| OpenLine.CheckboxNeedsBracket | src/open/line.rs:156-178 | a line not starting with `- [` is never a checkbox |
| OpenLine.TrailingHtml | src/open/line.rs:182-189 | a split found there starts at the last `<!--`, the line ends with `-->`, and the tail decodes as the returned marker |
| OpenLine.TrailingTyp | src/open/line.rs:191-198 | for typst only, a split found there starts at the last ` // ` and the tail after the space decodes as the returned marker |
| OpenLine.ExtractTrailingMarker | src/open/line.rs:180-201 | without a marker the text is returned whole; with one, the text is a prefix of the input and the remaining tail is an HTML comment or (typst) a ` // ` line that decodes as that marker |
| OpenLine.Item | src/open/line.rs:92-114 | an item keeps its indentation, kind and raw line, and its text is trimmed |
| OpenLine.Plain | src/open/line.rs:117-150 | a non-item line is a header, a comment or text, carries no marker, and only a comment is one level deeper than its tabs |
| OpenLine.Content | src/open/line.rs:91-150 | a non-blank, non-marker line is a checkbox exactly when its box reads as one (with that checked state), a list item exactly when it is no checkbox and starts with `- `, and item texts are trimmed |
| OpenLine.Parse | src/open/line.rs:64-151 | the raw line is kept; the indentation is the leading tabs (plus one for a comment); a line is blank exactly when what follows the tabs is whitespace, and a marker line exactly when it is not blank and decodes as a marker (with FileMarker.DecodeFixed), carrying that marker |
| OpenLine.ParseMdAsWritten | src/open/line.rs:78-90 | for a markdown line the model agrees with the program's own decoder: a marker line exactly when it is not blank and FileMarker.Decode reads a marker, carrying that marker |
| OpenLine.BlockerContentIsNoMarker | src/open/line.rs:204-206 | a header, list item or checkbox line is never blank nor a marker, and is a checkbox exactly when its box reads as one |
| OpenLine.KindsOfLines | src/open/line.rs:209-221 | a blank line is neither blocker content nor the blockers marker; a comment line is one level deeper than its tabs and carries no marker |
| OpenLine.ItemLineRoundTrip | src/open/line.rs:64-201 | a rendered markdown item line (tabs, box, title, space, HTML marker) reads back as a checkbox of that depth, state, title and marker |
| OpenLine.ParseLines | src/open/line.rs:225-227 | one parsed line per line of the text, in order, each keeping its raw text |
| OpenFormat.FilterBody | src/open/format.rs:53-68 | at most as many lines are kept as were read, and every kept line is one of the body's lines and never a sub-issue's checkbox line |
| OpenFormat.WithComments | src/open/format.rs:79-113 | writing comments only appends: the lines written before them are kept as a prefix |
| OpenFormat.WithSubIssues | src/open/format.rs:118-153 | writing sub-issues only appends: the lines written before them are kept as a prefix |
| OpenFormat.Format | src/open/format.rs:13-32 | the first line of every file is the issue's title line |
| OpenFormat.PushLines | src/open/format.rs:149-151 | appends each line behind the prefix, in order |
| OpenFormat.PushBody | src/open/format.rs:42-76 | the body loop with its skip flag appends exactly the filtered body lines, indented |
| OpenFormat.PushComment | src/open/format.rs:80-112 | appends one comment's block: spacer, marker line, indented body |
| OpenFormat.PushSpacer | src/open/format.rs:84-86 | appends a tab line in markdown exactly when the last line has text |
| OpenFormat.PushSubIssue | src/open/format.rs:119-152 | appends one sub-issue's block: spacer, checkbox line, then the omitted marker or its body |
| OpenFormat.PushComments | src/open/format.rs:79-113 | the comment loop appends the blocks of all comments in order |
| OpenFormat.PushSubIssues | src/open/format.rs:118-153 | the sub-issue loop appends the blocks of all sub-issues in order |
| OpenFormat.FormatIssue | src/open/format.rs:13-156 | the rendered lines are the title, then the omitted marker alone or body, comments and sub-issues |
| OpenFormat.ClosedIsCollapsed | src/open/format.rs:35-38 | a closed issue without render-closed is exactly two lines, title and omitted marker, whatever its body, comments and sub-issues |
| OpenFormat.SectionsInOrder | src/open/format.rs:40-153 | otherwise title and body come first, the comments' blocks next and the sub-issues' blocks last |
| OpenFormat.CommentLinesCount | src/open/format.rs:79-113 | in typst each comment adds one marker line plus its body lines |
| OpenFormat.NoSubIssuesKeepsBody | src/open/format.rs:53-75 | when no line is a sub-issue's checkbox, every body line is kept and no skip is pending |
| OpenFormat.NoSubIssuesNoItem | src/open/format.rs:45-56 | with no sub-issues no line matches one |
| OpenFormat.PlainLineKept | src/open/format.rs:62-67 | a line that is neither a sub-issue checkbox nor a continuation is kept and ends any skip |
| OpenFormat.SubIssueItemDropped | src/open/format.rs:55-65 | a sub-issue's checkbox line and the indented or empty lines after it are all dropped |
| OpenFormat.CommentMarkerAfterBlank | src/open/format.rs:83-93 | in markdown the line before each comment marker is blank |
| OpenFormat.SubIssueAfterBlank | src/open/format.rs:119-128 | in markdown the line before each sub-issue line is blank |
| OpenFormat.SpacerLeavesBlank | src/open/format.rs:84-86 | after the spacer rule the last line is blank |
| OpenFormat.NoSpacerInTypst | src/open/format.rs:84 | typst files get no spacer lines |
| OpenFormat.SubIssueBodies | src/open/format.rs:131-151 | a closed sub-issue shows only the omitted marker; an open one shows its local body when there is one, else GitHub's |
| OpenFormat.TitleCheckedIffClosed | src/open/format.rs:18-19 | the title's box is checked if and only if the issue is closed |
| OpenFormat.TitleReadBack | src/open/format.rs:21-32 | the markdown title line is read back as a checkbox whose title is the labels part followed by the title |
| OpenFormat.SubIssueLineReadBack | src/open/format.rs:124-128 | a markdown sub-issue line reads back as its title, so in a parent's body the filter drops that line |
| OpenCommand.ParseIssueUrl | src/open.rs:57-79 | text whose trimmed form, after an optional scheme, does not start with `github.com/` is refused; an accepted URL gives slash-free owner and repository and a 64-bit number |
| OpenCommand.SameAsSharedParser | src/open.rs:57-79 | on every text that is not an SSH remote this parser agrees with the shared issue-URL parser |
| OpenCommand.IssueUrlRoundTrip | src/open.rs:57-79 | every issue URL the program writes reads back as its owner, repository and number |
| OpenCommand.SshRemoteRejected | src/open.rs:61-64 | an SSH remote is not a GitHub URL to this command |
| OpenCommand.Head | src/open.rs:139-141 | the heading and issue-marker lines end in a line break |
| OpenCommand.LabelsLine | src/open.rs:144-147 | the labels line is written if and only if there are labels, starts with the labels lead and ends in a blank line |
| OpenCommand.EndWithNewline | src/open.rs:153-155 | the text is kept as a prefix, ends in a line break, and is unchanged when it already did |
| OpenCommand.BodyBlock | src/open.rs:150-157 | nothing is written exactly for a missing or empty body; otherwise what is written ends in a line break |
| OpenCommand.CommentBlock | src/open.rs:160-171 | every comment's block ends in a line break |
| OpenCommand.PushBody | src/open.rs:150-157 | appends the body block |
| OpenCommand.PushComment | src/open.rs:161-170 | appends one comment's block: blank line, marker, body |
| OpenCommand.FormatIssue | src/open.rs:135-174 | the comment loop produces the whole document: head, labels, body, then every comment's block in order |
| OpenCommand.FormatIssueAsMarkdown | src/open.rs:135-174 | the markdown document is the shared layout with markdown markup |
| OpenCommand.FormatIssueAsTypst | src/open.rs:194-236 | the typst document is the shared layout with typst markup and converted bodies |
| OpenCommand.RenderShape | src/open.rs:135-174 | every document starts with its head and ends in a line break |
| OpenCommand.CommentsAppended | src/open.rs:160-171 | the document of the first k comments is a prefix of the whole: comments are only appended |
| OpenCommand.TitleFirstLine | src/open.rs:139 | the first line of the document is the title heading |
| OpenCommand.MarkdownBodyVerbatim | src/open.rs:150-156 | a markdown body is written verbatim, followed by a line break only when it lacks one |
| OpenCommand.TypstBodyConverted | src/open.rs:209-216 | a typst body is written converted, ending in a line break |
| OpenCommand.LabelsOnlyWhenPresent | src/open.rs:143-147 | without labels the body follows the head directly; with labels the labels line comes first |
| IssueFiles.FormatIssueFilename | src/open_interactions/files.rs:39-48 | an issue file name ends in `.bak` exactly when the issue is closed |
| IssueFiles.NumberRecovered | src/open_interactions/files.rs:39-48 | the leading digits of a numbered issue's file name are its number |
| IssueFiles.DistinctNumbersDistinctNames | src/open_interactions/files.rs:39-48 | issues with different numbers never share a file name, whatever their titles, extensions or states |
| IssueFiles.FileNamesSearchable | src/open_interactions/files.rs:39-48 | every file name the formatter writes ends in `.md`, `.typ`, `.md.bak` or `.typ.bak`, so the search picks it up |
| IssueFiles.DirNames | src/open_interactions/files.rs:51-53 | one directory name `{number}_-_{title}` per ancestor, in order |
| IssueFiles.AncestorDir | src/open_interactions/files.rs:60-68 | the loop builds the project directory followed by one directory per ancestor |
| IssueFiles.IssueFilePath | src/open_interactions/files.rs:60-70 | the path is the base directory, then the owner and the repository, then one directory per ancestor in order, and the issue's file name last |
| IssueFiles.GetIssueFilePath | src/open_interactions/files.rs:60-70 | the path is the project directory, the ancestors' directories and the file name: three components more than the base plus one per ancestor |
| IssueFiles.ExtractOwnerRepo | src/open_interactions/files.rs:227-249 | a path under the issues directory with at least two more components gives those two as owner and repository; one outside it is `NotInIssuesDir` |
| IssueFiles.OwnerRepoOfProject | src/open_interactions/files.rs:74-76 | any path inside a project directory reads back that project's owner and repository |
| IssueFiles.OwnerRepoRoundTrip | src/open_interactions/files.rs:227-249 | owner and repository are read back from every issue file path the layout produces |
| IssueFiles.FirstFileFrom | src/open_interactions/files.rs:91-104 | the first regular file from position k whose name is accepted, and none before it |
| IssueFiles.FindSubIssueFileSpec | src/open_interactions/files.rs:82-110 | a missing directory finds nothing; a found path is a listed plain file directly in the directory named `{number}_-_…`; nothing is found only when no listed plain file has that name |
| IssueFiles.FindSubIssueFile | src/open_interactions/files.rs:82-110 | the directory walk returns the first regular file named `{number}_-_…` in the sub-issue's directory, or nothing when the directory is missing |
| IssueFiles.SubIssuePrefixIff | src/open_interactions/files.rs:96-102 | a written file name starts with `{number}_-_` exactly when its sanitised title is non-empty |
| IssueFiles.EmptyTitleFileNotFound | src/open_interactions/files.rs:96-102 | as written: the file of a sub-issue whose title sanitises to nothing is never found |
| IssueFiles.FileOfIff | src/open_interactions/files.rs:39-48 | a written file name belongs to number n (`{n}_-_…` or `{n}.…`) exactly when it was written for n |
| IssueFiles.OwnFileOf | src/open_interactions/files.rs:39-48 | every file name written for n is recognised as n's |
| IssueFiles.FixedFindsWrittenFile | src/open_interactions/files.rs:82-110 | corrected lookup: a written file in the listing is found, and what is found belongs to the sub-issue |
| IssueFiles.ReadSubIssueBody | src/open_interactions/files.rs:114-126 | the body read back is non-empty and trimmed; an unreadable file or an empty body gives nothing |
| IssueFiles.ReadBodyRoundTrip | src/open_interactions/files.rs:114-126 | a title line followed by tab-indented body lines reads back as the body |
| IssueFiles.EmptyPatternListsIssueFiles | src/open_interactions/files.rs:151-156 | with an empty pattern the search keeps exactly the issue files |
| IssueFiles.SearchFindsWrittenFile | src/open_interactions/files.rs:151-156 | searching for a written file's own name finds it |
| OpenFiles.SameFileName | src/open/files.rs:37-45 | the earlier generation names a numbered issue's file as the later one does |
| OpenFiles.SamePath | src/open/files.rs:50-60 | the earlier layout is the later one with no ancestor or the single parent |
| OpenFiles.OwnerRepoRoundTrip | src/open/files.rs:213-235 | owner and repository are read back from every path of the earlier layout |
| OpenFiles.FindSubIssueFile | src/open/files.rs:71-97 | the earlier lookup is the later one in the single parent's directory |
| Touch.Components | src/open_interactions/touch.rs:43-44 | the components are non-empty; only a leading root component holds a slash, and it leads exactly when the path is absolute; a "." survives only as the leading component |
| Touch.NormalParts | src/open_interactions/touch.rs:43-44 | every piece kept is neither empty nor "." and is one of the given pieces; when no piece is empty or ".", all are kept as given |
| Touch.NormalPartsAppend | src/open_interactions/touch.rs:43-44 | dropping empty and "." pieces from two runs gives the first's kept pieces followed by the second's |
| Touch.AbsoluteComponents | src/open_interactions/touch.rs:43-44 | "/" followed by normal components joined by "/" gives the root component followed by those components |
| Touch.InteriorCurDirDropped | src/open_interactions/touch.rs:43-44 | a "." inserted after the first component does not change the components |
| Touch.AbsolutePathOwnerIsRoot | src/open_interactions/touch.rs:33-56 | for an absolute path the root component is taken as the owner and the first named component as the repository |
| Touch.ComponentsOfJoin | src/open_interactions/touch.rs:43-44 | joining non-empty slash-free components, none but the first being ".", with `/` and splitting again gives them back |
| Touch.RFindChar | src/open_interactions/touch.rs:65 | the index of the last occurrence of the character, or none when it does not occur |
| Touch.ParseTouchPath | src/open_interactions/touch.rs:33-77 | an error exactly when there are fewer than three components, carrying their count; otherwise owner and repository are the first two components, the chain has the rest in order (all but the last unchanged), and the extension is that of the last component |
| Touch.OfComponents | src/open/touch.rs:50-75 | owner, repository, chain length and all chain elements but the last come from the components |
| Touch.ExtensionOf | src/open_interactions/touch.rs:37-41 | a name without a dot has no extension; a recognised extension is the name's tail after a dot that is not its first character |
| Touch.ExtensionCut | src/open_interactions/touch.rs:62-70 | a recognised extension is exactly what was cut from the last component |
| Touch.NoExtensionKept | src/open/touch.rs:61-69 | without a recognised extension the chain is the components after owner and repository, unchanged |
| Touch.WithExtension | src/open_interactions/touch.rs:37-41 | `stem.md` and `stem.typ` are recognised and cutting leaves the stem |
| Touch.RoundTripWithExtension | src/open/touch.rs:238-246 | `owner/repo/t1/…/stem.ext` parses back to owner, repository, the chain and the extension |
| Touch.RoundTripWithoutExtension | src/open/touch.rs:32-76 | a path whose last component has no recognised extension parses back to its components |
| Touch.UnknownSuffixIsTitle | src/open_interactions/touch.rs:340-349 | `owner/repo/issue.txt` keeps `issue.txt` as the title and has no extension |
| Conflict.GitHunkDetected | src/open_interactions/conflict.rs:48-55 | a hunk as git writes it (`<<<<<<<`, ours, `=======`, theirs, `>>>>>>>`) is detected whatever text surrounds it |
| Conflict.HasConflictMarkers | src/open_interactions/conflict.rs:48-55 | content reported as conflicted holds a `<`, a `=` and a `>` |
| Conflict.MissingBracketNoConflict | src/open_interactions/conflict.rs:115-116 | content without a `<` or without a `>` is never reported as conflicted |
| Conflict.DividerIsNoConflict | src/open_interactions/conflict.rs:129-130 | a lone `=======` divider is not a conflict |
| Conflict.TwoMarkersAreNoConflict | src/open_interactions/conflict.rs:132-133 | two of the three markers are not a conflict |
| MockGithub.LookupIssue | src/mock_github.rs:288-295 | an issue is found exactly when the repository has a table holding that number; with no table the error names the repository |
| MockGithub.InsertIssue | src/mock_github.rs:206-208 | the issue is stored under its number, the repository's other issues and all other repositories are kept, and issues stay keyed by their own numbers |
| MockGithub.AsIssue | src/mock_github.rs:262-271 | number, title, labels, owner login and state carry over; an empty body becomes no body and any other is kept |
| MockGithub.AsIssueForgetsOnlyId | src/mock_github.rs:262-271 | two stored issues convert alike exactly when they differ at most in their internal ids |
| MockGithub.RemoveComment | src/mock_github.rs:423-435 | the id is no longer stored for the repository, every other comment and repository is kept, and comments stay keyed by their ids |
| MockGithub.BodyOption | src/mock_github.rs:266 | an empty stored body reads back as no body, any other as itself |
| MockGithub.LookupAfterInsert | src/mock_github.rs:452-467 | an inserted issue is found under its number; other numbers of that repository and other repositories are found as before |
| MockGithub.LookupAfterSet | src/mock_github.rs:358-366 | an updated issue reads back as the new record and every other lookup is unchanged |
| MockGithub.BodyReadBack | src/mock_github.rs:354-367 | fetching after a body update gives the new body, none for an empty one, and the rest of the issue unchanged |
| MockGithub.StateReadBack | src/mock_github.rs:370-383 | fetching after a state update gives the new state and the rest of the issue unchanged |
| MockGithub.CommentIdsOn | src/mock_github.rs:311-313 | the ids listed for an issue are exactly the stored comments on that issue |
| MockGithub.CreatedCommentListed | src/mock_github.rs:402-420 | a created comment is listed on its issue beside the ones already there |
| MockGithub.DeletedCommentGone | src/mock_github.rs:422-435 | a deleted comment is listed on no issue and other repositories are untouched |
| MockGithub.DeleteAbsentIsNoop | src/mock_github.rs:430-432 | deleting a comment that is not stored changes nothing |
| MockGithub.AppendChild | src/mock_github.rs:495-496 | the child is appended last under its parent and every other parent's children are unchanged |
| MockGithub.SubIssuesOf | src/mock_github.rs:345-348 | at most one result per child number, each the conversion of a stored issue of one of those numbers |
| MockGithub.SubIssuesAppend | src/mock_github.rs:345-348 | relation order is preserved: the sub-issues of a joined list are those of each part in turn |
| MockGithub.AllChildrenFetched | src/mock_github.rs:345-348 | when every child number has an issue, the k-th result is the k-th child's issue |
| MockGithub.MissingChildSkipped | src/mock_github.rs:347 | a child number without a stored issue adds nothing |
| MockGithub.AddedChildFetchedLast | src/mock_github.rs:476-499 | a child added under a parent is fetched last among its sub-issues |
| MockGithub.MockGithubClient.constructor | src/mock_github.rs:90-101 | empty tables; ids from 1000, numbers from 1, comment ids from 5000 |
| MockGithub.MockGithubClient.AddIssue | src/mock_github.rs:193-209 | the issue is stored under its number with the next id; nothing else changes |
| MockGithub.MockGithubClient.AddComment | src/mock_github.rs:213-225 | the comment is stored under its id |
| MockGithub.MockGithubClient.AddSubIssueRelation | src/mock_github.rs:229-234 | the child number is appended under the parent |
| MockGithub.MockGithubClient.GrantCollaboratorAccess | src/mock_github.rs:238-244 | the repository is listed afterwards, and appended only when it was not already |
| MockGithub.MockGithubClient.ClearCallLog | src/mock_github.rs:254-256 | the call log is emptied and nothing else changes |
| MockGithub.MockGithubClient.FetchAuthenticatedUserCall | src/mock_github.rs:277-281 | the user's login; only the call is logged |
| MockGithub.MockGithubClient.FetchIssueCall | src/mock_github.rs:284-296 | the converted stored issue, or the lookup's error; only the call is logged |
| MockGithub.MockGithubClient.FetchCommentsCall | src/mock_github.rs:299-322 | one converted entry per stored comment on the issue, no other and no repeats |
| MockGithub.MockGithubClient.FetchSubIssuesCall | src/mock_github.rs:325-351 | the recorded children's issues in relation order, skipping numbers without an issue |
| MockGithub.MockGithubClient.UpdateIssueBodyCall | src/mock_github.rs:354-367 | the stored body is replaced; an unknown repository or number is that error and changes no table |
| MockGithub.MockGithubClient.UpdateIssueStateCall | src/mock_github.rs:370-383 | the stored state is replaced; an unknown repository or number is that error and changes no table |
| MockGithub.MockGithubClient.UpdateCommentCall | src/mock_github.rs:386-399 | the stored comment's body is replaced; an unknown repository or id is that error and changes no table |
| MockGithub.MockGithubClient.CreateCommentCall | src/mock_github.rs:402-420 | a comment owned by the user is stored under the next comment id, which advances |
| MockGithub.MockGithubClient.DeleteCommentCall | src/mock_github.rs:423-435 | the id is removed from the repository's table, never an error |
| MockGithub.MockGithubClient.CheckCollaboratorAccessCall | src/mock_github.rs:438-445 | true exactly when the repository is listed |
| MockGithub.MockGithubClient.CreateIssueCall | src/mock_github.rs:448-474 | an open issue owned by the user with the next id and number, both counters advance, the id is unlike every stored issue's, the URL is the issue's, and it is found afterwards |
| MockGithub.MockGithubClient.AddSubIssueCall | src/mock_github.rs:477-499 | the number of a stored issue with the child's id is appended under the parent; an unknown repository or id is that error and changes nothing |
| MockGithub.MockGithubClient.FindIssueByTitleCall | src/mock_github.rs:502-521 | the number of some issue with that title, none exactly when no issue has it |
| MockGithub.MockGithubClient.IssueExistsCall | src/mock_github.rs:524-536 | true exactly when the repository holds that number |
| MockGithub.ListComments | src/mock_github.rs:311-319 | the walk over the table lists every matching comment once and nothing else |
| MockGithub.FindById | src/mock_github.rs:488-492 | the number of an issue with that id, none exactly when there is none |
| MockGithub.FindByTitle | src/mock_github.rs:514-520 | the number of an issue with that title, none exactly when there is none |
| Clockify.IdLength | src/clockify.rs:551-559 | an id-like text is 24 or 36 characters long |
| Clockify.OtherLengthIsName | src/clockify.rs:551-559 | a text of any other length is never taken for an id |
| Clockify.UuidShapeAccepted | src/clockify.rs:554-557 | five dash-free groups of 8, 4, 4, 4 and 12 characters joined by dashes look like an id, hex digits or not |
| Clockify.HexIdAccepted | src/clockify.rs:553 | twenty-four hex digits in either case look like an id |
| Clockify.FindFirst | src/clockify.rs:263 | the index found satisfies the predicate and no earlier item does; none is found only when no item does |
| Clockify.FirstId | src/clockify.rs:263-265 | the id returned is the id of an item satisfying the predicate; none exactly when no item does |
| Clockify.ExactNameFirst | src/clockify.rs:262-265 | the first item whose name equals the input wins in the project, workspace, task and tag searches |
| Clockify.IgnoringCaseSecond | src/clockify.rs:267-270 | without an exact name, the first name equal to the input ignoring ASCII case wins |
| Clockify.NotFoundIff | src/clockify.rs:272-276 | the project and workspace search fails exactly when no name contains the input ignoring case |
| Clockify.LooseNotFoundIff | src/clockify.rs:314-321 | the task search fails exactly when no name equals the input ignoring case or contains it |
| Clockify.ResolveProject | src/clockify.rs:251-297 | a failure is ProjectNotFound for the input; a result other than the input is the id of a searched project, or of a first-page project when the search found none |
| Clockify.FallbackOnlyWhenEmpty | src/clockify.rs:278 | the first page of all projects is consulted only when the search returned nothing |
| Clockify.FailedIdSearchedByName | src/clockify.rs:253-257 | an id-like project whose direct fetch failed is searched for by name like any other input |
| Clockify.ResolveTask | src/clockify.rs:305-322 | a failure is TaskNotFound for the project and input; a result other than the input is the id of a listed task |
| Clockify.ResolveWorkspace | src/clockify.rs:382-417 | an id-like input is returned unchanged without lookup; the resolution fails exactly when the input is not id-like and no workspace name matches |
| Clockify.TrimmedNonEmpty | src/clockify.rs:332 | the pieces kept are trimmed and non-empty, and no more than were given |
| Clockify.KeptPiece | src/clockify.rs:332 | one piece is kept, trimmed, exactly when it trims to something non-empty |
| Clockify.TrimmedNonEmptyAppend | src/clockify.rs:332 | the pieces kept from two runs are those kept from the first followed by those kept from the second: order is kept |
| Clockify.TrimmedNonEmptyKeeps | src/clockify.rs:332 | every piece that trims to something non-empty is kept, trimmed |
| Clockify.TrimmedNonEmptyFrom | src/clockify.rs:332 | every piece kept is the trimmed form of a given piece |
| Clockify.Keep | src/clockify.rs:341-347 | the texts kept are exactly the input's texts that satisfy the predicate: each kept one satisfies it and comes from the input, and each input text satisfying it is kept |
| Clockify.KeepAppend | src/clockify.rs:341-347 | filtering two runs gives the first's kept texts followed by the second's: order is kept |
| Clockify.KeepOne | src/clockify.rs:341-347 | one text is kept exactly when it satisfies the predicate |
| Clockify.MissingId | src/clockify.rs:351-357 | no id is missing exactly when every id-like tag is listed; a missing id is one asked for and not listed |
| Clockify.ResolveNames | src/clockify.rs:361-371 | success gives one listed id per name; failure names a tag asked for that no listed tag matches |
| Clockify.ActiveTags | src/clockify.rs:376-380 | every tag that is not archived is kept with its id and name, and no more tags are kept than were listed |
| Clockify.ActiveTagsFrom | src/clockify.rs:376-380 | every tag kept is the id and name of a listed tag that is not archived |
| Clockify.ActiveTagsAppend | src/clockify.rs:376-380 | the tags kept from two lists are the first's followed by the second's: order is kept |
| Clockify.ActiveTagsOne | src/clockify.rs:376-380 | one tag is kept, as its id and name, exactly when it is not archived |
| Clockify.ResolveTags | src/clockify.rs:330-374 | the loops compute the tag resolution: no tags for an empty input, else the id-like tags (all listed) followed by the resolved names |
| Clockify.SortWanted | src/clockify.rs:339-347 | id-like tags go to the first list and the others to the second, each in order |
| Clockify.CheckIds | src/clockify.rs:350-357 | the first id-like tag that no listed tag has |
| Clockify.ResolveNamed | src/clockify.rs:361-371 | the names resolved in order, stopping at the first that matches nothing |
| Clockify.NoNamesNoTags | src/clockify.rs:332-336 | an input of only commas and whitespace asks for no tags, whatever is listed |
| Clockify.OneIdPerTag | src/clockify.rs:339-373 | a successful resolution has one id per tag asked for, with the id-like ones first and unchanged |
| Clockify.ResolvedIdsListed | src/clockify.rs:350-380 | every id returned belongs to a tag that is not archived |
| Clockify.UnknownIdRejected | src/clockify.rs:350-357 | an id-like tag that no active tag has makes the resolution fail with TagIdNotFound |
| Milestones.NumHours | src/milestones.rs:113-114 | whole hours rounded toward zero are negative exactly when the span is an hour or more in the past |
| Milestones.FindTitled | src/milestones.rs:107 | the first milestone with the title; none exactly when no milestone has it |
| Milestones.CheckMilestone | src/milestones.rs:108-128 | a found milestone yields its description exactly when it has a due date less than an hour past and a description; every error names the requested timeframe, and a missing due date is reported as MissingDueOn |
| Milestones.GetMilestone | src/milestones.rs:99-139 | every error names the timeframe that was requested |
| Milestones.MinutesRefused | src/milestones.rs:100-105 | a minute timeframe is refused with MinuteMilestone before any lookup |
| Milestones.AbsentListsAllTitles | src/milestones.rs:130-138 | an absent title gives MilestoneNotFound listing every existing title in order |
| Milestones.FoundOutcome | src/milestones.rs:108-128 | a found milestone without a due date gives MissingDueOn, one due an hour or more ago gives MilestoneOutdated, otherwise its description or MissingDescription |
| Milestones.OkMeansCurrent | src/milestones.rs:99-139 | a description is returned only for a milestone of that title whose due date is less than an hour past |
| Milestones.SourceMessage | src/milestones.rs:82-97 | each error kind's fixed text; a missing milestone's text ends with the debug list of every existing title |
| Milestones.Message | src/milestones.rs:74-97 | every failure's text is "Error on `", the requested timeframe, "` milestone: " and then the failure's own message |
| Milestones.MessageReadBack | src/milestones.rs:74-97 | when the timeframe's text has no backquote, the first backquote after the prefix ends the timeframe and what follows the separator is the failure's own message |
| Milestones.MessageDetermines | src/milestones.rs:74-97 | two failures with equal texts name the same timeframe and have the same own message |
| Milestones.FailureMessages | src/milestones.rs:177-187 | there are no failure messages exactly when every lookup succeeded, there are at most as many as lookups, and each one begins with the "Error on `" prefix |
| Milestones.FailureMessagesFrom | src/milestones.rs:177-187 | each failure message is the full text of one of the failed lookups |
| Milestones.KeyResults | src/milestones.rs:141-176 | one lookup per key timeframe (1 day, 2 weeks, 1 quarter, 1, 3 and 7 years), in that order |
| Milestones.Healthcheck | src/milestones.rs:169-192 | the loop builds the status: "OK", or the failure messages joined by line breaks |
| Milestones.AppendLine | src/milestones.rs:181-185 | a line break goes before a message only when the text is not empty |
| Milestones.JoinEmptyIff | src/milestones.rs:188-190 | joined failure messages are empty exactly when there are none |
| Milestones.HealthReport | src/milestones.rs:177-190 | the status is "OK" exactly when every lookup succeeded |
| Milestones.HealthyIff | src/milestones.rs:118-175 | the status is "OK" exactly when every key timeframe resolves |
| Milestones.MissingDayMilestoneUnhealthy | src/milestones.rs:140-144 | without a milestone titled after the one-day timeframe the status is never "OK" |
| Todos.TrimMdSuffixes | src/todos.rs:199 | the result is a prefix of the name that no longer ends in ".md" |
| Todos.ParseSimple | src/todos.rs:197-200 | a simple task whose name does not end in ".md" |
| Todos.ParseSimpleStripsExtension | src/todos.rs:197-200 | a name without ".md" is kept, and one ".md" appended to it is removed |
| Todos.ParseDigit | src/todos.rs:184-186 | a one-character part parses exactly when it is a digit |
| Todos.TryParseFullAsWritten | src/todos.rs:174-193 | success is a sprint task; failure is the formatting error for that file name |
| Todos.TryParseFull | src/todos.rs:174-193 | success is a sprint task; failure is the formatting error for that file name |
| Todos.MalformedRefused | src/todos.rs:174-182 | fewer than four dash parts, or a first or third part that is not one digit, is refused |
| Todos.FullFileName | src/todos.rs:174-176 | a sprint task's file name opens with its importance digit and a dash and ends in ".md" |
| Todos.FullFileNameSplit | src/todos.rs:175 | splitting a sprint task's file name at dashes gives back its three fields and its words |
| Todos.FullRoundTrip | src/todos.rs:174-193 | the corrected parser reads back the importance, hours, difficulty density and the words joined by spaces |
| Todos.AsWrittenRoundTrip | src/todos.rs:187 | the parser as written names the task from the third part on |
| Todos.DifficultyInNameAsWritten | src/todos.rs:187 | the parser as written puts the difficulty digit in front of the name, where the corrected parser gives the words alone |
| Todos.Priority | src/todos.rs:204-209 | zero for a simple task; for a sprint task at most 90, and positive exactly when the importance is |
| Todos.PriorityFitsByte | src/todos.rs:204-209 | the priority fits in the u8 it is computed in |
| Todos.PriorityMonotone | src/todos.rs:207 | more importance never lowers the priority and more difficulty density never raises it |
| Todos.TopTasks | src/todos.rs:41-43 | as many tasks as asked for, or all of them when there are fewer |
| Todos.TopTasksAreHighest | src/todos.rs:38-43 | from sorted tasks the shown ones go from highest priority down, and none is outranked by a hidden one |
| Todos.FromRoot | src/todos.rs:141-146 | refused exactly when both a sprint and the conditional flag are given |
| Todos.SectionPath | src/todos.rs:138-161 | the section path is the chosen section under the task directory, created exactly when absent; a missing section is refused only without the parents flag |
| Todos.ExclusiveFlagsRefused | src/todos.rs:145 | a sprint together with the conditional flag is refused whatever exists |
| Todos.ParentsNeverMissing | src/todos.rs:148-159 | with the parents flag only the flag clash can fail |
| TaskSort.Swap | src/todos.rs:275 | the two tasks trade places and nothing else changes |
| TaskSort.SwapRearranges | src/todos.rs:275-279 | exchanging two tasks of a range keeps the same tasks in it and leaves the rest alone |
| TaskSort.FromRange | src/todos.rs:253-282 | every task in a rearranged range was in that range before |
| TaskSort.BoundAboveKept | src/todos.rs:253-258 | rearranging a range keeps any upper bound on its priorities |
| TaskSort.BoundBelowKept | src/todos.rs:253-258 | rearranging a range keeps any lower bound on its priorities |
| TaskSort.AdvanceStore | src/todos.rs:265-268 | the scan stops at the first task not below the pivot, which it never passes, and everything it passed is not above the pivot |
| TaskSort.RetreatLast | src/todos.rs:269-272 | the scan stops at a task not above the pivot or at -1, and everything it passed in the range is not below the pivot |
| TaskSort.ExchangeOutOfPlace | src/todos.rs:273-276 | the swap keeps low tasks before the store index and high tasks after the last index, and the range's tasks |
| TaskSort.PlacePivot | src/todos.rs:280-281 | the final swap puts the pivot at the store index, with no higher task before it and no lower task after it, and only the range's tasks move |
| TaskSort.PartitionTasks | src/todos.rs:260-282 | the pivot lands at the returned index with no higher task before it and no lower task after it, and only the range's tasks move |
| TaskSort.QuickSortTasks | src/todos.rs:253-259 | the range ends sorted by priority, holds the same tasks, and nothing outside it changes |
| TaskSort.SortedAroundPivot | src/todos.rs:253-259 | a placed pivot with both sides sorted makes the whole range sorted |
| TaskSort.RearrangedBothSides | src/todos.rs:253-259 | rearranging both sides of the pivot rearranges the whole range |
| TaskSort.SortTasks | src/todos.rs:38-39 | the whole array ends sorted by priority and is a permutation of what it held |
| ManualStats.Validate | src/manual_stats.rs:148-165 | a refusal is the one-mode error; an accepted entry keeps every field and drops replace when adding or subtracting |
| ManualStats.ValidateErrIff | src/manual_stats.rs:153-158 | validation fails exactly when both add and subtract are set or none of the three modes is |
| ManualStats.ValidatedHasOneMode | src/manual_stats.rs:149-165 | an accepted entry has exactly one mode, and validating it again gives the same entry |
| ManualStats.IntendedEv | src/manual_stats.rs:51-58 | adding moves the EV up by the entry, subtracting moves it down by it, replacing sets it; a non-negative entry never lowers the EV when added nor raises it when subtracted |
| ManualStats.UpdatedEv | src/manual_stats.rs:51-58 | the new EV is the old one plus, minus, or replaced by the entry, and an overflow of i32 is reported instead |
| ManualStats.ReplaceIgnoresOld | src/manual_stats.rs:55 | replacing gives the entry's value whatever the old EV was |
| ManualStats.SubtractUndoesAdd | src/manual_stats.rs:52-53 | subtracting an entry after adding it restores the old EV |
| ManualStats.AddNeverLowers | src/manual_stats.rs:52 | adding a non-negative entry never lowers the EV |
| ManualStats.Stepped | src/manual_stats.rs:59-66 | a flagged counter goes up by one and an unflagged one stays |
| ManualStats.Day.Default | src/manual_stats.rs:68 | a default day has no date, zero EV and zero counters |
| ManualStats.Day.ApplyEv | src/manual_stats.rs:49-58 | the EV becomes the updated value, or stays on overflow, and nothing else changes |
| ManualStats.Day.ApplyStep | src/manual_stats.rs:59-66 | exactly the flagged counters go up by one and nothing else changes |
| ManualStats.Day.Initialize | src/manual_stats.rs:67-91 | a fresh day takes an EV entry only in replace mode, sets flagged counters to one, and records the date |
| ManualStats.FreshDayNeedsReplace | src/manual_stats.rs:70-74 | a validated add or subtract entry never has replace set, so a fresh day refuses it |
| ManualStats.FreshStepMatchesStep | src/manual_stats.rs:76-83 | a step on a fresh day gives the counters a step on a zeroed record gives |
| ManualStats.NextStreak | src/manual_stats.rs:358-381 | skipping keeps the streak; otherwise it grows by one if yesterday met the condition, else restarts at zero, and the best rises to it when exceeded |
| ManualStats.BestNeverDrops | src/manual_stats.rs:374-377 | the best never goes down and after an update is at least the current streak |
| ManualStats.ConsecutiveDays | src/manual_stats.rs:364-377 | n met days in a row from a broken streak give a streak of n and a best of at least n |
| ManualStats.MissedDayResets | src/manual_stats.rs:370-373 | a missed day ends the streak |
| ManualStats.AdvancedStreaks | src/manual_stats.rs:352-383 | after the update a streak is recorded for exactly the metrics that had one or are listed |
| ManualStats.UpdateStreaks | src/manual_stats.rs:341-424 | the loop advances every metric's streak and records yesterday's date as processed |
| ManualStats.AdvancedListed | src/manual_stats.rs:352-383 | each listed metric ends with its rule applied once to what was read for it |
| ManualStats.AdvancedUnlisted | src/manual_stats.rs:341-424 | streaks of metrics not listed are kept as they were |
| ManualStats.SecondRunChangesNothing | src/manual_stats.rs:361-365 | a second update for the same day leaves the streaks unchanged |
| DaySections.ParseWaketime | src/day_section.rs:10-16 | succeeds only on a text `h:m` with exactly one colon whose two sides are `u32` numbers, giving those numbers; a text without a colon is refused as one part (same code at src/quickfix.rs:35-41) |
| DaySections.WaketimeRoundTrip | src/day_section.rs:10-16 | every wake time with `u32` fields is read back from its `H:M` text |
| DaySections.ReadWaketime | src/quickfix.rs:9-11 | reading the echoed variable with the output trimmed first: blank output (an unset variable) is refused as one part, and an accepted wake time has `u32` fields |
| DaySections.EchoedWaketimeRefused | src/quickfix.rs:9-11 | the echoed variable text (any text followed by a line break) is refused by the wake-time parse |
| DaySections.EchoedWaketimeRead | src/quickfix.rs:35-41 | with the command output trimmed first, the echoed text of every wake time reads back as that wake time |
| DaySections.CastToI32 | src/day_section.rs:100-104 | the float-to-`i32` cast truncates toward zero inside the `i32` range and saturates at its bounds |
| DaySections.BorderExact | src/day_section.rs:100-104 | a border given as a number of minutes divided by 60 converts back to exactly those minutes |
| DaySections.ParseBorders | src/day_section.rs:93-113 | succeeds exactly when there are three colon-separated parts that all parse as numbers, each border being that number of hours in minutes; a wrong part count is reported with the count (same code at src/quickfix.rs:76-97) |
| DaySections.ShiftedMinutes | src/day_section.rs:79-83 | the shifted time differs from now minus the wake time by zero or one whole day (same code at src/quickfix.rs:62-66) |
| DaySections.ShiftedWithinDay | src/quickfix.rs:62-66 | the shifted time is below one day, and is non-negative exactly when the wake time is at most a day past the current minute |
| DaySections.NowIn | src/day_section.rs:74-91 | for a wake time at most a day past the current minute, the section of the time since waking taken modulo a day (the Python `%` the comment names) |
| DaySections.ShiftedIsRemainder | src/day_section.rs:79-83 | for such wake times the shift equals the remainder of now minus the wake time by a day, the Python `%` the comment names |
| DaySections.Classify | src/day_section.rs:85-90 | morning exactly when past 20 hours or at most the morning border; work, evening and night exactly when the earlier guards fail and the next border holds, night when none holds (same code at src/quickfix.rs:68-73) |
| DaySections.SectionsInOrder | src/quickfix.rs:68-73 | with ordered borders the sections follow in order during the first twenty hours after waking |
| DaySections.EverySectionReached | src/day_section.rs:85-90 | with borders strictly inside the twenty hours every section is reached by some minute of the day |
| DaySections.MorningAtWaking | src/quickfix.rs:69 | the morning check comes first: at the wake time itself it is morning whenever the morning border is non-negative |
| DaySections.LateWaketimeMorning | src/day_section.rs:74-91 | a wake time more than a day past the current minute always gives morning when the morning border is at least -1 |
| DaySections.Description | src/day_section.rs:36-64 | each section's description starts with a blank line and a level-one heading naming the section |
| DaySections.DescriptionsDistinct | src/day_section.rs:36-64 | different sections have different descriptions |

## Left out

- Strings.Lines: `str::lines` also drops a `'\r'` before each line break. The model splits on `'\n'` only, so text with Windows line endings is not modelled.
- Strings.IsWhitespace: Rust's `char::is_whitespace` is Unicode-aware. The model knows only the ASCII whitespace characters, so non-ASCII spaces such as U+00A0 are read as text.
- Strings.IsAsciiAlnum: the sanitisers call `char::is_alphanumeric`, which is Unicode-aware. The model accepts ASCII letters and digits only, so non-ASCII letters in titles are replaced rather than kept.
- Strings.Lower: `to_lowercase` is modelled on ASCII letters only. Other letters keep their case.
- Byte lengths: Rust measures `len()` and slice offsets in UTF-8 bytes. The model counts characters, which is the same only for ASCII text. Error spans (IssueError.LineSpan) and filename truncation are affected.
- MergeTree.NewRemote: `resolve_tree_recursive` appends new remote children while iterating a hash map, so their order is unspecified. The model appends them in the order their URLs first appear among the remote children, which is one of the orders the program can produce.
- Sink.DiffAgainstExisting: the ids and numbers to delete come from hash-map iteration. The model states them as sets, so their order is not modelled.
- MockGithub: hash-map iteration order, for example in `find_issue_by_title`, is a choice passed in by the caller. The `Mutex` and atomic wrappers are modelled as plain sequential fields, and the u64 wrap of the counters is not modelled. `load_state_json` and the formatting of the call log are left out.
- IssueUtil.IsBlockersMarker: src/issue/util.rs:19 calls `Marker::decode` with a second argument (the file extension), but src/issue/marker.rs defines `decode` with one argument. The model uses the one-argument decode that src/issue/marker.rs defines.
- OpenInteractionsUtil.ConvertMarkdownToTypst: src/open_interactions/util.rs calls a two-argument `Header::decode` and an `encode` taking an extension, which src/lib.rs does not define. The model uses the one-argument decode of src/lib.rs and writes typst headers as runs of `=`.
- BlockerStandard.FormatIdempotent: requires that no line is a code fence (`NoFence`) and that no line is a blank item (`NoBlankItem`). The program's idempotence test (src/blocker_interactions/standard.rs:342-367) promises it for every text. The blank-item case is a finding, listed below. For the fence case, consider a top-level fence line "```" that is not indented as a comment. It is written as the item "- ```", which no longer opens a code block. Empty lines between two such fences are kept on the first formatting and dropped on the second, so "```", "", "```" is not formatted idempotently. The model states idempotence only for fence-free text.
- BlockerStandard.FormatContentIdempotent: the same restriction as FormatIdempotent, stated on texts.
- BlockerStandard.FormatFixedIdempotent: the corrected formatter still requires `NoFence`, for the same code-fence reason.
- BlockerText.CandidateIsContent: stated only for texts without space-indented comment lines. The classifier reads a two-space-indented line as a comment, but src/blocker/operations.rs counts it as a candidate for `current`. On such texts `current` and `pop` can look at different lines.
- BlockerText.EmptyIsSemanticallyEmpty: the same restriction as BlockerText.CandidateIsContent.
- BlockerText.PopTakesCurrent: the same restriction as BlockerText.CandidateIsContent.
- src/blocker/standard.rs is not part of this model. src/blocker/operations.rs takes its line classifier, formatter, `strip_blocker_prefix` and `parse_parent_headers` from that file. `BlockerText` uses stand-ins:
  - IssueBlocker.ClassifyLine, the classifier of src/issue/blocker.rs, replaces the classifier.
  - BlockerStandard.FormatFixed, the formatter of src/blocker_interactions/standard.rs with blank items read as empty lines, replaces the formatter.
  - BlockerText.StripItemPrefix replaces `strip_blocker_prefix`. It assumes that `strip_blocker_prefix` removes a leading "- ".
  - The parent headers are a parameter.
  Every property proved about BlockerText.BlockerText.Add, BlockerText.BlockerText.Pop and the read functions holds for those stand-ins. If the missing file behaves differently, those properties may not hold.
- OpenFiles: src/open/files.rs repeats the sanitising, search, body reading and owner/repository extraction of src/open_interactions/files.rs word for word. Those functions are modelled once, in IssueFiles, and linked to OpenFiles by lemmas.
- Touch: path normalisation by the file system (`..`, symbolic links) is not modelled. Paths are component lists.
- Conflict: `check_any_conflicts` and `mark_conflict` read and write files and are left out. Only `has_conflict_markers` is modelled.
- OpenFormat: the formatted issue is a sequence of lines. The final `join` into one text is not modelled beyond Strings.Join.
- OpenCommand: the network fetches, the temporary file, the editor call and pandoc in src/open.rs are left out.
- OiSync.ApplyMergeMode: the git merge of the Normal-with-conflicts branch is an abstract outcome passed in. `handle_divergence` is left out.
- OiSync.ExecuteIssueActions: GitHub's answers to creation calls are a parameter. The HTTP calls are not modelled.
- OpenSync.ExecuteIssueActions: the same as OiSync.ExecuteIssueActions.
- Github: the HTTP functions of src/github.rs (fetches, updates, creations, deletions, search, access check) are left out. Only URL parsing and the conversion to stored records are modelled.
- IssueTypes.ParseUrl: the `url` crate's parser is modelled only for hierarchical URLs without userinfo, port, query or fragment. Those are the only URLs the program writes.
- Events: issue bodies are plain strings. The conversion to and from markdown events (src/issue/events.rs) is left out.
- Clockify: the HTTP requests are left out, and the fetched lists are parameters. When the tags are fetched twice, both fetches are taken to return the same listing.
- Milestones: the display of a timeframe and of a date are parameters, and times are whole seconds. `request_milestones` and the file write are left out. Rust's `Debug` escaping in the healthcheck message is not modelled.
- Todos: the `f32` parse of the time estimate is a parameter. `Task::try_from` reads the file system and is not modelled. `compile_quickfix` and the I/O of `open_or_add` are left out.
- TaskSort.QuickSortTasks: the sort key is a parameter, any function from task to number. Sortedness and permutation are proved for every key. TaskSort.SortTasks passes the program's priority.
- ManualStats: JSON files, `notify-send` and the personal-best tracking are left out. Whether a goal was met is a parameter. Overflow of `usize` is not modelled; overflow of `i32` EV values is modelled as an error. The panic on `__last_date_processed` is not modelled, and a streak file that does not parse is read as missing. `Repercussions` and the other fields of `Day` are not modelled.
- DaySections: the current time (`Utc::now`) is a parameter, given as hour and minute. The `f32` border parse is a parameter, and NaN is not modelled. The u32 overflow of `hours * 60` and the i32 cast of very large wake times are not modelled. The environment reads of `DaySection::build`, and the shell calls, pandoc and zathura of `quickfix::compile`, are left out. A wake hour of 24 or more is not validated by the program. DaySections.LateWaketimeMorning states what then happens.
- Concurrency: `tokio::try_join` and the parallel fetches are modelled sequentially.
- OpenIssueParse.ParseSpec: a written issue is proved to read back only in two cases. TitleReadBack covers its title line, and BodyRoundTrip covers an issue made of a title and a plain body. Issues with further comments, sub-issues or blockers are parsed by the model, but no lemma states that their written lines read back to them.
- OpenLine.Parse: for a `.typ` file, src/open/line.rs:81 reads markers with `Marker::decode` as written, and that decoder reads no `//` form (see the Findings row for src/marker.rs:37). The model reads them with the corrected FileMarker.DecodeFixed. For markdown the two agree, and OpenLine.ParseMdAsWritten proves it. The as-written typst behaviour, where a ` // ` marker line is plain text, is not what OpenLine.Parse states.
- OpenLine.TrailingTyp: src/open/line.rs:194 decodes the ` // ` tail with the as-written `Marker::decode`, which never succeeds on it. The model uses FileMarker.DecodeFixed, so a typst trailing marker is found here and not in the program.
- OpenLine.ExtractTrailingMarker: src/open/line.rs:185 and 194 decode with `Marker::decode` as written. The stated typst behaviour is that of the corrected decoder. The markdown behaviour is the program's.
- OpenLine.BlockerContentIsNoMarker: stated over OpenLine.Parse with the corrected decoder. For a `.typ` file its marker clause describes FileMarker.DecodeFixed, not the program's decoder.
- Github.ExtractIssueNumber: `extract_issue_number_from_url` is not part of this model. github.dfy (lines 208-219) takes it to be the issue-URL parser's number, and OpenIssueActions receives it as the parameter `numberOf`.

## Findings

| source | as written | input that shows it | evidently intended | confidence | as-written member | corrected member |
|---|---|---|---|---|---|---|
| src/marker.rs:37 | `Marker::decode` ignores its extension argument and reads only the markdown forms. | Any marker that `encode` writes for typst, such as an issue URL marker, decodes to nothing. The blockers line is the one exception. | `decode(encode(m, Typ), Typ) == m`, as for markdown | high, not executed | FileMarker.TypEncodingUnread | FileMarker.DecodeFixedEncodeTyp |
| src/open/util.rs:122 | The indentation kept before the expanded `!b` is `line[..len - trim(line).len]`, and that includes characters of `!b` when the line has trailing whitespace. | The line "!b " becomes "!# Blockers", which is no blockers marker. | Keep only the leading whitespace, so "!b " becomes "# Blockers". | high, not executed | OpenUtil.ExpandTrailingSpaceAsWritten | OpenUtil.ExpandLineProps |
| src/blocker_interactions/standard.rs:105-108 | A line of one space is classified as an item with empty text and written "- ". | " " formats to "- ", and "- " formats to "- -", so formatting is not idempotent. | Treat a blank item like an empty line, so formatting twice changes nothing. | high, not executed | BlockerStandard.BlankItemNotIdempotent | BlockerStandard.FormatFixedIdempotent |
| src/blocker_rewrite.rs:243 | `lines[1..body_end_idx]` assumes the normalised content has a first line. | Empty content "" has no line, so the slice start 1 is past its end (a panic). | Empty content has no blockers. | high, not executed | BlockerRewrite.EmptyContentSliceAsWritten | BlockerRewrite.Blockers |
| src/issue/types.rs:919-931 | The test `marker_end <= marker_start` lets through a `-->` that overlaps the `<!--`. | "- [ ] T <!-->": `<!--` is at 2 and `-->` at 4 of the rest, and the slice `rest[6..4]` runs backwards (a panic). | Report a malformed marker unless `-->` starts after `<!--` ends. | high, not executed | IssueTypes.OverlappingMarkerAsWritten | IssueTypes.ParseTitleLine |
| src/open/issue.rs:359-371 | The same overlap test in the editor's `parse_title_line`. | "- [ ] T <!-->" | Report a malformed marker. | high, not executed | IssueTypes.OverlappingMarkerAsWritten | OpenIssue.OverlappingTitleRejected |
| src/open/issue.rs:406-409 | `parse_child_title_line` searches for `-->` in the whole rest, not after the sub marker. | "- [ ] a --> <!--sub x": the `-->` comes before the marker, and the slice runs backwards (a panic). | Search for `-->` after the sub marker; the line is then not a sub-issue line. | high, not executed | OpenIssue.ArrowBeforeSubAsWritten | OpenIssue.ArrowBeforeSubRejected |
| src/open_interactions/files.rs:96-102 | `find_sub_issue_file` looks only for names starting `{n}_-_`, but `format_issue_filename` (line 42) writes `{n}.ext` for a title that sanitises to nothing. | Sub-issue 5 titled "!!!" is written as "5.md" and never found. | Find an issue's file whatever its title. | high, not executed | IssueFiles.EmptyTitleFileNotFound | IssueFiles.FixedFindsWrittenFile |
| src/todos.rs:187 | The name is joined from `split[2..]`, which still holds the difficulty part. | "3-2-5-fix.md" gets the name "5 fix". | Join from `split[3..]`, giving "fix". | medium, not executed | Todos.DifficultyInNameAsWritten | Todos.FullRoundTrip |
| src/quickfix.rs:9-11 | The output of `echo $WAKETIME` is parsed without trimming, so it keeps its final line break. | WAKETIME=7:30 is read as "7:30\n", "30\n" fails the u32 parse, and the `unwrap` panics. The borders are read the same way. | Trim the output before parsing. | high, not executed | DaySections.EchoedWaketimeRefused | DaySections.EchoedWaketimeRead |
