# textarea-markdown-editor, modelled in Dafny

textarea-markdown-editor turns a plain `<textarea>` into a small markdown editor. It has
four layers:

- A `Cursor` reads and rewrites the textarea's value and selection.
- Command handlers (bold, italic, link, image, lists, code, quotes, strike-through,
  headlines) use the cursor to put markdown in place and to take it off again.
- Extensions react to keys and to paste:
  - `tab` / `shift+tab` indent and outdent lines;
  - Enter continues a list;
  - meta+backspace removes an empty line;
  - pasting a URL over a selection makes it a link.
- `bootstrapTextareaMarkdown` merges the built-in command table with the user's commands,
  binds their shortcuts, installs the enabled extensions and returns `trigger` and
  `dispose`.

## How the model is laid out

- **`Host`** (`host.dfy`) is the textarea: a `Textarea` class with `value`,
  `selectionStart` and `selectionEnd`, and the setters the cursor calls. Its behaviour
  comes from the HTML standard:
  - the `value` setter moves the caret to the end;
  - "set the selection range" clamps both offsets and orders them;
  - the `selectionStart` setter pushes the end up.
- **`Strings`** holds `split`, `join`, `indexOf` and `slice` with JavaScript's index
  rules, plus the lemmas about them.
- **`Patterns`** holds the regular expressions the handlers and extensions use, each
  written out as the match it makes.
- **`CursorGeometry`** holds the `lines`, `position`, `selection` and `lineAt` getters
  of `src/lib/Cursor.new.ts`.
- **`TextCursor`** (`cursor.dfy`) holds the editing operations of `src/lib/Cursor.new.ts`:
  - `execRaw` and `setValue` with the `\u0000` selection marker;
  - `normalizeSelection`, `insert`, `replaceCurrentLines`, `replaceLine`, `wrap` and
    `select`.

  A `Cursor` class owns the textarea, and each method is proved against a function of the
  old state. Lemmas then state what that function does to the lines and the selection.
- **`Handlers`** and **`Extensions`** have one method per handler or listener, proved
  the same way. Their lemmas state the toggles and round trips the editor promises.
- **`Commands`** is the built-in table of `src/lib/commands.ts`.
- **`Bootstrap`** models `mergedCommandsList`, option merging, `trigger`, shortcut
  binding, extension installation and `dispose`.
- **`Utils`** models the helpers of `src/lib/utils.ts`.
- **`LegacyCursor`** models the older cursor of `src/lib/Cursor.ts`:
  - the `Cursor.raw` template parser with its `Cursor.$` selection tags;
  - `getLine`, `getIndentSize`, `getCurrentPosition` and `getSelected`;
  - `spliceContent` and `removeLines`.

## Behaviour kept as written

Where the code does something other than what its comments or the surrounding design
suggest, the model follows the code. A lemma shows each such case on a concrete input.

- Removing line 1 with `replaceLine(1, null)` (`TextCursor.ReplaceFirstLineAsWritten`):
  - `slice(0, start - 1)` is `slice(0, -1)`, so the whole value but its last character
    is kept, and the rest of the value is appended after it;
  - the meta+backspace binding inherits this on an empty first line
    (`Extensions.LineRemoveFirstAsWritten`).
- `execRaw` with three or more markers (`TextCursor.ExecRawThreeMarkers`): it takes the
  end from the last marker minus one. That end is one place too far for the text that
  remains.
- The link-paste test compares the selection with a range that starts at the index of an
  entry in the match array, which is 0 for the match itself, instead of the position of
  the match (`Extensions.LinkMarkupIndexAsWritten`).
- List continuation on Enter reads the text after the caret at the absolute
  `selectionEnd`, not at the caret's column in the line (`Extensions.ContinuationAsWritten`).
- `bootstrap.ts` imports `indentExtension` and `prefixWrappingExtension`, but
  `extensions.ts` exports `intentExtension` and `listWrappingExtension`. Both imports are
  therefore `undefined`, and enabling either option makes bootstrapping throw
  (`Bootstrap.ImportNamesAsWritten`).
- `bootstrap.ts` also imports `BUILT_IN_COMMANDS` from `types.ts`, which exports only
  `WELL_KNOWN_COMMANDS`. Read the same way, `BUILT_IN_COMMANDS.includes` throws for the
  first user command, so only an empty list of user commands merges
  (`Bootstrap.MergedAsWritten`, `Bootstrap.MergedAsWrittenThrows`). This is the one quirk
  the rest of the model does not follow: `Bootstrap.Merged` reads the name as the names of
  the built-in table, so that overriding, appending and the missing-handler error stay
  reachable. See "Left out".
- The handlers read their options under keys the defaults do not define. The defaults give
  `boldSyntax`, `italicSyntax` and `unorderedListSyntax`. The handlers read
  `preferredBoldSyntax`, `preferredItalicSyntax` and `preferredUnorderedListSyntax`, and the
  link and image placeholders, which have no default at all. With the default configuration:
  - bold and italic throw at `prefix.length`;
  - unordered-list throws in `escapeRegExp`;
  - link and image insert the text `undefined` when nothing is selected.

  `Bootstrap.HandlerOptionsAsWritten` and `Bootstrap.DefaultConfigHandlersThrow` state this
  about the merged options. The bootstrap and `trigger` do not follow it (see "Left out").

## Model

| member | source | states |
|---|---|---|
| Utils.MetaCombination | src/lib/utils.ts:1-3 | Two chords: one starts `command+`, the other `ctrl+`, and the rest of both is the same. |
| Utils.MetaCombinationKeys | src/lib/utils.ts:1-3 | When no key holds `+`, splitting either chord after its modifier gives back exactly the keys, in order. |
| Utils.ArrayInsert | src/lib/utils.ts:5-7 | The result is one longer and has the same elements plus `value` (as a multiset). `value` sits at the index `slice` reads from `position` (negative counts from the end, too large appends). The elements before and after it are the old ones. |
| Utils.Clamp | src/lib/utils.ts:9 | The result lies in `[min, max]` when `min <= max`. A value already in range is kept, one below goes to `min`, one above goes to `max`. When `max < min` the result is `max`. |
| Utils.FindLastIndex | src/lib/utils.ts:21-27 | Returns -1 exactly when no element passes. Otherwise returns an index that passes, after which no element passes: the last one. |
| Utils.FindLast | src/lib/bootstrap.ts:28 | Returns nothing exactly when no element passes. Otherwise returns the element at an index that passes, after which none passes. |
| Utils.EscapeRegExpRoundTrip | src/lib/utils.ts:36-38 | Escaping loses nothing: reading the escaped text back gives the original. |
| Utils.EscapeRegExpAppend | src/lib/utils.ts:36-38 | Escaping distributes over concatenation: it works character by character. |
| Utils.EscapeRegExpAt | src/lib/utils.ts:36-38 | Each character appears in place, preceded by a backslash exactly when it is special, with nothing else inserted. |
| Utils.EscapeRegExpPlain | src/lib/utils.ts:36-38 | Text without special characters is left unchanged. |
| Host.SetRange | src/lib/Cursor.new.ts:276 | `setSelectionRange` keeps the value. A range within the value is set exactly. A small negative end wraps to a large unsigned value and is clamped to the end of the value. |
| Host.Written | src/lib/Cursor.new.ts:118 | Writing the `value` sets it. A new value puts the caret at its end with nothing selected. |
| Host.CaretAt | src/lib/Cursor.new.ts:128-130 | Setting `selectionStart` and then `selectionEnd` to `x` leaves a caret at `x`, clamped to the value. |
| CursorGeometry.LinesPartition | src/lib/Cursor.new.ts:71-79 | The lines partition the value. Line `k` is numbered `k + 1`. The first line starts at 0. Each line starts one past the end of the line before it. The last line ends at the end of the value. Each line holds the value between its offsets, with no newline. |
| CursorGeometry.LinesOrdered | src/lib/Cursor.new.ts:71-79 | No line ends before it starts, and the lines come in increasing order. |
| CursorGeometry.LineSpan | src/lib/Cursor.new.ts:71-79 | Line `k` is numbered `k + 1` and holds the value between its offsets. A newline follows it unless it is the last line. |
| CursorGeometry.TextsOfLines | src/lib/Cursor.new.ts:72 | The texts of the lines are the pieces of the split value, and they join back to the value. |
| CursorGeometry.LineIndexContains | src/lib/Cursor.new.ts:107-111 | Every offset of the value lies in the closed range of the line `LineIndex` names (the count of newlines before it), and any line whose range holds the offset is that line. |
| CursorGeometry.PositionOf | src/lib/Cursor.new.ts:107-111 | The `position` getter. `cursorAt` is the caret, and the line is one of the value's lines. That line holds the caret in its closed range and is numbered one past the count of newlines before the caret. |
| CursorGeometry.FindLine | src/lib/Cursor.new.ts:109 | `find` returns nothing exactly when no line's closed range holds the offset. Otherwise it returns one of the lines whose range holds it. |
| CursorGeometry.SelectionLines | src/lib/Cursor.new.ts:82-104 | For a non-empty selection, the lines of the `selection` getter are the non-empty consecutive block from the line holding the start to the line holding the end. |
| CursorGeometry.FilterBlock | src/lib/Cursor.new.ts:87-97 | The four-way `isBtwOrEq` filter keeps exactly the block of lines that meet the selection, in order. |
| CursorGeometry.LineAt | src/lib/Cursor.new.ts:139-141 | `lineAt(n)` finds a line exactly when `1 <= n <=` the line count, and then it is line `n - 1` of the list. |
| CursorGeometry.LineAtNumber | src/lib/Cursor.new.ts:139-141 | The line `lineAt(n)` finds carries the number `n`. |
| TextCursor.ExecRaw | src/lib/Cursor.new.ts:300-314 | The text is the source with every marker removed. There is a start exactly when the source holds a marker, and never an end without a start. |
| TextCursor.ExecRawPlain | src/lib/Cursor.new.ts:300-314 | A value without markers is kept and gives no selection. |
| TextCursor.ExecRawOneMarker | src/lib/Cursor.new.ts:300-314 | One marker is removed and gives a caret where it stood. |
| TextCursor.ExecRawTwoMarkers | src/lib/Cursor.new.ts:300-314 | Two markers are removed and select exactly the text between them. |
| TextCursor.ExecRawThreeMarkers | src/lib/Cursor.new.ts:307-311 | With three markers the end is one place too far, here past the end of the text. |
| TextCursor.Committed | src/lib/Cursor.new.ts:113-134 | `setValue` leaves a valid textarea whose value is the text with every marker removed. |
| TextCursor.CommittedPlain | src/lib/Cursor.new.ts:123-125 | Writing a marker-free value is a plain write of `value`. |
| TextCursor.CommittedOneMarker | src/lib/Cursor.new.ts:128-130 | One marker leaves the caret where the marker was. |
| TextCursor.CommittedTwoMarkers | src/lib/Cursor.new.ts:131-133 | Two markers leave the text between them selected. |
| TextCursor.NormalizeKeepsText | src/lib/Cursor.new.ts:285-298 | Normalizing adds nothing but markers: once the markers are stripped, the text is unchanged. Text that already holds a marker is returned as it is. |
| TextCursor.CommittedNormalized | src/lib/Cursor.new.ts:285-298 | Marker-free text placed between two marker-free pieces ends with the caret before it (`TO_START`), after it (`TO_END`), or with the text selected (`SELECT_ALL`). |
| TextCursor.RangeOfSelection | src/lib/Cursor.new.ts:224-225 | `selection?.selectionStart ?? position.cursorAt` and the end version are the textarea's own start and end. |
| TextCursor.InsertSourceShape | src/lib/Cursor.new.ts:147-165 | Both branches of `insert` (with a selection, and `insertAtCursor`) put the normalized content in place of the selection. |
| TextCursor.InsertPlain | src/lib/Cursor.new.ts:147-165 | Plain content replaces the selection, and the caret ends right after it. |
| TextCursor.InsertMarked | src/lib/Cursor.new.ts:147-156 | Content with two markers replaces the selection, and what lay between the markers is selected. |
| TextCursor.ReplaceCurrentLinesSplices | src/lib/Cursor.new.ts:174-194 | The current lines `i..j` are replaced by the callback's non-null results, one line each, or by one empty line when none is kept. The text before and after is kept. |
| TextCursor.ReplacedCurrentLinesAround | src/lib/Cursor.new.ts:186-193 | The new text takes the place of the current lines. The caret ends after it (`TO_END`), or it is selected (`SELECT_ALL`). |
| TextCursor.ReplacedCurrentLinesMarked | src/lib/Cursor.new.ts:181-193 | When the joined results hold two markers, what lay between them is selected. |
| TextCursor.CurrentBlockEnds | src/lib/Cursor.new.ts:179 | The current lines are the selection's lines, or the caret's line. They run from the line holding the start to the line holding the end. |
| TextCursor.MappedLines | src/lib/Cursor.new.ts:174-194 | With a callback that maps every line, the lines `i..j` of the split value become their mapped texts, one line each, and every other line is unchanged. |
| TextCursor.MappedLinesReselect | src/lib/Cursor.new.ts:190 | With `selectReplaced`, the mapped lines are again the current lines afterwards. |
| TextCursor.MapTwiceRestores | src/lib/Cursor.new.ts:174-194 | Running `replaceCurrentLines` with `f`, selecting, then running it with a `g` that undoes `f` gives the original value back. |
| TextCursor.ReplaceLineWith | src/lib/Cursor.new.ts:200-215 | New content for an existing line `n` replaces that line alone. The other lines are kept and the caret ends after the new content. |
| TextCursor.ReplaceLineMarked | src/lib/Cursor.new.ts:213-214 | Marked content for line `n` replaces that line alone and selects what lay between the markers. |
| TextCursor.ReplacedLine | src/lib/Cursor.new.ts:201-205 | An unknown line number changes nothing. |
| TextCursor.ReplaceLineRemoves | src/lib/Cursor.new.ts:208-211 | `null` for a line `n >= 2` drops that line and the newline before it. The caret ends where the line before it ends. |
| TextCursor.ReplaceFirstLineAsWritten | src/lib/Cursor.new.ts:210 | `null` for line 1 keeps the value without its last character and appends the text after line 1, instead of removing the line. |
| TextCursor.WrappedWithIff | src/lib/Cursor.new.ts:254-266 | `isSelectedWrappedWith` holds exactly when the prefix lies right before the selection and the suffix right after it, both inside the value. |
| TextCursor.WrapAdds | src/lib/Cursor.new.ts:240-251 | When the selection is not wrapped (or `unwrap` is off), the markup goes around it and the same text stays selected. An empty selection is filled with the placeholder, which is then selected. |
| TextCursor.WrapRemoves | src/lib/Cursor.new.ts:227-238 | A wrapped selection loses the markup around it, and the same text stays selected. |
| TextCursor.WrapTwiceRestores | src/lib/Cursor.new.ts:220-252 | Wrapping a non-empty selection twice gives back the value and the selection. |
| TextCursor.Selected | src/lib/Cursor.new.ts:268-283 | `select` leaves the value alone. A range within the value is set exactly. |
| TextCursor.SelectRelative | src/lib/Cursor.new.ts:278-281 | Shifting by nothing keeps the selection. Shifting within the value moves both offsets exactly. |
| TextCursor.Cursor.SetValue | src/lib/Cursor.new.ts:113-134 | The textarea afterwards is `Committed` of the old state and the text. |
| TextCursor.Cursor.Insert | src/lib/Cursor.new.ts:147-156 | The textarea afterwards is the state `insert` specifies. |
| TextCursor.Cursor.InsertAtCursor | src/lib/Cursor.new.ts:158-165 | The content goes in at the caret. |
| TextCursor.Cursor.ReplaceCurrentLines | src/lib/Cursor.new.ts:174-194 | The textarea afterwards holds the current lines replaced by the callback's kept results. |
| TextCursor.Cursor.ReplaceLine | src/lib/Cursor.new.ts:200-215 | The textarea afterwards is `ReplacedLine` of the old state. |
| TextCursor.Cursor.Wrap | src/lib/Cursor.new.ts:220-252 | The textarea afterwards is the wrapped or unwrapped state. |
| TextCursor.Cursor.Select | src/lib/Cursor.new.ts:268-283 | The textarea afterwards is `Selected` of the old state. |
| Patterns.NumberedMarker | src/lib/handlers.ts:34-38 | `k+1. ` in front of a line is matched by `/(\d+\.){1,2}\s+/` at the very start. Removing the match gives the line back when it does not begin with `\s`. |
| Patterns.PrefixMarkerAdded | src/lib/handlers.ts:45-49 | The list syntax and a space in front of a line are matched by `^syntax\s+`. Taking them off gives the line back when it does not begin with `\s`. |
| Patterns.HeadingMarkerAdded | src/lib/handlers.ts:96-101 | One to six `#` and a space in front of text that does not begin with `\s` are matched by `^#{0,6}\s+`, and removing them gives the text back. |
| Patterns.RemovedHeadingUnspaced | src/lib/handlers.ts:101 | What is left after removing the heading markup does not begin with `\s`. |
| Patterns.OutdentIndented | src/lib/extensions.ts:79-85 | Four spaces put in front of any line are removed again by `/\s{0,4}/`. |
| Patterns.BlankIsListLine | src/lib/extensions.ts:106-107 | A line the blank-list pattern matches is also matched by the list-line pattern. |
| Patterns.MarkerKind | src/lib/extensions.ts:133-134 | A bullet marker is not ordered, and a digit marker is. |
| Handlers.WrapCommandAdds | src/lib/handlers.ts:5-14 | A wrapping command puts its markup around a selection that is not already wrapped (around the placeholder when nothing is selected) and selects the same text. |
| Handlers.WrapCommandToggles | src/lib/handlers.ts:5-14 | Running a wrapping command twice on a selection gives back the value and the selection. |
| Handlers.BoldCommandHandler | src/lib/handlers.ts:5-7 | Wraps with `preferredBoldSyntax` and `boldPlaceholder`. |
| Handlers.ItalicCommandHandler | src/lib/handlers.ts:9-14 | Wraps with `preferredItalicSyntax` and `italicPlaceholder`. |
| Handlers.StrikeThroughCommandHandler | src/lib/handlers.ts:89-91 | Wraps with `~~` and `strikeThroughPlaceholder`. |
| Handlers.CodeInlineCommandHandler | src/lib/handlers.ts:65-67 | Wraps with a backtick and `codeInlinePlaceholder`. |
| Handlers.CodeBlockCommandHandler | src/lib/handlers.ts:54-63 | Wraps with a fenced block and `codeBlockPlaceholder`. |
| Handlers.CodeBlockIffNewline | src/lib/handlers.ts:69-76 | The selection spans more than one line exactly when the selected text holds a newline, so `code` picks the block form exactly then. |
| Handlers.CodeCommandHandler | src/lib/handlers.ts:69-76 | Runs the code-block wrap when more than one line is selected, and the inline wrap otherwise. |
| Handlers.LinkInserted | src/lib/handlers.ts:16-31 | The selection, or the caret, is replaced by `[text](url)` (`![text](url)` for an image). The text is the selected text, or the placeholder when none is selected. |
| Handlers.LinkSelectsUrl | src/lib/handlers.ts:21 | Afterwards the URL placeholder is selected. |
| Handlers.LinkCommandHandler | src/lib/handlers.ts:16-22 | The textarea afterwards is the link insertion. |
| Handlers.ImageCommandHandler | src/lib/handlers.ts:24-31 | The textarea afterwards is the image insertion. |
| Handlers.CaretLine | src/lib/handlers.ts:35 | Without a selection, `[cursor.position.line]` is the one line `replaceCurrentLines` works on. |
| Handlers.OrderedListNumbers | src/lib/handlers.ts:33-41 | When some current line has no ordered marker, line `k` of the block becomes `k+1. ` and its text, and nothing else changes. |
| Handlers.OrderedListUnnumbers | src/lib/handlers.ts:33-41 | When every current line has an ordered marker, the first match on each is cut out. |
| Handlers.OrderedListToggles | src/lib/handlers.ts:33-41 | Numbering lines that do not begin with a space, then running the command again, gives the lines back. |
| Handlers.OrderedListCommandHandler | src/lib/handlers.ts:33-41 | The textarea afterwards holds the current lines numbered or unnumbered as the `every` test decides, selected when there was a selection. |
| Handlers.UnorderedListBullets | src/lib/handlers.ts:43-52 | When some current line lacks the syntax, every current line gets the syntax and a space in front. |
| Handlers.UnorderedListUnbullets | src/lib/handlers.ts:43-52 | When every current line begins with the syntax and `\s`, those are taken off every line. |
| Handlers.UnorderedListToggles | src/lib/handlers.ts:43-52 | Bulleting lines that do not begin with a space, then running the command again, gives the lines back. |
| Handlers.UnorderedListCommandHandler | src/lib/handlers.ts:43-52 | The textarea afterwards holds the current lines bulleted or unbulleted. |
| Handlers.ToggleTwiceRestores | src/lib/handlers.ts:36-38 | A list command run twice gives back the value when the marker the first run added is the one the second run finds and removes. |
| Handlers.BlockQuoteMarks | src/lib/handlers.ts:78-87 | The current lines become one quote. `> ` goes in front of the first line, each line's own `>\s+` is taken off, and the placeholder fills an empty first line. The quote is selected. |
| Handlers.QuoteBodyUnquotes | src/lib/handlers.ts:83 | A line that is already quoted keeps its text and gets no second `>`. |
| Handlers.BlockQuotesCommandHandler | src/lib/handlers.ts:78-87 | The textarea afterwards holds the quoted lines. |
| Handlers.HeadlinePrefix | src/lib/handlers.ts:96 | The prefix is as long as the level clamped to 1..6, plus one, and holds neither a marker nor a newline. |
| Handlers.HeadlineSets | src/lib/handlers.ts:93-107 | The caret's line is replaced by the prefix (none when undoing) and its content, and the content is selected. The content is the line without its heading markup, or the placeholder. |
| Handlers.HeadlineToggles | src/lib/handlers.ts:93-107 | On a non-empty line without heading markup, running the command twice gives the text back. |
| Handlers.HeadlineCommandHandler | src/lib/handlers.ts:93-107 | The textarea afterwards is the headline state. |
| Extensions.LinkMarkupIndex | src/lib/extensions.ts:20-32 | `isSelectedInLinkMarkup`, with the match array holding only the match `m`, holds exactly when the selection starts before offset `\|m\|` or ends at most at `\|m\| + 1`. The entry's index 0 stands in for the position of the markup. |
| Extensions.LinkMarkupIndexAsWritten | src/lib/extensions.ts:25-30 | "hello [a](b)" with "hello" selected counts as inside link markup, so a URL pasted over it is not linked. |
| Extensions.LinkPasteLinks | src/lib/extensions.ts:34-55 | A URL pasted over a selection outside link markup replaces it by `[selected](url) ` (`![selected](url) ` for an image URL), and the caret ends after the trailing space. |
| Extensions.LinkPasteListener | src/lib/extensions.ts:12-56 | Prevents the default paste exactly when the paste applies, and leaves `LinkPasted`, which changes nothing when the paste does not apply. |
| Extensions.TabInsertsIndent | src/lib/extensions.ts:74-76 | With no selection, `tab` puts four spaces at the caret and the caret after them. |
| Extensions.TabIndentsLines | src/lib/extensions.ts:77-80 | With a selection, `tab` puts four spaces in front of every current line, changes no other line, and selects the lines. |
| Extensions.ShiftTabOutdents | src/lib/extensions.ts:83-89 | `shift+tab` takes up to four leading `\s` off every current line and changes no other line. |
| Extensions.TabShiftTabRestores | src/lib/extensions.ts:70-89 | `tab` then `shift+tab` on a selection gives the value back. |
| Extensions.TabListener | src/lib/extensions.ts:70-81 | Always prevents the default, and leaves the `tab` state. |
| Extensions.ShiftTabListener | src/lib/extensions.ts:83-89 | Always prevents the default, and leaves the outdented state. |
| Extensions.CaretLineAt | src/lib/extensions.ts:111 | `lineAt(position.line.lineNumber)` finds the caret's line. |
| Extensions.ListWrapBlank | src/lib/extensions.ts:121-125 | On a blank list line, Enter is not taken over: the line is emptied, the caret is put on it, and nothing else changes. |
| Extensions.ListWrapContinues | src/lib/extensions.ts:131-141 | On a list line with content, Enter is taken over and inserts the continuation in place of the selection, with the caret after it. |
| Extensions.ListWrapAtLineEnd | src/lib/extensions.ts:131-141 | With the caret at the end of a list line, Enter inserts a newline, the line's indent as spaces, the next marker and a space. |
| Extensions.BulletContinues | src/lib/extensions.ts:133-139 | A bullet is carried to the new line unchanged, with the same indent. |
| Extensions.ContinuationAsWritten | src/lib/extensions.ts:136 | The text after the caret is read from the line at the absolute `selectionEnd`, so on a later line it is cut wrongly. |
| Extensions.ListWrappingListener | src/lib/extensions.ts:100-142 | Takes Enter over exactly on a list line that holds more than its marker, and leaves `ListWrapped`. |
| Extensions.ListWrapped | src/lib/extensions.ts:100-119 | Other keys than Enter, and lines that are not list lines, change nothing. |
| Extensions.LineRemoveDeletes | src/lib/extensions.ts:153-158 | On an empty line after the first, meta+backspace drops that line and the newline before it. The caret ends after the lines before it. |
| Extensions.LineRemoveFirstAsWritten | src/lib/extensions.ts:154-156 | On an empty first line the value loses its last character and has itself appended. |
| Extensions.LineRemoveListener | src/lib/extensions.ts:153-158 | Prevents the default exactly on an empty caret line, and leaves `LineRemoved`. |
| Commands.BuiltInOrder | src/lib/commands.ts:18-90 | The table holds seventeen entries, named in the order of the array literal. |
| Commands.BuiltInNamesDistinct | src/lib/commands.ts:18-90 | No two built-in entries share a name. |
| Commands.BuiltInIndex | src/lib/bootstrap.ts:80 | `findIndex` by a built-in name finds the one entry with that name. |
| Commands.BoldItalicShortcuts | src/lib/commands.ts:19-28 | bold is bound to `command+b` and `ctrl+b`, and italic to `command+i` and `ctrl+i`. |
| Commands.StrikeThroughShortcuts | src/lib/commands.ts:61-65 | strike-through is bound to `command+shift+x`, `ctrl+shift+x` and `alt+shift+f5`. |
| Commands.OnlyThreeShortcuts | src/lib/commands.ts:18-90 | Only bold, italic and strike-through carry a shortcut. |
| Commands.HeadlineEntries | src/lib/commands.ts:66-89 | Entry `hN` runs the headline handler of level `N`, for `N` from 1 to 6. |
| Commands.BuiltInHandlersOnly | src/lib/commands.ts:18-90 | Every built-in entry runs a built-in handler, and none sets `enable`. |
| Commands.RunBuiltIn | src/lib/bootstrap.ts:40 | Running a built-in handler leaves the state that handler specifies. |
| Bootstrap.Merged | src/lib/bootstrap.ts:75-99 | A merge that does not throw yields at least the seventeen built-in entries. |
| Bootstrap.MergedCommandsList | src/lib/bootstrap.ts:75-99 | The in-place array update returns `Merged` of the user commands. |
| Bootstrap.MergedFails | src/lib/bootstrap.ts:91-93 | The merge throws exactly when some user command has neither a built-in name nor a handler function, and then with the custom-command message. |
| Bootstrap.MergedShape | src/lib/bootstrap.ts:78-95 | A merge that does not throw keeps the built-in entries in their places with their names and handlers. Each takes `enable` and `shortcut` from the last user command of its name. The other user commands follow, in order. |
| Bootstrap.MergedKeepsBuiltIns | src/lib/bootstrap.ts:82-89 | Whatever the user passes, the first seventeen entries keep the built-in names and handlers, in order. |
| Bootstrap.Triggered | src/lib/bootstrap.ts:27-41 | `trigger` throws exactly when no command has that name. |
| Bootstrap.TriggerBuiltIn | src/lib/bootstrap.ts:27-41 | After a merge that does not throw, a built-in name runs the built-in handler, unless the last user command of that name disables it. |
| Bootstrap.TriggerCustom | src/lib/bootstrap.ts:27-41 | After a merge that does not throw, a name that is not built in runs the handler of the last user command of that name, unless that command is disabled. |
| Bootstrap.TriggerMissing | src/lib/bootstrap.ts:30-32 | A name no command has is undefined. |
| Bootstrap.HandlerOptionsAsWritten | src/lib/handlers.ts:5-44 | The defaults hold none of the keys the handlers read for the bold, italic and unordered-list syntaxes and the link and image placeholders, so the merged value under each is the user's. Bold and italic throw exactly when the user's syntax is `null` or `undefined`. Unordered-list throws exactly when the user's syntax is not a string. |
| Bootstrap.DefaultConfigHandlersThrow | src/lib/types.ts:66-80 | With the default configuration, bold, italic and unordered-list throw, and strike-through does not. |
| Bootstrap.MergeOptions | src/lib/bootstrap.ts:25 | `{ ...defaults, ...user }`: every key of either. The user's value wins, even `undefined`. |
| Bootstrap.InstalledIffEnabled | src/lib/bootstrap.ts:56-61 | An extension is installed exactly when its option is truthy, unless installing throws. |
| Bootstrap.ImportNamesAsWritten | src/lib/bootstrap.ts:4 | Switching on the indent or prefix-wrapping extension makes bootstrapping throw, because those imports are undefined. |
| Bootstrap.MergedAsWritten | src/lib/bootstrap.ts:75-99 | As written (`BUILT_IN_COMMANDS` undefined), the merge succeeds exactly on an empty list of user commands, and then gives the built-in table. |
| Bootstrap.MergedAsWrittenThrows | src/lib/bootstrap.ts:11 | For every non-empty list of valid user commands the as-written merge throws while `Merged` succeeds. |
| Bootstrap.DefaultsInstallNothing | src/lib/bootstrap.ts:25 | Without user options, no extension is installed. |
| Bootstrap.BoundNames | src/lib/bootstrap.ts:44-53 | A name is bound exactly when some command of that name has a truthy shortcut. |
| Bootstrap.Session.Trigger | src/lib/bootstrap.ts:27-41 | Throws for an unknown name and does nothing for a disabled command. Otherwise it runs the handler once, and a built-in one edits the textarea as specified. |
| Bootstrap.Session.Dispose | src/lib/bootstrap.ts:64-67 | Resets the key bindings and calls every installed extension's cleanup once, in installation order. The installed extensions are kept, as the constant array is. |
| Bootstrap.Session.DisposeTwice | src/lib/bootstrap.ts:64-67 | A second `dispose` calls every cleanup again, in the same order. |
| Bootstrap.BootstrapTextareaMarkdown | src/lib/bootstrap.ts:20-73 | Merges the commands (which may throw), merges the options, binds the shortcuts and installs the enabled extensions, in that order. The handlers get the handler options passed in, not the merged map. |
| Bootstrap.BindShortcuts | src/lib/bootstrap.ts:44-53 | The bindings made are `BoundNames` of the commands. |
| Bootstrap.InstallExtensions | src/lib/bootstrap.ts:56-61 | Calls each enabled extension in turn. The result is the first throw, if there is one, or else the installed extensions. |
| LegacyCursor.RawContent | src/lib/Cursor.ts:18-48 | `content` is the template with the `Cursor.$` tags removed and the string tags substituted. |
| LegacyCursor.RawNoMarks | src/lib/Cursor.ts:30-45 | Without `Cursor.$` tags, neither offset is set. |
| LegacyCursor.RawFirstMark | src/lib/Cursor.ts:32-45 | The first `Cursor.$` sets the start to the length of the content before it. |
| LegacyCursor.RawOneMark | src/lib/Cursor.ts:32-45 | With a single `Cursor.$` there is no end. |
| LegacyCursor.RawSecondMark | src/lib/Cursor.ts:32-45 | The second `Cursor.$` sets the end to the length of the content before it. |
| LegacyCursor.LineNumbered | src/lib/Cursor.ts:72-74 | `lines[n]` exists exactly for `0 <= n <` the line count, and is that piece of the split value. |
| LegacyCursor.CurrentLine | src/lib/Cursor.ts:70-75 | Without a number, `getLine` reads the caret's line. |
| LegacyCursor.GetIndentSize | src/lib/Cursor.ts:77-79 | The count of leading `\s` of the line, when the line exists. The call fails otherwise. |
| LegacyCursor.GetSelected | src/lib/Cursor.ts:121-124 | The selected text. |
| LegacyCursor.PositionShape | src/lib/Cursor.ts:81-109 | The line number is the count of newlines before the caret, and the end line number likewise for the selection end. The column of the start is the caret's offset in its line. The column of the end is the start column plus the selection size, cut at the line's end. |
| LegacyCursor.SpliceKeepsLines | src/lib/Cursor.ts:126-137 | Lines `k` to `k + n - 1` are replaced by the content's lines, and the lines before and after are kept. |
| LegacyCursor.SpliceSelects | src/lib/Cursor.ts:139-144 | The selection lands on the same text inside the spliced content, past the lines before it. |
| LegacyCursor.SpliceStartLine | src/lib/Cursor.ts:130-131 | The options choose only the start line (the caret's line by default) and the count (0 by default). |
| LegacyCursor.SpliceDefaults | src/lib/Cursor.ts:126-145 | Without options the content goes in before the caret's line, and no line is removed. |
| LegacyCursor.RemovedLines | src/lib/Cursor.ts:147-151 | The value's lines afterwards are exactly the lines at unlisted indices, in their order. With every line removed, the value is empty. |
| LegacyCursor.RemoveNothing | src/lib/Cursor.ts:147-151 | Listing no index of an existing line changes nothing. |
| LegacyCursor.Cursor.SetValue | src/lib/Cursor.ts:113-119 | The textarea afterwards holds the new value, as the `value` setter leaves it. |
| LegacyCursor.Cursor.SpliceContent | src/lib/Cursor.ts:126-145 | The textarea afterwards is `Spliced` of the old state. |
| LegacyCursor.Cursor.RemoveLines | src/lib/Cursor.ts:147-151 | The textarea afterwards is `Removed` of the old state. |

## Left out

- `trimChars` in `src/lib/utils.ts`: no part of the modelled core calls it.
- `getClipboardText`: it reads the browser clipboard asynchronously. The paste listener takes the clipboard text as a parameter.
- `src/lib/utils.ts` does not define `findLast`, `isBtwOrEq`, `fireInput` or `getIncrementedOrderedListPrefix`, although other files import them.
  - Their definitions are not part of this model.
  - `Utils.FindLast` and `Utils.IsBtwOrEq` are modelled from how they are used.
  - The next-marker function for ordered lists is a parameter of the Enter listener.
- Focus, `fireInput`, `reactTriggerChange`, the `NODE_ENV` test branch and `console.error` are left out. Writing the value is the `value` setter.
- `selectionDirection` is not modelled.
- The URL and image-URL regular expressions are parameters of the paste listener, as predicates on the clipboard text.
- Mousetrap and event listeners:
  - The key binder is modelled as the list of bound names.
  - `shortcutPreventDefault` and the key event are not modelled.
  - The listeners attached before a throw in `bootstrapTextareaMarkdown` are not modelled.
- Custom handlers are known only by an identity. Their bodies are code outside the library.
- A handler that is present but is not a function is treated like a missing one.
- The `TypeError` for an undefined command name is modelled as a message, and the wording is approximate.
- `types.ts` does not export `BUILT_IN_COMMANDS`; it exports `WELL_KNOWN_COMMANDS` (src/lib/types.ts:9-30), 20 names. `Bootstrap.Merged` and everything built on it take `BUILT_IN_COMMANDS` to be the 17 names of the built-in table, not `WELL_KNOWN_COMMANDS`. The reason: `mergedCommandsList` looks a name up with `findIndex` in the built-in table, and the three well-known names without a table entry (`next-line`, `indent`, `link-paste`) would give index -1 there and throw when `commands[-1].name` is read. That throw for those three names is not modelled. What the code does with the import undefined is `Bootstrap.MergedAsWritten`, which the bootstrap method does not use.
- Handler options are a typed record, not the full options object.
- Bootstrap.BootstrapTextareaMarkdown and Bootstrap.Session.Trigger: the handler options are a parameter of the bootstrap, not read from the merged options. The model therefore covers a configuration that gives every key a handler reads a string. The throws and the `undefined` placeholders that the default configuration causes are stated only by `Bootstrap.HandlerOptionsAsWritten` and `Bootstrap.DefaultConfigHandlersThrow`. `trigger` does not return them.
- `trigger` is asynchronous in the source. The model runs it to completion.
- Numbers are unbounded integers. Floating-point offsets and non-integer options are not modelled.
- Strings are sequences of Unicode code points, and every offset counts code points. JavaScript counts UTF-16 code units. Offsets therefore agree with the source only on text without characters outside the Basic Multilingual Plane. A caret inside a surrogate pair cannot be expressed.
- Host.ToUnsignedLong: only negative offsets are reduced modulo 2^32 as WebIDL does. A non-negative offset of 2^32 or more is kept as it is, where WebIDL would reduce it too.
- The `Date.now()` sentinel of `Cursor.raw` is assumed not to occur in the template's strings.
- Handlers.HeadlinePrefix: levels above 6 are clamped as written, but `needUndo` compares `level + 1` characters, and nothing is proved about levels outside 1 to 6.
- The placeholders and markups given to the handlers are assumed to hold no `\u0000` marker in the lemmas about them. The methods themselves take any text.
- LegacyCursor.SpliceKeepsLines: nothing is proved for a negative `startLineNumber` or a negative `replaceCount`. With a negative `replaceCount`, `lines.slice(startLineNumber + replaceCount)` repeats lines before the content. The method and `Spliced` still model both cases.
- LegacyCursor.GetIndentSize: `None` stands for the `TypeError` that `getLine` returning `undefined` causes.
