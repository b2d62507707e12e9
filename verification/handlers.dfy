/**
  The command handlers of src/lib/handlers.ts. Each handler reads the cursor, works out the
  strings it needs, and makes one editing call on the cursor: `wrap`, `insert`,
  `replaceCurrentLines` or `replaceLine`. Each is a method on a `Cursor` whose new state is a
  function of the old one; the lemmas say what that function does to the text.
 */
module Handlers {
  import opened Wrappers
  import opened Strings
  import opened Host
  import opened CursorGeometry
  import opened TextCursor
  import opened Utils
  import opened Patterns

  /** `headlinePlaceholder`: one text for every level, or a function of the level. */
  datatype HeadlinePlaceholder = Fixed(text: string) | PerLevel(byLevel: int -> string)

  /** The options the handlers read, under the names the handlers use. */
  datatype Options = Options(
    preferredBoldSyntax: string,
    boldPlaceholder: string,
    preferredItalicSyntax: string,
    italicPlaceholder: string,
    strikeThroughPlaceholder: string,
    codeInlinePlaceholder: string,
    codeBlockPlaceholder: string,
    linkTextPlaceholder: string,
    linkUrlPlaceholder: string,
    imageTextPlaceholder: string,
    imageUrlPlaceholder: string,
    preferredUnorderedListSyntax: string,
    blockQuotesPlaceholder: string,
    headlinePlaceholder: HeadlinePlaceholder)

  // ---------------------------------------------------------------------------------------------
  // bold, italic, strike-through, code-inline, code-block: one `wrap` each

  datatype WrapCommand = Bold | Italic | StrikeThrough | CodeInline | CodeBlock

  /** The markup each wrapping command passes to `wrap`. */
  function WrapMarkup(command: WrapCommand, options: Options): Markup {
    match command
    case Bold => Symmetric(options.preferredBoldSyntax)
    case Italic => Symmetric(options.preferredItalicSyntax)
    case StrikeThrough => STRIKE_THROUGH_MARKUP
    case CodeInline => CODE_INLINE_MARKUP
    case CodeBlock => CODE_BLOCK_MARKUP
  }

  const STRIKE_THROUGH_MARKUP: Markup := Symmetric("~~")
  const CODE_INLINE_MARKUP: Markup := Symmetric("`")
  /** The fences the code-block command puts around the selection. */
  const CODE_BLOCK_MARKUP: Markup := Pair("```\n", "\n```")

  /** The placeholder each wrapping command passes to `wrap`. */
  function WrapPlaceholder(command: WrapCommand, options: Options): string {
    match command
    case Bold => options.boldPlaceholder
    case Italic => options.italicPlaceholder
    case StrikeThrough => options.strikeThroughPlaceholder
    case CodeInline => options.codeInlinePlaceholder
    case CodeBlock => options.codeBlockPlaceholder
  }

  /** The state a wrapping command leaves: `wrap` with its markup, unwrapping allowed. */
  function WrapApplied(command: WrapCommand, b: Buffer, options: Options): Buffer
    requires ValidBuffer(b)
  {
    Wrapped(b, WrapMarkup(command, options), true, WrapPlaceholder(command, options))
  }

  /** The command's markup and placeholder hold no marker. */
  predicate PlainWrap(command: WrapCommand, options: Options) {
    var markup := WrapMarkup(command, options);
    Plain(markup.Prefix()) && Plain(markup.Suffix()) && Plain(WrapPlaceholder(command, options))
  }

  /**
    When the selection is not already wrapped in the command's markup, the markup goes
    around it (around the placeholder when nothing is selected) and the inner text is selected.
   */
  lemma WrapCommandAdds(command: WrapCommand, b: Buffer, options: Options)
    requires ValidBuffer(b) && Plain(b.value) && PlainWrap(command, options)
    requires !IsSelectedWrappedWith(b, WrapMarkup(command, options))
    ensures var v, p, s := b.value, WrapMarkup(command, options).Prefix(), WrapMarkup(command, options).Suffix();
      var inner := if b.start == b.end then WrapPlaceholder(command, options) else v[b.start..b.end];
      WrapApplied(command, b, options)
        == Buffer((v[..b.start] + p) + inner + (s + v[b.end..]), b.start + |p|, b.start + |p| + |inner|)
  {
    WrapAdds(b, WrapMarkup(command, options), true, WrapPlaceholder(command, options));
  }

  /** Running a wrapping command twice on a selection gives back the value and the selection. */
  lemma WrapCommandToggles(command: WrapCommand, b: Buffer, options: Options)
    requires ValidBuffer(b) && Plain(b.value) && PlainWrap(command, options)
    requires !IsSelectedWrappedWith(b, WrapMarkup(command, options)) && b.start < b.end
    ensures WrapApplied(command, WrapApplied(command, b, options), options) == b
  {
    WrapTwiceRestores(b, WrapMarkup(command, options), WrapPlaceholder(command, options));
  }

  /** `boldCommandHandler`. */
  method BoldCommandHandler(cursor: Cursor, options: Options)
    requires cursor.element.Valid()
    modifies cursor.element
    ensures cursor.element.Valid()
    ensures cursor.element.State() == WrapApplied(Bold, old(cursor.element.State()), options)
  {
    cursor.Wrap(WrapMarkup(Bold, options), true, WrapPlaceholder(Bold, options));
  }

  /** `italicCommandHandler`. */
  method ItalicCommandHandler(cursor: Cursor, options: Options)
    requires cursor.element.Valid()
    modifies cursor.element
    ensures cursor.element.Valid()
    ensures cursor.element.State() == WrapApplied(Italic, old(cursor.element.State()), options)
  {
    cursor.Wrap(WrapMarkup(Italic, options), true, WrapPlaceholder(Italic, options));
  }

  /** `strikeThroughCommandHandler`. */
  method StrikeThroughCommandHandler(cursor: Cursor, options: Options)
    requires cursor.element.Valid()
    modifies cursor.element
    ensures cursor.element.Valid()
    ensures cursor.element.State() == WrapApplied(StrikeThrough, old(cursor.element.State()), options)
  {
    cursor.Wrap(WrapMarkup(StrikeThrough, options), true, WrapPlaceholder(StrikeThrough, options));
  }

  /** `codeInlineCommandHandler`. */
  method CodeInlineCommandHandler(cursor: Cursor, options: Options)
    requires cursor.element.Valid()
    modifies cursor.element
    ensures cursor.element.Valid()
    ensures cursor.element.State() == WrapApplied(CodeInline, old(cursor.element.State()), options)
  {
    cursor.Wrap(WrapMarkup(CodeInline, options), true, WrapPlaceholder(CodeInline, options));
  }

  /** `codeBlockCommandHandler`. */
  method CodeBlockCommandHandler(cursor: Cursor, options: Options)
    requires cursor.element.Valid()
    modifies cursor.element
    ensures cursor.element.Valid()
    ensures cursor.element.State() == WrapApplied(CodeBlock, old(cursor.element.State()), options)
  {
    cursor.Wrap(WrapMarkup(CodeBlock, options), true, WrapPlaceholder(CodeBlock, options));
  }

  // ---------------------------------------------------------------------------------------------
  // code: a block when the selection spans lines, inline otherwise

  /** The command `codeCommandHandler` hands over to: a block for more than one selected line. */
  function CodeCommand(b: Buffer): WrapCommand
    requires ValidBuffer(b)
  {
    var selectedLines := if SelectionOf(b).Some? then SelectionOf(b).value.lines else [];
    if |selectedLines| > 1 then CodeBlock else CodeInline
  }

  /** The selection spans more than one line exactly when the selected text holds a newline. */
  lemma CodeBlockIffNewline(b: Buffer)
    requires ValidBuffer(b)
    ensures CodeCommand(b) == CodeBlock <==> '\n' in b.value[b.start..b.end]
  {
    var v := b.value;
    if b.start < b.end {
      SelectionLines(b);
      assert v[..b.end] == v[..b.start] + v[b.start..b.end];
      CountAppend(v[..b.start], v[b.start..b.end], '\n');
      if '\n' in v[b.start..b.end] {
        CountPresent(v[b.start..b.end], '\n');
      } else {
        CountAbsent(v[b.start..b.end], '\n');
      }
    }
  }

  /** `codeCommandHandler`. */
  method CodeCommandHandler(cursor: Cursor, options: Options)
    requires cursor.element.Valid()
    modifies cursor.element
    ensures cursor.element.Valid()
    ensures var b := old(cursor.element.State());
      cursor.element.State() == WrapApplied(CodeCommand(b), b, options)
  {
    var selection := SelectionOf(cursor.element.State());
    var selectedLines := if selection.Some? then selection.value.lines else [];
    if |selectedLines| > 1 {
      CodeBlockCommandHandler(cursor, options);
    } else {
      CodeInlineCommandHandler(cursor, options);
    }
  }

  // ---------------------------------------------------------------------------------------------
  // link, image

  /** `cursor.selection?.text || placeholder`. */
  function LinkText(b: Buffer, placeholder: string): (text: string)
    requires ValidBuffer(b)
    ensures b.start < b.end ==> text == b.value[b.start..b.end]
    ensures b.start == b.end ==> text == placeholder
  {
    var selection := SelectionOf(b);
    if selection.Some? && selection.value.text != "" then selection.value.text else placeholder
  }

  /** What comes before the url: `[text](`, or `![text](` for an image. */
  function LinkOpening(image: bool, text: string): string {
    (if image then "![" else "[") + text + "]("
  }

  /** The markup `linkCommandHandler` (and, with `image`, `imageCommandHandler`) inserts: the url between markers. */
  function LinkMarkup(image: bool, text: string, url: string): string {
    LinkOpening(image, text) + [MARKER] + url + [MARKER] + ")"
  }

  /** The state the link or image command leaves. */
  function Linked(b: Buffer, image: bool, textPlaceholder: string, url: string): Buffer
    requires ValidBuffer(b)
  {
    Inserted(b, LinkMarkup(image, LinkText(b, textPlaceholder), url))
  }

  /**
    The selection (or the caret) is replaced by `[text](url)`, or `![text](url)` for an image,
    where the text is the selected text or the placeholder; the url is then selected.
   */
  lemma LinkInserted(b: Buffer, image: bool, textPlaceholder: string, url: string)
    requires ValidBuffer(b) && MARKER !in b.value && MARKER !in textPlaceholder && MARKER !in url
    ensures var v, x := b.value, LinkOpening(image, LinkText(b, textPlaceholder));
      Linked(b, image, textPlaceholder, url)
        == Buffer(v[..b.start] + x + url + ")" + v[b.end..], b.start + |x|, b.start + |x| + |url|)
  {
    var v, text := b.value, LinkText(b, textPlaceholder);
    assert MARKER !in text by {
      assert forall c :: c in v[b.start..b.end] ==> c in v;
    }
    InsertMarked(b, LinkOpening(image, text), url, ")");
  }

  /** After the link or image command, the selected text is the url. */
  lemma LinkSelectsUrl(b: Buffer, image: bool, textPlaceholder: string, url: string)
    requires ValidBuffer(b) && MARKER !in b.value && MARKER !in textPlaceholder && MARKER !in url
    ensures var r := Linked(b, image, textPlaceholder, url);
      r.start <= r.end <= |r.value| && r.value[r.start..r.end] == url
  {
    var v, x := b.value, LinkOpening(image, LinkText(b, textPlaceholder));
    LinkInserted(b, image, textPlaceholder, url);
    SelectsMiddle(Linked(b, image, textPlaceholder, url), v[..b.start] + x, url, ")", v[b.end..]);
  }

  /** A buffer holding `a + m + c + d` with `m` selected. */
  lemma SelectsMiddle(r: Buffer, a: string, m: string, c: string, d: string)
    requires r == Buffer(a + m + c + d, |a|, |a| + |m|)
    ensures r.start <= r.end <= |r.value| && r.value[r.start..r.end] == m
  {
    Middle(a, m, c, d);
  }

  /** `linkCommandHandler`. */
  method LinkCommandHandler(cursor: Cursor, options: Options)
    requires cursor.element.Valid()
    modifies cursor.element
    ensures cursor.element.Valid()
    ensures cursor.element.State()
      == Linked(old(cursor.element.State()), false, options.linkTextPlaceholder, options.linkUrlPlaceholder)
  {
    var selection := SelectionOf(cursor.element.State());
    var linkText := if selection.Some? && selection.value.text != "" then selection.value.text else options.linkTextPlaceholder;
    var linkUrl := options.linkUrlPlaceholder;
    cursor.Insert("[" + linkText + "](" + [MARKER] + linkUrl + [MARKER] + ")");
  }

  /** `imageCommandHandler`. */
  method ImageCommandHandler(cursor: Cursor, options: Options)
    requires cursor.element.Valid()
    modifies cursor.element
    ensures cursor.element.Valid()
    ensures cursor.element.State()
      == Linked(old(cursor.element.State()), true, options.imageTextPlaceholder, options.imageUrlPlaceholder)
  {
    var selection := SelectionOf(cursor.element.State());
    var imageText := if selection.Some? && selection.value.text != "" then selection.value.text else options.imageTextPlaceholder;
    var imageUrl := options.imageUrlPlaceholder;
    cursor.Insert("![" + imageText + "](" + [MARKER] + imageUrl + [MARKER] + ")");
  }

  // ---------------------------------------------------------------------------------------------
  // ordered-list, unordered-list: a marker put on every current line, or taken off every line

  /** `cursor.selection?.lines ?? [cursor.position.line]`: the current lines. */
  function AffectedLines(b: Buffer): (lines: seq<Line>)
    requires ValidBuffer(b)
    ensures lines == CurrentLines(b) == CurrentBlock(b)
  {
    if SelectionOf(b).Some? then SelectionOf(b).value.lines
    else
      CaretLine(b);
      [PositionOf(b).line]
  }

  /** Without a selection, the caret's line is the one line `replaceCurrentLines` works on. */
  lemma CaretLine(b: Buffer)
    requires ValidBuffer(b) && b.start == b.end
    ensures [PositionOf(b).line] == CurrentLines(b)
  {
    var ls, pos := Lines(b.value), PositionOf(b);
    LinesPartition(b.value);
    var k :| 0 <= k < |ls| && ls[k] == pos.line;
    assert k == LineIndex(b.value, b.start);
  }

  /** `lines.every((line) => re.test(line.text))`. */
  predicate Every(lines: seq<Line>, test: string -> bool) {
    forall line :: line in lines ==> test(line.text)
  }

  /** `add` makes texts that pass `test`. */
  predicate Marks(test: string -> bool, add: (string, nat) -> string, block: seq<string>) {
    forall k :: 0 <= k < |block| ==> test(add(block[k], k))
  }

  /**
    The state a list command leaves: when every current line passes `test`, each is mapped by
    `remove`, otherwise each is mapped by `add`; the lines are selected when text was selected.
   */
  function Toggled(b: Buffer, test: string -> bool, add: (string, nat) -> string, remove: (string, nat) -> string): Buffer
    requires ValidBuffer(b)
  {
    var needUndo := Every(CurrentBlock(b), test);
    ReplacedCurrentLines(b, LineMap(if needUndo then remove else add), b.start != b.end)
  }

  /** When some current line fails the test, `add` maps every current line and nothing else changes. */
  lemma ToggleAdds(b: Buffer, test: string -> bool, add: (string, nat) -> string, remove: (string, nat) -> string)
    requires ValidBuffer(b) && MARKER !in b.value && LineSafe(add)
    requires !Every(CurrentBlock(b), test)
    ensures Spliced(Toggled(b, test, add, remove), Split(b.value, '\n'), LineIndex(b.value, b.start),
      LineIndex(b.value, b.end), MappedBlock(b, add), b.start != b.end)
  {
    ToggledWith(b, test, add, remove);
    MappedLines(b, add, b.start != b.end);
  }

  /** When every current line passes the test, `remove` maps every current line and nothing else changes. */
  lemma ToggleRemoves(b: Buffer, test: string -> bool, add: (string, nat) -> string, remove: (string, nat) -> string)
    requires ValidBuffer(b) && MARKER !in b.value && LineSafe(remove)
    requires Every(CurrentBlock(b), test)
    ensures Spliced(Toggled(b, test, add, remove), Split(b.value, '\n'), LineIndex(b.value, b.start),
      LineIndex(b.value, b.end), MappedBlock(b, remove), b.start != b.end)
  {
    ToggledWith(b, test, add, remove);
    MappedLines(b, remove, b.start != b.end);
  }

  /** The callback a list command hands to `replaceCurrentLines`. */
  lemma ToggledWith(b: Buffer, test: string -> bool, add: (string, nat) -> string, remove: (string, nat) -> string)
    requires ValidBuffer(b)
    ensures Toggled(b, test, add, remove)
      == ReplacedCurrentLines(b, LineMap(if Every(CurrentBlock(b), test) then remove else add), b.start != b.end)
  {
  }

  /** After `add` has mapped the current lines, they are again the current lines, and all pass the test. */
  lemma ToggleMarks(b: Buffer, test: string -> bool, add: (string, nat) -> string, remove: (string, nat) -> string)
    requires ValidBuffer(b) && MARKER !in b.value && LineSafe(add)
    requires !Every(CurrentBlock(b), test)
    requires var ts, i, j := Split(b.value, '\n'), LineIndex(b.value, b.start), LineIndex(b.value, b.end);
      i <= j < |ts| ==> Marks(test, add, ts[i..j + 1])
    ensures var r := Toggled(b, test, add, remove);
      ValidBuffer(r) && Every(CurrentBlock(r), test)
  {
    ToggledWith(b, test, add, remove);
    AddedMarks(b, test, add);
  }

  /** The mapped lines pass the test, and they are the current lines afterwards. */
  lemma AddedMarks(b: Buffer, test: string -> bool, add: (string, nat) -> string)
    requires ValidBuffer(b) && MARKER !in b.value && LineSafe(add)
    requires var ts, i, j := Split(b.value, '\n'), LineIndex(b.value, b.start), LineIndex(b.value, b.end);
      i <= j < |ts| ==> Marks(test, add, ts[i..j + 1])
    ensures var r := ReplacedCurrentLines(b, LineMap(add), b.start != b.end);
      ValidBuffer(r) && Every(CurrentBlock(r), test)
  {
    MappedLinesReselect(b, add, b.start != b.end);
    MarkedEvery(b, test, add, ReplacedCurrentLines(b, LineMap(add), b.start != b.end));
  }

  /** A buffer holding the mapped lines as its current lines, when the mapped lines pass the test. */
  lemma MarkedEvery(b: Buffer, test: string -> bool, add: (string, nat) -> string, r: Buffer)
    requires ValidBuffer(b)
    requires Reselected(r, Split(b.value, '\n'), LineIndex(b.value, b.start), LineIndex(b.value, b.end), MappedBlock(b, add)) == true
    requires var ts, i, j := Split(b.value, '\n'), LineIndex(b.value, b.start), LineIndex(b.value, b.end);
      i <= j < |ts| ==> Marks(test, add, ts[i..j + 1])
    ensures ValidBuffer(r) && Every(CurrentBlock(r), test)
  {
    var ts, i, j := Split(b.value, '\n'), LineIndex(b.value, b.start), LineIndex(b.value, b.end);
    MarksMapped(b, test, add);
    ReselectedBlock(r, ts, i, j, MappedBlock(b, add));
    EveryOf(CurrentBlock(r), MappedBlock(b, add), test);
  }

  /** The mapped lines pass the test. */
  lemma MarksMapped(b: Buffer, test: string -> bool, add: (string, nat) -> string)
    requires ValidBuffer(b)
    requires var ts, i, j := Split(b.value, '\n'), LineIndex(b.value, b.start), LineIndex(b.value, b.end);
      i <= j < |ts| ==> Marks(test, add, ts[i..j + 1])
    ensures forall k :: 0 <= k < |MappedBlock(b, add)| ==> test(MappedBlock(b, add)[k])
  {
    var ts, i, j := Split(b.value, '\n'), LineIndex(b.value, b.start), LineIndex(b.value, b.end);
    LineIndexBound(b.value, b.start, b.end);
    var block := ts[i..j + 1];
    MarksBlock(test, add, block);
    assert MappedBlock(b, add) == MapTexts(add, block);
  }

  /** Every text mapped by `add` passes the test. */
  lemma MarksBlock(test: string -> bool, add: (string, nat) -> string, block: seq<string>)
    requires Marks(test, add, block)
    ensures forall k :: 0 <= k < |MapTexts(add, block)| ==> test(MapTexts(add, block)[k])
  {
    var mid := MapTexts(add, block);
    forall k | 0 <= k < |mid|
      ensures test(mid[k])
    {
      assert mid[k] == add(block[k], k);
    }
  }

  /** The current lines of a reselected buffer hold the block spliced in. */
  lemma ReselectedBlock(r: Buffer, ts: seq<string>, i: nat, j: nat, mid: seq<string>)
    requires Reselected(r, ts, i, j, mid) == true && |mid| == j - i + 1
    ensures ValidBuffer(r) && Texts(CurrentBlock(r)) == mid
  {
    CurrentTexts(r);
    SpliceMiddle(ts, i, j, mid);
  }

  /** Lines whose texts all pass the test. */
  lemma EveryOf(lines: seq<Line>, texts: seq<string>, test: string -> bool)
    requires Texts(lines) == texts
    requires forall k :: 0 <= k < |texts| ==> test(texts[k])
    ensures Every(lines, test)
  {
    forall line | line in lines
      ensures test(line.text)
    {
      var k :| 0 <= k < |lines| && lines[k] == line;
      assert line.text == texts[k];
    }
  }

  /**
    A list command run twice gives back the value when the first run added the marker and the
    marker it added is the one the second run finds and takes off again.
   */
  lemma ToggleTwiceRestores(b: Buffer, test: string -> bool, add: (string, nat) -> string, remove: (string, nat) -> string)
    requires ValidBuffer(b) && MARKER !in b.value && LineSafe(add) && LineSafe(remove)
    requires !Every(CurrentBlock(b), test)
    requires var ts, i, j := Split(b.value, '\n'), LineIndex(b.value, b.start), LineIndex(b.value, b.end);
      i <= j < |ts| ==> Marks(test, add, ts[i..j + 1]) && Undoes(remove, add, ts[i..j + 1])
    ensures var r := Toggled(b, test, add, remove);
      ValidBuffer(r) && Toggled(r, test, add, remove).value == b.value
  {
    var r := Toggled(b, test, add, remove);
    ToggleMarks(b, test, add, remove);
    MapTwiceRestores(b, add, remove, b.start != b.end, r.start != r.end);
  }

  /** `line.text.replace(re, '')` for the ordered-list marker. */
  function Unnumbered(t: string, k: nat): string {
    RemoveOrderedMarker(t)
  }

  /** `orderedListCommandHandler`'s effect. */
  function OrderedListed(b: Buffer): Buffer
    requires ValidBuffer(b)
  {
    Toggled(b, HasOrderedMarker, Numbered, Unnumbered)
  }

  lemma NumberingSafe()
    ensures LineSafe(Numbered) && LineSafe(Unnumbered)
  {
    forall t: string, k: nat | MARKER !in t && '\n' !in t
      ensures MARKER !in Numbered(t, k) && '\n' !in Numbered(t, k)
    {
      var d := NatToString(k + 1);
      assert forall c :: c in d ==> IsDigit(c);
      assert Numbered(t, k) == d + ". " + t;
    }
  }

  /**
    When some current line has no ordered-list marker, line `k` of the block (counted from 0)
    becomes `k+1. ` followed by its text, and nothing else changes.
   */
  lemma OrderedListNumbers(b: Buffer)
    requires ValidBuffer(b) && MARKER !in b.value
    requires !Every(CurrentBlock(b), HasOrderedMarker)
    ensures var ts, i, j := Split(b.value, '\n'), LineIndex(b.value, b.start), LineIndex(b.value, b.end);
      i <= j < |ts| && Spliced(OrderedListed(b), ts, i, j, MapTexts(Numbered, ts[i..j + 1]), b.start < b.end)
  {
    NumberingSafe();
    ToggleAdds(b, HasOrderedMarker, Numbered, Unnumbered);
  }

  /** When every current line has an ordered-list marker, the first marker on each is cut out. */
  lemma OrderedListUnnumbers(b: Buffer)
    requires ValidBuffer(b) && MARKER !in b.value
    requires Every(CurrentBlock(b), HasOrderedMarker)
    ensures var ts, i, j := Split(b.value, '\n'), LineIndex(b.value, b.start), LineIndex(b.value, b.end);
      i <= j < |ts| && Spliced(OrderedListed(b), ts, i, j, MapTexts(Unnumbered, ts[i..j + 1]), b.start < b.end)
  {
    NumberingSafe();
    ToggleRemoves(b, HasOrderedMarker, Numbered, Unnumbered);
  }

  /** The texts of lines none of which begins with a space. */
  lemma UnspacedTexts(lines: seq<Line>, texts: seq<string>)
    requires texts == Texts(lines)
    requires forall line :: line in lines ==> !StartsWithSpace(line.text)
    ensures forall k :: 0 <= k < |texts| ==> !StartsWithSpace(texts[k])
  {
    forall k | 0 <= k < |texts| ensures !StartsWithSpace(texts[k]) {
      assert lines[k] in lines;
    }
  }

  /** Numbered texts carry the marker, and unnumbering gives texts that do not begin with a space back. */
  lemma NumberedBlock(block: seq<string>)
    requires forall k :: 0 <= k < |block| ==> !StartsWithSpace(block[k])
    ensures Marks(HasOrderedMarker, Numbered, block) && Undoes(Unnumbered, Numbered, block)
  {
    forall k | 0 <= k < |block|
      ensures HasOrderedMarker(Numbered(block[k], k)) && Unnumbered(Numbered(block[k], k), k) == block[k]
    {
      NumberedMarker(block[k], k);
    }
  }

  /**
    Numbering lines that do not begin with a space and then running the command again gives
    the lines back.
   */
  lemma OrderedListToggles(b: Buffer)
    requires ValidBuffer(b) && MARKER !in b.value
    requires !Every(CurrentBlock(b), HasOrderedMarker)
    requires forall line :: line in CurrentBlock(b) ==> !StartsWithSpace(line.text)
    ensures ValidBuffer(OrderedListed(b)) && OrderedListed(OrderedListed(b)).value == b.value
  {
    var ts, i, j := Split(b.value, '\n'), LineIndex(b.value, b.start), LineIndex(b.value, b.end);
    CurrentTexts(b);
    UnspacedTexts(CurrentBlock(b), ts[i..j + 1]);
    NumberedBlock(ts[i..j + 1]);
    NumberingSafe();
    ToggleTwiceRestores(b, HasOrderedMarker, Numbered, Unnumbered);
  }

  /** The callback a list command builds from the lines it looks at is the one `Toggled` uses. */
  lemma ListCallback(b: Buffer, lines: seq<Line>, test: string -> bool, add: (string, nat) -> string, remove: (string, nat) -> string)
    requires ValidBuffer(b) && lines == AffectedLines(b)
    ensures Toggled(b, test, add, remove)
      == ReplacedCurrentLines(b, LineMap(if Every(lines, test) then remove else add), SelectionOf(b).Some?)
  {
    ToggledWith(b, test, add, remove);
  }

  lemma OrderedListCallback(b: Buffer, lines: seq<Line>)
    requires ValidBuffer(b) && lines == AffectedLines(b)
    ensures Every(lines, HasOrderedMarker) ==> OrderedListed(b) == ReplacedCurrentLines(b, LineMap(Unnumbered), SelectionOf(b).Some?)
    ensures !Every(lines, HasOrderedMarker) ==> OrderedListed(b) == ReplacedCurrentLines(b, LineMap(Numbered), SelectionOf(b).Some?)
  {
    ListCallback(b, lines, HasOrderedMarker, Numbered, Unnumbered);
  }

  /** `orderedListCommandHandler`. */
  method OrderedListCommandHandler(cursor: Cursor)
    requires cursor.element.Valid()
    modifies cursor.element
    ensures cursor.element.Valid()
    ensures cursor.element.State() == OrderedListed(old(cursor.element.State()))
  {
    var b := cursor.element.State();
    var selection := SelectionOf(b);
    var lines := if selection.Some? then selection.value.lines else [PositionOf(b).line];
    var needUndo := Every(lines, HasOrderedMarker);
    OrderedListCallback(b, lines);
    if needUndo {
      cursor.ReplaceCurrentLines(LineMap(Unnumbered), selection.Some?);
    } else {
      cursor.ReplaceCurrentLines(LineMap(Numbered), selection.Some?);
    }
  }

  /** `re.test(text)` for `^syntax\s+`, the syntax escaped and so read as it is written. */
  function HasBullet(syntax: string): string -> bool {
    (text: string) => PrefixMarker(text, syntax).Some?
  }

  /** `${syntax} ${line.text}`. */
  function Bulleted(syntax: string): (string, nat) -> string {
    (text: string, index: nat) => syntax + " " + text
  }

  /** `line.text.replace(re, '')` for `^syntax\s+`. */
  function Unbulleted(syntax: string): (string, nat) -> string {
    (text: string, index: nat) => RemovePrefixMarker(text, syntax)
  }

  /** `unorderedListCommandHandler`'s effect. */
  function UnorderedListed(b: Buffer, syntax: string): Buffer
    requires ValidBuffer(b)
  {
    Toggled(b, HasBullet(syntax), Bulleted(syntax), Unbulleted(syntax))
  }

  lemma BulletingSafe(syntax: string)
    requires MARKER !in syntax && '\n' !in syntax
    ensures LineSafe(Bulleted(syntax)) && LineSafe(Unbulleted(syntax))
  {
    UnbulletingSafe(syntax);
  }

  lemma UnbulletingSafe(syntax: string)
    ensures LineSafe(Unbulleted(syntax))
  {
  }

  /** When some current line lacks the syntax, every current line gets it and a space in front. */
  lemma UnorderedListBullets(b: Buffer, syntax: string)
    requires ValidBuffer(b) && MARKER !in b.value && MARKER !in syntax && '\n' !in syntax
    requires !Every(CurrentBlock(b), HasBullet(syntax))
    ensures var ts, i, j := Split(b.value, '\n'), LineIndex(b.value, b.start), LineIndex(b.value, b.end);
      i <= j < |ts| && Spliced(UnorderedListed(b, syntax), ts, i, j, MapTexts(Bulleted(syntax), ts[i..j + 1]), b.start < b.end)
  {
    BulletingSafe(syntax);
    ToggleAdds(b, HasBullet(syntax), Bulleted(syntax), Unbulleted(syntax));
  }

  /** When every current line begins with the syntax and a space, those are taken off every line. */
  lemma UnorderedListUnbullets(b: Buffer, syntax: string)
    requires ValidBuffer(b) && MARKER !in b.value
    requires Every(CurrentBlock(b), HasBullet(syntax))
    ensures var ts, i, j := Split(b.value, '\n'), LineIndex(b.value, b.start), LineIndex(b.value, b.end);
      i <= j < |ts| && Spliced(UnorderedListed(b, syntax), ts, i, j, MapTexts(Unbulleted(syntax), ts[i..j + 1]), b.start < b.end)
  {
    UnbulletingSafe(syntax);
    ToggleRemoves(b, HasBullet(syntax), Bulleted(syntax), Unbulleted(syntax));
  }

  /** Bulleted texts carry the syntax, and unbulleting gives texts that do not begin with a space back. */
  lemma BulletedBlock(syntax: string, block: seq<string>)
    requires forall k :: 0 <= k < |block| ==> !StartsWithSpace(block[k])
    ensures Marks(HasBullet(syntax), Bulleted(syntax), block) && Undoes(Unbulleted(syntax), Bulleted(syntax), block)
  {
    forall k | 0 <= k < |block|
      ensures HasBullet(syntax)(Bulleted(syntax)(block[k], k)) && Unbulleted(syntax)(Bulleted(syntax)(block[k], k), k) == block[k]
    {
      PrefixMarkerAdded(syntax, block[k]);
    }
  }

  /** Adding the syntax to lines that do not begin with a space and running the command again gives the lines back. */
  lemma UnorderedListToggles(b: Buffer, syntax: string)
    requires ValidBuffer(b) && MARKER !in b.value && MARKER !in syntax && '\n' !in syntax
    requires !Every(CurrentBlock(b), HasBullet(syntax))
    requires forall line :: line in CurrentBlock(b) ==> !StartsWithSpace(line.text)
    ensures ValidBuffer(UnorderedListed(b, syntax)) && UnorderedListed(UnorderedListed(b, syntax), syntax).value == b.value
  {
    BulletedCurrent(b, syntax);
    BulletingSafe(syntax);
    ToggleTwiceRestores(b, HasBullet(syntax), Bulleted(syntax), Unbulleted(syntax));
  }

  /** Current lines that do not begin with a space are bulleted, and unbulleting gives them back. */
  lemma BulletedCurrent(b: Buffer, syntax: string)
    requires ValidBuffer(b)
    requires forall line :: line in CurrentBlock(b) ==> !StartsWithSpace(line.text)
    ensures var ts, i, j := Split(b.value, '\n'), LineIndex(b.value, b.start), LineIndex(b.value, b.end);
      i <= j < |ts| ==> Marks(HasBullet(syntax), Bulleted(syntax), ts[i..j + 1]) && Undoes(Unbulleted(syntax), Bulleted(syntax), ts[i..j + 1])
  {
    var ts, i, j := Split(b.value, '\n'), LineIndex(b.value, b.start), LineIndex(b.value, b.end);
    CurrentTexts(b);
    UnspacedTexts(CurrentBlock(b), ts[i..j + 1]);
    BulletedBlock(syntax, ts[i..j + 1]);
  }

  /** `unorderedListCommandHandler`. */
  method UnorderedListCommandHandler(cursor: Cursor, options: Options)
    requires cursor.element.Valid()
    modifies cursor.element
    ensures cursor.element.Valid()
    ensures cursor.element.State() == UnorderedListed(old(cursor.element.State()), options.preferredUnorderedListSyntax)
  {
    var syntax := options.preferredUnorderedListSyntax;
    var b := cursor.element.State();
    var selection := SelectionOf(b);
    var lines := if selection.Some? then selection.value.lines else [PositionOf(b).line];
    var needUndo := Every(lines, HasBullet(syntax));
    ListCallback(b, lines, HasBullet(syntax), Bulleted(syntax), Unbulleted(syntax));
    cursor.ReplaceCurrentLines(LineMap(if needUndo then Unbulleted(syntax) else Bulleted(syntax)), selection.Some?);
  }

  // ---------------------------------------------------------------------------------------------
  // blockQuotesCommandHandler

  /**
    A line's content inside the quote: its text without a leading `>` and `\s` run, or, when
    that leaves nothing, the placeholder on the first line and nothing on the others.
   */
  function QuoteBody(placeholder: string): (string, nat) -> string {
    (text: string, index: nat) =>
      var content := RemovePrefixMarker(text, ">");
      if content != "" then content else if index == 0 then placeholder else ""
  }

  /** The callback `blockQuotesCommandHandler` hands to `replaceCurrentLines`: the four pieces it joins. */
  function QuoteLine(placeholder: string): (Line, nat, seq<Line>) -> Option<string> {
    (line: Line, index: nat, lines: seq<Line>) =>
      Some((if index == 0 then "> " else "") + (if index == 0 then [MARKER] else "")
        + QuoteBody(placeholder)(line.text, index) + (if index == |lines| - 1 then [MARKER] else ""))
  }

  /** `blockQuotesCommandHandler`'s effect. */
  function BlockQuoted(b: Buffer, placeholder: string): Buffer
    requires ValidBuffer(b)
  {
    ReplacedCurrentLines(b, QuoteLine(placeholder), false)
  }

  /** The callback's result for line `k`: its quoted contents, framed on the first and the last line. */
  lemma QuoteLineAt(lines: seq<Line>, placeholder: string, k: nat)
    requires k < |lines|
    ensures var rs := Framed(MapTexts(QuoteBody(placeholder), Texts(lines)), "> " + [MARKER], [MARKER]);
      QuoteLine(placeholder)(lines[k], k, lines) == Some(rs[k])
  {
    var qs := MapTexts(QuoteBody(placeholder), Texts(lines));
    assert qs[k] == QuoteBody(placeholder)(lines[k].text, k);
    if k != 0 {
      assert [] + qs[k] == "" + "" + qs[k];
    }
  }

  /** The callback keeps one result per line: the quoted contents, `> ` and a marker in front, a marker after. */
  lemma QuoteResults(lines: seq<Line>, placeholder: string)
    requires |lines| >= 1
    ensures KeptResults(lines, QuoteLine(placeholder), 0)
      == Framed(MapTexts(QuoteBody(placeholder), Texts(lines)), "> " + [MARKER], [MARKER])
  {
    var rs := Framed(MapTexts(QuoteBody(placeholder), Texts(lines)), "> " + [MARKER], [MARKER]);
    forall k | 0 <= k < |lines|
      ensures QuoteLine(placeholder)(lines[k], k, lines) == Some(rs[k])
    {
      QuoteLineAt(lines, placeholder, k);
    }
    KeptEach(lines, QuoteLine(placeholder), 0, rs);
    assert rs[0..] == rs;
  }

  /** The callback's results, joined, are the quoted contents with `> ` and a marker in front and a marker after. */
  lemma QuoteText(b: Buffer, placeholder: string)
    requires ValidBuffer(b)
    ensures ReplacementText(b, QuoteLine(placeholder))
      == "> " + [MARKER] + Join(MappedBlock(b, QuoteBody(placeholder)), '\n') + [MARKER]
  {
    CurrentTexts(b);
    var lines, f := CurrentBlock(b), QuoteBody(placeholder);
    var qs := MappedBlock(b, f);
    assert qs == MapTexts(f, Texts(lines));
    QuoteResults(lines, placeholder);
    JoinFramed(qs, "> " + [MARKER], [MARKER], '\n');
  }

  /** The quoted contents of texts without markers hold none either. */
  lemma QuotedAvoid(block: seq<string>, placeholder: string)
    requires Avoids(block, MARKER) && MARKER !in placeholder
    ensures MARKER !in Join(MapTexts(QuoteBody(placeholder), block), '\n')
  {
    var qs := MapTexts(QuoteBody(placeholder), block);
    forall k | 0 <= k < |qs|
      ensures MARKER !in qs[k]
    {
      assert qs[k] == QuoteBody(placeholder)(block[k], k);
    }
    JoinAvoids(qs, '\n', MARKER);
  }

  /** The quoted contents of lines without markers hold none either. */
  lemma QuoteClean(b: Buffer, placeholder: string)
    requires ValidBuffer(b) && MARKER !in b.value && MARKER !in placeholder
    ensures MARKER !in Join(MappedBlock(b, QuoteBody(placeholder)), '\n')
  {
    var ts, i, j := Split(b.value, '\n'), LineIndex(b.value, b.start), LineIndex(b.value, b.end);
    CurrentTexts(b);
    PlainLines(b.value);
    CleanSlice(ts, i, j + 1);
    assert MappedBlock(b, QuoteBody(placeholder)) == MapTexts(QuoteBody(placeholder), ts[i..j + 1]);
    QuotedAvoid(ts[i..j + 1], placeholder);
  }

  /**
    The current lines become one quote: `> ` in front of the first, each line's own `>` markup
    taken off, the placeholder when the first line is left empty, and the contents selected.
   */
  lemma BlockQuoteMarks(b: Buffer, placeholder: string)
    requires ValidBuffer(b) && MARKER !in b.value && MARKER !in placeholder
    ensures Marked(BlockQuoted(b, placeholder), Split(b.value, '\n'), LineIndex(b.value, b.start), LineIndex(b.value, b.end),
      "> ", Join(MappedBlock(b, QuoteBody(placeholder)), '\n'), "")
  {
    var m := Join(MappedBlock(b, QuoteBody(placeholder)), '\n');
    QuoteText(b, placeholder);
    QuoteClean(b, placeholder);
    assert "> " + [MARKER] + m + [MARKER] == "> " + [MARKER] + m + [MARKER] + "";
    ReplacedCurrentLinesMarked(b, QuoteLine(placeholder), false, "> ", m, "");
  }

  /** A line that is already quoted keeps its text and gets no second `>`. */
  lemma QuoteBodyUnquotes(placeholder: string, t: string, index: nat)
    requires t != "" && !StartsWithSpace(t)
    ensures QuoteBody(placeholder)("> " + t, index) == t
  {
    PrefixMarkerAdded(">", t);
    assert ">" + " " + t == "> " + t;
  }

  /** `blockQuotesCommandHandler`. */
  method BlockQuotesCommandHandler(cursor: Cursor, options: Options)
    requires cursor.element.Valid()
    modifies cursor.element
    ensures cursor.element.Valid()
    ensures cursor.element.State() == BlockQuoted(old(cursor.element.State()), options.blockQuotesPlaceholder)
  {
    cursor.ReplaceCurrentLines(QuoteLine(options.blockQuotesPlaceholder), false);
  }

  // ---------------------------------------------------------------------------------------------
  // createHeadlineCommandHandler

  /** `'#'.repeat(clamp(level, 1, 6)) + ' '`. */
  function HeadlinePrefix(level: int): (prefix: string)
    ensures |prefix| == Clamp(level, 1, 6) + 1 && MARKER !in prefix && '\n' !in prefix
  {
    Repeat('#', Clamp(level, 1, 6)) + " "
  }

  /** The placeholder for `level`: the option itself, or what the option gives for the level. */
  function HeadlinePlaceholderFor(placeholder: HeadlinePlaceholder, level: int): string {
    match placeholder
    case Fixed(text) => text
    case PerLevel(byLevel) => byLevel(level)
  }

  /** `currentLine.text.slice(0, level + 1) === prefix`. */
  predicate NeedsHeadlineUndo(text: string, level: int) {
    Slice(text, 0, level + 1) == HeadlinePrefix(level)
  }

  /** `currentLine.text.replace(/^#{0,6}\s+/, '') || placeholder`. */
  function HeadlineContent(text: string, placeholder: string): string {
    var content := RemoveHeadingMarker(text);
    if content != "" then content else placeholder
  }

  /** `needUndo ? '' : prefix`. */
  function HeadlineOpening(text: string, level: int): string {
    if NeedsHeadlineUndo(text, level) then "" else HeadlinePrefix(level)
  }

  /** What the command writes in place of the current line: the prefix unless undoing, then the selected content. */
  function HeadlineLine(text: string, level: int, placeholder: string): string {
    HeadlineOpening(text, level) + [MARKER] + HeadlineContent(text, placeholder) + [MARKER]
  }

  /** `createHeadlineCommandHandler(level)`'s effect. */
  function Headlined(b: Buffer, level: int, placeholder: string): Buffer
    requires ValidBuffer(b)
  {
    var line := PositionOf(b).line;
    ReplacedLine(b, line.lineNumber, Some(HeadlineLine(line.text, level, placeholder)))
  }

  /** The caret's line is line `LineIndex` of the value, with that piece of the value as its text. */
  lemma CaretText(b: Buffer)
    requires ValidBuffer(b)
    ensures var ts, k := Split(b.value, '\n'), LineIndex(b.value, b.start);
      && k < |ts| && k < |Lines(b.value)|
      && PositionOf(b).line.lineNumber == k + 1
      && PositionOf(b).line.text == ts[k]
  {
    var ls, pos, k := Lines(b.value), PositionOf(b), LineIndex(b.value, b.start);
    var n :| 0 <= n < |ls| && ls[n] == pos.line;
    LineSpan(b.value, n);
    TextsOfLines(b.value);
    assert Texts(ls)[n] == ls[n].text;
  }

  /** The command replaces line `LineIndex` with what it builds from that line's text. */
  lemma HeadlinedLine(b: Buffer, level: int, placeholder: string)
    requires ValidBuffer(b)
    ensures var ts, k := Split(b.value, '\n'), LineIndex(b.value, b.start);
      k < |ts| && Headlined(b, level, placeholder) == ReplacedLine(b, k + 1, Some(HeadlineLine(ts[k], level, placeholder)))
  {
    CaretText(b);
  }

  /** Line `k` replaced by `x` and a marked `m`: the line becomes `x + m`, and `m` is selected. */
  lemma ReplaceLineSelecting(b: Buffer, k: nat, c: string, x: string, m: string)
    requires ValidBuffer(b) && MARKER !in b.value && MARKER !in x && MARKER !in m
    requires k < |Lines(b.value)| && c == x + [MARKER] + m + [MARKER]
    ensures var ts := Split(b.value, '\n');
      var at := |JoinBefore(ts, k, '\n')| + |x|;
      && k < |ts|
      && ReplacedLine(b, k + 1, Some(c)) == Buffer(Join(ts[..k] + [x + m] + ts[k + 1..], '\n'), at, at + |m|)
  {
    assert c == x + [MARKER] + m + [MARKER] + "";
    ReplaceLineMarked(b, k + 1, x, m, "");
    assert x + m + "" == x + m;
  }

  /**
    The current line is replaced by the prefix (none when undoing) and its content, which is
    selected; the content is the line without its heading markup, or the placeholder when
    nothing is left.
   */
  lemma HeadlineSets(b: Buffer, level: int, placeholder: string)
    requires ValidBuffer(b) && MARKER !in b.value && MARKER !in placeholder
    ensures var ts, k := Split(b.value, '\n'), LineIndex(b.value, b.start);
      && k < |ts|
      && var x, m := HeadlineOpening(ts[k], level), HeadlineContent(ts[k], placeholder);
        var at := |JoinBefore(ts, k, '\n')| + |x|;
        Headlined(b, level, placeholder) == Buffer(Join(ts[..k] + [x + m] + ts[k + 1..], '\n'), at, at + |m|)
  {
    var ts, k := Split(b.value, '\n'), LineIndex(b.value, b.start);
    CaretText(b);
    HeadlinedLine(b, level, placeholder);
    HeadlineOnLine(b, k, ts[k], level, placeholder);
  }

  /** `HeadlineSets` for the line `k` whose text is `t`. */
  lemma HeadlineOnLine(b: Buffer, k: nat, t: string, level: int, placeholder: string)
    requires ValidBuffer(b) && MARKER !in b.value && MARKER !in placeholder
    requires k < |Lines(b.value)| && k < |Split(b.value, '\n')| && t == Split(b.value, '\n')[k]
    ensures var ts := Split(b.value, '\n');
      var x, m := HeadlineOpening(t, level), HeadlineContent(t, placeholder);
      var at := |JoinBefore(ts, k, '\n')| + |x|;
      ReplacedLine(b, k + 1, Some(HeadlineLine(t, level, placeholder))) == Buffer(Join(ts[..k] + [x + m] + ts[k + 1..], '\n'), at, at + |m|)
  {
    var x, m := HeadlineOpening(t, level), HeadlineContent(t, placeholder);
    assert MARKER !in x && MARKER !in m by {
      PlainPiece(b.value, k);
    }
    ReplaceLineSelecting(b, k, HeadlineLine(t, level, placeholder), x, m);
  }

  /** A text that the level's prefix begins has heading markup. */
  lemma UndoneHasMarker(t: string, level: int)
    requires 1 <= level <= 6 && NeedsHeadlineUndo(t, level)
    ensures HeadingMarker(t).Some?
  {
    var prefix := HeadlinePrefix(level);
    assert |t| >= level + 1;
    assert t[..level + 1] == prefix;
    assert forall i :: 0 <= i < level ==> t[i] == prefix[i] == '#';
    assert t[level] == ' ';
    var h := HashRun(t);
    assert h == level;
  }

  /** A line without heading markup and not empty is its own content, and gets the prefix. */
  lemma HeadlineLineAdds(t: string, level: int, placeholder: string)
    requires 1 <= level <= 6 && t != "" && HeadingMarker(t).None?
    ensures HeadlineOpening(t, level) == HeadlinePrefix(level) && HeadlineContent(t, placeholder) == t
  {
    if NeedsHeadlineUndo(t, level) {
      UndoneHasMarker(t, level);
    }
  }

  /** The same line with the prefix in front is undone: no prefix, and the line itself as the content. */
  lemma HeadlineLineUndoes(t: string, level: int, placeholder: string)
    requires 1 <= level <= 6 && t != "" && HeadingMarker(t).None?
    ensures HeadlineOpening(HeadlinePrefix(level) + t, level) == ""
    ensures HeadlineContent(HeadlinePrefix(level) + t, placeholder) == t
  {
    var prefix := HeadlinePrefix(level);
    assert (prefix + t)[..level + 1] == prefix;
    assert !StartsWithSpace(t) by {
      assert HashRun(t) == 0 ==> SpaceRun(t, 0) == 0;
    }
    HeadingMarkerAdded(level, t);
  }

  /** A buffer holding line `k` of clean lines replaced by a clean line has its selection on line `k`. */
  lemma ReplacedOnLine(r: Buffer, ts: seq<string>, k: nat, x: string, m: string)
    requires k < |ts| && Clean(ts) && Clean([x + m])
    requires var at := |JoinBefore(ts, k, '\n')| + |x|;
      r == Buffer(Join(ts[..k] + [x + m] + ts[k + 1..], '\n'), at, at + |m|)
    ensures Reselected(r, ts, k, k, [x + m])
  {
    var ts' := ts[..k] + [x + m] + ts[k + 1..];
    assert ts'[k] == x + m;
    SplicedClean(ts, k, k, [x + m]);
    assert Split(r.value, '\n') == ts' by {
      SplitJoin(ts', '\n');
    }
    assert MARKER !in r.value by {
      JoinAvoids(ts', '\n', MARKER);
    }
    assert JoinBefore(ts', k, '\n') == JoinBefore(ts, k, '\n') by {
      assert ts'[..k] == ts[..k];
    }
    LineIndexWithin(ts', k, r.value, r.start);
    LineIndexWithin(ts', k, r.value, r.end);
  }

  /** On line `k`, text `t` without heading markup and not empty gets the prefix, and the line is selected. */
  lemma HeadlineAddsOn(b: Buffer, k: nat, t: string, level: int, placeholder: string)
    requires ValidBuffer(b) && MARKER !in b.value && MARKER !in placeholder && 1 <= level <= 6
    requires k < |Lines(b.value)| && k < |Split(b.value, '\n')| && t == Split(b.value, '\n')[k]
    requires t != "" && HeadingMarker(t).None?
    ensures Reselected(ReplacedLine(b, k + 1, Some(HeadlineLine(t, level, placeholder))), Split(b.value, '\n'), k, k,
      [HeadlinePrefix(level) + t])
  {
    var ts, prefix := Split(b.value, '\n'), HeadlinePrefix(level);
    HeadlineLineAdds(t, level, placeholder);
    HeadlineOnLine(b, k, t, level, placeholder);
    assert Clean(ts) && Clean([prefix + t]) by {
      PlainLines(b.value);
    }
    ReplacedOnLine(ReplacedLine(b, k + 1, Some(HeadlineLine(t, level, placeholder))), ts, k, prefix, t);
  }

  /** On line `k`, holding the prefix and `t`, the prefix is taken off again. */
  lemma HeadlineUndoneOn(r: Buffer, k: nat, t: string, level: int, placeholder: string)
    requires ValidBuffer(r) && MARKER !in r.value && MARKER !in placeholder && 1 <= level <= 6
    requires k < |Lines(r.value)| && k < |Split(r.value, '\n')| && Split(r.value, '\n')[k] == HeadlinePrefix(level) + t
    requires t != "" && HeadingMarker(t).None?
    ensures var ts := Split(r.value, '\n');
      ReplacedLine(r, k + 1, Some(HeadlineLine(HeadlinePrefix(level) + t, level, placeholder))).value
        == Join(ts[..k] + [t] + ts[k + 1..], '\n')
  {
    var ts, line := Split(r.value, '\n'), HeadlinePrefix(level) + t;
    assert HeadlineOpening(line, level) + HeadlineContent(line, placeholder) == t by {
      HeadlineLineUndoes(t, level, placeholder);
    }
    HeadlineOnLine(r, k, line, level, placeholder);
  }

  /** Running the command on a buffer whose line `k` holds the prefix and `t`, with the selection on it, puts `t` back. */
  lemma HeadlineUndone(r: Buffer, ts: seq<string>, k: nat, t: string, level: int, placeholder: string)
    requires 1 <= level <= 6 && t != "" && HeadingMarker(t).None? && MARKER !in placeholder
    requires Reselected(r, ts, k, k, [HeadlinePrefix(level) + t]) == true
    ensures ValidBuffer(r) && Headlined(r, level, placeholder).value == Join(ts[..k] + [t] + ts[k + 1..], '\n')
  {
    var ts' := Split(r.value, '\n');
    assert ts'[k] == HeadlinePrefix(level) + t;
    assert |Lines(r.value)| == |ts'|;
    HeadlinedLine(r, level, placeholder);
    HeadlineUndoneOn(r, k, t, level, placeholder);
    assert ts'[..k] == ts[..k] && ts'[k + 1..] == ts[k + 1..];
  }

  /**
    On a line that is not empty and has no heading markup, running the command twice gives
    the text back: the first run adds the prefix, the second finds it and takes it off.
   */
  lemma HeadlineToggles(b: Buffer, level: int, placeholder: string)
    requires ValidBuffer(b) && MARKER !in b.value && MARKER !in placeholder && 1 <= level <= 6
    requires PositionOf(b).line.text != "" && HeadingMarker(PositionOf(b).line.text).None?
    ensures ValidBuffer(Headlined(b, level, placeholder))
    ensures Headlined(Headlined(b, level, placeholder), level, placeholder).value == b.value
  {
    var ts, k := Split(b.value, '\n'), LineIndex(b.value, b.start);
    CaretText(b);
    HeadlinedLine(b, level, placeholder);
    HeadlineAddsOn(b, k, ts[k], level, placeholder);
    HeadlineUndone(Headlined(b, level, placeholder), ts, k, ts[k], level, placeholder);
    SpliceOwn(ts, k);
    JoinSplit(b.value, '\n');
  }

  /** `createHeadlineCommandHandler(level)`. */
  method HeadlineCommandHandler(cursor: Cursor, options: Options, level: int)
    requires cursor.element.Valid()
    modifies cursor.element
    ensures cursor.element.Valid()
    ensures cursor.element.State() == Headlined(old(cursor.element.State()), level, HeadlinePlaceholderFor(options.headlinePlaceholder, level))
  {
    var prefix := HeadlinePrefix(level);
    var placeholder := HeadlinePlaceholderFor(options.headlinePlaceholder, level);
    var currentLine := PositionOf(cursor.element.State()).line;
    var needUndo := Slice(currentLine.text, 0, level + 1) == prefix;
    var content := HeadlineContent(currentLine.text, placeholder);
    cursor.ReplaceLine(currentLine.lineNumber, Some((if needUndo then "" else prefix) + [MARKER] + content + [MARKER]));
  }
}
