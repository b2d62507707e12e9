/**
  The listener bodies of src/lib/extensions.ts. Each reads the cursor, decides whether to take
  over the key or the paste, and makes at most one editing call on the cursor. Each is a method
  on a `Cursor` that returns whether it called `preventDefault`; its new state is a function of
  the old one, and the lemmas say what that function does to the text.
 */
module Extensions {
  import opened Wrappers
  import opened Strings
  import opened Host
  import opened CursorGeometry
  import opened TextCursor
  import opened Utils
  import opened Patterns
  import opened Handlers

  // ---------------------------------------------------------------------------------------------
  // linkPasteExtension

  /**
    The three regular expressions of the paste listener: `URL_RE.test`, `IMAGE_URL_RE.test`,
    and `LINK_MARKUP_RE.exec`, which gives the match array of the first match in the value.
   */
  datatype PastePatterns = PastePatterns(
    isUrl: string -> bool,
    isImageUrl: string -> bool,
    linkMarkup: string -> Option<seq<string>>)

  /**
    `isSelectedInLinkMarkup`: some entry of the match array is "around" the selection. The
    range tested starts at the entry's index in the array, not at an offset in the value.
   */
  predicate SelectedInLinkMarkup(b: Buffer, patterns: PastePatterns) {
    && SelectionOf(b).Some?
    && var found := patterns.linkMarkup(b.value);
      && found.Some?
      && exists index :: 0 <= index < |found.value| &&
           (|| IsBtwOrEq(b.start + 1, index, index + |found.value[index]|)
            || IsBtwOrEq(b.end - 1, index, index + |found.value[index]|))
  }

  /** The paste is taken over: a non-empty url on the clipboard, a selection, not inside link markup. */
  predicate LinkPasteApplies(b: Buffer, clipboard: Option<string>, patterns: PastePatterns) {
    && clipboard.Some? && clipboard.value != ""
    && patterns.isUrl(clipboard.value)
    && SelectionOf(b).Some?
    && !SelectedInLinkMarkup(b, patterns)
  }

  /** What the paste puts in place of the selection, before the end marker. */
  function PastedMarkup(text: string, url: string, image: bool): string {
    LinkOpening(image, text) + url + ") "
  }

  /** The state the paste listener leaves. */
  function LinkPasted(b: Buffer, clipboard: Option<string>, patterns: PastePatterns): (r: Buffer)
    requires ValidBuffer(b)
    ensures !LinkPasteApplies(b, clipboard, patterns) ==> r == b
  {
    if !LinkPasteApplies(b, clipboard, patterns) then b
    else
      var url := clipboard.value;
      Inserted(b, PastedMarkup(SelectionOf(b).value.text, url, patterns.isImageUrl(url)) + [MARKER])
  }

  /**
    A url pasted over a selection replaces it by `[selected](url) `, or `![selected](url) `
    for an image url, and the caret ends after the trailing space.
   */
  lemma LinkPasteLinks(b: Buffer, clipboard: Option<string>, patterns: PastePatterns)
    requires ValidBuffer(b) && MARKER !in b.value
    requires LinkPasteApplies(b, clipboard, patterns) && MARKER !in clipboard.value
    ensures var v, url := b.value, clipboard.value;
      var markup := PastedMarkup(v[b.start..b.end], url, patterns.isImageUrl(url));
      var at := b.start + |markup|;
      && b.start < b.end
      && LinkPasted(b, clipboard, patterns) == Buffer(v[..b.start] + markup + v[b.end..], at, at)
  {
    var v, url := b.value, clipboard.value;
    var markup := PastedMarkup(v[b.start..b.end], url, patterns.isImageUrl(url));
    assert MARKER !in markup by {
      assert forall c :: c in v[b.start..b.end] ==> c in v;
    }
    InsertEndMarked(b, markup);
    InsertPlain(b, markup);
  }

  /**
    The match array of `LINK_MARKUP_RE` holds the match alone, so the test reads as: the
    selection starts or ends within the first `|m| + 1` characters of the value, wherever
    the markup lies.
   */
  lemma LinkMarkupIndex(b: Buffer, patterns: PastePatterns, m: string)
    requires ValidBuffer(b) && b.start < b.end
    requires patterns.linkMarkup(b.value) == Some([m])
    ensures SelectedInLinkMarkup(b, patterns) <==> b.start < |m| || b.end <= |m| + 1
  {
    if b.start < |m| || b.end <= |m| + 1 {
      assert IsBtwOrEq(b.start + 1, 0, 0 + |[m][0]|) || IsBtwOrEq(b.end - 1, 0, 0 + |[m][0]|);
    }
  }

  /**
    "hello [a](b)" with "hello" selected counts as inside link markup, although the markup
    begins after the selection ends, so a url pasted there is not turned into a link.
   */
  lemma LinkMarkupIndexAsWritten(patterns: PastePatterns, url: string)
    requires patterns.linkMarkup("hello [a](b)") == Some(["[a](b)"])
    ensures var b := Buffer("hello [a](b)", 0, 5);
      && b.value[6..] == "[a](b)" && b.end <= 6
      && SelectedInLinkMarkup(b, patterns)
      && LinkPasted(b, Some(url), patterns) == b
  {
    LinkMarkupIndex(Buffer("hello [a](b)", 0, 5), patterns, "[a](b)");
  }

  /** `pasteListener`: returns whether the default paste was prevented. */
  method LinkPasteListener(cursor: Cursor, clipboard: Option<string>, patterns: PastePatterns) returns (prevented: bool)
    requires cursor.element.Valid()
    modifies cursor.element
    ensures cursor.element.Valid()
    ensures prevented == LinkPasteApplies(old(cursor.element.State()), clipboard, patterns)
    ensures cursor.element.State() == LinkPasted(old(cursor.element.State()), clipboard, patterns)
  {
    var b := cursor.element.State();
    var isSelectedInLinkMarkup := SelectedInLinkMarkup(b, patterns);
    if || clipboard.None? || clipboard.value == ""
       || !patterns.isUrl(clipboard.value)
       || SelectionOf(b).None?
       || isSelectedInLinkMarkup
    {
      return false;
    }
    prevented := true;
    var selection := SelectionOf(b).value;
    var url := clipboard.value;
    if patterns.isImageUrl(url) {
      cursor.Insert("![" + selection.text + "](" + url + ") " + [MARKER]);
    } else {
      cursor.Insert("[" + selection.text + "](" + url + ") " + [MARKER]);
    }
  }

  // ---------------------------------------------------------------------------------------------
  // intentExtension: tab and shift+tab

  /** The indent `tab` inserts: four spaces. */
  const INDENT: string := "    "

  /** `indent + line.text`. */
  function Indent(text: string, index: nat): string {
    INDENT + text
  }

  /** `line.text.replace(/\s{0,4}/, "")`. */
  function Outdent(text: string, index: nat): string {
    Outdented(text)
  }

  /** The state `tab` leaves. */
  function Tabbed(b: Buffer): Buffer
    requires ValidBuffer(b)
  {
    if SelectionOf(b).None? then Inserted(b, INDENT + [MARKER])
    else ReplacedCurrentLines(b, LineMap(Indent), true)
  }

  /** The state `shift+tab` leaves. */
  function ShiftTabbed(b: Buffer): Buffer
    requires ValidBuffer(b)
  {
    ReplacedCurrentLines(b, LineMap(Outdent), SelectionOf(b).Some?)
  }

  lemma IndentSafe()
    ensures LineSafe(Indent) && LineSafe(Outdent)
  {
    forall t: string, k: nat | MARKER !in t && '\n' !in t
      ensures MARKER !in Indent(t, k) && '\n' !in Indent(t, k)
    {
      assert forall c :: c in Indent(t, k) ==> c == ' ' || c in t;
    }
  }

  /** With no selection, `tab` puts four spaces at the caret and the caret after them. */
  lemma TabInsertsIndent(b: Buffer)
    requires ValidBuffer(b) && MARKER !in b.value && b.start == b.end
    ensures var v, at := b.value, b.start + 4;
      Tabbed(b) == Buffer(v[..b.start] + "    " + v[b.start..], at, at)
  {
    InsertEndMarked(b, INDENT);
    InsertPlain(b, INDENT);
  }

  /** With a selection, `tab` maps every current line with `Indent` and selects them all. */
  lemma TabbedSelection(b: Buffer)
    requires ValidBuffer(b) && b.start < b.end
    ensures Tabbed(b) == ReplacedCurrentLines(b, LineMap(Indent), true)
  {
  }

  /**
    With a selection, `tab` puts four spaces in front of every current line (`MappedBlock`
    with `Indent`), changes no other line, and selects the indented lines, all of them.
   */
  lemma TabIndentsLines(b: Buffer)
    requires ValidBuffer(b) && MARKER !in b.value && b.start < b.end
    ensures Spliced(Tabbed(b), Split(b.value, '\n'), LineIndex(b.value, b.start), LineIndex(b.value, b.end), MappedBlock(b, Indent), true)
  {
    IndentSafe();
    TabbedSelection(b);
    MappedLines(b, Indent, true);
  }

  /** Every line of the indented block is four spaces and the old line. */
  lemma IndentedBlock(b: Buffer)
    requires ValidBuffer(b)
    ensures var ts, i, j := Split(b.value, '\n'), LineIndex(b.value, b.start), LineIndex(b.value, b.end);
      && i <= j < |ts|
      && forall k :: i <= k <= j ==> MappedBlock(b, Indent)[k - i] == "    " + ts[k]
  {
    LineIndexBound(b.value, b.start, b.end);
  }

  /**
    `shift+tab` takes up to four leading `\s` off every current line (`MappedBlock` with
    `Outdent`) and changes no other line; the lines are selected when text was selected.
   */
  lemma ShiftTabOutdents(b: Buffer)
    requires ValidBuffer(b) && MARKER !in b.value
    ensures Spliced(ShiftTabbed(b), Split(b.value, '\n'), LineIndex(b.value, b.start), LineIndex(b.value, b.end), MappedBlock(b, Outdent), b.start < b.end)
  {
    IndentSafe();
    MappedLines(b, Outdent, b.start < b.end);
  }

  /** Every line of the outdented block is the old line without the match of `\s{0,4}`. */
  lemma OutdentedBlock(b: Buffer)
    requires ValidBuffer(b)
    ensures var ts, i, j := Split(b.value, '\n'), LineIndex(b.value, b.start), LineIndex(b.value, b.end);
      && i <= j < |ts|
      && forall k :: i <= k <= j ==> MappedBlock(b, Outdent)[k - i] == ts[k][IndentWidth(ts[k])..]
  {
    LineIndexBound(b.value, b.start, b.end);
  }

  /** `tab` then `shift+tab` on a selection gives the value back. */
  lemma TabShiftTabRestores(b: Buffer)
    requires ValidBuffer(b) && MARKER !in b.value && b.start < b.end
    ensures ValidBuffer(Tabbed(b)) && ShiftTabbed(Tabbed(b)).value == b.value
  {
    TabbedSelection(b);
    IndentSafe();
    forall t: string, k: nat
      ensures Outdent(Indent(t, k), k) == t
    {
      OutdentIndented(t);
    }
    SelectedMapRestores(b, Indent, Outdent);
  }

  /**
    Mapping the lines of a selection with `f`, selecting them, and mapping them again with a
    `g` that undoes `f`, gives the value back.
   */
  lemma SelectedMapRestores(b: Buffer, f: (string, nat) -> string, g: (string, nat) -> string)
    requires ValidBuffer(b) && MARKER !in b.value && b.start < b.end && LineSafe(f) && LineSafe(g)
    requires forall t: string, k: nat :: g(f(t, k), k) == t
    ensures var r := ReplacedCurrentLines(b, LineMap(f), true);
      ValidBuffer(r) && ReplacedCurrentLines(r, LineMap(g), SelectionOf(r).Some?).value == b.value
  {
    var r := ReplacedCurrentLines(b, LineMap(f), true);
    MappedLinesReselect(b, f, true);
    assert ValidBuffer(r);
    MappedAgainRestores(b, f, g, r);
  }

  /** The second pass over the buffer the first one left gives back the original value. */
  lemma MappedAgainRestores(b: Buffer, f: (string, nat) -> string, g: (string, nat) -> string, r: Buffer)
    requires ValidBuffer(b) && MARKER !in b.value && LineSafe(f) && LineSafe(g)
    requires forall t: string, k: nat :: g(f(t, k), k) == t
    requires r == ReplacedCurrentLines(b, LineMap(f), true) && ValidBuffer(r)
    ensures ReplacedCurrentLines(r, LineMap(g), SelectionOf(r).Some?).value == b.value
  {
    MapTwiceRestores(b, f, g, true, SelectionOf(r).Some?);
  }

  /** The `tab` binding: always prevents the default. */
  method TabListener(cursor: Cursor) returns (prevented: bool)
    requires cursor.element.Valid()
    modifies cursor.element
    ensures cursor.element.Valid()
    ensures prevented
    ensures cursor.element.State() == Tabbed(old(cursor.element.State()))
  {
    prevented := true;
    var indent := INDENT;
    var b := cursor.element.State();
    if SelectionOf(b).None? {
      cursor.Insert(indent + [MARKER]);
    } else {
      cursor.ReplaceCurrentLines(LineMap(Indent), true);
    }
  }

  /** The `shift+tab` binding: always prevents the default. */
  method ShiftTabListener(cursor: Cursor) returns (prevented: bool)
    requires cursor.element.Valid()
    modifies cursor.element
    ensures cursor.element.Valid()
    ensures prevented
    ensures cursor.element.State() == ShiftTabbed(old(cursor.element.State()))
  {
    prevented := true;
    cursor.ReplaceCurrentLines(LineMap(Outdent), SelectionOf(cursor.element.State()).Some?);
  }

  // ---------------------------------------------------------------------------------------------
  // listWrappingExtension: Enter

  /** `cursor.lineAt(cursor.position.line.lineNumber)!`: the caret's line. */
  function EnteringLine(b: Buffer): (line: Line)
    requires ValidBuffer(b)
    ensures line == PositionOf(b).line
  {
    CaretLineAt(b);
    LineAt(b.value, PositionOf(b).line.lineNumber).value
  }

  /** `lineAt` finds the caret's line under its own number. */
  lemma CaretLineAt(b: Buffer)
    requires ValidBuffer(b)
    ensures LineAt(b.value, PositionOf(b).line.lineNumber) == Some(PositionOf(b).line)
  {
    var ls := Lines(b.value);
    var n :| 0 <= n < |ls| && ls[n] == PositionOf(b).line;
    LineSpan(b.value, n);
  }

  /** The marker of the new line: the ordered one incremented, a bullet repeated. */
  function NextListPrefix(text: string, increment: string -> string): string
    requires ListPartsOf(text).Some?
  {
    var prefix := ListMarker(text);
    if IsOrderedMarker(prefix) then increment(prefix) else prefix
  }

  /**
    What Enter inserts on a list line: a newline, the line's leading `\s` run as spaces, the
    next marker, a space, and the line's text from offset `selectionEnd` on.
   */
  function Continuation(text: string, selectionEnd: nat, increment: string -> string): string
    requires ListPartsOf(text).Some?
  {
    "\n" + Repeat(' ', LeadingSpaces(text)) + NextListPrefix(text, increment) + " " + SliceFrom(text, selectionEnd)
  }

  /** Enter is taken over on a list line that holds more than its marker. */
  predicate EnterPrevented(b: Buffer, code: string)
    requires ValidBuffer(b)
  {
    var text := EnteringLine(b).text;
    code == "Enter" && IsListLine(text) && !IsBlankListLine(text)
  }

  /** The state the Enter listener leaves (before any default behaviour). */
  function ListWrapped(b: Buffer, code: string, increment: string -> string): (r: Buffer)
    requires ValidBuffer(b)
    ensures code != "Enter" || !IsListLine(PositionOf(b).line.text) ==> r == b
  {
    var line := EnteringLine(b);
    if code != "Enter" || !IsListLine(line.text) then b
    else if IsBlankListLine(line.text) then ReplacedLine(b, line.lineNumber, Some(""))
    else Inserted(b, Continuation(line.text, b.end, increment) + [MARKER])
  }

  /**
    On a blank list line, Enter does not take over the key; it empties that line, puts the
    caret on it, and changes nothing else.
   */
  lemma ListWrapBlank(b: Buffer, increment: string -> string)
    requires ValidBuffer(b) && MARKER !in b.value
    requires IsBlankListLine(PositionOf(b).line.text)
    ensures !EnterPrevented(b, "Enter")
    ensures var k := LineIndex(b.value, b.start);
      Spliced(ListWrapped(b, "Enter", increment), Split(b.value, '\n'), k, k, [""], false)
  {
    var k := LineIndex(b.value, b.start);
    BlankCaret(b, increment);
    var r := ReplacedLine(b, k + 1, Some(""));
    assert Spliced(r, Split(b.value, '\n'), k, k, [""], false) by {
      LineReplacedAt(b, k, "", r);
    }
  }

  /** On a blank list line, Enter replaces the caret's line, line `LineIndex + 1`, by "". */
  lemma BlankCaret(b: Buffer, increment: string -> string)
    requires ValidBuffer(b) && IsBlankListLine(PositionOf(b).line.text)
    ensures var ts, k := Split(b.value, '\n'), LineIndex(b.value, b.start);
      && k < |ts| && k < |Lines(b.value)|
      && !EnterPrevented(b, "Enter")
      && ListWrapped(b, "Enter", increment) == ReplacedLine(b, k + 1, Some(""))
  {
    BlankIsListLine(PositionOf(b).line.text);
    CaretText(b);
  }

  /** `ReplaceLineWith` for line `k + 1`. */
  lemma LineReplacedAt(b: Buffer, k: nat, c: string, r: Buffer)
    requires ValidBuffer(b) && MARKER !in b.value && MARKER !in c && k < |Lines(b.value)|
    requires r == ReplacedLine(b, k + 1, Some(c))
    ensures Spliced(r, Split(b.value, '\n'), k, k, [c], false)
  {
    ReplaceLineWith(b, k + 1, c);
    assert Join([c], '\n') == c;
  }

  /**
    On a list line with content, Enter inserts the continuation in place of the selection
    and leaves the caret after it.
   */
  lemma ListWrapContinues(b: Buffer, increment: string -> string)
    requires ValidBuffer(b) && MARKER !in b.value
    requires var text := PositionOf(b).line.text;
      IsListLine(text) && !IsBlankListLine(text) && MARKER !in NextListPrefix(text, increment)
    ensures var v, c := b.value, Continuation(PositionOf(b).line.text, b.end, increment);
      var at := b.start + |c|;
      ListWrapped(b, "Enter", increment) == Buffer(v[..b.start] + c + v[b.end..], at, at)
  {
    var c := Continuation(PositionOf(b).line.text, b.end, increment);
    ContinuesCaret(b, increment);
    InsertedEndMarked(b, c, ListWrapped(b, "Enter", increment));
  }

  /** On a list line with content, Enter is taken over and inserts the marker-free continuation. */
  lemma ContinuesCaret(b: Buffer, increment: string -> string)
    requires ValidBuffer(b) && MARKER !in b.value
    requires var text := PositionOf(b).line.text;
      IsListLine(text) && !IsBlankListLine(text) && MARKER !in NextListPrefix(text, increment)
    ensures var c := Continuation(PositionOf(b).line.text, b.end, increment);
      && MARKER !in c
      && EnterPrevented(b, "Enter")
      && ListWrapped(b, "Enter", increment) == Inserted(b, c + [MARKER])
  {
    PlainContinuation(b, increment);
  }

  /** The continuation of a line of a marker-free value holds no marker. */
  lemma PlainContinuation(b: Buffer, increment: string -> string)
    requires ValidBuffer(b) && MARKER !in b.value
    requires var text := PositionOf(b).line.text;
      IsListLine(text) && MARKER !in NextListPrefix(text, increment)
    ensures MARKER !in Continuation(PositionOf(b).line.text, b.end, increment)
  {
    var text := PositionOf(b).line.text;
    assert MARKER !in text by {
      CaretText(b);
      PlainPiece(b.value, LineIndex(b.value, b.start));
    }
    PlainContinuationOf(text, b.end, increment);
  }

  lemma PlainContinuationOf(text: string, selectionEnd: nat, increment: string -> string)
    requires ListPartsOf(text).Some? && MARKER !in text && MARKER !in NextListPrefix(text, increment)
    ensures MARKER !in Continuation(text, selectionEnd, increment)
  {
    assert forall ch :: ch in SliceFrom(text, selectionEnd) ==> ch in text;
    assert forall ch :: ch in Repeat(' ', LeadingSpaces(text)) ==> ch == ' ';
  }

  /** Marker-free content with a trailing marker replaces the selection and leaves the caret after it. */
  lemma InsertedEndMarked(b: Buffer, c: string, r: Buffer)
    requires ValidBuffer(b) && MARKER !in b.value && MARKER !in c
    requires r == Inserted(b, c + [MARKER])
    ensures var at := b.start + |c|;
      r == Buffer(b.value[..b.start] + c + b.value[b.end..], at, at)
  {
    InsertEndMarked(b, c);
    InsertPlain(b, c);
  }

  /**
    With the caret at the end of a list line with content, Enter inserts a newline, the
    line's indent as spaces, the next marker and a space, and leaves the caret there.
   */
  lemma ListWrapAtLineEnd(b: Buffer, increment: string -> string)
    requires ValidBuffer(b) && MARKER !in b.value
    requires b.start == b.end == PositionOf(b).line.endsAt
    requires var text := PositionOf(b).line.text;
      IsListLine(text) && !IsBlankListLine(text) && MARKER !in NextListPrefix(text, increment)
    ensures var v, text := b.value, PositionOf(b).line.text;
      var c := "\n" + Repeat(' ', LeadingSpaces(text)) + NextListPrefix(text, increment) + " ";
      ListWrapped(b, "Enter", increment) == Buffer(v[..b.start] + c + v[b.start..], b.start + |c|, b.start + |c|)
  {
    var text := PositionOf(b).line.text;
    var c := "\n" + Repeat(' ', LeadingSpaces(text)) + NextListPrefix(text, increment) + " ";
    assert Continuation(text, b.end, increment) == c by {
      CaretLineWidth(b);
      assert SliceFrom(text, b.end) == [];
    }
    ListWrapContinues(b, increment);
  }

  /** The caret's line ends `|text|` characters after it starts. */
  lemma CaretLineWidth(b: Buffer)
    requires ValidBuffer(b)
    ensures PositionOf(b).line.endsAt == PositionOf(b).line.startsAt + |PositionOf(b).line.text|
  {
    var ls := Lines(b.value);
    var n :| 0 <= n < |ls| && ls[n] == PositionOf(b).line;
    LineSpan(b.value, n);
  }

  /** A bullet is carried to the new line unchanged, with the same indent. */
  lemma BulletContinues(text: string, rest: string, increment: string -> string)
    requires ListPartsOf(text).Some? && !IsOrderedMarker(ListMarker(text))
    ensures var line := Repeat(' ', LeadingSpaces(text)) + NextListPrefix(text, increment) + " " + rest;
      && ListPartsOf(line).Some?
      && ListPartsOf(line).value.indent == ListPartsOf(text).value.indent
      && ListMarker(line) == ListMarker(text)
  {
    var w := ListPartsOf(text).value.indent;
    BulletMarker(text);
    BulletLine(w, text[w], rest);
  }

  /** A bullet marker is the one character after the indent, and it is repeated as it is. */
  lemma BulletMarker(text: string)
    requires ListPartsOf(text).Some? && !IsOrderedMarker(ListMarker(text))
    ensures var w := ListPartsOf(text).value.indent;
      && w == LeadingSpaces(text) && IsBullet(text[w])
      && ListMarker(text) == [text[w]]
      && forall increment: string -> string :: NextListPrefix(text, increment) == [text[w]]
  {
    MarkerKind(text);
  }

  /** A line of `w` spaces, a bullet, a space and anything: its indent is `w` and its marker the bullet. */
  lemma BulletLine(w: nat, c: char, rest: string)
    requires IsBullet(c)
    ensures var line := Repeat(' ', w) + [c] + " " + rest;
      && ListPartsOf(line).Some?
      && ListPartsOf(line).value.indent == w
      && ListMarker(line) == [c]
  {
    var line := Repeat(' ', w) + [c] + " " + rest;
    assert line[w] == c && line[w + 1] == ' ';
    assert forall k :: 0 <= k < w ==> IsSpace(line[k]);
    SpaceRunIs(line, 0, w);
    assert line[w..w + 1] == [c];
  }

  /**
    The content carried to the new line is read from the line's text at the absolute
    `selectionEnd`, not at the caret's column: in "x\n- abcdef" with the caret after "- a"
    (offset 5, column 3), "def" is carried where the text after the caret is "bcdef".
   */
  lemma ContinuationAsWritten(increment: string -> string)
    ensures var text := "- abcdef";
      && "x\n- abcdef"[2..] == text
      && ListPartsOf(text).Some?
      && Continuation(text, 5, increment) == "\n- def"
      && text[5 - 2..] == "bcdef"
  {
    var text := "- abcdef";
    DashLine();
    DashUnordered();
    assert NextListPrefix(text, increment) == "-";
    assert SliceFrom(text, 5) == "def";
  }

  /** How "- abcdef" splits as a list line. */
  lemma DashLine()
    ensures ListPartsOf("- abcdef") == Some(ListParts(0, 1, 2))
    ensures ListMarker("- abcdef") == "-" && LeadingSpaces("- abcdef") == 0
  {
    var text := "- abcdef";
    assert text[0] == '-' && text[1] == ' ' && text[2] == 'a';
    SpaceRunIs(text, 0, 0);
    SpaceRunIs(text, 1, 1);
    assert ListMarkerEnd(text, 0) == Some(1);
  }

  /** "-" is not an ordered marker. */
  lemma DashUnordered()
    ensures !IsOrderedMarker("-")
  {
    forall p | 0 <= p <= 1
      ensures !OrderedGroupAt("-", p)
    {
      DigitRunIs("-", p, 0);
    }
  }

  /** `keydownListener`: returns whether the default Enter was prevented. */
  method ListWrappingListener(cursor: Cursor, code: string, increment: string -> string) returns (prevented: bool)
    requires cursor.element.Valid()
    modifies cursor.element
    ensures cursor.element.Valid()
    ensures prevented == EnterPrevented(old(cursor.element.State()), code)
    ensures cursor.element.State() == ListWrapped(old(cursor.element.State()), code, increment)
  {
    if code != "Enter" {
      return false;
    }
    var b := cursor.element.State();
    var enteringLine := EnteringLine(b);
    var isListLine := IsListLine(enteringLine.text);
    var isBlankListLine := IsBlankListLine(enteringLine.text);
    if !isListLine {
      return false;
    }
    if isBlankListLine {
      cursor.ReplaceLine(enteringLine.lineNumber, Some(""));
      return false;
    }
    prevented := true;
    var prefix := ListMarker(enteringLine.text);
    var isOrderedPrefix := IsOrderedMarker(prefix);
    var contentAfterCursor := SliceFrom(enteringLine.text, cursor.element.selectionEnd);
    var nextPrefix := if isOrderedPrefix then increment(prefix) else prefix;
    var intent := Repeat(' ', LeadingSpaces(enteringLine.text));
    cursor.Insert("\n" + intent + nextPrefix + " " + contentAfterCursor + [MARKER]);
  }

  // ---------------------------------------------------------------------------------------------
  // properLineRemoveBehaviorExtension: meta+backspace

  /** The state the meta+backspace binding leaves: an empty caret line is removed. */
  function LineRemoved(b: Buffer): (r: Buffer)
    requires ValidBuffer(b)
    ensures PositionOf(b).line.text != "" ==> r == b
  {
    var line := PositionOf(b).line;
    if line.text == "" then ReplacedLine(b, line.lineNumber, None) else b
  }

  /**
    On an empty line after the first, the binding drops that line and the newline before
    it; the caret ends after the lines before it.
   */
  lemma LineRemoveDeletes(b: Buffer)
    requires ValidBuffer(b) && MARKER !in b.value
    requires PositionOf(b).line.text == "" && PositionOf(b).line.lineNumber >= 2
    ensures var ts, k := Split(b.value, '\n'), LineIndex(b.value, b.start);
      k < |ts| && ts[k] == "" && Dropped(LineRemoved(b), ts, k)
  {
    LineRemovedCaret(b);
    RemovedLine(b, LineIndex(b.value, b.start), LineRemoved(b));
  }

  /** On an empty line, the binding removes the caret's line, line `LineIndex + 1`. */
  lemma LineRemovedCaret(b: Buffer)
    requires ValidBuffer(b) && PositionOf(b).line.text == ""
    ensures var ts, k := Split(b.value, '\n'), LineIndex(b.value, b.start);
      && k < |ts| && k < |Lines(b.value)| && ts[k] == ""
      && LineRemoved(b) == ReplacedLine(b, k + 1, None)
  {
    CaretText(b);
  }

  /** `ReplaceLineRemoves` for line `k + 1`, `k` at least 1. */
  lemma RemovedLine(b: Buffer, k: nat, r: Buffer)
    requires ValidBuffer(b) && MARKER !in b.value && 1 <= k < |Lines(b.value)|
    requires r == ReplacedLine(b, k + 1, None)
    ensures Dropped(r, Split(b.value, '\n'), k)
  {
    ReplaceLineRemoves(b, k + 1);
  }

  /** `r` holds the lines of `ts` without line `k`, with the caret after the lines before it. */
  predicate Dropped(r: Buffer, ts: seq<string>, k: nat) {
    && k < |ts|
    && var at := |Join(ts[..k], '\n')|;
      r == Buffer(Join(ts[..k] + ts[k + 1..], '\n'), at, at)
  }

  /**
    On an empty first line the binding does not remove it: the value loses its last
    character and has itself appended, so "\nab" becomes "\na\nab".
   */
  lemma LineRemoveFirstAsWritten(b: Buffer)
    requires ValidBuffer(b) && MARKER !in b.value && |b.value| >= 1
    requires PositionOf(b).line.text == "" && LineIndex(b.value, b.start) == 0
    ensures var v := b.value;
      LineRemoved(b) == Buffer(v[..|v| - 1] + v, |v| - 1, |v| - 1)
  {
    var v := b.value;
    CaretText(b);
    LinePiece(v, 0);
    ReplaceFirstLineAsWritten(b);
  }

  /** The meta+backspace binding: returns whether the default was prevented. */
  method LineRemoveListener(cursor: Cursor) returns (prevented: bool)
    requires cursor.element.Valid()
    modifies cursor.element
    ensures cursor.element.Valid()
    ensures prevented <==> PositionOf(old(cursor.element.State())).line.text == ""
    ensures cursor.element.State() == LineRemoved(old(cursor.element.State()))
  {
    var position := PositionOf(cursor.element.State());
    prevented := false;
    if position.line.text == "" {
      prevented := true;
      cursor.ReplaceLine(position.line.lineNumber, None);
    }
  }
}
