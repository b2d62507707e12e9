/**
  The cursor of src/lib/Cursor.new.ts: every edit builds a new value holding up to two
  selection markers (the character U+0000), strips the markers, writes the value to the
  textarea and selects what lay between the markers.

  Each edit is first a pure function from a snapshot of the textarea to the snapshot it leaves;
  the `Cursor` class at the end performs the same steps on a `Textarea` object and is proved
  to leave exactly that snapshot.
 */
module TextCursor {
  import opened Wrappers
  import opened Strings
  import opened Host
  import opened CursorGeometry

  /** The selection marker. */
  const MARKER: char := '\0'

  /** What `execRaw` makes of a marked value: the plain text and the offsets the markers give. */
  datatype Raw = Raw(text: string, selectionStart: Option<nat>, selectionEnd: Option<nat>)

  /** A markup given as one string used on both sides, or as a prefix and a suffix. */
  datatype Markup = Symmetric(markup: string) | Pair(prefix: string, suffix: string)
  {
    function Prefix(): string {
      match this
      case Symmetric(m) => m
      case Pair(p, _) => p
    }
    function Suffix(): string {
      match this
      case Symmetric(m) => m
      case Pair(_, s) => s
    }
  }

  /** Where `normalizeSelection` puts markers into marker-free text. */
  datatype DefaultBehavior = ToStart | ToEnd | SelectAll

  /** The argument of `select`: absolute offsets, or shifts of the current ones. */
  datatype SelectOptions = Range(start: int, end: int) | Relative(fromCurrentStart: int, fromCurrentEnd: int)

  /**
    `execRaw`: every marker is removed; the first marker gives the start; a last marker that is
    not the first gives the end, counted as if one marker had been removed before it.
   */
  function ExecRaw(source: string): (r: Raw)
    ensures r.text == Strip(source, MARKER)
    ensures r.selectionStart.None? <==> MARKER !in source
    ensures r.selectionStart.None? ==> r.selectionEnd.None?
  {
    var first := IndexOf(source, MARKER);
    var last := LastIndexOf(source, MARKER);
    var text := Strip(source, MARKER);
    if first == -1 then Raw(text, None, None)
    else Raw(text, Some(first), if last == -1 || last == first then None else Some(last - 1))
  }

  /** A value without markers gives no selection. */
  lemma ExecRawPlain(s: string)
    requires MARKER !in s
    ensures ExecRaw(s) == Raw(s, None, None)
  {
    StripAbsent(s, MARKER);
  }

  /** One marker gives a caret where the marker was. */
  lemma ExecRawOneMarker(a: string, c: string)
    requires MARKER !in a && MARKER !in c
    ensures ExecRaw(a + [MARKER] + c) == Raw(a + c, Some(|a|), None)
  {
    var s := a + [MARKER] + c;
    assert IndexOf(s, MARKER) == |a| by {
      IndexOfConcat(a, MARKER, c);
    }
    assert LastIndexOf(s, MARKER) == |a| by {
      LastIndexOfConcat(a, MARKER, c);
    }
    assert Strip(s, MARKER) == a + c by {
      StripMarkerBefore(a, c);
      StripAbsent(a, MARKER);
    }
  }

  /** A marker at the end is stripped away. */
  lemma StripMarkerAfter(a: string)
    ensures Strip(a + [MARKER], MARKER) == Strip(a, MARKER)
  {
    StripAppend(a, [MARKER], MARKER);
    assert Strip([MARKER], MARKER) == [];
  }

  /** Stripping a marker followed by plain text keeps that text. */
  lemma StripMarkerBefore(a: string, c: string)
    requires MARKER !in c
    ensures Strip(a + [MARKER] + c, MARKER) == Strip(a, MARKER) + c
  {
    StripAppend(a + [MARKER], c, MARKER);
    StripMarkerAfter(a);
    StripAbsent(c, MARKER);
  }

  /** Two markers select exactly the text between them. */
  lemma ExecRawTwoMarkers(a: string, m: string, c: string)
    requires MARKER !in a && MARKER !in m && MARKER !in c
    ensures ExecRaw(a + [MARKER] + m + [MARKER] + c) == Raw(a + m + c, Some(|a|), Some(|a| + |m|))
  {
    var s := a + [MARKER] + m + [MARKER] + c;
    assert IndexOf(s, MARKER) == |a| by {
      var t := m + [MARKER] + c;
      assert s == a + [MARKER] + t;
      IndexOfConcat(a, MARKER, t);
    }
    assert LastIndexOf(s, MARKER) == |a| + |m| + 1 by {
      var u := a + [MARKER] + m;
      assert s == u + [MARKER] + c;
      LastIndexOfConcat(u, MARKER, c);
    }
    StripTwoMarkers(a, m, c);
  }

  /** Stripping two markers from between three plain strings joins them. */
  lemma StripTwoMarkers(a: string, m: string, c: string)
    requires MARKER !in a && MARKER !in m && MARKER !in c
    ensures Strip(a + [MARKER] + m + [MARKER] + c, MARKER) == a + m + c
  {
    StripMarkerBefore(a + [MARKER] + m, c);
    StripMarkerBefore(a, m);
    StripAbsent(a, MARKER);
  }

  /**
    With three markers the end is taken from the last one, one place too far for the text
    that remains: here it lies past the end of the text.
   */
  lemma ExecRawThreeMarkers()
    ensures ExecRaw("\0a\0b\0") == Raw("ab", Some(0), Some(3))
  {
    var s := "\0a\0b\0";
    assert s == [] + [MARKER] + "a\0b\0";
    IndexOfConcat([], MARKER, "a\0b\0");
    assert s == "\0a\0b" + [MARKER] + [];
    LastIndexOfConcat("\0a\0b", MARKER, []);
    assert Strip(s, MARKER) == "ab";
  }

  /** The caret placed through the `selectionStart` and `selectionEnd` setters. */
  function Caret(b: Buffer, x: nat): Buffer {
    SetEnd(SetStart(b, x), x)
  }

  /**
    `setValue`: the plain text is written to the textarea, then the selection is set from the
    markers: nothing more without markers; a caret when there is no end or the end is the
    start; otherwise the range.
   */
  function Committed(b: Buffer, source: string): (r: Buffer)
    requires ValidBuffer(b)
    ensures ValidBuffer(r)
    ensures r.value == Strip(source, MARKER)
  {
    var raw := ExecRaw(source);
    var w := Written(b, raw.text);
    match (raw.selectionStart, raw.selectionEnd)
    case (None, None) => w
    case (Some(s), None) => Caret(w, s)
    case (Some(s), Some(e)) => if s == e then Caret(w, s) else SetRange(w.value, s, e)
    case (None, Some(e)) => SetRange(w.value, 0, e)
  }

  /** Writing a value without markers is a plain write of the `value` property. */
  lemma CommittedPlain(b: Buffer, s: string)
    requires ValidBuffer(b) && MARKER !in s
    ensures Committed(b, s) == Written(b, s)
  {
    ExecRawPlain(s);
  }

  /** One marker leaves the caret where it was. */
  lemma CommittedOneMarker(b: Buffer, a: string, c: string)
    requires ValidBuffer(b) && MARKER !in a && MARKER !in c
    ensures Committed(b, a + [MARKER] + c) == Buffer(a + c, |a|, |a|)
  {
    ExecRawOneMarker(a, c);
    CaretAt(Written(b, a + c), |a|);
  }

  /** Two markers leave the text between them selected (a caret when there is none). */
  lemma CommittedTwoMarkers(b: Buffer, a: string, m: string, c: string)
    requires ValidBuffer(b) && MARKER !in a && MARKER !in m && MARKER !in c
    ensures Committed(b, a + [MARKER] + m + [MARKER] + c) == Buffer(a + m + c, |a|, |a| + |m|)
  {
    ExecRawTwoMarkers(a, m, c);
    CaretAt(Written(b, a + m + c), |a|);
  }

  /** `normalizeSelection`: text with a marker is kept; otherwise markers are added as asked. */
  function NormalizeSelection(text: string, behavior: DefaultBehavior): (r: string)
    ensures MARKER in text ==> r == text
  {
    if MARKER in text then text
    else
      match behavior
      case ToStart => [MARKER] + text
      case ToEnd => text + [MARKER]
      case SelectAll => [MARKER] + text + [MARKER]
  }

  /** Normalizing changes nothing but markers: without them, the text is the same. */
  lemma NormalizeKeepsText(text: string, behavior: DefaultBehavior)
    ensures Strip(NormalizeSelection(text, behavior), MARKER) == Strip(text, MARKER)
  {
    if MARKER !in text {
      StripAbsent(text, MARKER);
      StripAppend([MARKER], text, MARKER);
      StripAppend(text, [MARKER], MARKER);
      StripAppend([MARKER] + text, [MARKER], MARKER);
    }
  }


  /**
    Normalized marker-free text, placed between `a` and `c`, leaves the caret before it
    (`ToStart`), after it (`ToEnd`), or the text selected (`SelectAll`).
   */
  lemma CommittedNormalized(b: Buffer, a: string, text: string, c: string, behavior: DefaultBehavior)
    requires ValidBuffer(b) && MARKER !in a && MARKER !in text && MARKER !in c
    ensures Committed(b, a + NormalizeSelection(text, behavior) + c) == match behavior
      case ToStart => Buffer(a + text + c, |a|, |a|)
      case ToEnd => Buffer(a + text + c, |a| + |text|, |a| + |text|)
      case SelectAll => Buffer(a + text + c, |a|, |a| + |text|)
  {
    match behavior
    case ToStart => CommittedBefore(b, a, text, c);
    case ToEnd => CommittedAfter(b, a, text, c);
    case SelectAll => CommittedAround(b, a, text, c);
  }

  lemma CommittedBefore(b: Buffer, a: string, text: string, c: string)
    requires ValidBuffer(b) && MARKER !in a && MARKER !in text && MARKER !in c
    ensures Committed(b, a + NormalizeSelection(text, ToStart) + c) == Buffer(a + text + c, |a|, |a|)
  {
    var n := NormalizeSelection(text, ToStart);
    assert n == [MARKER] + text;
    assert a + n + c == a + [MARKER] + (text + c);
    CommittedOneMarker(b, a, text + c);
    assert a + (text + c) == a + text + c;
  }

  lemma CommittedAfter(b: Buffer, a: string, text: string, c: string)
    requires ValidBuffer(b) && MARKER !in a && MARKER !in text && MARKER !in c
    ensures Committed(b, a + NormalizeSelection(text, ToEnd) + c) == Buffer(a + text + c, |a| + |text|, |a| + |text|)
  {
    var n := NormalizeSelection(text, ToEnd);
    assert n == text + [MARKER];
    assert a + n + c == (a + text) + [MARKER] + c;
    CommittedOneMarker(b, a + text, c);
  }

  lemma CommittedAround(b: Buffer, a: string, text: string, c: string)
    requires ValidBuffer(b) && MARKER !in a && MARKER !in text && MARKER !in c
    ensures Committed(b, a + NormalizeSelection(text, SelectAll) + c) == Buffer(a + text + c, |a|, |a| + |text|)
  {
    var n := NormalizeSelection(text, SelectAll);
    assert n == [MARKER] + text + [MARKER];
    assert a + n + c == a + [MARKER] + text + [MARKER] + c;
    CommittedTwoMarkers(b, a, text, c);
  }

  /** Content with two markers, placed between `a` and `c`, leaves what lay between the markers selected. */
  lemma CommittedMarked(b: Buffer, a: string, x: string, m: string, y: string, c: string)
    requires ValidBuffer(b) && MARKER !in a && MARKER !in x && MARKER !in m && MARKER !in y && MARKER !in c
    ensures Committed(b, a + (x + [MARKER] + m + [MARKER] + y) + c) == Buffer(a + x + m + y + c, |a| + |x|, |a| + |x| + |m|)
  {
    Regroup(a, x, [MARKER], m, [MARKER], y, c);
    CommittedTwoMarkers(b, a + x, m, y + c);
  }

  // ---------------------------------------------------------------------------------------------
  // insert

  /**
    `selection?.selectionStart ?? position.cursorAt` and `selection?.selectionEnd ?? position.cursorAt`,
    the range `insert`, `wrap` and `isSelectedWrappedWith` work on, are the selection offsets
    themselves: there is no selection exactly when they are equal, and then the caret sits at both.
   */
  lemma RangeOfSelection(b: Buffer)
    requires ValidBuffer(b)
    ensures (if SelectionOf(b).Some? then SelectionOf(b).value.selectionStart else PositionOf(b).cursorAt) == b.start
    ensures (if SelectionOf(b).Some? then SelectionOf(b).value.selectionEnd else PositionOf(b).cursorAt) == b.end
    ensures SelectionOf(b).None? <==> b.start == b.end
  {
  }

  /**
    The value `insert` hands to `setValue`: the selection, or nothing at the caret, replaced by
    the normalized content. The source reads the caret from `position` when there is no
    selection; that offset is the selection start (`RangeOfSelection`).
   */
  function InsertSource(b: Buffer, content: string): string
    requires ValidBuffer(b)
  {
    if b.start == b.end then
      Slice(b.value, 0, b.start) + NormalizeSelection(content, ToEnd) + Slice(b.value, b.start, |b.value|)
    else
      Slice(b.value, 0, b.start) + NormalizeSelection(content, ToEnd) + SliceFrom(b.value, b.end)
  }

  /** `insert(content)`. */
  function Inserted(b: Buffer, content: string): Buffer
    requires ValidBuffer(b)
  {
    Committed(b, InsertSource(b, content))
  }

  /** Both branches of `insert` put the normalized content in place of the selection. */
  lemma InsertSourceShape(b: Buffer, content: string)
    requires ValidBuffer(b)
    ensures InsertSource(b, content) == b.value[..b.start] + NormalizeSelection(content, ToEnd) + b.value[b.end..]
  {
  }

  /** Plain content replaces the selection and leaves the caret after it. */
  lemma InsertPlain(b: Buffer, content: string)
    requires ValidBuffer(b) && MARKER !in b.value && MARKER !in content
    ensures var v, n := b.value, b.start + |content|;
      Inserted(b, content) == Buffer(v[..b.start] + content + v[b.end..], n, n)
  {
    var v := b.value;
    var before, after := v[..b.start], v[b.end..];
    InsertSourceShape(b, content);
    assert MARKER !in before && MARKER !in after;
    CommittedAfter(b, before, content, after);
  }

  /** A marker written at the end of plain content puts the caret where `insert` puts it anyway. */
  lemma InsertEndMarked(b: Buffer, content: string)
    requires ValidBuffer(b) && MARKER !in content
    ensures Inserted(b, content + [MARKER]) == Inserted(b, content)
  {
    assert NormalizeSelection(content + [MARKER], ToEnd) == NormalizeSelection(content, ToEnd) by {
      assert (content + [MARKER])[|content|] == MARKER;
    }
  }

  /** Content holding two markers replaces the selection and selects what lies between them. */
  lemma InsertMarked(b: Buffer, x: string, m: string, y: string)
    requires ValidBuffer(b) && MARKER !in b.value
    requires MARKER !in x && MARKER !in m && MARKER !in y
    ensures var v, s := b.value, b.start + |x|;
      Inserted(b, x + [MARKER] + m + [MARKER] + y) == Buffer(v[..b.start] + x + m + y + v[b.end..], s, s + |m|)
  {
    var v, content := b.value, x + [MARKER] + m + [MARKER] + y;
    var before, after := v[..b.start], v[b.end..];
    var l, r := before + x, y + after;
    assert InsertSource(b, content) == l + [MARKER] + m + [MARKER] + r by {
      assert content[|x|] == MARKER;
      assert NormalizeSelection(content, ToEnd) == content;
      InsertSourceShape(b, content);
      Regroup(before, x, [MARKER], m, [MARKER], y, after);
    }
    assert Inserted(b, content) == Buffer(l + m + r, |l|, |l| + |m|) by {
      PlainAround(v, b.start, b.end, x, y);
      CommittedTwoMarkers(b, l, m, r);
    }
    Regroup(before, x, [MARKER], m, [MARKER], y, after);
  }

  // ---------------------------------------------------------------------------------------------
  // replaceCurrentLines

  /**
    The lines `replaceCurrentLines` works on: the lines of the selection, or the caret's line.
    They are the block from the line holding the start to the line holding the end.
   */
  function CurrentLines(b: Buffer): (ls: seq<Line>)
    requires ValidBuffer(b)
    ensures var i, j := LineIndex(b.value, b.start), LineIndex(b.value, b.end);
      i <= j < |Lines(b.value)| && ls == Lines(b.value)[i..j + 1]
  {
    if SelectionOf(b).Some? then
      SelectionLines(b);
      SelectionOf(b).value.lines
    else
      var pos := PositionOf(b);
      LineIndexContains(b.value, b.start);
      LineSpan(b.value, LineIndex(b.value, b.start));
      var line := LineAt(b.value, pos.line.lineNumber);
      assert line.value == Lines(b.value)[LineIndex(b.value, b.start)];
      [line.value]
  }

  /** The block of lines from the line holding the start to the line holding the end. */
  function CurrentBlock(b: Buffer): (ls: seq<Line>)
    requires ValidBuffer(b)
    ensures var i, j := LineIndex(b.value, b.start), LineIndex(b.value, b.end);
      i <= j < |Lines(b.value)| && |ls| == j - i + 1
  {
    LineIndexOrdered(b.value, b.start, b.end);
    Lines(b.value)[LineIndex(b.value, b.start)..LineIndex(b.value, b.end) + 1]
  }

  /** The callback's results in line order, with the lines it answered `null` for dropped. */
  function KeptResults(lines: seq<Line>, callback: (Line, nat, seq<Line>) -> Option<string>, from: nat): (r: seq<string>)
    requires from <= |lines|
    ensures |r| <= |lines| - from
    ensures forall x :: x in r ==> exists k :: from <= k < |lines| && callback(lines[k], k, lines) == Some(x)
    decreases |lines| - from
  {
    if from == |lines| then []
    else
      var rest := KeptResults(lines, callback, from + 1);
      match callback(lines[from], from, lines)
      case Some(x) => [x] + rest
      case None => rest
  }

  /** The text that replaces the current lines. */
  function ReplacementText(b: Buffer, callback: (Line, nat, seq<Line>) -> Option<string>): string
    requires ValidBuffer(b)
  {
    Join(KeptResults(CurrentBlock(b), callback, 0), '\n')
  }

  function ReplaceCurrentLinesSource(b: Buffer, callback: (Line, nat, seq<Line>) -> Option<string>, selectReplaced: bool): string
    requires ValidBuffer(b)
  {
    var selected := CurrentBlock(b);
    var start := selected[0].startsAt;
    var end := selected[|selected| - 1].endsAt;
    Slice(b.value, 0, start)
      + NormalizeSelection(ReplacementText(b, callback), if selectReplaced then SelectAll else ToEnd)
      + SliceFrom(b.value, end)
  }

  /** `replaceCurrentLines(callback, { selectReplaced })`. */
  function ReplacedCurrentLines(b: Buffer, callback: (Line, nat, seq<Line>) -> Option<string>, selectReplaced: bool): Buffer
    requires ValidBuffer(b)
  {
    Committed(b, ReplaceCurrentLinesSource(b, callback, selectReplaced))
  }

  /**
    The current lines (lines `i` to `j`) are replaced by the callback's kept results, one line
    each (by one empty line when none is kept); the other lines are untouched.
   */
  lemma ReplaceCurrentLinesSplices(b: Buffer, callback: (Line, nat, seq<Line>) -> Option<string>, selectReplaced: bool)
    requires ValidBuffer(b) && MARKER !in b.value
    requires MARKER !in ReplacementText(b, callback)
    ensures LineIndex(b.value, b.start) <= LineIndex(b.value, b.end) < |Split(b.value, '\n')|
    ensures ReplacedCurrentLines(b, callback, selectReplaced).value
      == Join(Split(b.value, '\n')[..LineIndex(b.value, b.start)]
        + NonEmptyLines(KeptResults(CurrentBlock(b), callback, 0))
        + Split(b.value, '\n')[LineIndex(b.value, b.end) + 1..], '\n')
  {
    var ts, i, j := Split(b.value, '\n'), LineIndex(b.value, b.start), LineIndex(b.value, b.end);
    var kept := KeptResults(CurrentBlock(b), callback, 0);
    var r := ReplacedCurrentLines(b, callback, selectReplaced).value;
    assert i <= j < |ts| && r == JoinBefore(ts, i, '\n') + Join(kept, '\n') + JoinAfter(ts, j, '\n') by {
      ReplacedCurrentLinesAround(b, callback, selectReplaced);
    }
    SpliceLines(ts, i, j, kept, r);
    assert r == Join(ts[..i] + NonEmptyLines(kept) + ts[j + 1..], '\n');
    assert ReplacedCurrentLines(b, callback, selectReplaced).value == r;
    assert ts == Split(b.value, '\n');
    assert Split(b.value, '\n')[..LineIndex(b.value, b.start)] == ts[..i];
    assert Split(b.value, '\n')[LineIndex(b.value, b.end) + 1..] == ts[j + 1..];
    assert NonEmptyLines(KeptResults(CurrentBlock(b), callback, 0)) == NonEmptyLines(kept);
    assert ReplacedCurrentLines(b, callback, selectReplaced).value
      == Join(Split(b.value, '\n')[..LineIndex(b.value, b.start)]
        + NonEmptyLines(KeptResults(CurrentBlock(b), callback, 0))
        + Split(b.value, '\n')[LineIndex(b.value, b.end) + 1..], '\n');
  }

  /** The lines a join of `kept` makes: one empty line when there is nothing to join. */
  function NonEmptyLines(kept: seq<string>): (r: seq<string>)
    ensures |r| >= 1 && Join(r, '\n') == Join(kept, '\n')
  {
    if |kept| == 0 then [""] else kept
  }

  /** A value made of the text before line `i`, a join of new lines and the text after line `j`. */
  lemma SpliceLines(ts: seq<string>, i: nat, j: nat, kept: seq<string>, r: string)
    requires i <= j < |ts|
    requires r == JoinBefore(ts, i, '\n') + Join(kept, '\n') + JoinAfter(ts, j, '\n')
    ensures r == Join(ts[..i] + NonEmptyLines(kept) + ts[j + 1..], '\n')
  {
    var mid := NonEmptyLines(kept);
    assert Join(mid, '\n') == Join(kept, '\n');
    JoinSplice(ts, i, j, mid, '\n');
  }

  /**
    The new text takes the place of the current lines; the caret ends after it, or it is
    selected.
   */
  lemma ReplacedCurrentLinesAround(b: Buffer, callback: (Line, nat, seq<Line>) -> Option<string>, selectReplaced: bool)
    requires ValidBuffer(b) && MARKER !in b.value
    requires MARKER !in ReplacementText(b, callback)
    ensures Around(ReplacedCurrentLines(b, callback, selectReplaced), Split(b.value, '\n'),
      LineIndex(b.value, b.start), LineIndex(b.value, b.end), ReplacementText(b, callback), selectReplaced)
  {
    var v, i, j := b.value, LineIndex(b.value, b.start), LineIndex(b.value, b.end);
    var ts := Split(v, '\n');
    var text := ReplacementText(b, callback);
    var before, after := JoinBefore(ts, i, '\n'), JoinAfter(ts, j, '\n');
    var behavior := if selectReplaced then SelectAll else ToEnd;
    ReplaceCurrentLinesSourceShape(b, callback, selectReplaced);
    PlainContext(v, i);
    PlainContext(v, j);
    if selectReplaced {
      CommittedAround(b, before, text, after);
    } else {
      CommittedAfter(b, before, text, after);
    }
  }

  /**
    A callback whose results, joined, hold two markers: the joined text takes the place of
    the current lines and what lay between the markers is selected.
   */
  lemma ReplacedCurrentLinesMarked(b: Buffer, callback: (Line, nat, seq<Line>) -> Option<string>, selectReplaced: bool,
                                   x: string, m: string, y: string)
    requires ValidBuffer(b) && MARKER !in b.value && MARKER !in x && MARKER !in m && MARKER !in y
    requires ReplacementText(b, callback) == x + [MARKER] + m + [MARKER] + y
    ensures Marked(ReplacedCurrentLines(b, callback, selectReplaced), Split(b.value, '\n'),
      LineIndex(b.value, b.start), LineIndex(b.value, b.end), x, m, y)
  {
    var v, i, j := b.value, LineIndex(b.value, b.start), LineIndex(b.value, b.end);
    var ts := Split(v, '\n');
    var text := ReplacementText(b, callback);
    assert text[|x|] == MARKER;
    ReplaceCurrentLinesSourceShape(b, callback, selectReplaced);
    PlainContext(v, i);
    PlainContext(v, j);
    CommittedMarked(b, JoinBefore(ts, i, '\n'), x, m, y, JoinAfter(ts, j, '\n'));
  }

  /** `r` holds `x + m + y` in place of lines `i..j` of `ts`, with `m` selected. */
  predicate Marked(r: Buffer, ts: seq<string>, i: nat, j: nat, x: string, m: string, y: string) {
    && i <= j < |ts|
    && var before := JoinBefore(ts, i, '\n');
      r == Buffer(before + x + m + y + JoinAfter(ts, j, '\n'), |before| + |x|, |before| + |x| + |m|)
  }

  /**
    `r` holds `text` in place of lines `i..j` of `ts`, and selects it or has the caret after it.
   */
  predicate Around(r: Buffer, ts: seq<string>, i: nat, j: nat, text: string, selectReplaced: bool) {
    && i <= j < |ts|
    && var before, after := JoinBefore(ts, i, '\n'), JoinAfter(ts, j, '\n');
      r == Buffer(before + text + after, if selectReplaced then |before| else |before| + |text|, |before| + |text|)
  }

  /** `r` holds the lines of `ts` with `mid` in place of lines `i..j`, and selects it or has the caret after it. */
  predicate Spliced(r: Buffer, ts: seq<string>, i: nat, j: nat, mid: seq<string>, selectReplaced: bool) {
    && i <= j < |ts|
    && var before := JoinBefore(ts, i, '\n');
      var at := |before| + |Join(mid, '\n')|;
      r == Buffer(Join(ts[..i] + mid + ts[j + 1..], '\n'), if selectReplaced then |before| else at, at)
  }

  /** The text around a line of a marker-free value holds no marker. */
  lemma PlainContext(v: string, k: nat)
    requires MARKER !in v && k < |Split(v, '\n')|
    ensures MARKER !in JoinBefore(Split(v, '\n'), k, '\n') && MARKER !in JoinAfter(Split(v, '\n'), k, '\n')
  {
    JoinSplit(v, '\n');
    JoinAt(Split(v, '\n'), k, '\n');
  }

  /** The value handed to `setValue` keeps the text around the current lines. */
  lemma ReplaceCurrentLinesSourceShape(b: Buffer, callback: (Line, nat, seq<Line>) -> Option<string>, selectReplaced: bool)
    requires ValidBuffer(b)
    ensures var ts, i, j := Split(b.value, '\n'), LineIndex(b.value, b.start), LineIndex(b.value, b.end);
      && i <= j < |ts|
      && ReplaceCurrentLinesSource(b, callback, selectReplaced)
        == JoinBefore(ts, i, '\n')
          + NormalizeSelection(ReplacementText(b, callback), if selectReplaced then SelectAll else ToEnd)
          + JoinAfter(ts, j, '\n')
  {
    CurrentBlockContext(b);
  }

  /** The text before the current lines is the lines before them, and likewise after. */
  lemma CurrentBlockContext(b: Buffer)
    requires ValidBuffer(b)
    ensures var v, ls := b.value, CurrentBlock(b);
      var ts, i, j := Split(v, '\n'), LineIndex(v, b.start), LineIndex(v, b.end);
      && i <= j < |ts|
      && Slice(v, 0, ls[0].startsAt) == JoinBefore(ts, i, '\n')
      && SliceFrom(v, ls[|ls| - 1].endsAt) == JoinAfter(ts, j, '\n')
  {
    CurrentBlockEnds(b);
    LinesAroundSliced(b.value, LineIndex(b.value, b.start), LineIndex(b.value, b.end));
  }

  /** The current lines run from the line holding the start to the line holding the end. */
  lemma CurrentBlockEnds(b: Buffer)
    requires ValidBuffer(b)
    ensures var ls, i, j := CurrentBlock(b), LineIndex(b.value, b.start), LineIndex(b.value, b.end);
      ls[0] == Lines(b.value)[i] && ls[|ls| - 1] == Lines(b.value)[j]
  {
  }

  // ---------------------------------------------------------------------------------------------
  // replaceCurrentLines with a callback that maps the text of every line

  /** A callback that keeps every line, mapping its text and its index among the current lines. */
  function LineMap(f: (string, nat) -> string): (Line, nat, seq<Line>) -> Option<string> {
    (line: Line, index: nat, lines: seq<Line>) => Some(f(line.text, index))
  }

  /** `f` applied to every text with its index. */
  function MapTexts(f: (string, nat) -> string, ts: seq<string>): (r: seq<string>)
    ensures |r| == |ts|
    ensures forall k :: 0 <= k < |ts| ==> r[k] == f(ts[k], k)
  {
    seq(|ts|, k requires 0 <= k < |ts| => f(ts[k], k))
  }

  /** `f` keeps text that is free of markers and newlines free of them. */
  ghost predicate LineSafe(f: (string, nat) -> string) {
    forall t: string, k: nat :: MARKER !in t && '\n' !in t ==> MARKER !in f(t, k) && '\n' !in f(t, k)
  }

  /** `g` gives back every text of `block` that `f` mapped. */
  predicate Undoes(g: (string, nat) -> string, f: (string, nat) -> string, block: seq<string>) {
    forall k :: 0 <= k < |block| ==> g(f(block[k], k), k) == block[k]
  }

  /** A mapping callback keeps one result per line, in order. */
  lemma {:induction false} KeptAll(lines: seq<Line>, f: (string, nat) -> string, from: nat)
    requires from <= |lines|
    ensures KeptResults(lines, LineMap(f), from) == MapTexts(f, Texts(lines))[from..]
    decreases |lines| - from
  {
    if from < |lines| {
      KeptAll(lines, f, from + 1);
      var m := MapTexts(f, Texts(lines));
      assert LineMap(f)(lines[from], from, lines) == Some(m[from]);
      assert m[from..] == [m[from]] + m[from + 1..];
    }
  }

  /** A callback that keeps the given result for every line keeps exactly those results. */
  lemma {:induction false} KeptEach(lines: seq<Line>, callback: (Line, nat, seq<Line>) -> Option<string>, from: nat, rs: seq<string>)
    requires from <= |lines| == |rs|
    requires forall k :: from <= k < |lines| ==> callback(lines[k], k, lines) == Some(rs[k])
    ensures KeptResults(lines, callback, from) == rs[from..]
    decreases |lines| - from
  {
    if from < |lines| {
      KeptEach(lines, callback, from + 1, rs);
      assert rs[from..] == [rs[from]] + rs[from + 1..];
    }
  }

  /** A line of a marker-free value holds no marker. */
  lemma PlainPiece(v: string, k: nat)
    requires MARKER !in v && k < |Split(v, '\n')|
    ensures MARKER !in Split(v, '\n')[k] && '\n' !in Split(v, '\n')[k]
  {
    JoinSplit(v, '\n');
    JoinAt(Split(v, '\n'), k, '\n');
  }

  /** The texts of the current lines are the pieces `i..j` of the split value. */
  lemma CurrentTexts(b: Buffer)
    requires ValidBuffer(b)
    ensures var ts, i, j := Split(b.value, '\n'), LineIndex(b.value, b.start), LineIndex(b.value, b.end);
      i <= j < |ts| && Texts(CurrentBlock(b)) == ts[i..j + 1]
  {
    var v, i, j := b.value, LineIndex(b.value, b.start), LineIndex(b.value, b.end);
    LineIndexOrdered(v, b.start, b.end);
    TextsOfLines(v);
    TextsOfBlock(Lines(v), i, j + 1);
  }

  /** The mapped texts of the current lines: `f` applied to lines `i..j`, each with its index in the block. */
  function MappedBlock(b: Buffer, f: (string, nat) -> string): (mid: seq<string>)
    requires ValidBuffer(b)
    ensures |mid| == LineIndex(b.value, b.end) - LineIndex(b.value, b.start) + 1
  {
    LineIndexBound(b.value, b.start, b.end);
    MapTexts(f, Split(b.value, '\n')[LineIndex(b.value, b.start)..LineIndex(b.value, b.end) + 1])
  }

  /** A line-safe callback maps clean texts to clean texts. */
  lemma MapClean(f: (string, nat) -> string, block: seq<string>)
    requires LineSafe(f) && Clean(block)
    ensures Clean(MapTexts(f, block))
  {
    var mid := MapTexts(f, block);
    forall k | 0 <= k < |mid|
      ensures MARKER !in mid[k] && '\n' !in mid[k]
    {
      assert mid[k] == f(block[k], k);
    }
  }

  /** A slice of clean texts is clean. */
  lemma CleanSlice(ts: seq<string>, i: nat, j: nat)
    requires i <= j <= |ts| && Clean(ts)
    ensures Clean(ts[i..j])
  {
    assert forall k :: 0 <= k < j - i ==> ts[i..j][k] == ts[i + k];
  }

  /** Mapped texts of a marker-free value's lines hold neither markers nor newlines. */
  lemma MappedSafe(b: Buffer, f: (string, nat) -> string)
    requires ValidBuffer(b) && MARKER !in b.value && LineSafe(f)
    ensures Clean(MappedBlock(b, f))
  {
    var v, i, j := b.value, LineIndex(b.value, b.start), LineIndex(b.value, b.end);
    var ts := Split(v, '\n');
    LineIndexBound(v, b.start, b.end);
    PlainLines(v);
    var block := ts[i..j + 1];
    CleanSlice(ts, i, j + 1);
    MapClean(f, block);
    assert MappedBlock(b, f) == MapTexts(f, block);
  }

  /** A mapping callback keeps one text per current line: the mapped texts of lines `i..j`. */
  lemma MappedText(b: Buffer, f: (string, nat) -> string)
    requires ValidBuffer(b)
    ensures ReplacementText(b, LineMap(f)) == Join(MappedBlock(b, f), '\n')
  {
    var ts, i, j := Split(b.value, '\n'), LineIndex(b.value, b.start), LineIndex(b.value, b.end);
    CurrentTexts(b);
    assert MappedBlock(b, f) == MapTexts(f, Texts(CurrentBlock(b))) by {
      assert Texts(CurrentBlock(b)) == ts[i..j + 1];
    }
    KeptAll(CurrentBlock(b), f, 0);
  }

  /** No text of `block` holds a marker or a newline. */
  predicate Clean(block: seq<string>) {
    Avoids(block, MARKER) && Avoids(block, '\n')
  }

  /** A callback whose kept results are a clean block puts that block in place of lines `i..j`. */
  lemma ReplacedByBlock(b: Buffer, callback: (Line, nat, seq<Line>) -> Option<string>, selectReplaced: bool, mid: seq<string>)
    requires ValidBuffer(b) && MARKER !in b.value && |mid| >= 1 && Clean(mid)
    requires ReplacementText(b, callback) == Join(mid, '\n')
    ensures Spliced(ReplacedCurrentLines(b, callback, selectReplaced), Split(b.value, '\n'),
      LineIndex(b.value, b.start), LineIndex(b.value, b.end), mid, selectReplaced)
  {
    JoinAvoids(mid, '\n', MARKER);
    ReplacedCurrentLinesAround(b, callback, selectReplaced);
    SplicedBuffer(ReplacedCurrentLines(b, callback, selectReplaced), Split(b.value, '\n'),
      LineIndex(b.value, b.start), LineIndex(b.value, b.end), mid, selectReplaced);
  }

  /** A buffer holding a joined block between the rest of the lines is the join of the spliced lines. */
  lemma SplicedBuffer(r: Buffer, ts: seq<string>, i: nat, j: nat, mid: seq<string>, selectReplaced: bool)
    requires |mid| >= 1 && Around(r, ts, i, j, Join(mid, '\n'), selectReplaced)
    ensures Spliced(r, ts, i, j, mid, selectReplaced)
  {
    JoinSplice(ts, i, j, mid, '\n');
  }

  /**
    With a mapping callback, the current lines `i..j` are replaced by their mapped texts, one
    line each, and nothing else changes; the mapped block is selected, or the caret ends after it.
   */
  lemma MappedLines(b: Buffer, f: (string, nat) -> string, selectReplaced: bool)
    requires ValidBuffer(b) && MARKER !in b.value && LineSafe(f)
    ensures Clean(MappedBlock(b, f))
    ensures Spliced(ReplacedCurrentLines(b, LineMap(f), selectReplaced), Split(b.value, '\n'),
      LineIndex(b.value, b.start), LineIndex(b.value, b.end), MappedBlock(b, f), selectReplaced)
  {
    MappedText(b, f);
    MappedSafe(b, f);
    ReplacedByBlock(b, LineMap(f), selectReplaced, MappedBlock(b, f));
  }

  /** The lines of a marker-free value are clean. */
  lemma PlainLines(v: string)
    requires MARKER !in v
    ensures Clean(Split(v, '\n'))
  {
    forall k | 0 <= k < |Split(v, '\n')|
      ensures MARKER !in Split(v, '\n')[k] && '\n' !in Split(v, '\n')[k]
    {
      PlainPiece(v, k);
    }
  }

  /** Splicing a clean block of the same number of lines into clean lines gives clean lines. */
  lemma SplicedClean(ts: seq<string>, i: nat, j: nat, mid: seq<string>)
    requires i <= j < |ts| && Clean(ts) && Clean(mid)
    ensures Clean(ts[..i] + mid + ts[j + 1..])
  {
    var ts' := ts[..i] + mid + ts[j + 1..];
    forall k | 0 <= k < |ts'|
      ensures MARKER !in ts'[k] && '\n' !in ts'[k]
    {
      if k < i {
        assert ts'[k] == ts[k];
      } else if k < i + |mid| {
        assert ts'[k] == mid[k - i];
      } else {
        assert ts'[k] == ts[j + 1 + (k - i - |mid|)];
      }
    }
  }

  /**
    `r` splits into the lines of `ts` with `mid` in place of lines `i..j`, holds no marker, and
    has its selection from line `i` to line `j`.
   */
  predicate Reselected(r: Buffer, ts: seq<string>, i: nat, j: nat, mid: seq<string>) {
    && i <= j < |ts|
    && r.start <= r.end <= |r.value|
    && MARKER !in r.value
    && Split(r.value, '\n') == ts[..i] + mid + ts[j + 1..]
    && LineIndex(r.value, r.start) == i
    && LineIndex(r.value, r.end) == j
  }

  /**
    A buffer holding clean lines with a clean block of as many lines spliced in splits into
    those lines, holds no marker, and has its selection on the block's lines: all of them when
    the block is selected, the single line when there is only a caret after it.
   */
  lemma SplicedReselected(r: Buffer, ts: seq<string>, i: nat, j: nat, mid: seq<string>, selectReplaced: bool)
    requires Spliced(r, ts, i, j, mid, selectReplaced) && Clean(ts) && Clean(mid)
    requires |mid| == j - i + 1 && (selectReplaced || i == j)
    ensures Reselected(r, ts, i, j, mid)
  {
    SplicedText(r, ts, i, j, mid, selectReplaced);
    SplicedSelection(r, ts, i, j, mid, selectReplaced);
  }

  /** The text half of `SplicedReselected`. */
  lemma SplicedText(r: Buffer, ts: seq<string>, i: nat, j: nat, mid: seq<string>, selectReplaced: bool)
    requires Spliced(r, ts, i, j, mid, selectReplaced) && Clean(ts) && |mid| >= 1 && Clean(mid)
    ensures Split(r.value, '\n') == ts[..i] + mid + ts[j + 1..]
    ensures Clean(ts[..i] + mid + ts[j + 1..]) && MARKER !in r.value
  {
    var ts' := ts[..i] + mid + ts[j + 1..];
    SplicedClean(ts, i, j, mid);
    SplitJoin(ts', '\n');
    JoinAvoids(ts', '\n', MARKER);
  }

  /** The selection half of `SplicedReselected`. */
  lemma SplicedSelection(r: Buffer, ts: seq<string>, i: nat, j: nat, mid: seq<string>, selectReplaced: bool)
    requires Spliced(r, ts, i, j, mid, selectReplaced) && Clean(ts[..i] + mid + ts[j + 1..])
    requires |mid| == j - i + 1 && (selectReplaced || i == j)
    ensures r.start <= r.end <= |r.value|
    ensures LineIndex(r.value, r.start) == i && LineIndex(r.value, r.end) == j
  {
    LineIndexSplice(ts, i, j, mid);
  }

  /** The current lines of a reselected buffer are the block spliced in. */
  lemma ReselectedTexts(r: Buffer, ts: seq<string>, i: nat, j: nat, mid: seq<string>)
    requires Reselected(r, ts, i, j, mid) && |mid| == j - i + 1
    ensures ValidBuffer(r) && Texts(CurrentLines(r)) == mid
  {
    CurrentTexts(r);
    SpliceMiddle(ts, i, j, mid);
  }

  /**
    After a mapping callback, the lines of the new value are the old ones with the block
    mapped, and the new selection (or caret) runs over the same line numbers: the block
    when it was selected, its line when there was only a caret.
   */
  lemma MappedLinesReselect(b: Buffer, f: (string, nat) -> string, selectReplaced: bool)
    requires ValidBuffer(b) && MARKER !in b.value && LineSafe(f)
    requires selectReplaced || b.start == b.end
    ensures Reselected(ReplacedCurrentLines(b, LineMap(f), selectReplaced), Split(b.value, '\n'),
      LineIndex(b.value, b.start), LineIndex(b.value, b.end), MappedBlock(b, f))
  {
    MappedLines(b, f, selectReplaced);
    PlainLines(b.value);
    SplicedReselected(ReplacedCurrentLines(b, LineMap(f), selectReplaced), Split(b.value, '\n'),
      LineIndex(b.value, b.start), LineIndex(b.value, b.end), MappedBlock(b, f), selectReplaced);
  }

  /** `g` maps the block `f` made of the current lines back to those lines. */
  lemma UndoneBlock(b: Buffer, f: (string, nat) -> string, g: (string, nat) -> string)
    requires ValidBuffer(b)
    requires var ts, i, j := Split(b.value, '\n'), LineIndex(b.value, b.start), LineIndex(b.value, b.end);
      i <= j < |ts| ==> Undoes(g, f, ts[i..j + 1])
    ensures var ts, i, j := Split(b.value, '\n'), LineIndex(b.value, b.start), LineIndex(b.value, b.end);
      i <= j < |ts| && MapTexts(g, MappedBlock(b, f)) == ts[i..j + 1]
  {
    var ts, i, j := Split(b.value, '\n'), LineIndex(b.value, b.start), LineIndex(b.value, b.end);
    LineIndexBound(b.value, b.start, b.end);
    MapUndone(f, g, ts[i..j + 1]);
  }

  /** Mapping with `f` and then with `g` gives back a block that `g` undoes `f` on. */
  lemma MapUndone(f: (string, nat) -> string, g: (string, nat) -> string, block: seq<string>)
    requires Undoes(g, f, block)
    ensures MapTexts(g, MapTexts(f, block)) == block
  {
    var mid := MapTexts(f, block);
    forall k | 0 <= k < |block|
      ensures MapTexts(g, mid)[k] == block[k]
    {
      assert mid[k] == f(block[k], k);
    }
  }

  /**
    A second callback that maps the spliced block back to the lines it replaced restores
    the original lines.
   */
  lemma SplicedBack(r: Buffer, r': Buffer, ts: seq<string>, i: nat, j: nat, mid: seq<string>, g: (string, nat) -> string, selectAgain: bool)
    requires Reselected(r, ts, i, j, mid) && |mid| == j - i + 1 && MapTexts(g, mid) == ts[i..j + 1]
    requires Spliced(r', Split(r.value, '\n'), LineIndex(r.value, r.start), LineIndex(r.value, r.end), MappedBlock(r, g), selectAgain)
    ensures r'.value == Join(ts, '\n')
  {
    assert MappedBlock(r, g) == MapTexts(g, mid) by {
      SpliceMiddle(ts, i, j, mid);
    }
    SpliceBack(ts, i, j, mid);
  }

  /**
    A second mapping callback run on a value whose lines hold a block spliced in: when it
    maps the block back to the lines the block replaced, the original lines come back.
   */
  lemma SecondMapRestores(r: Buffer, g: (string, nat) -> string, selectAgain: bool, ts: seq<string>, i: nat, j: nat, mid: seq<string>)
    // Compared with `true` so that callers establish it as one fact rather than part by part.
    requires Reselected(r, ts, i, j, mid) == true && LineSafe(g)
    requires |mid| == j - i + 1 && MapTexts(g, mid) == ts[i..j + 1]
    ensures ReplacedCurrentLines(r, LineMap(g), selectAgain).value == Join(ts, '\n')
  {
    MappedLines(r, g, selectAgain);
    SplicedBack(r, ReplacedCurrentLines(r, LineMap(g), selectAgain), ts, i, j, mid, g, selectAgain);
  }

  /**
    A mapping callback undone by a second one: when `g` gives back every text `f` made of
    the current lines, running both restores the value.
   */
  lemma MapTwiceRestores(b: Buffer, f: (string, nat) -> string, g: (string, nat) -> string, selectReplaced: bool, selectAgain: bool)
    requires ValidBuffer(b) && MARKER !in b.value && LineSafe(f) && LineSafe(g)
    requires selectReplaced || b.start == b.end
    requires var ts, i, j := Split(b.value, '\n'), LineIndex(b.value, b.start), LineIndex(b.value, b.end);
      i <= j < |ts| ==> Undoes(g, f, ts[i..j + 1])
    ensures ReplacedCurrentLines(ReplacedCurrentLines(b, LineMap(f), selectReplaced), LineMap(g), selectAgain).value == b.value
  {
    var ts, i, j := Split(b.value, '\n'), LineIndex(b.value, b.start), LineIndex(b.value, b.end);
    var mid := MappedBlock(b, f);
    MappedLinesReselect(b, f, selectReplaced);
    UndoneBlock(b, f, g);
    SecondMapRestores(ReplacedCurrentLines(b, LineMap(f), selectReplaced), g, selectAgain, ts, i, j, mid);
    JoinSplit(b.value, '\n');
  }

  // ---------------------------------------------------------------------------------------------
  // replaceLine

  function ReplaceLineSource(b: Buffer, lineNumber: int, content: Option<string>): string
    requires LineAt(b.value, lineNumber).Some?
  {
    var line := LineAt(b.value, lineNumber).value;
    match content
    case None => Slice(b.value, 0, line.startsAt - 1) + [MARKER] + SliceFrom(b.value, line.endsAt)
    case Some(c) => Slice(b.value, 0, line.startsAt) + NormalizeSelection(c, ToEnd) + SliceFrom(b.value, line.endsAt)
  }

  /** `replaceLine(lineNumber, content)`: an unknown line number changes nothing. */
  function ReplacedLine(b: Buffer, lineNumber: int, content: Option<string>): (r: Buffer)
    requires ValidBuffer(b)
    ensures LineAt(b.value, lineNumber).None? ==> r == b
  {
    if LineAt(b.value, lineNumber).None? then b
    else Committed(b, ReplaceLineSource(b, lineNumber, content))
  }

  /** New content for line `n` replaces that line alone; the caret ends after it. */
  lemma ReplaceLineWith(b: Buffer, lineNumber: nat, c: string)
    requires ValidBuffer(b) && MARKER !in b.value && MARKER !in c
    requires 1 <= lineNumber <= |Lines(b.value)|
    ensures var ts, k := Split(b.value, '\n'), lineNumber - 1;
      var at := |JoinBefore(ts, k, '\n')| + |c|;
      && k < |ts|
      && ReplacedLine(b, lineNumber, Some(c)) == Buffer(Join(ts[..k] + [c] + ts[k + 1..], '\n'), at, at)
  {
    var v, k := b.value, lineNumber - 1;
    var ts, ls := Split(v, '\n'), Lines(v);
    LineContext(v, k);
    var before, after := v[..ls[k].startsAt], v[ls[k].endsAt..];
    assert ReplaceLineSource(b, lineNumber, Some(c)) == before + NormalizeSelection(c, ToEnd) + after;
    assert MARKER !in before && MARKER !in after;
    CommittedNormalized(b, before, c, after, ToEnd);
    JoinSplice(ts, k, k, [c], '\n');
  }

  /** Marked content for line `n` replaces that line alone and selects what lay between the markers. */
  lemma ReplaceLineMarked(b: Buffer, lineNumber: nat, x: string, m: string, y: string)
    requires ValidBuffer(b) && MARKER !in b.value && MARKER !in x && MARKER !in m && MARKER !in y
    requires 1 <= lineNumber <= |Lines(b.value)|
    ensures var ts, k := Split(b.value, '\n'), lineNumber - 1;
      var at := |JoinBefore(ts, k, '\n')| + |x|;
      && k < |ts|
      && ReplacedLine(b, lineNumber, Some(x + [MARKER] + m + [MARKER] + y))
        == Buffer(Join(ts[..k] + [x + m + y] + ts[k + 1..], '\n'), at, at + |m|)
  {
    var v, k := b.value, lineNumber - 1;
    var ts := Split(v, '\n');
    var c := x + [MARKER] + m + [MARKER] + y;
    LinesAroundSliced(v, k, k);
    var before, after := JoinBefore(ts, k, '\n'), JoinAfter(ts, k, '\n');
    assert c[|x|] == MARKER;
    assert ReplaceLineSource(b, lineNumber, Some(c)) == before + c + after;
    PlainContext(v, k);
    CommittedMarked(b, before, x, m, y, after);
    var line := x + m + y;
    Group(before, x, m, y, after);
    assert Join([line], '\n') == line;
    JoinSplice(ts, k, k, [line], '\n');
  }

  /** Removing line `n`, `n` at least 2, writes the value before the newline ahead of the line and the value after the line. */
  lemma ReplaceLineCut(b: Buffer, lineNumber: nat)
    requires ValidBuffer(b) && MARKER !in b.value
    requires 2 <= lineNumber <= |Lines(b.value)|
    ensures var v, line := b.value, Lines(b.value)[lineNumber - 1];
      && 1 <= line.startsAt <= line.endsAt <= |v|
      && ReplacedLine(b, lineNumber, None) == Buffer(v[..line.startsAt - 1] + v[line.endsAt..], line.startsAt - 1, line.startsAt - 1)
  {
    var v, k := b.value, lineNumber - 1;
    var line := Lines(v)[k];
    LineSpan(v, k);
    var before, after := v[..line.startsAt - 1], v[line.endsAt..];
    assert ReplaceLineSource(b, lineNumber, None) == before + [MARKER] + after;
    PlainSlices(v, line.startsAt - 1, line.endsAt);
    CommittedOneMarker(b, before, after);
  }

  /**
    Removing line `n` for `n` of at least 2 drops that line and the newline before it; the
    caret ends where the line before it ends.
   */
  lemma ReplaceLineRemoves(b: Buffer, lineNumber: nat)
    requires ValidBuffer(b) && MARKER !in b.value
    requires 2 <= lineNumber <= |Lines(b.value)|
    ensures var ts, k := Split(b.value, '\n'), lineNumber - 1;
      var at := |Join(ts[..k], '\n')|;
      && k < |ts|
      && ReplacedLine(b, lineNumber, None) == Buffer(Join(ts[..k] + ts[k + 1..], '\n'), at, at)
      && at == Lines(b.value)[k - 1].endsAt
  {
    var v, k := b.value, lineNumber - 1;
    var ts, ls := Split(v, '\n'), Lines(v);
    ReplaceLineCut(b, lineNumber);
    LineAfterNewline(v, k);
    JoinRemove(ts, k, '\n');
  }


  /**
    Removing the first line does not remove it: `slice(0, start - 1)` is `slice(0, -1)`, all of
    the value but its last character, and the text after the first line follows it. A value of
    two lines or more never gets shorter; "ab\ncd" becomes "ab\nc\ncd".
   */
  lemma ReplaceFirstLineAsWritten(b: Buffer)
    requires ValidBuffer(b) && MARKER !in b.value && |b.value| >= 1
    ensures var v, first := b.value, Lines(b.value)[0];
      var r := ReplacedLine(b, 1, None);
      && first.endsAt <= |v|
      && r == Buffer(v[..|v| - 1] + v[first.endsAt..], |v| - 1, |v| - 1)
      && (|Lines(v)| >= 2 ==> |r.value| >= |v|)
  {
    var v := b.value;
    LinesCover(v);
    LineSpan(v, 0);
    var first := Lines(v)[0];
    var before, after := v[..|v| - 1], v[first.endsAt..];
    assert ReplaceLineSource(b, 1, None) == before + [MARKER] + after;
    PlainSlices(v, |v| - 1, |v| - 1);
    PlainSlices(v, first.endsAt, first.endsAt);
    CommittedOneMarker(b, before, after);
  }



  // ---------------------------------------------------------------------------------------------
  // wrap

  /** `isSelectedWrappedWith(markup)` on the text and the range it reads. */
  predicate WrappedAround(text: string, start: int, end: int, prefix: string, suffix: string) {
    if start - |prefix| < 0 || end - 1 + |suffix| > |text| - 1 then false
    else Slice(text, start - |prefix|, start) == prefix && Slice(text, end, end + |suffix|) == suffix
  }

  /**
    `isSelectedWrappedWith(markup)`: the prefix ends where the selection starts and the suffix
    starts where it ends. The range is read as the selection offsets (`RangeOfSelection`).
   */
  predicate IsSelectedWrappedWith(b: Buffer, markup: Markup)
    requires ValidBuffer(b)
  {
    WrappedAround(b.value, b.start, b.end, markup.Prefix(), markup.Suffix())
  }

  /** The test, in plain terms. */
  lemma WrappedAroundIff(text: string, start: nat, end: nat, p: string, s: string)
    requires start <= end <= |text|
    ensures WrappedAround(text, start, end, p, s) <==>
      |p| <= start && end + |s| <= |text| && text[start - |p|..start] == p && text[end..end + |s|] == s
  {
  }

  /** The same test on the selection of a buffer. */
  lemma WrappedWithIff(b: Buffer, markup: Markup)
    requires ValidBuffer(b)
    ensures var p, s, v := markup.Prefix(), markup.Suffix(), b.value;
      IsSelectedWrappedWith(b, markup) <==>
        |p| <= b.start && b.end + |s| <= |v| && v[b.start - |p|..b.start] == p && v[b.end..b.end + |s|] == s
  {
    WrappedAroundIff(b.value, b.start, b.end, markup.Prefix(), markup.Suffix());
  }

  /** The marked content `wrap` writes: the markup taken off (`unwrapping`) or put around the range. */
  function WrapText(text: string, start: int, end: int, prefix: string, suffix: string, unwrapping: bool, placeholder: string): string {
    if unwrapping then
      Slice(text, 0, start - |prefix|) + [MARKER] + Slice(text, start, end) + [MARKER] + SliceFrom(text, end + |suffix|)
    else
      var inner := if Slice(text, start, end) == [] then placeholder else Slice(text, start, end);
      Slice(text, 0, start) + prefix + [MARKER] + inner + [MARKER] + suffix + SliceFrom(text, end)
  }

  /** The content `wrap` writes, over the selection offsets (`RangeOfSelection`). */
  function WrapSource(b: Buffer, markup: Markup, unwrap: bool, placeholder: string): string
    requires ValidBuffer(b)
  {
    WrapText(b.value, b.start, b.end, markup.Prefix(), markup.Suffix(),
      IsSelectedWrappedWith(b, markup) && unwrap, placeholder)
  }

  /** `wrap(markup, { unwrap, placeholder })`. */
  function Wrapped(b: Buffer, markup: Markup, unwrap: bool, placeholder: string): Buffer
    requires ValidBuffer(b)
  {
    Committed(b, WrapSource(b, markup, unwrap, placeholder))
  }

  predicate Plain(s: string) {
    MARKER !in s
  }

  /** Pieces of marker-free text, with marker-free markup on either side, are marker-free. */
  lemma PlainAround(v: string, i: nat, j: nat, p: string, s: string)
    requires i <= j <= |v| && Plain(v) && Plain(p) && Plain(s)
    ensures Plain(v[..i] + p) && Plain(v[i..j]) && Plain(s + v[j..])
  {
    assert forall k :: 0 <= k < i ==> v[..i][k] == v[k];
    assert forall k :: 0 <= k < |v| - j ==> v[j..][k] == v[j + k];
  }

  /** The three pieces of marker-free text around two offsets are marker-free. */
  lemma PlainSlices(v: string, i: nat, j: nat)
    requires i <= j <= |v| && Plain(v)
    ensures Plain(v[..i]) && Plain(v[i..j]) && Plain(v[j..])
  {
    PlainAround(v, i, j, [], []);
    assert v[..i] + [] == v[..i] && [] + v[j..] == v[j..];
  }

  /** Putting the markup around a range: the range, or the placeholder for an empty one, between markers. */
  lemma WrapTextAdds(text: string, start: nat, end: nat, p: string, s: string, placeholder: string)
    requires start <= end <= |text|
    ensures var inner := if start == end then placeholder else text[start..end];
      WrapText(text, start, end, p, s, false, placeholder)
        == (text[..start] + p) + [MARKER] + inner + [MARKER] + (s + text[end..])
  {
  }

  /** Taking the markup off a range: what lies before the prefix, the range and what lies after the suffix. */
  lemma WrapTextRemoves(text: string, start: nat, end: nat, p: string, s: string, placeholder: string)
    requires |p| <= start <= end && end + |s| <= |text|
    ensures WrapText(text, start, end, p, s, true, placeholder)
        == text[..start - |p|] + [MARKER] + text[start..end] + [MARKER] + text[end + |s|..]
  {
  }

  /** The content written when the markup is put around the selection. */
  lemma WrapSourceAdds(b: Buffer, markup: Markup, unwrap: bool, placeholder: string)
    requires ValidBuffer(b) && !(IsSelectedWrappedWith(b, markup) && unwrap)
    ensures var v, p, s := b.value, markup.Prefix(), markup.Suffix();
      var inner := if b.start == b.end then placeholder else v[b.start..b.end];
      WrapSource(b, markup, unwrap, placeholder) == (v[..b.start] + p) + [MARKER] + inner + [MARKER] + (s + v[b.end..])
  {
    var v, p, s := b.value, markup.Prefix(), markup.Suffix();
    assert WrapSource(b, markup, unwrap, placeholder) == WrapText(v, b.start, b.end, p, s, false, placeholder);
    WrapTextAdds(v, b.start, b.end, p, s, placeholder);
  }

  /** The content written when the markup around the selection is taken off. */
  lemma WrapSourceRemoves(b: Buffer, markup: Markup, placeholder: string)
    requires ValidBuffer(b) && IsSelectedWrappedWith(b, markup)
    ensures var v, p, s := b.value, markup.Prefix(), markup.Suffix();
      && |p| <= b.start && b.end + |s| <= |v|
      && WrapSource(b, markup, true, placeholder) == v[..b.start - |p|] + [MARKER] + v[b.start..b.end] + [MARKER] + v[b.end + |s|..]
  {
    var v, p, s := b.value, markup.Prefix(), markup.Suffix();
    WrappedWithIff(b, markup);
    assert WrapSource(b, markup, true, placeholder) == WrapText(v, b.start, b.end, p, s, true, placeholder);
    WrapTextRemoves(v, b.start, b.end, p, s, placeholder);
  }

  /**
    Wrapping puts the markup around the selection and keeps the same text selected; an empty
    selection is filled with the placeholder, which is selected.
   */
  lemma WrapAdds(b: Buffer, markup: Markup, unwrap: bool, placeholder: string)
    requires ValidBuffer(b) && Plain(b.value) && Plain(markup.Prefix()) && Plain(markup.Suffix()) && Plain(placeholder)
    requires !(IsSelectedWrappedWith(b, markup) && unwrap)
    ensures var v, p, s := b.value, markup.Prefix(), markup.Suffix();
      var inner := if b.start == b.end then placeholder else v[b.start..b.end];
      Wrapped(b, markup, unwrap, placeholder)
        == Buffer((v[..b.start] + p) + inner + (s + v[b.end..]), b.start + |p|, b.start + |p| + |inner|)
  {
    var v, p, s := b.value, markup.Prefix(), markup.Suffix();
    var inner := if b.start == b.end then placeholder else v[b.start..b.end];
    var l, r := v[..b.start] + p, s + v[b.end..];
    WrapSourceAdds(b, markup, unwrap, placeholder);
    PlainAround(v, b.start, b.end, p, s);
    CommittedTwoMarkers(b, l, inner, r);
  }

  /** Wrapping text that is already wrapped removes the markup and keeps the same text selected. */
  lemma WrapRemoves(b: Buffer, markup: Markup, placeholder: string)
    requires ValidBuffer(b) && Plain(b.value)
    requires IsSelectedWrappedWith(b, markup)
    ensures var v, p, s := b.value, markup.Prefix(), markup.Suffix();
      && |p| <= b.start && b.end + |s| <= |v|
      && Wrapped(b, markup, true, placeholder)
        == Buffer(v[..b.start - |p|] + v[b.start..b.end] + v[b.end + |s|..], b.start - |p|, b.end - |p|)
  {
    var v, p, s := b.value, markup.Prefix(), markup.Suffix();
    WrappedWithIff(b, markup);
    var a, m, c := v[..b.start - |p|], v[b.start..b.end], v[b.end + |s|..];
    assert Wrapped(b, markup, true, placeholder) == Buffer(a + m + c, |a|, |a| + |m|) by {
      WrapSourceRemoves(b, markup, placeholder);
      assert Plain(a) && Plain(m) && Plain(c) by {
        PlainSlices(v, b.start - |p|, b.start);
        PlainSlices(v, b.start, b.end);
        PlainSlices(v, b.end, b.end + |s|);
      }
      CommittedTwoMarkers(b, a, m, c);
    }
  }

  /** Text put between a prefix and a suffix is selected with the markup right around it. */
  lemma WrappedPieces(a: string, p: string, m: string, s: string, c: string)
    ensures var w := Buffer((a + p) + m + (s + c), |a| + |p|, |a| + |p| + |m|);
      && ValidBuffer(w)
      && |p| <= w.start && w.end + |s| <= |w.value|
      && w.value[w.start - |p|..w.start] == p && w.value[w.end..w.end + |s|] == s
      && w.value[..w.start - |p|] == a && w.value[w.start..w.end] == m && w.value[w.end + |s|..] == c
  {
    var wv := (a + p) + m + (s + c);
    assert wv == a + p + m + s + c;
  }

  /** Marker-free pieces make marker-free wrapped text. */
  lemma PlainPieces(a: string, p: string, m: string, s: string, c: string)
    requires Plain(a) && Plain(p) && Plain(m) && Plain(s) && Plain(c)
    ensures Plain((a + p) + m + (s + c))
  {
  }

  /** Wrapping a selection that has the markup right around it keeps the three pieces outside the markup. */
  lemma UnwrapAt(w: Buffer, markup: Markup, placeholder: string, a: string, m: string, c: string)
    requires ValidBuffer(w) && Plain(w.value)
    requires var v, p, s := w.value, markup.Prefix(), markup.Suffix();
      && |p| <= w.start && w.end + |s| <= |v|
      && v[w.start - |p|..w.start] == p && v[w.end..w.end + |s|] == s
      && v[..w.start - |p|] == a && v[w.start..w.end] == m && v[w.end + |s|..] == c
    ensures Wrapped(w, markup, true, placeholder) == Buffer(a + m + c, |a|, |a| + |m|)
  {
    WrappedWithIff(w, markup);
    WrapRemoves(w, markup, placeholder);
  }

  /** Wrapping text that sits right between the prefix and the suffix takes them off again. */
  lemma UnwrapPieces(w: Buffer, a: string, m: string, c: string, markup: Markup, placeholder: string)
    requires Plain(a) && Plain(markup.Prefix()) && Plain(m) && Plain(markup.Suffix()) && Plain(c)
    requires w == Buffer((a + markup.Prefix()) + m + (markup.Suffix() + c), |a| + |markup.Prefix()|, |a| + |markup.Prefix()| + |m|)
    ensures Wrapped(w, markup, true, placeholder) == Buffer(a + m + c, |a|, |a| + |m|)
  {
    var p, s := markup.Prefix(), markup.Suffix();
    WrappedPieces(a, p, m, s, c);
    PlainPieces(a, p, m, s, c);
    UnwrapAt(w, markup, placeholder, a, m, c);
  }

  /**
    Wrapping twice restores the value and the selection: the second call finds the markup
    the first one added and removes it.
   */
  lemma WrapTwiceRestores(b: Buffer, markup: Markup, placeholder: string)
    requires ValidBuffer(b) && Plain(b.value) && Plain(markup.Prefix()) && Plain(markup.Suffix()) && Plain(placeholder)
    requires !IsSelectedWrappedWith(b, markup)
    requires b.start < b.end || placeholder == ""
    ensures Wrapped(Wrapped(b, markup, true, placeholder), markup, true, placeholder) == b
  {
    var v, p, s := b.value, markup.Prefix(), markup.Suffix();
    var a, m, c := v[..b.start], v[b.start..b.end], v[b.end..];
    var w := Wrapped(b, markup, true, placeholder);
    assert w == Buffer((a + p) + m + (s + c), |a| + |p|, |a| + |p| + |m|) by {
      WrapAdds(b, markup, true, placeholder);
    }
    assert Plain(a) && Plain(m) && Plain(c) by {
      PlainAround(v, b.start, b.end, p, s);
    }
    UnwrapPieces(w, a, m, c, markup, placeholder);
    SliceThree(v, b.start, b.end);
  }

  // ---------------------------------------------------------------------------------------------
  // select

  /** `select(options)`: through `setSelectionRange`; the value is untouched. */
  function Selected(b: Buffer, options: SelectOptions): (r: Buffer)
    ensures ValidBuffer(r) && r.value == b.value
    ensures options.Range? && 0 <= options.start <= options.end <= |b.value| ==> r.start == options.start && r.end == options.end
  {
    match options
    case Range(s, e) => SetRange(b.value, s, e)
    case Relative(ds, de) => SetRange(b.value, b.start + ds, b.end + de)
  }

  /** Shifting the selection by nothing keeps it; shifting it within the value moves it exactly. */
  lemma SelectRelative(b: Buffer, ds: int, de: int)
    requires ValidBuffer(b)
    requires 0 <= b.start + ds <= b.end + de <= |b.value|
    ensures Selected(b, Relative(ds, de)) == Buffer(b.value, b.start + ds, b.end + de)
    ensures ds == 0 && de == 0 ==> Selected(b, Relative(ds, de)) == b
  {
  }

  // ---------------------------------------------------------------------------------------------
  // the cursor object

  /** A cursor over one textarea; it keeps no state of its own. */
  class Cursor {
    const element: Textarea

    constructor (element: Textarea)
      ensures this.element == element
    {
      this.element := element;
    }

    /** `setValue(text)`. */
    method SetValue(text: string)
      requires element.Valid()
      modifies element
      ensures element.Valid()
      ensures element.State() == Committed(old(element.State()), text)
    {
      var data := ExecRaw(text);
      element.SetValue(data.text);
      if data.selectionStart.None? && data.selectionEnd.None? {
        return;
      }
      if data.selectionStart.Some? && (data.selectionEnd.None? || data.selectionStart == data.selectionEnd) {
        element.SetSelectionStart(data.selectionStart.value);
        element.SetSelectionEnd(data.selectionStart.value);
      } else {
        element.SetSelectionRange(data.selectionStart.GetOr(0), data.selectionEnd.value);
      }
    }

    /** `insert(content)`. */
    method Insert(content: string)
      requires element.Valid()
      modifies element
      ensures element.Valid()
      ensures element.State() == Inserted(old(element.State()), content)
    {
      var b := element.State();
      if SelectionOf(b).None? {
        InsertAtCursor(content);
        return;
      }
      var start := SelectionOf(b).value.selectionStart;
      var end := SelectionOf(b).value.selectionEnd;
      var newValue := Slice(element.value, 0, start) + NormalizeSelection(content, ToEnd) + SliceFrom(element.value, end);
      SetValue(newValue);
    }

    /** `insertAtCursor(content)`. */
    method InsertAtCursor(content: string)
      requires element.Valid()
      modifies element
      ensures element.Valid()
      ensures element.State() == Committed(old(element.State()),
        var v, at := old(element.value), old(element.selectionStart);
        Slice(v, 0, at) + NormalizeSelection(content, ToEnd) + Slice(v, at, |v|))
    {
      var cursorAt := PositionOf(element.State()).cursorAt;
      var newValue := Slice(element.value, 0, cursorAt) + NormalizeSelection(content, ToEnd)
        + Slice(element.value, cursorAt, |element.value|);
      SetValue(newValue);
    }

    /** `replaceCurrentLines(callback, { selectReplaced })`. */
    method ReplaceCurrentLines(callback: (Line, nat, seq<Line>) -> Option<string>, selectReplaced: bool)
      requires element.Valid()
      modifies element
      ensures element.Valid()
      ensures element.State() == ReplacedCurrentLines(old(element.State()), callback, selectReplaced)
    {
      var selectedLines := CurrentLines(element.State());
      var content := Join(KeptResults(selectedLines, callback, 0), '\n');
      var start := selectedLines[0].startsAt;
      var end := selectedLines[|selectedLines| - 1].endsAt;
      var newValue := Slice(element.value, 0, start)
        + NormalizeSelection(content, if selectReplaced then SelectAll else ToEnd)
        + SliceFrom(element.value, end);
      assert newValue == ReplaceCurrentLinesSource(element.State(), callback, selectReplaced);
      SetValue(newValue);
    }

    /** `replaceLine(lineNumber, content)`. */
    method ReplaceLine(lineNumber: int, content: Option<string>)
      requires element.Valid()
      modifies element
      ensures element.Valid()
      ensures element.State() == ReplacedLine(old(element.State()), lineNumber, content)
    {
      var line := LineAt(element.value, lineNumber);
      if line.None? {
        return;
      }
      var start: int := line.value.startsAt;
      var end: int := line.value.endsAt;
      if content.None? {
        SetValue(Slice(element.value, 0, start - 1) + [MARKER] + SliceFrom(element.value, end));
        return;
      }
      var newValue := Slice(element.value, 0, start) + NormalizeSelection(content.value, ToEnd) + SliceFrom(element.value, end);
      SetValue(newValue);
    }

    /** `wrap(markup, { unwrap, placeholder })`. */
    method Wrap(markup: Markup, unwrap: bool, placeholder: string)
      requires element.Valid()
      modifies element
      ensures element.Valid()
      ensures element.State() == Wrapped(old(element.State()), markup, unwrap, placeholder)
    {
      var content := WrapSource(element.State(), markup, unwrap, placeholder);
      SetValue(content);
    }

    /** `select(options)`. */
    method Select(options: SelectOptions)
      requires element.Valid()
      modifies element
      ensures element.Valid()
      ensures element.State() == Selected(old(element.State()), options)
    {
      match options
      case Range(s, e) =>
        element.SetSelectionRange(s, e);
      case Relative(ds, de) =>
        element.SetSelectionRange(element.selectionStart + ds, element.selectionEnd + de);
    }
  }
}
