/**
  The geometry the cursor of src/lib/Cursor.new.ts derives from the flat value on every
  access: the `lines` getter, the `selection` getter, the `position` getter and `lineAt`.
  All of it is computed from a snapshot of the textarea; nothing is cached.
 */
module CursorGeometry {
  import opened Wrappers
  import opened Strings
  import opened Host
  import opened Utils

  /** A line of the value; `endsAt` is the offset just past its text (its newline slot). */
  datatype Line = Line(text: string, lineNumber: nat, startsAt: nat, endsAt: nat)

  /** A non-empty selection: the lines it touches, even partly, and the selected text. */
  datatype Selection = Selection(lines: seq<Line>, text: string, selectionStart: nat, selectionEnd: nat)

  /** The line holding the caret (`selectionStart`) and the caret offset. */
  datatype Position = Position(line: Line, cursorAt: nat)

  function Texts(lines: seq<Line>): (ts: seq<string>)
    ensures |ts| == |lines|
    ensures forall k :: 0 <= k < |lines| ==> ts[k] == lines[k].text
  {
    seq(|lines|, k requires 0 <= k < |lines| => lines[k].text)
  }

  /** The texts of a block of lines are that block of the texts. */
  lemma TextsOfBlock(lines: seq<Line>, i: nat, j: nat)
    requires i <= j <= |lines|
    ensures Texts(lines[i..j]) == Texts(lines)[i..j]
  {
    assert forall k :: 0 <= k < j - i ==> Texts(lines[i..j])[k] == lines[i..j][k].text;
  }

  /** One step of the `reduce` in `lines`: the line after `lines`, holding `content`. */
  function NextLine(lines: seq<Line>, content: string): Line {
    var index := |lines|;
    var startsAt := |Join(Texts(lines), '\n')| + (if index == 0 then 0 else 1);
    Line(content, index + 1, startsAt, startsAt + |content + "\n"| - 1)
  }

  /** The `reduce` over the pieces of the split value. */
  function LinesOf(texts: seq<string>): (ls: seq<Line>)
    ensures |ls| == |texts|
  {
    if |texts| == 0 then []
    else
      var prev := LinesOf(texts[..|texts| - 1]);
      prev + [NextLine(prev, texts[|texts| - 1])]
  }

  /** The `lines` getter. */
  function Lines(value: string): seq<Line> {
    LinesOf(Split(value, '\n'))
  }

  /** Line `k` of the reduce holds piece `k` and starts after the pieces before it. */
  lemma {:induction false} LinesOfShape(texts: seq<string>)
    ensures forall k :: 0 <= k < |texts| ==>
      LinesOf(texts)[k] == Line(texts[k], k + 1, |JoinBefore(texts, k, '\n')|, |JoinBefore(texts, k, '\n')| + |texts[k]|)
  {
    if |texts| > 0 {
      var n := |texts|;
      var init := texts[..n - 1];
      LinesOfShape(init);
      var prev := LinesOf(init);
      assert Texts(prev) == init;
      forall k | 0 <= k < n
        ensures LinesOf(texts)[k] == Line(texts[k], k + 1, |JoinBefore(texts, k, '\n')|, |JoinBefore(texts, k, '\n')| + |texts[k]|)
      {
        if k < n - 1 {
          assert init[..k] == texts[..k];
          assert LinesOf(texts)[k] == prev[k];
        } else {
          assert init == texts[..k];
        }
      }
    }
  }

  /** The facts about `lines` that every edit relies on, stated over the split pieces. */
  lemma LinesShape(value: string)
    ensures var ls, ts := Lines(value), Split(value, '\n');
      && |ls| == |ts| >= 1
      && Join(ts, '\n') == value
      && forall k :: 0 <= k < |ls| ==>
           ls[k] == Line(ts[k], k + 1, |JoinBefore(ts, k, '\n')|, |JoinBefore(ts, k, '\n')| + |ts[k]|)
  {
    LinesOfShape(Split(value, '\n'));
    JoinSplit(value, '\n');
  }

  /** Line `k` is piece `k`, and the value is the pieces before it, its text, and the pieces after it. */
  lemma LinePiece(value: string, k: nat)
    requires k < |Lines(value)|
    ensures var ls, ts := Lines(value), Split(value, '\n');
      && |ls| == |ts|
      && ls[k] == Line(ts[k], k + 1, |JoinBefore(ts, k, '\n')|, |JoinBefore(ts, k, '\n')| + |ts[k]|)
      && value == JoinBefore(ts, k, '\n') + ts[k] + JoinAfter(ts, k, '\n')
  {
    var ts := Split(value, '\n');
    LinesShape(value);
    JoinAt(ts, k, '\n');
  }

  /** Line `k` holds the value between its offsets and no newline. */
  lemma LineText(value: string, k: nat)
    requires k < |Lines(value)|
    ensures var ls := Lines(value);
      && ls[k].lineNumber == k + 1
      && ls[k].startsAt <= ls[k].endsAt <= |value|
      && value[ls[k].startsAt..ls[k].endsAt] == ls[k].text
      && '\n' !in ls[k].text
  {
    var ts := Split(value, '\n');
    LinePiece(value, k);
    var before := JoinBefore(ts, k, '\n');
    assert value[|before|..|before| + |ts[k]|] == ts[k];
  }

  /** A line that is not the last is followed by a newline. */
  lemma LineNewline(value: string, k: nat)
    requires k + 1 < |Lines(value)|
    ensures var ls := Lines(value);
      ls[k].endsAt < |value| && value[ls[k].endsAt] == '\n'
  {
    var ts := Split(value, '\n');
    LinePiece(value, k);
    var before, after := JoinBefore(ts, k, '\n'), JoinAfter(ts, k, '\n');
    assert after[0] == '\n';
    assert value[|before| + |ts[k]|] == after[0];
  }

  /** A line that is not the first starts one past the end of the line before it. */
  lemma LineFollows(value: string, k: nat)
    requires 0 < k < |Lines(value)|
    ensures var ls := Lines(value);
      ls[k].startsAt == ls[k - 1].endsAt + 1
  {
    var ts := Split(value, '\n');
    LinePiece(value, k);
    LinePiece(value, k - 1);
    JoinBeforeNext(ts, k - 1, '\n');
  }

  /** Line `k` is numbered `k + 1` and holds the value between its offsets, then a newline unless it is last. */
  lemma LineSpan(value: string, k: nat)
    requires k < |Lines(value)|
    ensures var ls := Lines(value);
      && ls[k].lineNumber == k + 1
      && ls[k].startsAt <= ls[k].endsAt <= |value|
      && value[ls[k].startsAt..ls[k].endsAt] == ls[k].text
      && '\n' !in ls[k].text
      && (k + 1 < |ls| ==> ls[k].endsAt < |value| && value[ls[k].endsAt] == '\n')
      && (k > 0 ==> ls[k].startsAt == ls[k - 1].endsAt + 1)
  {
    LineText(value, k);
    if k + 1 < |Lines(value)| {
      LineNewline(value, k);
    }
    if k > 0 {
      LineFollows(value, k);
    }
  }

  /** What precedes line `k` is the lines before it with their newlines; what follows, the lines after it. */
  lemma LineContext(value: string, k: nat)
    requires k < |Lines(value)|
    ensures var ls, ts := Lines(value), Split(value, '\n');
      && k < |ts|
      && ls[k].text == ts[k]
      && ls[k].startsAt <= ls[k].endsAt <= |value|
      && value[..ls[k].startsAt] == JoinBefore(ts, k, '\n')
      && value[ls[k].endsAt..] == JoinAfter(ts, k, '\n')
  {
    var ls, ts := Lines(value), Split(value, '\n');
    LinesShape(value);
    assert ls[k] == Line(ts[k], k + 1, |JoinBefore(ts, k, '\n')|, |JoinBefore(ts, k, '\n')| + |ts[k]|);
    JoinAt(ts, k, '\n');
    var before, after := JoinBefore(ts, k, '\n'), JoinAfter(ts, k, '\n');
    assert value == before + ts[k] + after;
    assert value[..|before|] == before;
    assert value[|before| + |ts[k]|..] == after;
  }

  /** What precedes line `i` and what follows line `j` are the pieces before and after them, with their newlines. */
  lemma LinesAround(value: string, i: nat, j: nat)
    requires i <= j < |Lines(value)|
    ensures var ls, ts := Lines(value), Split(value, '\n');
      && j < |ts|
      && ls[i].startsAt <= |value| && value[..ls[i].startsAt] == JoinBefore(ts, i, '\n')
      && ls[j].endsAt <= |value| && value[ls[j].endsAt..] == JoinAfter(ts, j, '\n')
  {
    LineContext(value, i);
    LineContext(value, j);
  }

  /** The same, with the text before and after taken by `slice`. */
  lemma LinesAroundSliced(value: string, i: nat, j: nat)
    requires i <= j < |Lines(value)|
    ensures var ls, ts := Lines(value), Split(value, '\n');
      && j < |ts|
      && Slice(value, 0, ls[i].startsAt) == JoinBefore(ts, i, '\n')
      && SliceFrom(value, ls[j].endsAt) == JoinAfter(ts, j, '\n')
  {
    LinesAround(value, i, j);
  }

  /** Line `k`, not the first, follows the pieces before it after one newline, and the line before it ends at that newline. */
  lemma LineAfterNewline(value: string, k: nat)
    requires 1 <= k < |Lines(value)|
    ensures var ls, ts := Lines(value), Split(value, '\n');
      && k < |ts|
      && 1 <= ls[k].startsAt <= ls[k].endsAt <= |value|
      && ls[k].startsAt == ls[k - 1].endsAt + 1
      && value[..ls[k].startsAt - 1] == Join(ts[..k], '\n')
      && value[ls[k].endsAt..] == JoinAfter(ts, k, '\n')
  {
    var ls, ts := Lines(value), Split(value, '\n');
    LineContext(value, k);
    LineSpan(value, k);
    assert JoinBefore(ts, k, '\n') == Join(ts[..k], '\n') + ['\n'];
    assert value[..ls[k].startsAt - 1] == value[..ls[k].startsAt][..ls[k].startsAt - 1];
  }

  /** The texts of the lines are the pieces of the split value, and they join back to it. */
  lemma TextsOfLines(value: string)
    ensures Texts(Lines(value)) == Split(value, '\n')
    ensures Join(Texts(Lines(value)), '\n') == value
  {
    LinesShape(value);
  }

  /** The lines cover the value: there is at least one, the first starts at 0, the last ends at its end. */
  lemma LinesCover(value: string)
    ensures var ls := Lines(value);
      && |ls| >= 1
      && Join(Texts(ls), '\n') == value
      && ls[0].startsAt == 0
      && ls[|ls| - 1].endsAt == |value|
  {
    TextsOfLines(value);
    LineContext(value, 0);
    LineContext(value, |Lines(value)| - 1);
  }

  /**
    Lines partition the value: line k is numbered k + 1, the first starts at 0, each starts one
    past the end of the one before, the last ends at the end of the value, and each line's text
    is the value between its offsets, followed by a newline unless it is the last.
   */
  lemma LinesPartition(value: string)
    ensures var ls := Lines(value);
      && |ls| >= 1
      && Join(Texts(ls), '\n') == value
      && ls[0].startsAt == 0
      && ls[|ls| - 1].endsAt == |value|
      && (forall k :: 0 <= k < |ls| ==> ls[k].lineNumber == k + 1 && ls[k].startsAt <= ls[k].endsAt <= |value|)
      && (forall k :: 0 <= k < |ls| ==> value[ls[k].startsAt..ls[k].endsAt] == ls[k].text && '\n' !in ls[k].text)
      && (forall k :: 0 < k < |ls| ==> ls[k].startsAt == ls[k - 1].endsAt + 1)
      && (forall k :: 0 <= k < |ls| - 1 ==> ls[k].endsAt < |value| && value[ls[k].endsAt] == '\n')
  {
    var ls := Lines(value);
    LinesCover(value);
    forall k | 0 <= k < |ls|
      ensures ls[k].lineNumber == k + 1 && ls[k].startsAt <= ls[k].endsAt <= |value|
      ensures value[ls[k].startsAt..ls[k].endsAt] == ls[k].text && '\n' !in ls[k].text
      ensures k > 0 ==> ls[k].startsAt == ls[k - 1].endsAt + 1
      ensures k < |ls| - 1 ==> ls[k].endsAt < |value| && value[ls[k].endsAt] == '\n'
    {
      LineSpan(value, k);
    }
  }

  /** Line `a` ends before any later line `b` starts. */
  lemma LinesOrderedPair(value: string, a: nat, b: nat)
    requires a < b < |Lines(value)|
    ensures Lines(value)[a].startsAt <= Lines(value)[a].endsAt < Lines(value)[b].startsAt
    decreases b - a
  {
    LineSpan(value, a);
    LineSpan(value, b);
    if a + 1 < b {
      LinesOrderedPair(value, a, b - 1);
      LineSpan(value, b - 1);
    }
  }

  /** A line never ends before it starts, and lines come in increasing order. */
  lemma LinesOrdered(value: string)
    ensures var ls := Lines(value);
      && (forall a :: 0 <= a < |ls| ==> ls[a].startsAt <= ls[a].endsAt)
      && (forall a, b :: 0 <= a < b < |ls| ==> ls[a].endsAt < ls[b].startsAt)
  {
    var ls := Lines(value);
    forall a | 0 <= a < |ls|
      ensures ls[a].startsAt <= ls[a].endsAt
    {
      LineSpan(value, a);
    }
    forall a, b | 0 <= a < b < |ls|
      ensures ls[a].endsAt < ls[b].startsAt
    {
      LinesOrderedPair(value, a, b);
    }
  }

  /** The index of the line holding offset `p`: the number of newlines before `p`. */
  function LineIndex(value: string, p: nat): nat
    requires p <= |value|
  {
    Count(value[..p], '\n')
  }

  /** The text before part `k` of a join holds `k` separators. */
  lemma CountJoinBefore(ts: seq<string>, k: nat, sep: char)
    requires k <= |ts|
    requires forall i :: 0 <= i < |ts| ==> sep !in ts[i]
    ensures Count(JoinBefore(ts, k, sep), sep) == k
  {
    if k > 0 {
      CountJoin(ts[..k], sep);
      CountAppend(Join(ts[..k], sep), [sep], sep);
    }
  }

  /** In a join of newline-free parts, an offset within part `i` lies on line `i`. */
  lemma LineIndexInJoin(ts: seq<string>, i: nat, x: nat)
    requires i < |ts| && x <= |ts[i]|
    requires forall k :: 0 <= k < |ts| ==> '\n' !in ts[k]
    ensures |JoinBefore(ts, i, '\n')| + x <= |Join(ts, '\n')|
    ensures LineIndex(Join(ts, '\n'), |JoinBefore(ts, i, '\n')| + x) == i
  {
    var v, before, head := Join(ts, '\n'), JoinBefore(ts, i, '\n'), ts[i][..x];
    JoinAt(ts, i, '\n');
    assert v[..|before| + x] == before + head;
    CountJoinBefore(ts, i, '\n');
    CountAppend(before, head, '\n');
    assert '\n' !in head by {
      assert forall c :: 0 <= c < x ==> head[c] == ts[i][c];
    }
    CountAbsent(head, '\n');
  }

  /** In a join of newline-free parts, every offset from the start to the end of part `i` lies on line `i`. */
  lemma LineIndexWithin(ts: seq<string>, i: nat, v: string, p: nat)
    requires i < |ts| && v == Join(ts, '\n') && Avoids(ts, '\n')
    requires |JoinBefore(ts, i, '\n')| <= p <= |JoinBefore(ts, i, '\n')| + |ts[i]|
    ensures p <= |v| && LineIndex(v, p) == i
  {
    LineIndexInJoin(ts, i, p - |JoinBefore(ts, i, '\n')|);
  }

  /**
    When newline-free lines `i..j` are replaced by a newline-free block of as many lines, the
    joined block starts on line `i` and ends on line `j` of the new value.
   */
  lemma LineIndexSplice(ts: seq<string>, i: nat, j: nat, mid: seq<string>)
    requires i <= j < |ts| && |mid| == j - i + 1
    requires Avoids(ts[..i] + mid + ts[j + 1..], '\n')
    ensures var v, before := Join(ts[..i] + mid + ts[j + 1..], '\n'), JoinBefore(ts, i, '\n');
      && |before| + |Join(mid, '\n')| <= |v|
      && LineIndex(v, |before|) == i
      && LineIndex(v, |before| + |Join(mid, '\n')|) == j
  {
    var ts' := ts[..i] + mid + ts[j + 1..];
    assert JoinBefore(ts', i, '\n') == JoinBefore(ts, i, '\n') by {
      assert ts'[..i] == ts[..i];
    }
    LineIndexInJoin(ts', i, 0);
    JoinBeforeSpliceEnd(ts, i, j, mid, '\n');
    LineIndexInJoin(ts', j, |ts'[j]|);
  }

  /** Any line whose closed range holds `p` is the line `LineIndex` names. */
  lemma LineIndexOf(value: string, p: nat, j: nat)
    requires p <= |value| && j < |Lines(value)|
    requires Lines(value)[j].startsAt <= p <= Lines(value)[j].endsAt
    ensures LineIndex(value, p) == j
  {
    var ls, ts := Lines(value), Split(value, '\n');
    var st := ls[j].startsAt;
    var before, head := value[..st], value[st..p];
    assert Count(before, '\n') == j by {
      LineContext(value, j);
      CountJoinBefore(ts, j, '\n');
    }
    assert '\n' !in head by {
      LineSpan(value, j);
      var text := ls[j].text;
      assert forall i :: 0 <= i < |head| ==> head[i] == text[i];
    }
    assert value[..p] == before + head;
    CountAppend(before, head, '\n');
    CountAbsent(head, '\n');
  }

  /** Every offset of the value lies in exactly one line, the one `LineIndex` names. */
  lemma LineIndexContains(value: string, p: nat)
    requires p <= |value|
    ensures var ls, j := Lines(value), LineIndex(value, p);
      && j < |ls|
      && ls[j].startsAt <= p <= ls[j].endsAt
      && forall k :: 0 <= k < |ls| && ls[k].startsAt <= p <= ls[k].endsAt ==> k == j
  {
    var ls := Lines(value);
    LinesCover(value);
    var j := 0;
    while j + 1 < |ls| && ls[j + 1].startsAt <= p
      invariant 0 <= j < |ls|
      invariant ls[j].startsAt <= p
    {
      j := j + 1;
    }
    if j + 1 < |ls| {
      LineSpan(value, j + 1);
    }
    LineIndexOf(value, p, j);
    forall k | 0 <= k < |ls| && ls[k].startsAt <= p <= ls[k].endsAt
      ensures k == j
    {
      LineIndexOf(value, p, k);
    }
  }

  /** Offsets in order lie on lines in order, and on lines that exist. */
  lemma LineIndexOrdered(value: string, p: nat, q: nat)
    requires p <= q <= |value|
    ensures LineIndex(value, p) <= LineIndex(value, q) < |Lines(value)|
  {
    LineIndexContains(value, q);
    assert value[..q] == value[..p] + value[p..q];
    CountAppend(value[..p], value[p..q], '\n');
  }

  /** The same, counted in pieces of the split value. */
  lemma LineIndexBound(value: string, p: nat, q: nat)
    requires p <= q <= |value|
    ensures LineIndex(value, p) <= LineIndex(value, q) < |Split(value, '\n')|
  {
    LineIndexOrdered(value, p, q);
  }

  /** `array.find`: the first line whose closed range holds `p`. */
  function FindLine(ls: seq<Line>, p: nat): (r: Option<Line>)
    ensures r.None? ==> forall k :: 0 <= k < |ls| ==> !(ls[k].startsAt <= p <= ls[k].endsAt)
    ensures r.Some? ==> exists k :: 0 <= k < |ls| && ls[k] == r.value && ls[k].startsAt <= p <= ls[k].endsAt
  {
    if |ls| == 0 then None
    else if ls[0].startsAt <= p <= ls[0].endsAt then Some(ls[0])
    else
      var r := FindLine(ls[1..], p);
      assert r.Some? ==> exists k :: 0 <= k < |ls[1..]| && ls[1..][k] == r.value && ls[1..][k].startsAt <= p <= ls[1..][k].endsAt;
      r
  }

  /**
    The `position` getter: the line holding the caret, and the caret itself. The line is the
    one numbered one past the count of newlines before the caret.
   */
  function PositionOf(b: Buffer): (pos: Position)
    requires ValidBuffer(b)
    ensures pos.cursorAt == b.start
    ensures pos.line in Lines(b.value)
    ensures pos.line.lineNumber == LineIndex(b.value, b.start) + 1
    ensures pos.line.startsAt <= b.start <= pos.line.endsAt
  {
    var ls := Lines(b.value);
    var found := FindLine(ls, b.start);
    LineIndexContains(b.value, b.start);
    var j := LineIndex(b.value, b.start);
    LineSpan(b.value, j);
    assert found.value == ls[j];
    Position(found.value, b.start)
  }

  /** The four-way test of the `selection` getter: the line and the selection meet. */
  predicate Meets(line: Line, s: int, e: int) {
    || IsBtwOrEq(s, line.startsAt, line.endsAt)
    || IsBtwOrEq(e, line.startsAt, line.endsAt)
    || IsBtwOrEq(line.startsAt, s, e)
    || IsBtwOrEq(line.endsAt, s, e)
  }

  /** `lines.filter(...)` with that test. */
  function FilterLines(ls: seq<Line>, s: int, e: int): seq<Line> {
    if |ls| == 0 then []
    else (if Meets(ls[0], s, e) then [ls[0]] else []) + FilterLines(ls[1..], s, e)
  }

  /** The `selection` getter: nothing when the selection is empty. */
  function SelectionOf(b: Buffer): (r: Option<Selection>)
    ensures r.None? <==> b.start == b.end
    ensures r.Some? ==> r.value.selectionStart == b.start && r.value.selectionEnd == b.end
    ensures r.Some? && ValidBuffer(b) ==> r.value.text == b.value[b.start..b.end]
  {
    var lines := FilterLines(Lines(b.value), b.start, b.end);
    if b.start == b.end then None
    else Some(Selection(lines, Slice(b.value, b.start, b.end), b.start, b.end))
  }

  /** Filtering keeps a block of consecutive lines when exactly that block passes the test. */
  lemma {:induction false} FilterBlock(ls: seq<Line>, s: int, e: int, i: nat, j: nat)
    requires i <= j <= |ls|
    requires forall k :: 0 <= k < |ls| ==> (Meets(ls[k], s, e) <==> i <= k < j)
    ensures FilterLines(ls, s, e) == ls[i..j]
  {
    if |ls| > 0 {
      var tl := ls[1..];
      assert FilterLines(ls, s, e) == (if Meets(ls[0], s, e) then [ls[0]] else []) + FilterLines(tl, s, e);
      var i', j' := if i == 0 then 0 else i - 1, if j == 0 then 0 else j - 1;
      assert FilterLines(tl, s, e) == tl[i'..j'] by {
        forall k | 0 <= k < |tl|
          ensures Meets(tl[k], s, e) <==> i' <= k < j'
        {
          assert tl[k] == ls[k + 1];
        }
        FilterBlock(tl, s, e, i', j');
      }
      if Meets(ls[0], s, e) {
        assert [ls[0]] + tl[0..j - 1] == ls[0..j];
      } else {
        assert tl[i'..j'] == ls[i..j];
      }
    }
  }

  /**
    The lines of a selection are the consecutive block from the line holding its start to
    the line holding its end; the block is never empty.
   */
  lemma SelectionLines(b: Buffer)
    requires ValidBuffer(b) && b.start < b.end
    ensures var ls, i, j := Lines(b.value), LineIndex(b.value, b.start), LineIndex(b.value, b.end);
      && i <= j < |ls|
      && SelectionOf(b).value.lines == ls[i..j + 1]
  {
    var ls, i, j := Lines(b.value), LineIndex(b.value, b.start), LineIndex(b.value, b.end);
    LineIndexContains(b.value, b.start);
    LineIndexContains(b.value, b.end);
    LinesOrdered(b.value);
    assert b.value[..b.end] == b.value[..b.start] + b.value[b.start..b.end];
    CountAppend(b.value[..b.start], b.value[b.start..b.end], '\n');
    forall k | 0 <= k < |ls|
      ensures Meets(ls[k], b.start, b.end) <==> i <= k < j + 1
    {
      if k < i {
        assert ls[k].startsAt <= ls[k].endsAt < ls[i].startsAt;
      } else if k > j {
        assert ls[j].endsAt < ls[k].startsAt;
      } else if k == i {
        assert IsBtwOrEq(b.start, ls[k].startsAt, ls[k].endsAt);
      } else {
        assert ls[i].endsAt < ls[k].startsAt;
        if k < j {
          assert ls[k].endsAt < ls[j].startsAt;
        }
        assert IsBtwOrEq(ls[k].startsAt, b.start, b.end);
      }
    }
    FilterBlock(ls, b.start, b.end, i, j + 1);
  }

  /** `lineAt(n)`: line number `n` (counted from 1), or nothing. */
  function LineAt(value: string, lineNumber: int): (r: Option<Line>)
    ensures r.Some? <==> 1 <= lineNumber <= |Lines(value)|
    ensures r.Some? ==> r.value == Lines(value)[lineNumber - 1]
  {
    var ls := Lines(value);
    if 1 <= lineNumber <= |ls| then Some(ls[lineNumber - 1]) else None
  }

  /** Line number `n` found by `lineAt` carries the number `n`. */
  lemma LineAtNumber(value: string, lineNumber: int)
    requires LineAt(value, lineNumber).Some?
    ensures LineAt(value, lineNumber).value.lineNumber == lineNumber
  {
    LinesPartition(value);
  }
}
