/**
  The older cursor service of src/lib/Cursor.ts. It has a tagged-template parser that reads
  selection marks out of a template, line lookups, and the caret's line and column. It also
  has two edits, splicing lines and removing lines, which it performs on a `Textarea`. Line
  numbers here count from 0.
 */
module LegacyCursor {
  import opened Wrappers
  import opened Strings
  import opened Host
  import opened Utils
  import opened CursorGeometry

  // ---------------------------------------------------------------------------------------------
  // the raw parser

  /** A template substitution: the `Cursor.$` symbol, a string, or any other value. */
  datatype Tag = Mark | Str(s: string) | Other

  /** `TextareaRawParsed`; an absent offset is `None`. */
  datatype Raw = Raw(content: string, currentSelectionStart: Option<nat>, currentSelectionEnd: Option<nat>)

  /**
    A unit of the prepared string: a character, or the sentinel (`hash`) written in place of
    a `Cursor.$`. The sentinel is a token of its own, so it never meets template text.
   */
  datatype Token = Ch(c: char) | Hash

  /** The characters of `s` as tokens. */
  function Chars(s: string): (r: seq<Token>)
    ensures |r| == |s|
    ensures forall k :: 0 <= k < |s| ==> r[k] == Ch(s[k])
  {
    seq(|s|, k requires 0 <= k < |s| => Ch(s[k]))
  }

  /** What a tag appends to the template string before it: the sentinel, a string, or nothing. */
  function TagTokens(tag: Tag): seq<Token> {
    match tag
    case Mark => [Hash]
    case Str(s) => Chars(s)
    case Other => []
  }

  /**
    Template strings `i` to `j`, each followed by what its tag contributes, the tag of string
    `j` left out.
   */
  function Segment(strings: seq<string>, tags: seq<Tag>, i: nat, j: nat): seq<Token>
    requires |strings| == |tags| + 1 && i <= j <= |tags|
    decreases j - i
  {
    Chars(strings[i]) + (if i == j then [] else TagTokens(tags[i]) + Segment(strings, tags, i + 1, j))
  }

  /** `rawStrings.join("")`: every template string followed by what its tag contributes. */
  function Prepared(strings: seq<string>, tags: seq<Tag>): seq<Token>
    requires |strings| == |tags| + 1
  {
    Segment(strings, tags, 0, |tags|)
  }

  /** `prepared.split(hash)`: the runs of characters between sentinels. */
  function Parts(ts: seq<Token>): (parts: seq<string>)
    ensures |parts| >= 1
  {
    if ts == [] then [""]
    else
      var rest := Parts(ts[1..]);
      match ts[0]
      case Hash => [""] + rest
      case Ch(c) => [[c] + rest[0]] + rest[1..]
  }

  /** `parts.join("")`. */
  function Concat(parts: seq<string>): string {
    if parts == [] then "" else parts[0] + Concat(parts[1..])
  }

  /** `tags.filter((x) => x === Cursor.$)`. */
  function SelectionTags(tags: seq<Tag>): (r: seq<Tag>)
    ensures forall k :: 0 <= k < |r| ==> r[k] == Mark
  {
    if tags == [] then []
    else (if tags[0] == Mark then [Mark] else []) + SelectionTags(tags[1..])
  }

  /**
    The `reduce` over the parts from `index` on. Part `index` is followed by a sentinel when
    `index` is below the number of `Cursor.$` tags. Its end is then taken as the start when
    no start is set yet, and otherwise as the end when no end is set yet.
   */
  function Reduce(parts: seq<string>, marks: nat, index: nat, start: Option<nat>, end: Option<nat>, total: nat)
    : (Option<nat>, Option<nat>)
    requires index <= |parts|
    decreases |parts| - index
  {
    if index == |parts| then (start, end)
    else
      var at := total + |parts[index]|;
      if index < marks && start.None? then Reduce(parts, marks, index + 1, Some(at), end, at)
      else if index < marks && end.None? then Reduce(parts, marks, index + 1, start, Some(at), at)
      else Reduce(parts, marks, index + 1, start, end, at)
  }

  /** `Cursor.raw` applied to a template's strings and substitutions. */
  function RawParser(strings: seq<string>, tags: seq<Tag>): Raw
    requires |strings| == |tags| + 1
  {
    var parts := Parts(Prepared(strings, tags));
    var selections := Reduce(parts, |SelectionTags(tags)|, 0, None, None, 0);
    Raw(Concat(parts), selections.0, selections.1)
  }

  /** What a tag stands for in the content: the string of a string tag, nothing otherwise. */
  function TagText(tag: Tag): string {
    match tag
    case Str(s) => s
    case _ => ""
  }

  /** Template strings `i` to `j` with the string tags between them substituted and other tags dropped. */
  function PlainSegment(strings: seq<string>, tags: seq<Tag>, i: nat, j: nat): string
    requires |strings| == |tags| + 1 && i <= j <= |tags|
    decreases j - i
  {
    strings[i] + (if i == j then "" else TagText(tags[i]) + PlainSegment(strings, tags, i + 1, j))
  }

  /** The whole template with string tags substituted and other tags dropped. */
  function Plain(strings: seq<string>, tags: seq<Tag>): string
    requires |strings| == |tags| + 1
  {
    PlainSegment(strings, tags, 0, |tags|)
  }

  /** The characters of a token sequence, sentinels dropped. */
  function Text(ts: seq<Token>): string {
    if ts == [] then "" else TokenText(ts[0]) + Text(ts[1..])
  }

  function TokenText(t: Token): string {
    match t
    case Ch(c) => [c]
    case Hash => ""
  }

  lemma {:induction false} TextAppend(a: seq<Token>, b: seq<Token>)
    ensures Text(a + b) == Text(a) + Text(b)
  {
    if a != [] {
      assert (a + b)[0] == a[0] && (a + b)[1..] == a[1..] + b;
      TextAppend(a[1..], b);
      assert Text(a + b) == TokenText(a[0]) + (Text(a[1..]) + Text(b));
    } else {
      assert a + b == b;
    }
  }

  lemma {:induction false} TextChars(s: string)
    ensures Text(Chars(s)) == s
  {
    if s != [] {
      assert Chars(s)[1..] == Chars(s[1..]);
      TextChars(s[1..]);
    }
  }

  /** Joining the parts drops the sentinels and keeps every character. */
  lemma {:induction false} ConcatParts(ts: seq<Token>)
    ensures Concat(Parts(ts)) == Text(ts)
  {
    if ts != [] {
      var rest := Parts(ts[1..]);
      ConcatParts(ts[1..]);
      match ts[0]
      case Hash =>
        assert ([""] + rest)[1..] == rest;
      case Ch(c) =>
        assert ([[c] + rest[0]] + rest[1..])[1..] == rest[1..];
    }
  }

  /** A segment's characters are its plain text. */
  lemma {:induction false} TextSegment(strings: seq<string>, tags: seq<Tag>, i: nat, j: nat)
    requires |strings| == |tags| + 1 && i <= j <= |tags|
    ensures Text(Segment(strings, tags, i, j)) == PlainSegment(strings, tags, i, j)
    decreases j - i
  {
    TextChars(strings[i]);
    if i < j {
      TextSegment(strings, tags, i + 1, j);
      var tail := Segment(strings, tags, i + 1, j);
      TextAppend(Chars(strings[i]), TagTokens(tags[i]) + tail);
      TextAppend(TagTokens(tags[i]), tail);
      match tags[i]
      case Mark =>
        assert Text([Hash]) == "";
      case Str(s) =>
        TextChars(s);
      case Other =>
    } else {
      assert Chars(strings[i]) + [] == Chars(strings[i]);
    }
  }

  /** `content` is the template with the `Cursor.$` tags removed and the string tags substituted. */
  lemma RawContent(strings: seq<string>, tags: seq<Tag>)
    requires |strings| == |tags| + 1
    ensures RawParser(strings, tags).content == Plain(strings, tags)
  {
    ConcatParts(Prepared(strings, tags));
    TextSegment(strings, tags, 0, |tags|);
  }

  lemma {:induction false} PartsChars(s: string)
    ensures Parts(Chars(s)) == [s]
  {
    if s != [] {
      assert Chars(s)[1..] == Chars(s[1..]);
      PartsChars(s[1..]);
      assert [s[0]] + s[1..] == s;
    }
  }

  /** The characters before the first sentinel make the first part. */
  lemma {:induction false} PartsAfter(s: string, rest: seq<Token>)
    ensures Parts(Chars(s) + [Hash] + rest) == [s] + Parts(rest)
  {
    var ts := Chars(s) + [Hash] + rest;
    if s == [] {
      assert ts == [Hash] + rest;
      assert ts[1..] == rest;
    } else {
      assert ts[1..] == Chars(s[1..]) + [Hash] + rest;
      PartsAfter(s[1..], rest);
      assert [s[0]] + s[1..] == s;
    }
  }

  /** No tag from `i` up to `j` is a `Cursor.$`. */
  predicate Unmarked(tags: seq<Tag>, i: nat, j: nat)
    requires i <= j <= |tags|
  {
    forall p :: i <= p < j ==> tags[p] != Mark
  }

  /** A segment without `Cursor.$` tags prepares to its plain characters. */
  lemma {:induction false} SegmentPlain(strings: seq<string>, tags: seq<Tag>, i: nat, j: nat)
    requires |strings| == |tags| + 1 && i <= j <= |tags| && Unmarked(tags, i, j)
    ensures Segment(strings, tags, i, j) == Chars(PlainSegment(strings, tags, i, j))
    decreases j - i
  {
    if i < j {
      SegmentPlain(strings, tags, i + 1, j);
      var a, t, c := strings[i], TagText(tags[i]), PlainSegment(strings, tags, i + 1, j);
      assert TagTokens(tags[i]) == Chars(t);
      assert Segment(strings, tags, i, j) == Chars(a) + (Chars(t) + Chars(c));
      assert PlainSegment(strings, tags, i, j) == a + (t + c);
      CharsAppend(t, c);
      CharsAppend(a, t + c);
    } else {
      assert Chars(strings[i]) + [] == Chars(strings[i]);
    }
  }

  lemma CharsAppend(a: string, b: string)
    ensures Chars(a + b) == Chars(a) + Chars(b)
  {
    forall k | 0 <= k < |a| + |b|
      ensures Chars(a + b)[k] == (Chars(a) + Chars(b))[k]
    {
      if k < |a| {
        assert (a + b)[k] == a[k];
      } else {
        assert (a + b)[k] == b[k - |a|];
      }
    }
  }

  lemma Regroup<T>(a: seq<T>, t: seq<T>, x: seq<T>, m: seq<T>, y: seq<T>)
    ensures a + (t + (x + m + y)) == a + (t + x) + m + y
  {
  }

  /** A segment around tag `k`. */
  lemma {:induction false} SegmentAt(strings: seq<string>, tags: seq<Tag>, i: nat, k: nat, j: nat)
    requires |strings| == |tags| + 1 && i <= k < j <= |tags|
    ensures Segment(strings, tags, i, j)
      == Segment(strings, tags, i, k) + TagTokens(tags[k]) + Segment(strings, tags, k + 1, j)
    decreases k - i
  {
    if i < k {
      SegmentAt(strings, tags, i + 1, k, j);
      var a, t := Chars(strings[i]), TagTokens(tags[i]);
      var x, m, y := Segment(strings, tags, i + 1, k), TagTokens(tags[k]), Segment(strings, tags, k + 1, j);
      assert Segment(strings, tags, i, j) == a + (t + (x + m + y));
      assert Segment(strings, tags, i, k) == a + (t + x);
      Regroup(a, t, x, m, y);
    } else {
      assert Segment(strings, tags, i, k) == Chars(strings[i]);
    }
  }

  /** A plain segment around tag `k`. */
  lemma {:induction false} PlainSegmentAt(strings: seq<string>, tags: seq<Tag>, i: nat, k: nat, j: nat)
    requires |strings| == |tags| + 1 && i <= k < j <= |tags|
    ensures PlainSegment(strings, tags, i, j)
      == PlainSegment(strings, tags, i, k) + TagText(tags[k]) + PlainSegment(strings, tags, k + 1, j)
    decreases k - i
  {
    if i < k {
      PlainSegmentAt(strings, tags, i + 1, k, j);
      var a, t := strings[i], TagText(tags[i]);
      var x, m, y := PlainSegment(strings, tags, i + 1, k), TagText(tags[k]), PlainSegment(strings, tags, k + 1, j);
      assert PlainSegment(strings, tags, i, j) == a + (t + (x + m + y));
      assert PlainSegment(strings, tags, i, k) == a + (t + x);
      Regroup(a, t, x, m, y);
    } else {
      assert PlainSegment(strings, tags, i, k) == strings[i];
    }
  }

  lemma {:induction false} SelectionTagsAppend(a: seq<Tag>, b: seq<Tag>)
    ensures SelectionTags(a + b) == SelectionTags(a) + SelectionTags(b)
  {
    if a != [] {
      assert (a + b)[0] == a[0] && (a + b)[1..] == a[1..] + b;
      SelectionTagsAppend(a[1..], b);
      var h := if a[0] == Mark then [Mark] else [];
      assert SelectionTags(a + b) == h + (SelectionTags(a[1..]) + SelectionTags(b));
    } else {
      assert a + b == b;
    }
  }

  lemma {:induction false} NoSelectionTags(tags: seq<Tag>)
    requires Mark !in tags
    ensures SelectionTags(tags) == []
  {
    if tags != [] {
      assert Mark !in tags[1..];
      NoSelectionTags(tags[1..]);
    }
  }

  /** Tag `k`, the first `Cursor.$`, is counted once before the tags after it. */
  lemma FirstSelectionTag(tags: seq<Tag>, k: nat)
    requires k < |tags| && tags[k] == Mark && Unmarked(tags, 0, k)
    ensures |SelectionTags(tags)| == 1 + |SelectionTags(tags[k + 1..])|
  {
    assert tags == tags[..k] + ([tags[k]] + tags[k + 1..]);
    SelectionTagsAppend(tags[..k], [tags[k]] + tags[k + 1..]);
    SelectionTagsAppend([tags[k]], tags[k + 1..]);
    assert Mark !in tags[..k] by {
      assert forall p :: 0 <= p < k ==> tags[..k][p] == tags[p];
    }
    NoSelectionTags(tags[..k]);
    assert SelectionTags([tags[k]]) == [Mark] by {
      assert [tags[k]][1..] == [];
    }
  }

  /** Once both offsets are set, or no part is followed by a sentinel, the reduce keeps them. */
  lemma {:induction false} ReduceDone(parts: seq<string>, marks: nat, index: nat, start: Option<nat>, end: Option<nat>, total: nat)
    requires index <= |parts|
    requires (start.Some? && end.Some?) || marks <= index
    ensures Reduce(parts, marks, index, start, end, total) == (start, end)
    decreases |parts| - index
  {
    if index < |parts| {
      ReduceDone(parts, marks, index + 1, start, end, total + |parts[index]|);
    }
  }

  /** Once the start is set, the reduce keeps it. */
  lemma {:induction false} ReduceKeepsStart(parts: seq<string>, marks: nat, index: nat, start: Option<nat>, end: Option<nat>, total: nat)
    requires index <= |parts| && start.Some?
    ensures Reduce(parts, marks, index, start, end, total).0 == start
    decreases |parts| - index
  {
    if index < |parts| {
      var at := total + |parts[index]|;
      if index < marks && end.None? {
        ReduceKeepsStart(parts, marks, index + 1, start, Some(at), at);
      } else {
        ReduceKeepsStart(parts, marks, index + 1, start, end, at);
      }
    }
  }

  /** Without `Cursor.$` tags neither offset is set. */
  lemma RawNoMarks(strings: seq<string>, tags: seq<Tag>)
    requires |strings| == |tags| + 1 && Mark !in tags
    ensures RawParser(strings, tags) == Raw(Plain(strings, tags), None, None)
  {
    RawContent(strings, tags);
    NoSelectionTags(tags);
    ReduceDone(Parts(Prepared(strings, tags)), 0, 0, None, None, 0);
  }

  /** With its first `Cursor.$` at tag `k`, the template's parts start with the text before it. */
  lemma FirstMarkParts(strings: seq<string>, tags: seq<Tag>, k: nat)
    requires |strings| == |tags| + 1 && k < |tags| && tags[k] == Mark && Unmarked(tags, 0, k)
    ensures Parts(Prepared(strings, tags))
      == [PlainSegment(strings, tags, 0, k)] + Parts(Segment(strings, tags, k + 1, |tags|))
  {
    SegmentAt(strings, tags, 0, k, |tags|);
    SegmentPlain(strings, tags, 0, k);
    PartsAfter(PlainSegment(strings, tags, 0, k), Segment(strings, tags, k + 1, |tags|));
  }

  /** The first `Cursor.$` marks the start: the length of the content before it. */
  lemma RawFirstMark(strings: seq<string>, tags: seq<Tag>, k: nat)
    requires |strings| == |tags| + 1 && k < |tags|
    requires tags[k] == Mark && Unmarked(tags, 0, k)
    ensures RawParser(strings, tags).currentSelectionStart == Some(|PlainSegment(strings, tags, 0, k)|)
  {
    var a := PlainSegment(strings, tags, 0, k);
    FirstMarkParts(strings, tags, k);
    var parts := [a] + Parts(Segment(strings, tags, k + 1, |tags|));
    FirstSelectionTag(tags, k);
    var marks := |SelectionTags(tags)|;
    assert Reduce(parts, marks, 0, None, None, 0) == Reduce(parts, marks, 1, Some(|a|), None, |a|);
    ReduceKeepsStart(parts, marks, 1, Some(|a|), None, |a|);
  }

  /** With a single `Cursor.$` there is no end. */
  lemma RawOneMark(strings: seq<string>, tags: seq<Tag>, k: nat)
    requires |strings| == |tags| + 1 && k < |tags|
    requires tags[k] == Mark && Unmarked(tags, 0, k) && Unmarked(tags, k + 1, |tags|)
    ensures RawParser(strings, tags).currentSelectionEnd.None?
  {
    var a := PlainSegment(strings, tags, 0, k);
    var b := PlainSegment(strings, tags, k + 1, |tags|);
    FirstMarkParts(strings, tags, k);
    SegmentPlain(strings, tags, k + 1, |tags|);
    PartsChars(b);
    var parts := [a, b];
    assert Parts(Prepared(strings, tags)) == parts;
    FirstSelectionTag(tags, k);
    var ts := tags[k + 1..];
    assert Mark !in ts by {
      assert forall p :: 0 <= p < |ts| ==> ts[p] == tags[k + 1 + p];
    }
    NoSelectionTags(ts);
    ReduceDone(parts, 1, 1, Some(|a|), None, |a|);
  }

  /**
    The second `Cursor.$` marks the end: the length of the content before it. Any later
    `Cursor.$` is ignored.
   */
  lemma RawSecondMark(strings: seq<string>, tags: seq<Tag>, k: nat, m: nat)
    requires |strings| == |tags| + 1 && k < m < |tags|
    requires tags[k] == Mark && tags[m] == Mark
    requires Unmarked(tags, 0, k) && Unmarked(tags, k + 1, m)
    ensures RawParser(strings, tags).currentSelectionEnd == Some(|PlainSegment(strings, tags, 0, m)|)
  {
    var a := PlainSegment(strings, tags, 0, k);
    var b := PlainSegment(strings, tags, k + 1, m);
    var rest := TwoMarksParts(strings, tags, k, m);
    var parts := [a, b] + Parts(rest);
    var marks := TwoMarksCount(tags, k, m);
    ReduceTwo(parts, marks);
    PlainSegmentAt(strings, tags, 0, k, m);
  }

  /** With two or more sentinels, the end falls after the first two parts. */
  lemma ReduceTwo(parts: seq<string>, marks: nat)
    requires |parts| >= 2 && marks >= 2
    ensures Reduce(parts, marks, 0, None, None, 0).1 == Some(|parts[0]| + |parts[1]|)
  {
    var a, b := |parts[0]|, |parts[1]|;
    assert Reduce(parts, marks, 0, None, None, 0) == Reduce(parts, marks, 1, Some(a), None, a);
    assert Reduce(parts, marks, 1, Some(a), None, a) == Reduce(parts, marks, 2, Some(a), Some(a + b), a + b);
    ReduceDone(parts, marks, 2, Some(a), Some(a + b), a + b);
  }

  /** Two `Cursor.$` tags are counted at least twice. */
  lemma TwoMarksCount(tags: seq<Tag>, k: nat, m: nat) returns (marks: nat)
    requires k < m < |tags| && tags[k] == Mark && tags[m] == Mark
    requires Unmarked(tags, 0, k) && Unmarked(tags, k + 1, m)
    ensures marks == |SelectionTags(tags)| && marks >= 2
  {
    var ts := tags[k + 1..];
    assert ts[m - k - 1] == Mark;
    assert Unmarked(ts, 0, m - k - 1) by {
      assert forall p :: 0 <= p < m - k - 1 ==> ts[p] == tags[k + 1 + p];
    }
    FirstSelectionTag(tags, k);
    FirstSelectionTag(ts, m - k - 1);
    marks := |SelectionTags(tags)|;
  }

  /** With marks at `k` and `m`, the first two parts are the texts before and between them. */
  lemma TwoMarksParts(strings: seq<string>, tags: seq<Tag>, k: nat, m: nat) returns (rest: seq<Token>)
    requires |strings| == |tags| + 1 && k < m < |tags|
    requires tags[k] == Mark && tags[m] == Mark
    requires Unmarked(tags, 0, k) && Unmarked(tags, k + 1, m)
    ensures Parts(Prepared(strings, tags))
      == [PlainSegment(strings, tags, 0, k), PlainSegment(strings, tags, k + 1, m)] + Parts(rest)
  {
    var a := PlainSegment(strings, tags, 0, k);
    var b := PlainSegment(strings, tags, k + 1, m);
    rest := Segment(strings, tags, m + 1, |tags|);
    FirstMarkParts(strings, tags, k);
    var after := Segment(strings, tags, k + 1, |tags|);
    SegmentAt(strings, tags, k + 1, m, |tags|);
    SegmentPlain(strings, tags, k + 1, m);
    assert after == Chars(b) + [Hash] + rest;
    PartsAfter(b, rest);
    assert [a] + ([b] + Parts(rest)) == [a, b] + Parts(rest);
  }

  // ---------------------------------------------------------------------------------------------
  // lines and position

  /** `lines[n]` with a trailing newline sliced off, or `None` for `undefined`. */
  function LineNumbered(value: string, n: int): (r: Option<string>)
    ensures r.Some? <==> 0 <= n < |Split(value, '\n')|
    ensures r.Some? ==> r.value == Split(value, '\n')[n]
  {
    var lines := Split(value, '\n');
    if 0 <= n < |lines| then
      var line := lines[n];
      Some(if |line| > 0 && line[|line| - 1] == '\n' then Slice(line, 0, -1) else line)
    else None
  }

  /** Each element of `ts` with a newline appended. */
  function Newlined(ts: seq<string>): (r: seq<string>)
    ensures |r| == |ts|
    ensures forall k :: 0 <= k < |ts| ==> r[k] == ts[k] + "\n"
  {
    seq(|ts|, k requires 0 <= k < |ts| => ts[k] + "\n")
  }

  /** `getTextLines(till)`: the value up to `till` as lines, each with a newline appended. */
  function TextLines(value: string, till: int): (r: seq<string>)
    ensures |r| >= 1
  {
    Newlined(Split(Slice(value, 0, till), '\n'))
  }

  /** `TextAreaPosition`, without the selection direction. */
  datatype TextAreaPosition = TextAreaPosition(
    lineNumber: int,
    lineNumberEnd: int,
    lineSelectionStart: int,
    lineSelectionEnd: int,
    selectionStart: nat,
    selectionEnd: nat)

  /** `getCurrentPosition()`. */
  function CurrentPosition(b: Buffer): TextAreaPosition
    requires ValidBuffer(b)
  {
    var tillStart := TextLines(b.value, b.start);
    var tillEnd := TextLines(b.value, b.end);
    var lineNumber := |tillStart| - 1;
    var lineNumberEnd := |tillEnd| - 1;
    var selectionSize := b.end - b.start;
    LineCountBefore(b.value, b.start);
    var lineLength := |LineNumbered(b.value, lineNumber).value|;
    var lineSelectionStart := Clamp(b.start - |Concat(tillStart[..lineNumber])|, 0, lineLength);
    var lineSelectionEnd := Clamp(lineSelectionStart + selectionSize, 0, lineLength);
    TextAreaPosition(lineNumber, lineNumberEnd, lineSelectionStart, lineSelectionEnd, b.start, b.end)
  }

  /** `getLine(lineNumber)`: the current line when no number is given. */
  function GetLine(b: Buffer, lineNumber: Option<int>): Option<string>
    requires ValidBuffer(b)
  {
    LineNumbered(b.value, lineNumber.GetOr(CurrentPosition(b).lineNumber))
  }

  /** `getIndentSize(lineNumber)`: `None` where the call throws, reading `match` of `undefined`. */
  function GetIndentSize(b: Buffer, lineNumber: Option<int>): (r: Option<nat>)
    requires ValidBuffer(b)
    ensures r.Some? <==> GetLine(b, lineNumber).Some?
    ensures r.Some? ==> var line := GetLine(b, lineNumber).value;
      && r.value <= |line|
      && (forall k :: 0 <= k < r.value ==> IsSpace(line[k]))
      && (r.value < |line| ==> !IsSpace(line[r.value]))
  {
    match GetLine(b, lineNumber)
    case None => None
    case Some(line) => Some(LeadingSpaces(line))
  }

  /** `getSelected()`: the selected text. */
  function GetSelected(b: Buffer): (r: string)
    requires ValidBuffer(b)
    ensures r == b.value[b.start..b.end]
  {
    var position := CurrentPosition(b);
    Slice(b.value, position.selectionStart, position.selectionEnd)
  }

  /** A text has one more line than newlines. */
  lemma {:induction false} SplitCount(s: string)
    ensures |Split(s, '\n')| == Count(s, '\n') + 1
  {
    JoinSplit(s, '\n');
    CountJoin(Split(s, '\n'), '\n');
  }

  /** The value up to `p` has as many lines as the number of the line holding `p`, plus one. */
  lemma LineCountBefore(value: string, p: nat)
    requires p <= |value|
    ensures |Split(value[..p], '\n')| - 1 == LineIndex(value, p) < |Split(value, '\n')|
    ensures |Split(Slice(value, 0, p), '\n')| - 1 == LineIndex(value, p)
  {
    SplitCount(value[..p]);
    LineIndexBound(value, p, p);
  }

  /** Without a number, `getLine` reads the line holding the caret. */
  lemma CurrentLine(b: Buffer)
    requires ValidBuffer(b)
    ensures var j := LineIndex(b.value, b.start);
      j < |Lines(b.value)| && GetLine(b, None) == Some(Lines(b.value)[j].text)
  {
    var j := LineIndex(b.value, b.start);
    LineCountBefore(b.value, b.start);
    TextsOfLines(b.value);
    assert Texts(Lines(b.value))[j] == Lines(b.value)[j].text;
  }

  /** `x + y` where `x` is empty or ends a line and `y` holds no newline: `x` is fixed by the text. */
  lemma LastLineStart(s: string, x: string, y: string, x': string, y': string)
    requires s == x + y && s == x' + y'
    requires (x == [] || x[|x| - 1] == '\n') && (x' == [] || x'[|x'| - 1] == '\n')
    requires '\n' !in y && '\n' !in y'
    ensures |x| == |x'|
  {
    assert forall i :: |x| <= i < |s| ==> s[i] == y[i - |x|];
    assert forall i :: |x'| <= i < |s| ==> s[i] == y'[i - |x'|];
    assert x != [] ==> s[|x| - 1] == '\n';
    assert x' != [] ==> s[|x'| - 1] == '\n';
  }

  /** Joining parts with a newline after each gives the text before the part after them. */
  lemma {:induction false} ConcatNewlined(ts: seq<string>)
    ensures Concat(Newlined(ts)) == JoinBefore(ts, |ts|, '\n')
  {
    if ts != [] {
      var tail := ts[1..];
      assert Newlined(ts)[1..] == Newlined(tail);
      ConcatNewlined(tail);
      if tail != [] {
        JoinCons(ts[0], tail, '\n');
        assert ts == [ts[0]] + tail && ts[..|ts|] == ts && tail[..|tail|] == tail;
      } else {
        assert ts[..1] == [ts[0]];
      }
    }
  }

  /** The lines before the caret's, with their newlines, end where the caret's line starts. */
  lemma ColumnOf(value: string, p: nat)
    requires p <= |value|
    ensures var tl, j := TextLines(value, p), LineIndex(value, p);
      && |tl| == j + 1 && j < |Lines(value)|
      && |Concat(tl[..j])| == Lines(value)[j].startsAt
  {
    var j := LineIndex(value, p);
    var x' := TextBeforeCaret(value, p);
    var st := LineStartBefore(value, p);
    var x, y := value[..st], value[st..p];
    assert value[..p] == x + y;
    assert x == [] || x[|x| - 1] == '\n';
    LastLineStart(value[..p], x, y, x', Split(value[..p], '\n')[j]);
  }

  /** The text before the caret: the lines before the caret's, each with its newline, then the caret's up to it. */
  lemma TextBeforeCaret(value: string, p: nat) returns (x: string)
    requires p <= |value|
    ensures var tl, us, j := TextLines(value, p), Split(value[..p], '\n'), LineIndex(value, p);
      && |tl| == j + 1 && |us| == j + 1 && j < |Lines(value)|
      && x == Concat(tl[..j]) && value[..p] == x + us[j] && '\n' !in us[j]
      && (x == [] || x[|x| - 1] == '\n')
  {
    var s := value[..p];
    var us := Split(s, '\n');
    var j := LineIndex(value, p);
    LineCountBefore(value, p);
    var tl := TextLines(value, p);
    assert tl[..j] == Newlined(us[..j]);
    ConcatNewlined(us[..j]);
    assert us[..j][..j] == us[..j];
    x := JoinBefore(us, j, '\n');
    JoinSplit(s, '\n');
    JoinAt(us, j, '\n');
  }

  /** The caret's line starts after a newline, or at 0, and holds none up to the caret. */
  lemma LineStartBefore(value: string, p: nat) returns (st: nat)
    requires p <= |value|
    ensures var ls, j := Lines(value), LineIndex(value, p);
      && j < |ls| && st == ls[j].startsAt && st <= p
      && (st == 0 || value[st - 1] == '\n') && '\n' !in value[st..p]
  {
    var j := LineIndex(value, p);
    var ls := Lines(value);
    LineIndexContains(value, p);
    LineSpan(value, j);
    st := ls[j].startsAt;
    assert value[st..p] == ls[j].text[..p - st];
    if j > 0 {
      LineSpan(value, j - 1);
    } else {
      LinesCover(value);
    }
  }

  /**
    The caret's line is the number of newlines before it, counted from 0, and so is the
    line of the selection end. The columns are offsets into the caret's line and never pass
    its end: the start column is where the caret stands, the end column is where the
    selection end would stand on the same line, cut at the end of the line.
   */
  lemma PositionShape(b: Buffer)
    requires ValidBuffer(b)
    ensures var p, ls, j := CurrentPosition(b), Lines(b.value), LineIndex(b.value, b.start);
      && p.lineNumber == j && p.lineNumberEnd == LineIndex(b.value, b.end)
      && j < |ls| && ls[j].startsAt <= b.start
      && p.lineSelectionStart == b.start - ls[j].startsAt
      && p.lineSelectionEnd == Min(b.end - ls[j].startsAt, |ls[j].text|)
      && 0 <= p.lineSelectionStart <= p.lineSelectionEnd <= |ls[j].text|
      && p.selectionStart == b.start && p.selectionEnd == b.end
  {
    var v, j := b.value, LineIndex(b.value, b.start);
    var ls, p := Lines(v), CurrentPosition(b);
    ColumnOf(v, b.start);
    LineCountBefore(v, b.end);
    LineIndexContains(v, b.start);
    LineSpan(v, j);
    TextsOfLines(v);
    assert Texts(ls)[j] == ls[j].text;
    var len := |ls[j].text|;
    assert |LineNumbered(v, j).value| == len;
    var st := b.start - ls[j].startsAt;
    assert 0 <= st <= len;
    assert p.lineSelectionStart == st;
    assert p.lineSelectionEnd == Clamp(st + (b.end - b.start), 0, len);
  }

  /** The line number of the position is the caret's line. */
  lemma CaretLineNumber(b: Buffer)
    requires ValidBuffer(b)
    ensures CurrentPosition(b).lineNumber == LineIndex(b.value, b.start)
  {
    LineCountBefore(b.value, b.start);
  }

  // ---------------------------------------------------------------------------------------------
  // editing

  /** `SpliceContentOptions`; an absent option is `None`. */
  datatype SpliceOptions = SpliceOptions(startLineNumber: Option<int>, replaceCount: Option<int>)

  /** The first line replaced: the option, or else the caret's line. */
  function StartLine(b: Buffer, options: SpliceOptions): int
    requires ValidBuffer(b)
  {
    options.startLineNumber.GetOr(CurrentPosition(b).lineNumber)
  }

  /** How many lines are replaced: the option, or else none. */
  function ReplaceCount(options: SpliceOptions): int {
    options.replaceCount.GetOr(0)
  }

  /** The parsed content, or `""` for `null`. */
  function Content(parsedRaw: Option<Raw>): string {
    if parsedRaw.Some? then parsedRaw.value.content else ""
  }

  /** The parsed start offset, or else 0. */
  function RawStart(parsedRaw: Option<Raw>): nat {
    if parsedRaw.Some? then parsedRaw.value.currentSelectionStart.GetOr(0) else 0
  }

  /** The parsed end offset, or else the start offset. */
  function RawEnd(parsedRaw: Option<Raw>): nat {
    if parsedRaw.Some? then parsedRaw.value.currentSelectionEnd.GetOr(RawStart(parsedRaw)) else RawStart(parsedRaw)
  }

  /**
    `spliceContent(parsedRaw, options)` from start line `k`, replacing `n` lines: the lines
    before, the content's lines and the lines after are joined and written, then the parsed
    offsets, moved past the lines before, are set as the selection range.
   */
  function SplicedAt(value: string, k: int, n: int, parsedRaw: Option<Raw>): Buffer {
    var lines := Split(value, '\n');
    var linesBefore := Slice(lines, 0, k);
    var charsBefore := |Concat(Newlined(linesBefore))|;
    var joined := Join(linesBefore + Split(Content(parsedRaw), '\n') + SliceFrom(lines, k + n), '\n');
    SetRange(joined, RawStart(parsedRaw) + charsBefore, RawEnd(parsedRaw) + charsBefore)
  }

  /** The steps of `spliceContent`, each named, end in the splice. */
  lemma SpliceSteps(text: string, k: int, n: int, parsedRaw: Option<Raw>, joined: string, charsBefore: nat, start: int, end: int)
    requires joined == Join(Slice(Split(text, '\n'), 0, k) + Split(Content(parsedRaw), '\n') + SliceFrom(Split(text, '\n'), k + n), '\n')
    requires charsBefore == |Concat(Newlined(Slice(Split(text, '\n'), 0, k)))|
    requires start == RawStart(parsedRaw) + charsBefore && end == RawEnd(parsedRaw) + charsBefore
    ensures SetRange(joined, start, end) == SplicedAt(text, k, n, parsedRaw)
  {
  }

  /** `spliceContent(parsedRaw, options)` with the options' defaults filled in. */
  function Spliced(b: Buffer, parsedRaw: Option<Raw>, options: SpliceOptions): Buffer
    requires ValidBuffer(b)
  {
    SplicedAt(b.value, StartLine(b, options), ReplaceCount(options), parsedRaw)
  }

  /**
    Lines `k` to `k + n - 1` are replaced by the content's lines (cut at the last line), and
    the lines before and after are kept, for a start line `k` within the value.
   */
  lemma SpliceKeepsLines(value: string, k: int, n: int, parsedRaw: Option<Raw>)
    requires 0 <= k <= |Split(value, '\n')| && 0 <= n
    ensures var ts := Split(value, '\n');
      Split(SplicedAt(value, k, n, parsedRaw).value, '\n')
        == ts[..k] + Split(Content(parsedRaw), '\n') + ts[Min(k + n, |ts|)..]
  {
    SplicePieces(Split(value, '\n'), k, n, Split(Content(parsedRaw), '\n'));
  }

  /** The lines of a splice, on the lines alone. */
  lemma SplicePieces(ts: seq<string>, k: int, n: int, mid: seq<string>)
    requires 0 <= k <= |ts| && 0 <= n && Avoids(ts, '\n')
    requires |mid| >= 1 && Avoids(mid, '\n')
    ensures Split(Join(Slice(ts, 0, k) + mid + SliceFrom(ts, k + n), '\n'), '\n') == ts[..k] + mid + ts[Min(k + n, |ts|)..]
  {
    var parts := ts[..k] + mid + ts[Min(k + n, |ts|)..];
    assert Slice(ts, 0, k) + mid + SliceFrom(ts, k + n) == parts;
    AvoidsAround(ts, k, Min(k + n, |ts|), mid);
    SplitJoin(parts, '\n');
  }

  /** Lines before `i`, a newline-free block, and lines from `j` on hold no newline. */
  lemma AvoidsAround(ts: seq<string>, i: nat, j: nat, mid: seq<string>)
    requires i <= j <= |ts| && Avoids(ts, '\n') && Avoids(mid, '\n')
    ensures Avoids(ts[..i] + mid + ts[j..], '\n')
  {
    AvoidsSlice(ts, 0, i, '\n');
    AvoidsSlice(ts, j, |ts|, '\n');
    assert ts[0..i] == ts[..i] && ts[j..|ts|] == ts[j..];
    AvoidsAppend(ts[..i], mid, '\n');
    AvoidsAppend(ts[..i] + mid, ts[j..], '\n');
  }

  lemma AvoidsSlice(ts: seq<string>, i: nat, j: nat, c: char)
    requires i <= j <= |ts| && Avoids(ts, c)
    ensures Avoids(ts[i..j], c)
  {
    forall k | 0 <= k < j - i
      ensures c !in ts[i..j][k]
    {
      assert ts[i..j][k] == ts[i + k];
    }
  }

  lemma AvoidsAppend(a: seq<string>, b: seq<string>, c: char)
    requires Avoids(a, c) && Avoids(b, c)
    ensures Avoids(a + b, c)
  {
    forall k | 0 <= k < |a + b|
      ensures c !in (a + b)[k]
    {
      if k < |a| {
        assert (a + b)[k] == a[k];
      } else {
        assert (a + b)[k] == b[k - |a|];
      }
    }
  }

  /**
    With the start line within the value and parsed offsets within the content, the
    selection lands on the same text inside the spliced content, past the lines before.
   */
  lemma SpliceSelects(value: string, k: int, n: int, parsedRaw: Option<Raw>)
    requires 0 <= k <= |Split(value, '\n')|
    requires RawStart(parsedRaw) <= RawEnd(parsedRaw) <= |Content(parsedRaw)|
    ensures var r, at := SplicedAt(value, k, n, parsedRaw), |JoinBefore(Split(value, '\n'), k, '\n')|;
      && r.start == at + RawStart(parsedRaw) && r.end == at + RawEnd(parsedRaw)
      && r.value[r.start..r.end] == Content(parsedRaw)[RawStart(parsedRaw)..RawEnd(parsedRaw)]
  {
    var ts := Split(value, '\n');
    var content, s, e := Content(parsedRaw), RawStart(parsedRaw), RawEnd(parsedRaw);
    var v, at := SpliceOffsets(ts, k, n, content, s, e);
    SplicedAtRange(value, k, n, parsedRaw, v, at);
    var r := SplicedAt(value, k, n, parsedRaw);
    assert r.value[r.start..r.end] == v[at + s..at + e];
  }

  /** The value and selection of a splice, given the joined lines and the length before line `k`. */
  lemma SplicedAtRange(value: string, k: int, n: int, parsedRaw: Option<Raw>, v: string, at: nat)
    requires v == Join(Slice(Split(value, '\n'), 0, k) + Split(Content(parsedRaw), '\n') + SliceFrom(Split(value, '\n'), k + n), '\n')
    requires at == |Concat(Newlined(Slice(Split(value, '\n'), 0, k)))|
    requires RawStart(parsedRaw) <= RawEnd(parsedRaw) && at + RawEnd(parsedRaw) <= |v|
    ensures var r := SplicedAt(value, k, n, parsedRaw);
      r.value == v && r.start == at + RawStart(parsedRaw) && r.end == at + RawEnd(parsedRaw)
  {
  }

  lemma SpliceOffsets(ts: seq<string>, k: int, n: int, content: string, s: nat, e: nat) returns (v: string, at: nat)
    requires 0 <= k <= |ts| && s <= e <= |content|
    ensures v == Join(Slice(ts, 0, k) + Split(content, '\n') + SliceFrom(ts, k + n), '\n')
    ensures at == |Concat(Newlined(Slice(ts, 0, k)))| == |JoinBefore(ts, k, '\n')|
    ensures at + e <= |v| && v[at + s..at + e] == content[s..e]
  {
    v := Join(Slice(ts, 0, k) + Split(content, '\n') + SliceFrom(ts, k + n), '\n');
    at := |Concat(Newlined(Slice(ts, 0, k)))|;
    assert Slice(ts, 0, k) == ts[..k];
    ConcatBefore(ts, k);
    var tail := ContentAround(ts, k, content, SliceFrom(ts, k + n));
    MiddleSlice(JoinBefore(ts, k, '\n'), content, tail, s, e);
  }

  lemma MiddleSlice<T>(a: seq<T>, c: seq<T>, t: seq<T>, s: nat, e: nat)
    requires s <= e <= |c|
    ensures |a| + e <= |a + c + t| && (a + c + t)[|a| + s..|a| + e] == c[s..e]
  {
    var v := a + c + t;
    assert forall i :: |a| + s <= i < |a| + e ==> v[i] == c[i - |a|];
  }

  /** The lines before `k`, each with its newline, are what precedes line `k` in the join. */
  lemma ConcatBefore(ts: seq<string>, k: nat)
    requires k <= |ts|
    ensures Concat(Newlined(ts[..k])) == JoinBefore(ts, k, '\n')
  {
    ConcatNewlined(ts[..k]);
    assert ts[..k][..k] == ts[..k];
  }

  /** The content's lines joined between the lines before `k` and `after`: the content itself. */
  lemma ContentAround(ts: seq<string>, k: nat, content: string, after: seq<string>) returns (tail: string)
    requires k <= |ts|
    ensures Join(ts[..k] + Split(content, '\n') + after, '\n') == JoinBefore(ts, k, '\n') + content + tail
  {
    var mid := Split(content, '\n');
    tail := ContentThenAfter(mid, after);
    JoinSplit(content, '\n');
    BeforeThenJoin(ts, k, mid + after, '\n');
    assert ts[..k] + mid + after == ts[..k] + (mid + after);
  }

  /** Joining a block and the lines after it: the block's join, then the rest. */
  lemma ContentThenAfter(mid: seq<string>, after: seq<string>) returns (tail: string)
    requires |mid| >= 1
    ensures Join(mid + after, '\n') == Join(mid, '\n') + tail
  {
    if after == [] {
      assert mid + after == mid;
      tail := "";
    } else {
      JoinAppend(mid, after, '\n');
      tail := ['\n'] + Join(after, '\n');
    }
  }

  /**
    The options only choose where the splice goes: from the given start line, or else from
    the caret's line, replacing the given number of lines, or else none.
   */
  lemma SpliceStartLine(b: Buffer, parsedRaw: Option<Raw>, options: SpliceOptions)
    requires ValidBuffer(b)
    ensures Spliced(b, parsedRaw, options)
      == SplicedAt(b.value, options.startLineNumber.GetOr(LineIndex(b.value, b.start)), options.replaceCount.GetOr(0), parsedRaw)
  {
    CaretLineNumber(b);
  }

  /** Without options the content goes in before the caret's line, and no line is removed. */
  lemma SpliceDefaults(b: Buffer, parsedRaw: Option<Raw>)
    requires ValidBuffer(b)
    ensures var ts, j := Split(b.value, '\n'), LineIndex(b.value, b.start);
      && j < |ts|
      && Split(Spliced(b, parsedRaw, SpliceOptions(None, None)).value, '\n')
        == ts[..j] + Split(Content(parsedRaw), '\n') + ts[j..]
  {
    var ts, j := Split(b.value, '\n'), LineIndex(b.value, b.start);
    SpliceStartLine(b, parsedRaw, SpliceOptions(None, None));
    LineCountBefore(b.value, b.start);
    SpliceKeepsLines(b.value, j, 0, parsedRaw);
    assert Min(j + 0, |ts|) == j;
  }

  /** `lines.filter((_, index) => !lineNumbers.includes(index))`. */
  function Kept(lines: seq<string>, lineNumbers: seq<int>): seq<string> {
    if lines == [] then []
    else
      var n := |lines| - 1;
      Kept(lines[..n], lineNumbers) + (if n in lineNumbers then [] else [lines[n]])
  }

  /** The indices below `n` that are not listed, in increasing order. */
  function KeptIndices(n: nat, lineNumbers: seq<int>): (r: seq<nat>)
    ensures forall i :: 0 <= i < |r| ==> r[i] < n && r[i] !in lineNumbers
    ensures forall k: nat :: k < n && k !in lineNumbers ==> k in r
    ensures forall i, j :: 0 <= i < j < |r| ==> r[i] < r[j]
  {
    if n == 0 then [] else KeptIndices(n - 1, lineNumbers) + (if n - 1 in lineNumbers then [] else [n - 1])
  }

  /** The filter keeps exactly the lines at unlisted indices, in their order. */
  lemma {:induction false} KeptAt(lines: seq<string>, lineNumbers: seq<int>)
    ensures var kept, idx := Kept(lines, lineNumbers), KeptIndices(|lines|, lineNumbers);
      && |kept| == |idx|
      && forall i :: 0 <= i < |idx| ==> idx[i] < |lines| && kept[i] == lines[idx[i]]
  {
    if lines != [] {
      var n := |lines| - 1;
      KeptAt(lines[..n], lineNumbers);
      var kept, idx := Kept(lines, lineNumbers), KeptIndices(|lines|, lineNumbers);
      var kept', idx' := Kept(lines[..n], lineNumbers), KeptIndices(n, lineNumbers);
      forall i | 0 <= i < |idx|
        ensures idx[i] < |lines| && kept[i] == lines[idx[i]]
      {
        if i < |idx'| {
          assert idx[i] == idx'[i] && kept[i] == kept'[i];
        }
      }
    }
  }

  /** `removeLines(...lineNumbers)`: the kept lines are joined and written. */
  function Removed(b: Buffer, lineNumbers: seq<int>): Buffer
    requires ValidBuffer(b)
  {
    Written(b, Join(Kept(Split(b.value, '\n'), lineNumbers), '\n'))
  }

  /**
    After `removeLines` the value's lines are exactly the lines at unlisted indices, in their
    order; with every line removed the value is empty.
   */
  lemma RemovedLines(b: Buffer, lineNumbers: seq<int>)
    requires ValidBuffer(b)
    ensures var ts, idx := Split(b.value, '\n'), KeptIndices(|Split(b.value, '\n')|, lineNumbers);
      var v := Removed(b, lineNumbers).value;
      && (idx == [] ==> v == "")
      && (idx != [] ==> |Split(v, '\n')| == |idx| && forall i :: 0 <= i < |idx| ==> Split(v, '\n')[i] == ts[idx[i]])
  {
    var ts := Split(b.value, '\n');
    var kept := Kept(ts, lineNumbers);
    KeptAt(ts, lineNumbers);
    if kept != [] {
      SplitJoin(kept, '\n');
    }
  }

  /** Listing no index of an existing line changes nothing. */
  lemma RemoveNothing(b: Buffer, lineNumbers: seq<int>)
    requires ValidBuffer(b)
    requires forall k :: 0 <= k < |Split(b.value, '\n')| ==> k !in lineNumbers
    ensures Removed(b, lineNumbers) == b
  {
    var ts := Split(b.value, '\n');
    KeepAll(ts, lineNumbers);
    JoinSplit(b.value, '\n');
  }

  lemma {:induction false} KeepAll(lines: seq<string>, lineNumbers: seq<int>)
    requires forall k :: 0 <= k < |lines| ==> k !in lineNumbers
    ensures Kept(lines, lineNumbers) == lines
  {
    if lines != [] {
      var n := |lines| - 1;
      KeepAll(lines[..n], lineNumbers);
      assert lines[..n] + [lines[n]] == lines;
    }
  }

  // ---------------------------------------------------------------------------------------------
  // the cursor object

  /** A cursor over one textarea; it keeps no state of its own. */
  class Cursor {
    const element: Textarea

    constructor (element: Textarea)
      ensures this.element == element
    {
      this.element := element;
    }

    /** `setValue(value)`: the value setter; focusing and the change event are left out. */
    method SetValue(value: string)
      requires element.Valid()
      modifies element
      ensures element.Valid()
      ensures element.State() == Written(old(element.State()), value)
    {
      element.SetValue(value);
    }

    /** `spliceContent(parsedRaw, options)`. */
    method SpliceContent(parsedRaw: Option<Raw>, options: SpliceOptions)
      requires element.Valid()
      modifies element
      ensures element.Valid()
      ensures element.State() == Spliced(old(element.State()), parsedRaw, options)
    {
      var text := element.value;
      var lines := Split(text, '\n');
      var position := CurrentPosition(element.State());
      var replaceCount := options.replaceCount.GetOr(0);
      var startLineNumber := options.startLineNumber.GetOr(position.lineNumber);
      var content := if parsedRaw.Some? then parsedRaw.value.content else "";
      var currentSelectionStart := if parsedRaw.Some? then parsedRaw.value.currentSelectionStart.GetOr(0) else 0;
      var currentSelectionEnd := if parsedRaw.Some? then parsedRaw.value.currentSelectionEnd else None;
      var linesBefore := Slice(lines, 0, startLineNumber);
      var linesAfter := SliceFrom(lines, startLineNumber + replaceCount);
      var currentLines := Split(content, '\n');
      var joined := Join(linesBefore + currentLines + linesAfter, '\n');
      SetValue(joined);
      var charsBeforeLength := |Concat(Newlined(linesBefore))|;
      var selectionStart := currentSelectionStart + charsBeforeLength;
      var selectionEnd := currentSelectionEnd.GetOr(currentSelectionStart) + charsBeforeLength;
      element.SetSelectionRange(selectionStart, selectionEnd);
      SpliceSteps(text, startLineNumber, replaceCount, parsedRaw, joined, charsBeforeLength, selectionStart, selectionEnd);
    }

    /** `removeLines(...lineNumbers)`. */
    method RemoveLines(lineNumbers: seq<int>)
      requires element.Valid()
      modifies element
      ensures element.Valid()
      ensures element.State() == Removed(old(element.State()), lineNumbers)
    {
      var text := element.value;
      var lines := Kept(Split(text, '\n'), lineNumbers);
      SetValue(Join(lines, '\n'));
    }
  }
}
