/**
  The regular expressions that the handlers (src/lib/handlers.ts) and the extensions
  (src/lib/extensions.ts) run against the text of one line, written as scanners. Each scanner
  returns where the match ECMAScript finds lies: the leftmost one, with greedy quantifiers
  and backtracking worked out for these particular patterns.
 */
module Patterns {
  import opened Wrappers
  import opened Strings

  /** The text begins with a `\s` character. */
  predicate StartsWithSpace(s: string) {
    |s| > 0 && IsSpace(s[0])
  }

  /** A `\d` run followed by a non-digit has exactly the length of the run. */
  lemma DigitRunIs(s: string, from: nat, n: nat)
    requires from + n <= |s|
    requires forall k :: from <= k < from + n ==> IsDigit(s[k])
    requires from + n == |s| || !IsDigit(s[from + n])
    ensures DigitRun(s, from) == n
  {
  }

  /** A `\s` run followed by a non-space has exactly the length of the run. */
  lemma SpaceRunIs(s: string, from: nat, n: nat)
    requires from + n <= |s|
    requires forall k :: from <= k < from + n ==> IsSpace(s[k])
    requires from + n == |s| || !IsSpace(s[from + n])
    ensures SpaceRun(s, from) == n
  {
  }

  // ---------------------------------------------------------------------------------------------
  // /(\d+\.){1,2}\s+/  (ordered-list command, not anchored)

  /**
    The end of a match of `(\d+\.){1,2}\s+` that starts at `p`, if one does. Two groups are
    tried first; a second group is followed by a digit-free `.`, so falling back to one group
    only helps when the second group itself cannot be read.
   */
  function OrderedMarkerAt(s: string, p: nat): (r: Option<nat>)
    requires p <= |s|
    ensures r.Some? ==> p < r.value <= |s|
  {
    var d1 := DigitRun(s, p);
    var q := p + d1;
    if d1 == 0 || q == |s| || s[q] != '.' then None
    else
      var d2 := DigitRun(s, q + 1);
      var r := q + 1 + d2;
      if d2 > 0 && r < |s| && s[r] == '.' then
        (if SpaceRun(s, r + 1) > 0 then Some(r + 1 + SpaceRun(s, r + 1)) else None)
      else if SpaceRun(s, q + 1) > 0 then Some(q + 1 + SpaceRun(s, q + 1))
      else None
  }

  /** No match of `(\d+\.){1,2}\s+` starts in `from..to`. */
  predicate NoOrderedMarker(s: string, from: nat, to: nat)
    requires to <= |s| + 1
  {
    forall p :: from <= p < to ==> OrderedMarkerAt(s, p).None?
  }

  /** The leftmost match of `(\d+\.){1,2}\s+` at or after `from`: where it starts and where it ends. */
  function FirstOrderedMarker(s: string, from: nat): (r: Option<(nat, nat)>)
    requires from <= |s|
    ensures r.Some? ==> from <= r.value.0 <= |s| && OrderedMarkerAt(s, r.value.0) == Some(r.value.1)
    ensures r.Some? ==> NoOrderedMarker(s, from, r.value.0)
    ensures r.None? ==> NoOrderedMarker(s, from, |s| + 1)
    decreases |s| - from
  {
    match OrderedMarkerAt(s, from)
    case Some(e) => Some((from, e))
    case None =>
      if from == |s| then None
      else
        var r := FirstOrderedMarker(s, from + 1);
        assert r.Some? ==> NoOrderedMarker(s, from, r.value.0);
        assert r.None? ==> NoOrderedMarker(s, from, |s| + 1);
        r
  }

  /** `re.test(s)` for `/(\d+\.){1,2}\s+/`. */
  predicate HasOrderedMarker(s: string) {
    FirstOrderedMarker(s, 0).Some?
  }

  /** `s.replace(/(\d+\.){1,2}\s+/, '')`: the leftmost match is cut out. */
  function RemoveOrderedMarker(s: string): (r: string)
    ensures |r| <= |s|
    ensures forall c :: c in r ==> c in s
  {
    match FirstOrderedMarker(s, 0)
    case Some((p, e)) =>
      assert forall c :: c in s[..p] + s[e..] ==> c in s[..p] || c in s[e..];
      s[..p] + s[e..]
    case None => s
  }

  /** The item prefix the ordered-list command adds to the line with index `k`. */
  function Numbered(t: string, k: nat): string {
    NatToString(k + 1) + ". " + t
  }

  /**
    A numbered line has its marker at its very start, and removing the marker gives the
    line back when the line does not itself begin with a `\s` (those would go too).
   */
  lemma NumberedMarker(t: string, k: nat)
    ensures HasOrderedMarker(Numbered(t, k))
    ensures !StartsWithSpace(t) ==> RemoveOrderedMarker(Numbered(t, k)) == t
  {
    var d := NatToString(k + 1);
    var s := Numbered(t, k);
    assert s == d + ['.', ' '] + t;
    DigitRunIs(s, 0, |d|);
    DigitRunIs(s, |d| + 1, 0);
    assert OrderedMarkerAt(s, 0).Some?;
    if !StartsWithSpace(t) {
      SpaceRunIs(s, |d| + 1, 1);
      assert s[|d| + 2..] == t;
    }
  }

  // ---------------------------------------------------------------------------------------------
  // /^lit\s+/  (unordered-list syntax, `>` of a block quote)

  /** The end of a match of `^lit\s+`, the literal read as it is written. */
  function PrefixMarker(s: string, lit: string): (r: Option<nat>)
    ensures r.Some? ==> |lit| < r.value <= |s| && s[..|lit|] == lit
    ensures r.None? <==> !(StartsWith(s, lit) && |lit| < |s| && IsSpace(s[|lit|]))
  {
    if StartsWith(s, lit) && SpaceRun(s, |lit|) > 0 then Some(|lit| + SpaceRun(s, |lit|)) else None
  }

  /** `s.replace(/^lit\s+/, '')`. */
  function RemovePrefixMarker(s: string, lit: string): (r: string)
    ensures |r| <= |s|
    ensures forall c :: c in r ==> c in s
  {
    match PrefixMarker(s, lit)
    case Some(e) => s[e..]
    case None => s
  }

  /** The literal and one space in front of a line are found, and taking them off gives the line back when it does not begin with a `\s`. */
  lemma PrefixMarkerAdded(lit: string, t: string)
    ensures PrefixMarker(lit + " " + t, lit).Some?
    ensures !StartsWithSpace(t) ==> RemovePrefixMarker(lit + " " + t, lit) == t
  {
    var s := lit + " " + t;
    assert s[..|lit|] == lit && s[|lit|] == ' ';
    if !StartsWithSpace(t) {
      SpaceRunIs(s, |lit|, 1);
      assert s[|lit| + 1..] == t;
    }
  }

  // ---------------------------------------------------------------------------------------------
  // /^#{0,6}\s+/  (headline)

  /** The number of `#` characters the text begins with. */
  function HashRun(s: string): (n: nat)
    ensures n <= |s|
    ensures forall k :: 0 <= k < n ==> s[k] == '#'
    ensures n < |s| ==> s[n] != '#'
  {
    if |s| == 0 || s[0] != '#' then 0 else 1 + HashRun(s[1..])
  }

  /**
    The end of a match of `^#{0,6}\s+`. Giving back a `#` leaves a `#` where `\s` must match,
    so the only candidate is the whole run of `#`, and only when it is at most six long.
   */
  function HeadingMarker(s: string): (r: Option<nat>)
    ensures r.Some? ==> r.value <= |s|
  {
    var h := HashRun(s);
    if h <= 6 && SpaceRun(s, h) > 0 then Some(h + SpaceRun(s, h)) else None
  }

  /** `s.replace(/^#{0,6}\s+/, '')`. */
  function RemoveHeadingMarker(s: string): (r: string)
    ensures |r| <= |s|
    ensures forall c :: c in r ==> c in s
  {
    match HeadingMarker(s)
    case Some(e) => s[e..]
    case None => s
  }

  /** What is left after the heading markup is removed does not begin with a `\s`. */
  lemma RemovedHeadingUnspaced(s: string)
    ensures !StartsWithSpace(RemoveHeadingMarker(s))
  {
    var h := HashRun(s);
    if HeadingMarker(s).Some? {
      var e := h + SpaceRun(s, h);
      assert e < |s| ==> s[e..][0] == s[e];
    }
  }

  /** A heading prefix of one to six `#` and a space is found in front of text that does not begin with a `\s`. */
  lemma HeadingMarkerAdded(n: nat, t: string)
    requires 1 <= n <= 6 && !StartsWithSpace(t)
    ensures RemoveHeadingMarker(Repeat('#', n) + " " + t) == t
  {
    var s := Repeat('#', n) + " " + t;
    assert s[n] == ' ';
    assert forall k :: 0 <= k < n ==> s[k] == '#';
    assert HashRun(s) == n;
    SpaceRunIs(s, n, 1);
    assert s[n + 1..] == t;
  }

  // ---------------------------------------------------------------------------------------------
  // /\s{0,4}/  (shift+tab)

  /** The length of the match of `\s{0,4}`: it matches at the start, taking up to four `\s`. */
  function IndentWidth(s: string): (n: nat)
    ensures n <= 4 && n <= |s|
  {
    var w := SpaceRun(s, 0);
    if w < 4 then w else 4
  }

  /** `s.replace(/\s{0,4}/, '')`. */
  function Outdented(s: string): (r: string)
    ensures forall c :: c in r ==> c in s
  {
    s[IndentWidth(s)..]
  }

  /** Four spaces put in front of a line are taken off again, whatever the line holds. */
  lemma OutdentIndented(t: string)
    ensures Outdented("    " + t) == t
  {
    var s := "    " + t;
    assert forall k :: 0 <= k < 4 ==> s[k] == ' ';
    assert forall k :: 0 <= k < 4 ==> IsSpace(s[k]);
    assert SpaceRun(s, 0) >= 4;
    assert s[4..] == t;
  }

  // ---------------------------------------------------------------------------------------------
  // /^(\s*(\-|\+|\*|(\d+\.){1,2})\s+.*)$/ and /^(\s*(\-|\+|\*|(\d+\.){1,2})\s+)$/  (Enter)

  /** A bullet character of a list line. */
  predicate IsBullet(c: char) {
    c == '-' || c == '+' || c == '*'
  }

  /**
    The end of the list marker (`-`, `+`, `*` or one or two `\d+.` groups) that starts at `w`.
    When a second group reads, the one-group alternative is followed by a digit and cannot
    be followed by the `\s+` after it, so only the longer marker counts.
   */
  function ListMarkerEnd(s: string, w: nat): (r: Option<nat>)
    requires w <= |s|
    ensures r.Some? ==> w < r.value <= |s|
  {
    if w < |s| && IsBullet(s[w]) then Some(w + 1)
    else
      var d1 := DigitRun(s, w);
      var q := w + d1;
      if d1 == 0 || q == |s| || s[q] != '.' then None
      else
        var d2 := DigitRun(s, q + 1);
        var r := q + 1 + d2;
        if d2 > 0 && r < |s| && s[r] == '.' then Some(r + 1) else Some(q + 1)
  }

  /** How a list line splits: the leading `\s*`, then the marker, then at least one `\s`. */
  datatype ListParts = ListParts(indent: nat, markerEnd: nat, contentStart: nat)

  /** The list line parts of `s` when its marker is followed by `\s`, whatever comes after. */
  function ListPartsOf(s: string): (r: Option<ListParts>)
    ensures r.Some? ==> r.value.indent < r.value.markerEnd < r.value.contentStart <= |s|
  {
    var w := SpaceRun(s, 0);
    match ListMarkerEnd(s, w)
    case None => None
    case Some(m) => if SpaceRun(s, m) > 0 then Some(ListParts(w, m, m + SpaceRun(s, m))) else None
  }

  /** `ANY_SEQUENCE_LINE_RE.test(s)`: the content after the marker holds no line terminator (`.*$`). */
  predicate IsListLine(s: string) {
    && ListPartsOf(s).Some?
    && forall k :: ListPartsOf(s).value.contentStart <= k < |s| ==> !IsLineTerminator(s[k])
  }

  /** `ANY_BLANK_SEQUENCE_LINE_RE.test(s)`: nothing follows the marker but `\s`. */
  predicate IsBlankListLine(s: string) {
    ListPartsOf(s).Some? && ListPartsOf(s).value.contentStart == |s|
  }

  /** A blank list line is a list line. */
  lemma BlankIsListLine(s: string)
    requires IsBlankListLine(s)
    ensures IsListLine(s)
  {
  }

  /** Capture group 2 of `ANY_SEQUENCE_LINE_RE`: the marker. */
  function ListMarker(s: string): string
    requires ListPartsOf(s).Some?
  {
    var parts := ListPartsOf(s).value;
    s[parts.indent..parts.markerEnd]
  }

  /** `/(\d+\.){1,2}/.test(prefix)` on a marker: whether it is an ordered one. */
  predicate IsOrderedMarker(marker: string) {
    exists p :: 0 <= p <= |marker| && OrderedGroupAt(marker, p)
  }

  /** One `\d+.` group starts at `p`. */
  predicate OrderedGroupAt(s: string, p: nat)
    requires p <= |s|
  {
    var d := DigitRun(s, p);
    d > 0 && p + d < |s| && s[p + d] == '.'
  }

  /** A bullet marker is not ordered, and a digit marker is. */
  lemma MarkerKind(s: string)
    requires ListPartsOf(s).Some?
    ensures IsOrderedMarker(ListMarker(s)) <==> !IsBullet(s[ListPartsOf(s).value.indent])
  {
    var parts := ListPartsOf(s).value;
    var m := ListMarker(s);
    if IsBullet(s[parts.indent]) {
      assert m == [s[parts.indent]];
      forall p | 0 <= p <= |m|
        ensures !OrderedGroupAt(m, p)
      {
        if p == 0 {
          assert !IsDigit(m[0]);
        }
      }
    } else {
      var w := parts.indent;
      var d1 := DigitRun(s, w);
      assert m[..d1 + 1] == s[w..w + d1 + 1];
      DigitRunIs(m, 0, d1);
      assert OrderedGroupAt(m, 0);
    }
  }
}
