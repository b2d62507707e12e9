/** The helpers of src/lib/utils.ts that the core uses. */
module Utils {
  import opened Wrappers
  import opened Strings

  /** `isBtwOrEq(x, a, b)`: `x` lies in the closed range from `a` to `b`. */
  predicate IsBtwOrEq(x: int, a: int, b: int) {
    a <= x <= b
  }

  /** `metaCombination(...keys)`: the same key chord with the command key and with the control key. */
  function MetaCombination(keys: seq<string>): (r: seq<string>)
    ensures |r| == 2
    ensures StartsWith(r[0], "command+") && StartsWith(r[1], "ctrl+")
    ensures r[0][8..] == r[1][5..]
  {
    ["command+" + Join(keys, '+'), "ctrl+" + Join(keys, '+')]
  }

  /** Both chords list exactly the given keys, in order, when no key holds a `+`. */
  lemma MetaCombinationKeys(keys: seq<string>)
    requires |keys| >= 1
    requires forall k :: 0 <= k < |keys| ==> '+' !in keys[k]
    ensures Split(MetaCombination(keys)[0][8..], '+') == keys
    ensures Split(MetaCombination(keys)[1][5..], '+') == keys
  {
    SplitJoin(keys, '+');
  }

  /**
    `arrayInsert(items, position, value)`: a copy of `items` with `value` inserted at
    `position`, read as `slice` reads an index (negative counts from the end, too large appends).
   */
  function ArrayInsert<T>(items: seq<T>, position: int, value: T): (r: seq<T>)
    ensures |r| == |items| + 1
    ensures multiset(r) == multiset(items) + multiset{value}
    ensures var p := JsIndex(|items|, position);
      r[p] == value && r[..p] == items[..p] && r[p + 1..] == items[p..]
  {
    var r := Slice(items, 0, position) + [value] + SliceFrom(items, position);
    ghost var p := JsIndex(|items|, position);
    assert Slice(items, 0, position) == items[..p];
    assert items[..p] + items[p..] == items;
    r
  }

  /** `clamp(val, min, max)`, that is `Math.min(Math.max(min, val), max)`. */
  function Clamp(val: int, min: int, max: int): (r: int)
    ensures min <= max ==> min <= r <= max
    ensures min <= val <= max ==> r == val
    ensures val < min && min <= max ==> r == min
    ensures max < val || max < min ==> r == max
  {
    var atLeast := if min >= val then min else val;
    if atLeast <= max then atLeast else max
  }

  /** `findLastIndex(items, predicate)`: scans from the end, as the `while (l--)` loop does. */
  method FindLastIndex<T>(items: seq<T>, pred: (T, nat, seq<T>) -> bool) returns (r: int)
    ensures -1 <= r < |items|
    ensures r == -1 <==> forall k :: 0 <= k < |items| ==> !pred(items[k], k, items)
    ensures 0 <= r ==> pred(items[r], r, items)
    ensures forall k :: r < k < |items| ==> !pred(items[k], k, items)
  {
    var l := |items|;
    while l != 0
      invariant 0 <= l <= |items|
      invariant forall k :: l <= k < |items| ==> !pred(items[k], k, items)
    {
      l := l - 1;
      if pred(items[l], l, items) {
        return l;
      }
    }
    return -1;
  }

  /** `findLast(items, predicate)`: the element at `findLastIndex`, or nothing. */
  method FindLast<T>(items: seq<T>, pred: (T, nat, seq<T>) -> bool) returns (r: Option<T>)
    ensures r.None? <==> forall k :: 0 <= k < |items| ==> !pred(items[k], k, items)
    ensures r.Some? ==> exists k :: 0 <= k < |items| && r.value == items[k] && pred(items[k], k, items)
                                   && forall j :: k < j < |items| ==> !pred(items[j], j, items)
  {
    var i := FindLastIndex(items, pred);
    r := if i == -1 then None else Some(items[i]);
  }

  /** The characters `escapeRegExp` puts a backslash before. */
  predicate IsRegExpSpecial(c: char) {
    c in ".*+?^${}()|[]\\"
  }

  /** `escapeRegExp(text)`: a backslash before every special character. */
  function EscapeRegExp(text: string): (r: string)
    ensures |r| >= |text|
  {
    if |text| == 0 then []
    else (if IsRegExpSpecial(text[0]) then ['\\', text[0]] else [text[0]]) + EscapeRegExp(text[1..])
  }

  /** Reads escaped text back: a backslash followed by a special character stands for that character. */
  function UnescapeRegExp(text: string): string
  {
    if |text| == 0 then []
    else if text[0] == '\\' && |text| >= 2 && IsRegExpSpecial(text[1]) then [text[1]] + UnescapeRegExp(text[2..])
    else [text[0]] + UnescapeRegExp(text[1..])
  }

  /** Escaping loses nothing: unescaping gives the text back. */
  lemma {:induction false} EscapeRegExpRoundTrip(text: string)
    ensures UnescapeRegExp(EscapeRegExp(text)) == text
  {
    if |text| > 0 {
      var head := if IsRegExpSpecial(text[0]) then ['\\', text[0]] else [text[0]];
      var rest := EscapeRegExp(text[1..]);
      assert EscapeRegExp(text) == head + rest;
      EscapeRegExpRoundTrip(text[1..]);
      if IsRegExpSpecial(text[0]) {
        assert (head + rest)[2..] == rest;
      } else {
        assert (head + rest)[1..] == rest;
      }
    }
  }

  /** How `escapeRegExp` writes one character: a special one gets a backslash before it. */
  function EscapedChar(c: char): (r: string)
    ensures IsRegExpSpecial(c) ==> r == ['\\', c]
    ensures !IsRegExpSpecial(c) ==> r == [c]
  {
    if IsRegExpSpecial(c) then ['\\', c] else [c]
  }

  /** Escaping works character by character: it distributes over concatenation. */
  lemma {:induction false} EscapeRegExpAppend(a: string, b: string)
    ensures EscapeRegExp(a + b) == EscapeRegExp(a) + EscapeRegExp(b)
  {
    if |a| > 0 {
      assert (a + b)[1..] == a[1..] + b;
      EscapeRegExpAppend(a[1..], b);
    } else {
      assert a + b == b;
    }
  }

  /**
    Every character of the text shows up in place, with a backslash before it exactly when it
    is special, and nothing else is inserted around it.
   */
  lemma {:induction false} EscapeRegExpAt(text: string, k: nat)
    requires k < |text|
    ensures EscapeRegExp(text) == EscapeRegExp(text[..k]) + EscapedChar(text[k]) + EscapeRegExp(text[k + 1..])
  {
    var rest := text[k..];
    assert text == text[..k] + rest;
    EscapeRegExpAppend(text[..k], rest);
    EscapeRegExpFirst(rest);
    assert rest[0] == text[k] && rest[1..] == text[k + 1..];
    var a, b, d := EscapeRegExp(text[..k]), EscapedChar(text[k]), EscapeRegExp(text[k + 1..]);
    assert a + (b + d) == a + b + d;
  }

  /** The first character of non-empty text escapes as `EscapedChar` says, ahead of the rest. */
  lemma EscapeRegExpFirst(text: string)
    requires |text| > 0
    ensures EscapeRegExp(text) == EscapedChar(text[0]) + EscapeRegExp(text[1..])
  {
  }

  /** Text without special characters is left unchanged. */
  lemma {:induction false} EscapeRegExpPlain(text: string)
    requires forall k :: 0 <= k < |text| ==> !IsRegExpSpecial(text[k])
    ensures EscapeRegExp(text) == text
  {
    if |text| > 0 {
      EscapeRegExpPlain(text[1..]);
    }
  }
}
