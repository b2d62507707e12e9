/**
  String helpers with JavaScript's meaning: `indexOf`, `lastIndexOf`, `slice` (negative and
  out-of-range arguments included), `split`/`join` on one separator character, the `\s` and
  `\d` character classes of regular expressions, and removal of every occurrence of a character.
 */
module Strings {

  /** The `\s` class of ECMAScript regular expressions (WhiteSpace and LineTerminator). */
  predicate IsSpace(c: char) {
    c == ' ' || c == '\t' || c == '\n' || c == '\r' || c == '\U{B}' || c == '\U{C}'
    || c == '\U{A0}' || c == '\U{1680}' || ('\U{2000}' <= c <= '\U{200A}')
    || c == '\U{2028}' || c == '\U{2029}' || c == '\U{202F}' || c == '\U{205F}'
    || c == '\U{3000}' || c == '\U{FEFF}'
  }

  /** The characters `.` does not match in an ECMAScript regular expression without the `s` flag. */
  predicate IsLineTerminator(c: char) {
    c == '\n' || c == '\r' || c == '\U{2028}' || c == '\U{2029}'
  }

  /** The `\d` class: ASCII digits only. */
  predicate IsDigit(c: char) {
    '0' <= c <= '9'
  }

  /** `s.indexOf(x)`: the first index holding `x`, or -1. */
  function IndexOf<T(==)>(s: seq<T>, x: T): (i: int)
    ensures -1 <= i < |s|
    ensures i == -1 <==> x !in s
    ensures 0 <= i ==> s[i] == x && x !in s[..i]
  {
    if |s| == 0 then -1
    else if s[0] == x then 0
    else
      var j := IndexOf(s[1..], x);
      assert j >= 0 ==> s[..j + 1] == [s[0]] + s[1..][..j];
      if j == -1 then -1 else j + 1
  }

  /** `s.lastIndexOf(x)`: the last index holding `x`, or -1. */
  function LastIndexOf<T(==)>(s: seq<T>, x: T): (i: int)
    ensures -1 <= i < |s|
    ensures i == -1 <==> x !in s
    ensures 0 <= i ==> s[i] == x && x !in s[i + 1..]
  {
    if |s| == 0 then -1
    else if s[|s| - 1] == x then |s| - 1
    else
      assert s == s[..|s| - 1] + [s[|s| - 1]];
      LastIndexOf(s[..|s| - 1], x)
  }

  /** Every element of `s` that is not `x`, in order (`s.replace(/x/g, '')`). */
  function Strip<T(==)>(s: seq<T>, x: T): (r: seq<T>)
    ensures x !in r
    ensures |r| <= |s|
  {
    if |s| == 0 then [] else (if s[0] == x then [] else [s[0]]) + Strip(s[1..], x)
  }

  /** A sequence is the concatenation of its three pieces around two offsets. */
  lemma SliceThree<T>(s: seq<T>, i: nat, j: nat)
    requires i <= j <= |s|
    ensures s[..i] + s[i..j] + s[j..] == s
  {
    assert s[..i] + s[i..j] == s[..j];
  }

  lemma {:induction false} StripAppend<T>(a: seq<T>, b: seq<T>, x: T)
    ensures Strip(a + b, x) == Strip(a, x) + Strip(b, x)
  {
    if |a| == 0 {
      assert a + b == b;
    } else {
      assert (a + b)[1..] == a[1..] + b;
      StripAppend(a[1..], b, x);
    }
  }

  lemma {:induction false} StripAbsent<T>(s: seq<T>, x: T)
    requires x !in s
    ensures Strip(s, x) == s
  {
    if |s| > 0 {
      StripAbsent(s[1..], x);
    }
  }

  /** The number of occurrences of `x` in `s`. */
  function Count<T(==)>(s: seq<T>, x: T): nat {
    if |s| == 0 then 0 else (if s[0] == x then 1 else 0) + Count(s[1..], x)
  }

  lemma {:induction false} CountAppend<T>(a: seq<T>, b: seq<T>, x: T)
    ensures Count(a + b, x) == Count(a, x) + Count(b, x)
  {
    if |a| == 0 {
      assert a + b == b;
    } else {
      assert (a + b)[1..] == a[1..] + b;
      CountAppend(a[1..], b, x);
    }
  }

  lemma {:induction false} CountAbsent<T>(s: seq<T>, x: T)
    requires x !in s
    ensures Count(s, x) == 0
  {
    if |s| > 0 {
      CountAbsent(s[1..], x);
    }
  }

  lemma {:induction false} CountPresent<T>(s: seq<T>, x: T)
    requires x in s
    ensures Count(s, x) > 0
  {
    if s[0] != x {
      CountPresent(s[1..], x);
    }
  }

  /** How JavaScript's `slice` reads one index argument against a length. */
  function JsIndex(len: nat, x: int): (i: nat)
    ensures i <= len
    ensures 0 <= x <= len ==> i == x
  {
    if x < 0 then (if len + x < 0 then 0 else len + x) else if x > len then len else x
  }

  /** `s.slice(from, to)`. */
  function Slice<T>(s: seq<T>, from: int, to: int): (r: seq<T>)
    ensures 0 <= from <= to <= |s| ==> r == s[from..to]
  {
    var i, j := JsIndex(|s|, from), JsIndex(|s|, to);
    if i < j then s[i..j] else []
  }

  /** `s.slice(from)`. */
  function SliceFrom<T>(s: seq<T>, from: int): (r: seq<T>)
    ensures 0 <= from <= |s| ==> r == s[from..]
  {
    s[JsIndex(|s|, from)..]
  }

  /** `s.split(sep)` for a one-character separator. */
  function Split(s: string, sep: char): (parts: seq<string>)
    ensures |parts| >= 1
    ensures forall k :: 0 <= k < |parts| ==> sep !in parts[k]
    decreases |s|
  {
    var i := IndexOf(s, sep);
    if i == -1 then [s] else [s[..i]] + Split(s[i + 1..], sep)
  }

  /** No part holds `c`. */
  predicate Avoids(parts: seq<string>, c: char) {
    forall k :: 0 <= k < |parts| ==> c !in parts[k]
  }

  /** `parts.join(sep)` for a one-character separator. */
  function Join(parts: seq<string>, sep: char): string {
    if |parts| == 0 then []
    else if |parts| == 1 then parts[0]
    else parts[0] + [sep] + Join(parts[1..], sep)
  }

  /** Joining a part in front of a non-empty list puts one separator after it. */
  lemma JoinCons(p: string, tail: seq<string>, sep: char)
    requires |tail| >= 1
    ensures Join([p] + tail, sep) == p + [sep] + Join(tail, sep)
  {
    assert ([p] + tail)[1..] == tail;
  }

  /** The first separator of `p + [sep] + rest` is the one after `p`, when `p` holds none. */
  lemma IndexOfAfter(p: string, sep: char, rest: string)
    requires sep !in p
    ensures IndexOf(p + [sep] + rest, sep) == |p|
    ensures (p + [sep] + rest)[..|p|] == p && (p + [sep] + rest)[|p| + 1..] == rest
  {
    var s := p + [sep] + rest;
    assert s[..|p|] == p;
    assert s[|p|] == sep;
  }

  /** Joining what was split gives the string back. */
  lemma {:induction false} JoinSplit(s: string, sep: char)
    ensures Join(Split(s, sep), sep) == s
    decreases |s|
  {
    var i := IndexOf(s, sep);
    if i != -1 {
      var rest := s[i + 1..];
      var tail := Split(rest, sep);
      assert Split(s, sep) == [s[..i]] + tail;
      JoinSplit(rest, sep);
      JoinCons(s[..i], tail, sep);
      assert s == s[..i] + [sep] + rest;
    }
  }

  /** Splitting what was joined gives the parts back, when no part holds the separator. */
  lemma {:induction false} SplitJoin(parts: seq<string>, sep: char)
    requires |parts| >= 1
    requires forall k :: 0 <= k < |parts| ==> sep !in parts[k]
    ensures Split(Join(parts, sep), sep) == parts
  {
    if |parts| > 1 {
      var p, tail := parts[0], parts[1..];
      assert parts == [p] + tail;
      JoinCons(p, tail, sep);
      IndexOfAfter(p, sep, Join(tail, sep));
      SplitJoin(tail, sep);
    }
  }

  /** Joining two non-empty lists puts one separator between their joins. */
  lemma {:induction false} JoinAppend(a: seq<string>, b: seq<string>, sep: char)
    requires |a| >= 1 && |b| >= 1
    ensures Join(a + b, sep) == Join(a, sep) + [sep] + Join(b, sep)
  {
    if |a| == 1 {
      assert (a + b)[1..] == b;
    } else {
      assert (a + b)[1..] == a[1..] + b;
      JoinAppend(a[1..], b, sep);
    }
  }

  /** What precedes part `k` in `Join(ts, sep)`: the earlier parts and their separators. */
  function JoinBefore(ts: seq<string>, k: nat, sep: char): string
    requires k <= |ts|
  {
    if k == 0 then [] else Join(ts[..k], sep) + [sep]
  }

  /** What follows part `k` in `Join(ts, sep)`. */
  function JoinAfter(ts: seq<string>, k: nat, sep: char): string
    requires k < |ts|
  {
    if k + 1 == |ts| then [] else [sep] + Join(ts[k + 1..], sep)
  }

  /** Part `k` sits between what precedes it and what follows it. */
  lemma JoinAt(ts: seq<string>, k: nat, sep: char)
    requires k < |ts|
    ensures Join(ts, sep) == JoinBefore(ts, k, sep) + ts[k] + JoinAfter(ts, k, sep)
  {
    var rest := ts[k..];
    assert Join(rest, sep) == ts[k] + JoinAfter(ts, k, sep) by {
      if k + 1 < |ts| {
        assert rest[1..] == ts[k + 1..];
      }
    }
    if k > 0 {
      JoinAppend(ts[..k], rest, sep);
      assert ts[..k] + rest == ts;
    } else {
      assert rest == ts;
    }
  }

  /** The prefix before part `k + 1` is the prefix before part `k`, part `k` and one separator. */
  lemma JoinBeforeNext(ts: seq<string>, k: nat, sep: char)
    requires k < |ts|
    ensures JoinBefore(ts, k + 1, sep) == JoinBefore(ts, k, sep) + ts[k] + [sep]
  {
    if k > 0 {
      JoinAppend(ts[..k], [ts[k]], sep);
      assert ts[..k] + [ts[k]] == ts[..k + 1];
    } else {
      assert ts[..1] == [ts[0]];
    }
  }

  /** A join of separator-free parts holds one separator fewer than it has parts. */
  lemma {:induction false} CountJoin(ts: seq<string>, sep: char)
    requires |ts| >= 1
    requires forall k :: 0 <= k < |ts| ==> sep !in ts[k]
    ensures Count(Join(ts, sep), sep) == |ts| - 1
  {
    CountAbsent(ts[0], sep);
    if |ts| > 1 {
      CountJoin(ts[1..], sep);
      CountAppend(ts[0], [sep], sep);
      CountAppend(ts[0] + [sep], Join(ts[1..], sep), sep);
    }
  }

  /** The first `x` of `a + [x] + c` is the one after `a`, when `a` holds none. */
  lemma {:induction false} IndexOfConcat<T>(a: seq<T>, x: T, c: seq<T>)
    requires x !in a
    ensures IndexOf(a + [x] + c, x) == |a|
  {
    if |a| > 0 {
      assert (a + [x] + c)[1..] == a[1..] + [x] + c;
      IndexOfConcat(a[1..], x, c);
    }
  }

  /** The last `x` of `a + [x] + c` is the one before `c`, when `c` holds none. */
  lemma {:induction false} LastIndexOfConcat<T>(a: seq<T>, x: T, c: seq<T>)
    requires x !in c
    ensures LastIndexOf(a + [x] + c, x) == |a|
  {
    if |c| > 0 {
      var s := a + [x] + c;
      assert s[|s| - 1] == c[|c| - 1];
      assert s[..|s| - 1] == a + [x] + c[..|c| - 1];
      LastIndexOfConcat(a, x, c[..|c| - 1]);
    }
  }

  /** Joining `mid` and the parts after `j` puts what follows part `j` after the join of `mid`. */
  lemma JoinThenAfter(ts: seq<string>, j: nat, mid: seq<string>, sep: char)
    requires j < |ts| && |mid| >= 1
    ensures Join(mid + ts[j + 1..], sep) == Join(mid, sep) + JoinAfter(ts, j, sep)
  {
    var post := ts[j + 1..];
    if |post| == 0 {
      assert mid + post == mid;
    } else {
      JoinAppend(mid, post, sep);
    }
  }

  /** Joining the parts before `i` and `rest` puts what precedes part `i` before the join of `rest`. */
  lemma BeforeThenJoin(ts: seq<string>, i: nat, rest: seq<string>, sep: char)
    requires i <= |ts| && |rest| >= 1
    ensures Join(ts[..i] + rest, sep) == JoinBefore(ts, i, sep) + Join(rest, sep)
  {
    var pre := ts[..i];
    if |pre| == 0 {
      assert pre + rest == rest;
    } else {
      JoinAppend(pre, rest, sep);
    }
  }

  /**
    Replacing parts `i..j` of a join by the join of `mid` gives the join of the parts with
    `mid` spliced in.
   */
  lemma JoinSplice(ts: seq<string>, i: nat, j: nat, mid: seq<string>, sep: char)
    requires i <= j < |ts| && |mid| >= 1
    ensures JoinBefore(ts, i, sep) + Join(mid, sep) + JoinAfter(ts, j, sep) == Join(ts[..i] + mid + ts[j + 1..], sep)
  {
    var rest := mid + ts[j + 1..];
    JoinThenAfter(ts, j, mid, sep);
    BeforeThenJoin(ts, i, rest, sep);
    assert ts[..i] + mid + ts[j + 1..] == ts[..i] + rest;
  }

  /** A join holds a character other than the separator only when a part holds it. */
  lemma {:induction false} JoinAvoids(ts: seq<string>, sep: char, x: char)
    requires x != sep
    requires forall k :: 0 <= k < |ts| ==> x !in ts[k]
    ensures x !in Join(ts, sep)
  {
    if |ts| > 1 {
      JoinAvoids(ts[1..], sep, x);
    }
  }

  /** A join of the parts up to `k` is what precedes part `k` followed by part `k`. */
  lemma JoinUpTo(ts: seq<string>, k: nat, sep: char)
    requires k < |ts|
    ensures Join(ts[..k + 1], sep) == JoinBefore(ts, k, sep) + ts[k]
  {
    var x := ts[..k + 1];
    JoinAt(x, k, sep);
    assert x[..k] == ts[..k];
  }

  /** Splicing the original block back over a block of the same length gives the original sequence. */
  lemma SpliceBack<T>(ts: seq<T>, i: nat, j: nat, mid: seq<T>)
    requires i <= j < |ts| && |mid| == j - i + 1
    ensures var ts' := ts[..i] + mid + ts[j + 1..];
      ts'[..i] + ts[i..j + 1] + ts'[j + 1..] == ts
  {
    var ts' := ts[..i] + mid + ts[j + 1..];
    assert ts'[..i] == ts[..i];
    assert ts'[j + 1..] == ts[j + 1..];
  }

  /** Putting element `k` back in its own place changes nothing. */
  lemma SpliceOwn<T>(ts: seq<T>, k: nat)
    requires k < |ts|
    ensures ts[..k] + [ts[k]] + ts[k + 1..] == ts
  {
  }

  /** A block spliced in over as many elements sits at the same indices. */
  lemma SpliceMiddle<T>(ts: seq<T>, i: nat, j: nat, mid: seq<T>)
    requires i <= j < |ts| && |mid| == j - i + 1
    ensures (ts[..i] + mid + ts[j + 1..])[i..j + 1] == mid
  {
  }

  /** The piece after `a` in `a + m + c + d` is `m`. */
  lemma Middle<T>(a: seq<T>, m: seq<T>, c: seq<T>, d: seq<T>)
    ensures |a| + |m| <= |a + m + c + d| && (a + m + c + d)[|a|..|a| + |m|] == m
  {
    assert (a + m + c + d)[|a|..|a| + |m|] == (a + m)[|a|..];
  }

  /** In lines with a block spliced in, the block's last line ends where the joined block ends. */
  lemma JoinBeforeSpliceEnd(ts: seq<string>, i: nat, j: nat, mid: seq<string>, sep: char)
    requires i <= j < |ts| && |mid| == j - i + 1
    ensures var ts' := ts[..i] + mid + ts[j + 1..];
      j < |ts'| && |JoinBefore(ts', j, sep)| + |ts'[j]| == |JoinBefore(ts, i, sep)| + |Join(mid, sep)|
  {
    var ts' := ts[..i] + mid + ts[j + 1..];
    JoinBeforeBlock(ts', i, |mid|, sep);
    assert ts'[i..i + |mid|] == mid;
    assert ts'[..i] == ts[..i];
  }

  /** Regrouping a content with two separators `p`, `q` placed between a prefix `a` and a suffix `c`. */
  lemma Regroup<T>(a: seq<T>, x: seq<T>, p: seq<T>, m: seq<T>, q: seq<T>, y: seq<T>, c: seq<T>)
    ensures a + (x + p + m + q + y) + c == (a + x) + p + m + q + (y + c)
    ensures (a + x) + m + (y + c) == a + x + m + y + c
  {
  }

  lemma Group<T>(a: seq<T>, x: seq<T>, m: seq<T>, y: seq<T>, c: seq<T>)
    ensures a + x + m + y + c == a + (x + m + y) + c
  {
  }

  /** A prefix followed by the next block is the longer prefix. */
  lemma TakeBlock<T>(ts: seq<T>, i: nat, n: nat)
    requires i + n <= |ts|
    ensures ts[..i] + ts[i..i + n] == ts[..i + n]
  {
  }

  /** Up to the end of its last part, the block of parts `i..i + n` sits right after what precedes it. */
  lemma JoinBeforeBlock(ts: seq<string>, i: nat, n: nat, sep: char)
    requires 1 <= n && i + n <= |ts|
    ensures JoinBefore(ts, i + n - 1, sep) + ts[i + n - 1] == JoinBefore(ts, i, sep) + Join(ts[i..i + n], sep)
  {
    JoinUpTo(ts, i + n - 1, sep);
    BeforeThenJoin(ts, i, ts[i..i + n], sep);
    TakeBlock(ts, i, n);
  }

  /** Dropping part `k` (not the first) and the separator before it. */
  lemma JoinRemove(ts: seq<string>, k: nat, sep: char)
    requires 1 <= k < |ts|
    ensures Join(ts[..k], sep) + JoinAfter(ts, k, sep) == Join(ts[..k] + ts[k + 1..], sep)
  {
    if k + 1 == |ts| {
      assert ts[..k] + ts[k + 1..] == ts[..k];
    } else {
      JoinAppend(ts[..k], ts[k + 1..], sep);
    }
  }

  /** The parts with `x` in front of the first and `y` after the last. */
  function Framed(parts: seq<string>, x: string, y: string): (r: seq<string>)
    requires |parts| >= 1
    ensures |r| == |parts|
    ensures forall k :: 0 <= k < |r| ==> r[k] == (if k == 0 then x else []) + parts[k] + (if k == |r| - 1 then y else [])
  {
    var q := parts[0 := x + parts[0]];
    q[|q| - 1 := q[|q| - 1] + y]
  }

  /** Framing the parts frames their join. */
  lemma JoinFramed(parts: seq<string>, x: string, y: string, sep: char)
    requires |parts| >= 1
    ensures Join(Framed(parts, x, y), sep) == x + Join(parts, sep) + y
  {
    var q := parts[0 := x + parts[0]];
    assert Join(q, sep) == x + Join(parts, sep) by {
      if |parts| > 1 {
        assert q[1..] == parts[1..];
      }
    }
    var n := |q| - 1;
    var r := q[n := q[n] + y];
    JoinAt(q, n, sep);
    JoinAt(r, n, sep);
    assert r[..n] == q[..n];
  }

  /** `s.startsWith(p)`. */
  predicate StartsWith<T(==)>(s: seq<T>, p: seq<T>) {
    |p| <= |s| && s[..|p|] == p
  }

  /** `x.repeat(n)` for a one-character `x`. */
  function Repeat<T>(x: T, n: nat): (r: seq<T>)
    ensures |r| == n
    ensures forall k :: 0 <= k < n ==> r[k] == x
  {
    if n == 0 then [] else [x] + Repeat(x, n - 1)
  }

  /** The length of the leading `\s*` of `s`. */
  function LeadingSpaces(s: string): (n: nat)
    ensures n <= |s|
    ensures forall k :: 0 <= k < n ==> IsSpace(s[k])
    ensures n < |s| ==> !IsSpace(s[n])
  {
    if |s| == 0 || !IsSpace(s[0]) then 0 else 1 + LeadingSpaces(s[1..])
  }

  /** The length of the run of digits starting at `s[from]`. */
  function DigitRun(s: string, from: nat): (n: nat)
    requires from <= |s|
    ensures from + n <= |s|
    ensures forall k :: from <= k < from + n ==> IsDigit(s[k])
    ensures from + n < |s| ==> !IsDigit(s[from + n])
    decreases |s| - from
  {
    if from == |s| || !IsDigit(s[from]) then 0 else 1 + DigitRun(s, from + 1)
  }

  /** The length of the run of `\s` characters starting at `s[from]`. */
  function SpaceRun(s: string, from: nat): (n: nat)
    requires from <= |s|
    ensures from + n <= |s|
    ensures forall k :: from <= k < from + n ==> IsSpace(s[k])
    ensures from + n < |s| ==> !IsSpace(s[from + n])
    decreases |s| - from
  {
    if from == |s| || !IsSpace(s[from]) then 0 else 1 + SpaceRun(s, from + 1)
  }

  /** The decimal digit for `d`. */
  function Digit(d: nat): (c: char)
    requires d < 10
    ensures IsDigit(c)
  {
    ((('0' as int) + d) as char)
  }

  /** `String(n)` for a natural number: its decimal digits. */
  function NatToString(n: nat): (s: string)
    ensures |s| >= 1
    ensures forall k :: 0 <= k < |s| ==> IsDigit(s[k])
  {
    if n < 10 then [Digit(n)] else NatToString(n / 10) + [Digit(n % 10)]
  }
}
