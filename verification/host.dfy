/**
  The host text-input surface (a textarea element): its value and selection, and what the
  HTML standard makes of programmatic writes to them. The cursor models change the surface
  only through these members.
 */
module Host {

  /** A snapshot of the surface: the value and the selection offsets. */
  datatype Buffer = Buffer(value: string, start: nat, end: nat)

  /** What a textarea guarantees of its selection. */
  predicate ValidBuffer(b: Buffer) {
    b.start <= b.end <= |b.value|
  }

  const UINT32: int := 0x1_0000_0000

  /**
    WebIDL's conversion of an offset argument to `unsigned long`: a negative number wraps
    modulo 2^32. Non-negative offsets are kept as they are, so offsets of 2^32 and more are
    not reduced.
   */
  function ToUnsignedLong(x: int): (n: nat)
    ensures 0 <= x ==> n == x
    ensures -UINT32 / 2 <= x < 0 ==> n >= UINT32 / 2
  {
    if x < 0 then x % UINT32 else x
  }

  function Min(a: nat, b: nat): nat {
    if a <= b then a else b
  }

  /**
    "Set the selection range": both offsets are clamped to the length of the value,
    and an end before the start moves the start to the end.
   */
  function SetRange(value: string, start: int, end: int): (b: Buffer)
    ensures ValidBuffer(b) && b.value == value
    ensures 0 <= start <= end <= |value| ==> b.start == start && b.end == end
    ensures -UINT32 / 2 <= end < 0 && |value| < UINT32 / 2 ==> b.end == |value|
  {
    var s := Min(ToUnsignedLong(start), |value|);
    var e := Min(ToUnsignedLong(end), |value|);
    Buffer(value, if e < s then e else s, e)
  }

  /** The `selectionStart` setter: the end is first pushed up to the new start. */
  function SetStart(b: Buffer, x: int): (r: Buffer)
    ensures ValidBuffer(r) && r.value == b.value
  {
    var e := if b.end < ToUnsignedLong(x) then ToUnsignedLong(x) else b.end;
    SetRange(b.value, x, e)
  }

  /** The `selectionEnd` setter: the start is kept. */
  function SetEnd(b: Buffer, x: int): (r: Buffer)
    ensures ValidBuffer(r) && r.value == b.value
  {
    SetRange(b.value, b.start, x)
  }

  /**
    The `value` setter: when the value changes, the caret moves to the end of the new value
    and nothing stays selected; writing the same value leaves the selection alone.
   */
  function Written(b: Buffer, v: string): (r: Buffer)
    requires ValidBuffer(b)
    ensures ValidBuffer(r) && r.value == v
    ensures v != b.value ==> r.start == r.end == |v|
  {
    if v == b.value then b else Buffer(v, |v|, |v|)
  }

  /** Setting the caret through both setters puts it at `x`, clamped to the value. */
  lemma CaretAt(b: Buffer, x: nat)
    requires ValidBuffer(b)
    ensures SetEnd(SetStart(b, x), x) == Buffer(b.value, Min(x, |b.value|), Min(x, |b.value|))
  {
  }

  /** The textarea element. */
  class Textarea {
    var value: string
    var selectionStart: nat
    var selectionEnd: nat

    predicate Valid()
      reads this
    {
      ValidBuffer(State())
    }

    function State(): Buffer
      reads this
    {
      Buffer(value, selectionStart, selectionEnd)
    }

    constructor (value: string, selectionStart: nat, selectionEnd: nat)
      requires selectionStart <= selectionEnd <= |value|
      ensures Valid()
      ensures State() == Buffer(value, selectionStart, selectionEnd)
    {
      this.value := value;
      this.selectionStart := selectionStart;
      this.selectionEnd := selectionEnd;
    }

    method SetValue(v: string)
      requires Valid()
      modifies this
      ensures Valid()
      ensures State() == Written(old(State()), v)
    {
      if v != value {
        value := v;
        selectionStart, selectionEnd := |v|, |v|;
      }
    }

    method SetSelectionRange(start: int, end: int)
      requires Valid()
      modifies this
      ensures Valid()
      ensures State() == SetRange(old(value), start, end)
    {
      var s := Min(ToUnsignedLong(start), |value|);
      var e := Min(ToUnsignedLong(end), |value|);
      if e < s {
        s := e;
      }
      selectionStart, selectionEnd := s, e;
    }

    method SetSelectionStart(x: int)
      requires Valid()
      modifies this
      ensures Valid()
      ensures State() == SetStart(old(State()), x)
    {
      var e: int := selectionEnd;
      if e < ToUnsignedLong(x) {
        e := ToUnsignedLong(x);
      }
      SetSelectionRange(x, e);
    }

    method SetSelectionEnd(x: int)
      requires Valid()
      modifies this
      ensures Valid()
      ensures State() == SetEnd(old(State()), x)
    {
      SetSelectionRange(selectionStart, x);
    }
  }
}
