// A fixed-capacity circular buffer (lib.cpp, class RingBuffer): a write cursor,
// a read cursor and a fill count over an array of `size` slots. When full, an
// add overwrites the oldest element; a read of an empty buffer yields T().
//
// Abstractly the buffer is a FIFO queue holding at most `size` elements, and
// the elements read back are always the last `size` elements added, in order.

module RingBuffers {

  /** The last `n` elements of `s` (all of `s` when it is shorter). */
  function Last<T>(s: seq<T>, n: nat): (r: seq<T>)
    ensures |r| == if |s| < n then |s| else n
    ensures |s| <= n ==> r == s
  {
    if |s| <= n then s else s[|s| - n..]
  }

  /** Appending to a queue bounded by `cap`: the oldest element is dropped when full. */
  function Push<T>(q: seq<T>, cap: nat, x: T): (r: seq<T>)
    requires 0 < cap && |q| <= cap
    ensures |r| == if |q| < cap then |q| + 1 else cap
    ensures r[|r| - 1] == x
    ensures |q| < cap ==> r[..|q|] == q
    ensures |q| == cap ==> r[..|q| - 1] == q[1..]
  {
    if |q| < cap then q + [x] else q[1..] + [x]
  }

  /** Appending several elements one after the other. */
  function PushAll<T>(q: seq<T>, cap: nat, xs: seq<T>): (r: seq<T>)
    requires 0 < cap && |q| <= cap
    ensures |r| <= cap
    decreases |xs|
  {
    if xs == [] then q else PushAll(Push(q, cap, xs[0]), cap, xs[1..])
  }

  /** One push keeps exactly the last `cap` elements of the queue extended by `x`. */
  lemma PushIsLast<T>(q: seq<T>, cap: nat, x: T)
    requires 0 < cap && |q| <= cap
    ensures Push(q, cap, x) == Last(q + [x], cap)
  {
    if |q| == cap {
      assert (q + [x])[|q + [x]| - cap..] == q[1..] + [x];
    }
  }

  /** Taking the last `cap` elements first, then pushing, loses nothing further. */
  lemma LastThenPush<T>(s: seq<T>, cap: nat, x: T)
    requires 0 < cap
    ensures Push(Last(s, cap), cap, x) == Last(s + [x], cap)
  {
    PushIsLast(Last(s, cap), cap, x);
    if |s| > cap {
      assert Last(s, cap) + [x] == s[|s| - cap..] + [x];
      assert (s + [x])[|s + [x]| - cap..] == (s[|s| - cap..] + [x])[1..];
    }
  }

  /**
   * FIFO: whatever the history, the queue after pushing `xs` holds the last `cap`
   * elements of the whole history, in the order they were pushed.
   */
  lemma {:induction false} PushAllIsLast<T>(h: seq<T>, cap: nat, xs: seq<T>)
    requires 0 < cap
    ensures PushAll(Last(h, cap), cap, xs) == Last(h + xs, cap)
    decreases |xs|
  {
    if xs == [] {
      assert h + xs == h;
    } else {
      var h' := h + [xs[0]];
      calc {
        PushAll(Last(h, cap), cap, xs);
        PushAll(Push(Last(h, cap), cap, xs[0]), cap, xs[1..]);
        { LastThenPush(h, cap, xs[0]); }
        PushAll(Last(h', cap), cap, xs[1..]);
        { PushAllIsLast(h', cap, xs[1..]); }
        Last(h' + xs[1..], cap);
        { assert h' + xs[1..] == h + xs; }
        Last(h + xs, cap);
      }
    }
  }

  /** Starting from an empty buffer, the contents are the last `cap` elements added. */
  lemma FromEmpty<T>(cap: nat, xs: seq<T>)
    requires 0 < cap
    ensures PushAll([], cap, xs) == Last(xs, cap)
  {
    PushAllIsLast([], cap, xs);
    assert [] + xs == xs;
  }

  /** Position of the `i`-th element counted from cursor `start` in `n` circular slots. */
  function Slot(start: nat, i: nat, n: nat): (k: nat)
    requires start < n && i <= n
    ensures k < n
    ensures start + i == k || start + i == k + n
  {
    if start + i < n then start + i else start + i - n
  }

  /** The `count` elements stored from slot `start` onwards, wrapping around. */
  function Window<T>(s: seq<T>, start: nat, count: nat): (r: seq<T>)
    requires start < |s| && count <= |s|
    ensures |r| == count
    ensures forall i :: 0 <= i < count ==> r[i] == s[Slot(start, i, |s|)]
  {
    seq(count, i requires 0 <= i < count => s[Slot(start, i, |s|)])
  }

  /** Overwriting the oldest slot of a full window and advancing the start rotates it. */
  lemma WindowOverwrite<T>(s: seq<T>, start: nat, x: T)
    requires start < |s|
    ensures Window(s[start := x], Slot(start, 1, |s|), |s|) == Window(s, start, |s|)[1..] + [x]
  {
    var n := |s|;
    var w, q := Window(s[start := x], Slot(start, 1, n), n), Window(s, start, n);
    forall i | 0 <= i < n
      ensures w[i] == (q[1..] + [x])[i]
    {
      if i < n - 1 {
        assert Slot(Slot(start, 1, n), i, n) == Slot(start, i + 1, n);
      } else {
        assert Slot(Slot(start, 1, n), i, n) == start;
      }
    }
  }

  /** Writing just past the end of a window that is not full lengthens it by one. */
  lemma WindowAppend<T>(s: seq<T>, start: nat, count: nat, x: T)
    requires start < |s| && count < |s|
    ensures Window(s[Slot(start, count, |s|) := x], start, count + 1) == Window(s, start, count) + [x]
  {
    var n := |s|;
    var w, q := Window(s[Slot(start, count, n) := x], start, count + 1), Window(s, start, count);
    forall i | 0 <= i < count + 1
      ensures w[i] == (q + [x])[i]
    {
      if i < count {
        assert Slot(start, i, n) != Slot(start, count, n);
      }
    }
  }

  /** Advancing the start of a non-empty window drops its first element. */
  lemma WindowAdvance<T>(s: seq<T>, start: nat, count: nat)
    requires start < |s| && 0 < count <= |s|
    ensures Window(s, Slot(start, 1, |s|), count - 1) == Window(s, start, count)[1..]
  {
    var n := |s|;
    forall i | 0 <= i < count - 1
      ensures Window(s, Slot(start, 1, n), count - 1)[i] == Window(s, start, count)[1..][i]
    {
      assert Slot(Slot(start, 1, n), i, n) == Slot(start, i + 1, n);
    }
  }

  // ---------------------------------------------------------------------------
  // The cursors as declared: `readPos` has no initializer
  // ---------------------------------------------------------------------------

  /** The slots and cursors of a buffer as values. */
  datatype Cursors<T> = Cursors(slots: seq<T>, readPos: nat, writePos: nat, numFilled: nat)

  /** What a read yields: a slot's value, or an access past the end of the slots. */
  datatype Read<T> = Value(x: T) | OutOfBounds

  /** A fresh buffer as lib.cpp declares it: `writePos` and `numFilled` start
      at 0, while `readPos` keeps whatever value `start` its storage held. */
  function FreshAsDeclared<T>(sz: nat, blank: T, start: nat): (c: Cursors<T>)
    ensures |c.slots| == sz && c.numFilled == 0 && c.writePos == 0
  {
    Cursors(seq(sz, _ => blank), start, 0, 0)
  }

  /** `add`, branch by branch, on the value form of the cursors. */
  function AddOnCursors<T>(c: Cursors<T>, x: T): (r: (bool, Cursors<T>))
    requires c.writePos < |c.slots|
    ensures |r.1.slots| == |c.slots| && r.1.writePos < |c.slots|
  {
    var n := |c.slots|;
    var w := if c.writePos + 1 == n then 0 else c.writePos + 1;
    if c.numFilled == n then
      var rp := if c.readPos + 1 == n then 0 else c.readPos + 1;
      (false, Cursors(c.slots[c.writePos := x], rp, w, c.numFilled))
    else
      (true, Cursors(c.slots[c.writePos := x], c.readPos, w, c.numFilled + 1))
  }

  /** `get`, branch by branch, on the value form of the cursors. */
  function GetOnCursors<T>(c: Cursors<T>, blank: T): (r: (Read<T>, Cursors<T>))
    ensures c.numFilled == 0 ==> r == (Value(blank), c)
    ensures 0 < c.numFilled && c.readPos < |c.slots| ==> r.0 == Value(c.slots[c.readPos])
  {
    if c.numFilled == 0 then (Value(blank), c)
    else if c.readPos >= |c.slots| then (OutOfBounds, c)
    else
      var rp := if c.readPos + 1 == |c.slots| then 0 else c.readPos + 1;
      (Value(c.slots[c.readPos]), Cursors(c.slots, rp, c.writePos, c.numFilled - 1))
  }

  /** The class invariant on the value form: the cursors lie inside the slots
      and the write cursor is `numFilled` slots past the read cursor. */
  ghost predicate CursorsValid<T>(c: Cursors<T>) {
    && 0 < |c.slots|
    && c.readPos < |c.slots|
    && c.numFilled <= |c.slots|
    && c.writePos == Slot(c.readPos, c.numFilled, |c.slots|)
  }

  /** The unread elements, oldest first. */
  ghost function Unread<T>(c: Cursors<T>): (r: seq<T>)
    requires CursorsValid(c)
    ensures |r| == c.numFilled
  {
    Window(c.slots, c.readPos, c.numFilled)
  }

  /** `add` keeps the cursors consistent, reports whether there was room, and
      pushes the element onto the unread queue, dropping the oldest when full. */
  lemma AddOnCursorsIsPush<T>(c: Cursors<T>, x: T)
    requires CursorsValid(c)
    ensures CursorsValid(AddOnCursors(c, x).1)
    ensures AddOnCursors(c, x).0 <==> c.numFilled < |c.slots|
    ensures Unread(AddOnCursors(c, x).1) == Push(Unread(c), |c.slots|, x)
  {
    if c.numFilled == |c.slots| {
      WindowOverwrite(c.slots, c.readPos, x);
    } else {
      WindowAppend(c.slots, c.readPos, c.numFilled, x);
    }
  }

  /** `get` on consistent cursors: T() and no change when empty, otherwise the
      oldest unread element, which leaves the queue. */
  lemma GetOnCursorsIsPop<T>(c: Cursors<T>, blank: T)
    requires CursorsValid(c)
    ensures c.numFilled == 0 ==> GetOnCursors(c, blank) == (Value(blank), c)
    ensures 0 < c.numFilled ==>
              GetOnCursors(c, blank).0 == Value(Unread(c)[0])
              && CursorsValid(GetOnCursors(c, blank).1)
              && Unread(GetOnCursors(c, blank).1) == Unread(c)[1..]
  {
    if 0 < c.numFilled {
      WindowAdvance(c.slots, c.readPos, c.numFilled);
    }
  }

  /** Several adds one after the other. */
  ghost function AddAllOnCursors<T>(c: Cursors<T>, xs: seq<T>): (r: Cursors<T>)
    requires CursorsValid(c)
    ensures CursorsValid(r) && |r.slots| == |c.slots|
    decreases |xs|
  {
    if xs == [] then c
    else
      AddOnCursorsIsPush(c, xs[0]);
      AddAllOnCursors(AddOnCursors(c, xs[0]).1, xs[1..])
  }

  /** Any run of adds pushes its elements onto the unread queue in order. */
  lemma {:induction false} AddAllIsPushAll<T>(c: Cursors<T>, xs: seq<T>)
    requires CursorsValid(c)
    ensures Unread(AddAllOnCursors(c, xs)) == PushAll(Unread(c), |c.slots|, xs)
    decreases |xs|
  {
    if xs != [] {
      AddOnCursorsIsPush(c, xs[0]);
      AddAllIsPushAll(AddOnCursors(c, xs[0]).1, xs[1..]);
    }
  }

  /** With the read cursor starting at 0, a fresh buffer is consistent and empty,
      and after any run of adds its unread elements are the last `sz` added. */
  lemma FromZeroKeepsLast<T>(sz: nat, blank: T, xs: seq<T>)
    requires 0 < sz
    ensures CursorsValid(FreshAsDeclared(sz, blank, 0)) && Unread(FreshAsDeclared(sz, blank, 0)) == []
    ensures Unread(AddAllOnCursors(FreshAsDeclared(sz, blank, 0), xs)) == Last(xs, sz)
  {
    AddAllIsPushAll(FreshAsDeclared(sz, blank, 0), xs);
    FromEmpty(sz, xs);
  }

  /** With the read cursor starting at 0, the first read returns the first add. */
  lemma FirstReadFromZero<T>(sz: nat, blank: T, x: T)
    requires 0 < sz
    ensures GetOnCursors(AddOnCursors(FreshAsDeclared(sz, blank, 0), x).1, blank).0 == Value(x)
  {
  }

  /** With a stale read cursor of 1 in two slots, one add of x followed by one
      read returns the blank slot instead of x. */
  lemma StaleReadCursorMissesAdd<T>(blank: T, x: T)
    requires x != blank
    ensures var c := AddOnCursors(FreshAsDeclared(2, blank, 1), x).1;
            c.numFilled == 1 && GetOnCursors(c, blank).0 == Value(blank) != Value(x)
  {
  }

  /** With a stale read cursor at or past the end, the first read is out of bounds. */
  lemma StaleReadCursorOutOfBounds<T>(sz: nat, blank: T, x: T, start: nat)
    requires 0 < sz <= start
    ensures GetOnCursors(AddOnCursors(FreshAsDeclared(sz, blank, start), x).1, blank).0 == OutOfBounds
  {
  }

  /** The buffer itself, updated in place; its cursors start at 0. */
  class RingBuffer<T> {
    const size: nat
    const buffer: array<T>
    var readPos: nat
    var writePos: nat
    var numFilled: nat
    /** The value a read of an empty buffer returns (T() in the source). */
    const blank: T
    /** Diagnostics switch; it only selects messages on the error stream. */
    const cerrWhenInvalid: bool

    /** The slots and cursors as a value. */
    ghost function AsCursors(): Cursors<T>
      reads this, buffer
    {
      Cursors(buffer[..], readPos, writePos, numFilled)
    }

    ghost predicate Valid()
      reads this, buffer
    {
      buffer.Length == size && CursorsValid(AsCursors())
    }

    /** The unread elements, oldest first. */
    ghost function Contents(): (r: seq<T>)
      requires Valid()
      reads this, buffer
      ensures |r| == numFilled <= size
    {
      Unread(AsCursors())
    }

    constructor (sz: nat, blank: T)
      requires 0 < sz
      ensures Valid() && Contents() == [] && size == sz && this.blank == blank
      ensures !cerrWhenInvalid
      ensures fresh(buffer)
    {
      size := sz;
      buffer := new T[sz](_ => blank);
      readPos, writePos, numFilled := 0, 0, 0;
      this.blank := blank;
      cerrWhenInvalid := false;
    }

    constructor WithDiagnostics(sz: nat, toCerr: bool, blank: T)
      requires 0 < sz
      ensures Valid() && Contents() == [] && size == sz && this.blank == blank
      ensures cerrWhenInvalid == toCerr
      ensures fresh(buffer)
    {
      size := sz;
      buffer := new T[sz](_ => blank);
      readPos, writePos, numFilled := 0, 0, 0;
      this.blank := blank;
      cerrWhenInvalid := toCerr;
    }

    /**
     * Adds `element`; reports false when the buffer was full, in which case the
     * oldest element is overwritten.
     */
    method Add(element: T) returns (ok: bool)
      requires Valid()
      modifies this, buffer
      ensures Valid()
      ensures ok <==> old(numFilled) < size
      ensures Contents() == Push(old(Contents()), size, element)
      ensures AsCursors() == AddOnCursors(old(AsCursors()), element).1
      ensures ok == AddOnCursors(old(AsCursors()), element).0
    {
      ghost var c := AsCursors();
      AddOnCursorsIsPush(c, element);
      if numFilled == size {
        // overwrite: the write cursor sits on the oldest element
        buffer[writePos] := element;
        assert buffer[..] == c.slots[c.writePos := element];
        writePos := writePos + 1;
        if writePos == size { writePos := 0; }
        readPos := readPos + 1;
        if readPos == size { readPos := 0; }
        assert AsCursors() == AddOnCursors(c, element).1;
        return false;
      }
      buffer[writePos] := element;
      assert buffer[..] == c.slots[c.writePos := element];
      writePos := writePos + 1;
      numFilled := numFilled + 1;
      if writePos == size { writePos := 0; }
      assert AsCursors() == AddOnCursors(c, element).1;
      return true;
    }

    /** Reads and removes the oldest element; `blank` when there is none. */
    method Get() returns (x: T)
      requires Valid()
      modifies this
      ensures Valid()
      ensures old(numFilled) == 0 ==> x == blank && unchanged(this)
      ensures old(numFilled) > 0 ==> x == old(Contents())[0] && Contents() == old(Contents())[1..]
      ensures old(numFilled) > 0 ==> Value(x) == GetOnCursors(old(AsCursors()), blank).0
      ensures old(numFilled) > 0 ==> AsCursors() == GetOnCursors(old(AsCursors()), blank).1
    {
      ghost var c := AsCursors();
      GetOnCursorsIsPop(c, blank);
      if numFilled == 0 {
        return blank;
      }
      x := buffer[readPos];
      readPos := readPos + 1;
      numFilled := numFilled - 1;
      if readPos == size { readPos := 0; }
      assert AsCursors() == GetOnCursors(c, blank).1;
    }
  }
}
