/**
 * The two bounded FIFO rules of `processFullPacket`: the per-lead display
 * list ("remove the first entry if there are more than 200, then add") and
 * the lead-0 primary buffer ("add, then drop the oldest if more than 1500").
 */
module Buffers {
  /** A display list is trimmed only when it already holds more than this. */
  const DisplayTrimAbove := 200
  /** ... so it settles at one entry more. */
  const DisplayCapacity := DisplayTrimAbove + 1
  const PrimaryCapacity := 1500

  /** The last `cap` elements of `s` (all of `s` when it is shorter). */
  function Window<T>(s: seq<T>, cap: nat): (w: seq<T>)
    ensures |w| == if |s| <= cap then |s| else cap
    ensures w == s[|s| - |w|..]
  {
    if |s| <= cap then s else s[|s| - cap..]
  }

  /** `if (list.size > 200) list.removeAt(0); list.add(e)` */
  function DisplayPush<T>(list: seq<T>, e: T): (r: seq<T>)
    ensures |r| == if |list| > DisplayTrimAbove then |list| else |list| + 1
    ensures r[|r| - 1] == e
  {
    (if |list| > DisplayTrimAbove then list[1..] else list) + [e]
  }

  /** `buf.add(v); if (buf.size > 1500) buf.removeFirst()` */
  function PrimaryPush<T>(buf: seq<T>, v: T): (r: seq<T>)
    ensures |r| == if |buf| < PrimaryCapacity then |buf| + 1 else |buf|
    ensures r[|r| - 1] == v
  {
    var b := buf + [v];
    if |b| > PrimaryCapacity then b[1..] else b
  }

  /**
   * A display list of at most 201 entries stays within 201; the new entry is
   * last, and before it come the old entries in their order, minus the
   * oldest exactly when there were more than 200.
   */
  lemma DisplayPushBounded<T>(list: seq<T>, e: T)
    requires |list| <= DisplayCapacity
    ensures var r := DisplayPush(list, e);
      |r| <= DisplayCapacity && r[|r| - 1] == e &&
      r[..|r| - 1] == if |list| > DisplayTrimAbove then list[1..] else list
  {
    var r := DisplayPush(list, e);
    assert r[..|r| - 1] == if |list| > DisplayTrimAbove then list[1..] else list;
  }

  /** The primary buffer stays within 1500 and ends with the new value. */
  lemma PrimaryPushBounded<T>(buf: seq<T>, v: T)
    requires |buf| <= PrimaryCapacity
    ensures var r := PrimaryPush(buf, v);
      |r| <= PrimaryCapacity && r[|r| - 1] == v &&
      r[..|r| - 1] == if |buf| == PrimaryCapacity then buf[1..] else buf
  {
    var r := PrimaryPush(buf, v);
    assert r[..|r| - 1] == if |buf| == PrimaryCapacity then buf[1..] else buf;
  }

  /** Pushing onto the display window of a history gives the window of the longer history. */
  lemma {:induction false} DisplayPushWindow<T>(h: seq<T>, e: T)
    ensures DisplayPush(Window(h, DisplayCapacity), e) == Window(h + [e], DisplayCapacity)
  {
    var w := Window(h, DisplayCapacity);
    var h' := h + [e];
    if |h| > DisplayTrimAbove {
      assert w[1..] + [e] == h'[|h'| - DisplayCapacity..];
    }
  }

  /** Pushing onto the primary window of a history gives the window of the longer history. */
  lemma {:induction false} PrimaryPushWindow<T>(h: seq<T>, v: T)
    ensures PrimaryPush(Window(h, PrimaryCapacity), v) == Window(h + [v], PrimaryCapacity)
  {
    var w := Window(h, PrimaryCapacity);
    var h' := h + [v];
    if |h| >= PrimaryCapacity {
      assert (w + [v])[1..] == h'[|h'| - PrimaryCapacity..];
    }
  }
}
