/**
 * Dispatch of BLE notifications and reassembly of half frames, as pure
 * functions of the pending-fragment map: each returns the new map and the
 * full frame (if any) that is then decoded.
 */
module Reassembly {
  import opened Optional
  import opened Wire

  /** `pendingECGSamples`: first halves waiting for their partner, by key. */
  type Pending = map<int, seq<Byte>>

  /** Every stored first half is a 13-byte packet filed under its own first byte. */
  ghost predicate WellFormed(p: Pending) {
    forall k :: k in p ==> |p[k]| == HalfFrameSize && p[k][0] == k
  }

  /**
   * `combineHalfPacket` without the frame processing: the first half with a
   * key is stored as it came, the second removes it and completes the frame.
   */
  function Combine(p: Pending, packet: seq<Byte>): (r: (Pending, Option<seq<Byte>>))
    requires |packet| == HalfFrameSize
    ensures WellFormed(p) ==> WellFormed(r.0)
    ensures r.1.Some? <==> packet[0] in p
    ensures packet[0] !in p ==> packet[0] in r.0 && r.0[packet[0]] == packet
    ensures packet[0] in p ==> r.1 == Some(p[packet[0]] + packet[1..])
    ensures WellFormed(p) && r.1.Some? ==> |r.1.value| == FullFrameSize && r.1.value[0] == packet[0]
    ensures packet[0] in r.0 <==> packet[0] !in p
    ensures forall k :: k != packet[0] ==> (k in r.0 <==> k in p)
    ensures forall k :: k != packet[0] && k in p ==> r.0[k] == p[k]
  {
    var key := packet[0] as int;
    if key in p then
      (p - {key}, Some(p[key] + packet[1..]))
    else
      (p[key := packet], None)
  }

  /** `handleEcgNotification` without the frame processing: dispatch on length. */
  function Route(p: Pending, packet: seq<Byte>): (r: (Pending, Option<seq<Byte>>))
    ensures WellFormed(p) ==> WellFormed(r.0)
    ensures WellFormed(p) && r.1.Some? ==> |r.1.value| == FullFrameSize
    ensures |packet| == FullFrameSize ==> r == (p, Some(packet))
    ensures |packet| == HalfFrameSize ==> r == Combine(p, packet)
    ensures |packet| != FullFrameSize && |packet| != HalfFrameSize ==> r == (p, None)
  {
    if |packet| == FullFrameSize then (p, Some(packet))
    else if |packet| == HalfFrameSize then Combine(p, packet)
    else (p, None)
  }

  /**
   * Two halves with the same key, on a map without that key: the first
   * yields nothing, the second yields first ++ second[1..], and the map is
   * back as it was.
   */
  lemma {:induction false} HalvesComplete(p: Pending, first: seq<Byte>, second: seq<Byte>)
    requires WellFormed(p)
    requires |first| == HalfFrameSize && |second| == HalfFrameSize
    requires first[0] == second[0] && first[0] !in p
    ensures Route(p, first).1 == None
    ensures Route(Route(p, first).0, second).0 == p
    ensures Route(Route(p, first).0, second).1 == Some(first + second[1..])
    ensures var f := first + second[1..];
      |f| == FullFrameSize && f[0] == first[0] && f[1..] == first[1..] + second[1..]
  {
    var k := first[0] as int;
    var p1 := Route(p, first).0;
    assert p1 == p[k := first];
    assert p1 - {k} == p;
    var f := first + second[1..];
    assert f[1..] == first[1..] + second[1..];
  }

  /** The keys of a well-formed map are Kotlin bytes, so at most 256 halves wait. */
  lemma PendingBounded(p: Pending)
    requires WellFormed(p)
    ensures |p| <= 256
  {
    var keys := IntRange(-128, 128);
    forall k | k in p.Keys
      ensures k in keys
    {
      var b: Byte := p[k][0];
      assert k == b as int;
    }
    SubsetSize(p.Keys, keys);
  }

  /** The integers in [lo, hi), as a set. */
  ghost function IntRange(lo: int, hi: int): (s: set<int>)
    requires lo <= hi
    ensures forall k :: k in s <==> lo <= k < hi
    ensures |s| == hi - lo
    decreases hi - lo
  {
    if lo == hi then {} else {lo} + IntRange(lo + 1, hi)
  }

  lemma {:induction false} SubsetSize(a: set<int>, b: set<int>)
    requires a <= b
    ensures |a| <= |b|
  {
    assert |b| == |a| + |b - a|;
  }
}
