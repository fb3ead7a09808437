/**
 * The activity's pipeline state: pending half frames, 12 per-lead display
 * lists, the lead-0 primary buffer, the frame counter and the rate state,
 * updated in place by the notification handler and the BPM refresh.
 */
module Monitor {
  import opened Optional
  import opened Wire
  import Reassembly
  import Buffers
  import Rate

  /** A chart point: the frame's ordinal and the decoded sample. */
  datatype Entry = Entry(x: int, y: int)

  /** One point per processed frame for lead `lead`, the i-th frame at x = i. */
  ghost function LeadEntries(frames: seq<Frame>, lead: int): (es: seq<Entry>)
    requires 0 <= lead < LeadCount
  {
    if frames == [] then []
    else
      var n := |frames| - 1;
      LeadEntries(frames[..n], lead) + [Entry(n, LeadValue(frames[n], lead))]
  }

  /** The samples of lead `lead`, one per processed frame, in arrival order. */
  ghost function LeadSamples(frames: seq<Frame>, lead: int): (vs: seq<int>)
    requires 0 <= lead < LeadCount
  {
    if frames == [] then []
    else
      var n := |frames| - 1;
      LeadSamples(frames[..n], lead) + [LeadValue(frames[n], lead)]
  }

  /** The i-th point of a lead's history is at x = i and carries that frame's sample. */
  lemma {:induction false} LeadEntriesAt(frames: seq<Frame>, lead: int, i: int)
    requires 0 <= lead < LeadCount && 0 <= i < |frames|
    ensures |LeadEntries(frames, lead)| == |frames|
    ensures LeadEntries(frames, lead)[i] == Entry(i, LeadValue(frames[i], lead))
  {
    var n := |frames| - 1;
    LeadEntriesLength(frames[..n], lead);
    if i < n {
      LeadEntriesAt(frames[..n], lead, i);
    }
  }

  lemma {:induction false} LeadEntriesLength(frames: seq<Frame>, lead: int)
    requires 0 <= lead < LeadCount
    ensures |LeadEntries(frames, lead)| == |frames|
  {
    if frames != [] {
      LeadEntriesLength(frames[..|frames| - 1], lead);
    }
  }

  lemma {:induction false} LeadSamplesAt(frames: seq<Frame>, lead: int, i: int)
    requires 0 <= lead < LeadCount && 0 <= i < |frames|
    ensures |LeadSamples(frames, lead)| == |frames|
    ensures LeadSamples(frames, lead)[i] == LeadValue(frames[i], lead)
  {
    var n := |frames| - 1;
    LeadSamplesLength(frames[..n], lead);
    if i < n {
      LeadSamplesAt(frames[..n], lead, i);
    }
  }

  lemma {:induction false} LeadSamplesLength(frames: seq<Frame>, lead: int)
    requires 0 <= lead < LeadCount
    ensures |LeadSamples(frames, lead)| == |frames|
  {
    if frames != [] {
      LeadSamplesLength(frames[..|frames| - 1], lead);
    }
  }

  /** The display rule applied to leads `lead` to 11 of one frame, in lead order. */
  function PushFrom(lists: seq<seq<Entry>>, packet: Frame, xVal: int, lead: int): (r: seq<seq<Entry>>)
    requires |lists| == LeadCount && 0 <= lead <= LeadCount
    ensures |r| == LeadCount
    decreases LeadCount - lead
  {
    if lead == LeadCount then lists
    else
      var e := Entry(xVal, LeadValue(packet, lead));
      PushFrom(lists[lead := Buffers.DisplayPush(lists[lead], e)], packet, xVal, lead + 1)
  }

  /** One frame's points pushed onto all 12 display lists. */
  function PushAll(lists: seq<seq<Entry>>, packet: Frame, xVal: int): (r: seq<seq<Entry>>)
    requires |lists| == LeadCount
    ensures |r| == LeadCount
  {
    PushFrom(lists, packet, xVal, 0)
  }

  /** Each lead list gets its own lead's point, the others untouched by it. */
  lemma {:induction false} PushFromAt(lists: seq<seq<Entry>>, packet: Frame, xVal: int, lead: int, l: int)
    requires |lists| == LeadCount && 0 <= lead <= LeadCount && 0 <= l < LeadCount
    ensures PushFrom(lists, packet, xVal, lead)[l] ==
      if l < lead then lists[l] else Buffers.DisplayPush(lists[l], Entry(xVal, LeadValue(packet, l)))
    decreases LeadCount - lead
  {
    if lead < LeadCount {
      var e := Entry(xVal, LeadValue(packet, lead));
      PushFromAt(lists[lead := Buffers.DisplayPush(lists[lead], e)], packet, xVal, lead + 1, l);
    }
  }

  /** One frame pushes onto every lead's list that lead's point, at the shared x. */
  lemma PushAllAt(lists: seq<seq<Entry>>, packet: Frame, xVal: int)
    requires |lists| == LeadCount
    ensures forall l :: 0 <= l < LeadCount ==>
      PushAll(lists, packet, xVal)[l] == Buffers.DisplayPush(lists[l], Entry(xVal, LeadValue(packet, l)))
  {
    forall l | 0 <= l < LeadCount
      ensures PushAll(lists, packet, xVal)[l] == Buffers.DisplayPush(lists[l], Entry(xVal, LeadValue(packet, l)))
    {
      PushFromAt(lists, packet, xVal, 0, l);
    }
  }

  /** The 12 display lists after `frames`: every frame pushed in turn, starting from empty lists. */
  ghost function Displays(frames: seq<Frame>): (d: seq<seq<Entry>>)
    ensures |d| == LeadCount
  {
    if frames == [] then seq(LeadCount, _ => [])
    else
      var n := |frames| - 1;
      PushAll(Displays(frames[..n]), frames[n], n)
  }

  /** The primary buffer after `frames`: every lead-0 sample pushed in turn. */
  ghost function Primary(frames: seq<Frame>): seq<int> {
    if frames == [] then []
    else
      var n := |frames| - 1;
      Buffers.PrimaryPush(Primary(frames[..n]), LeadValue(frames[n], 0))
  }

  /** Each display list holds the last 201 points of its lead, oldest first. */
  lemma {:induction false} DisplaysWindow(frames: seq<Frame>, lead: int)
    requires 0 <= lead < LeadCount
    ensures Displays(frames)[lead] == Buffers.Window(LeadEntries(frames, lead), Buffers.DisplayCapacity)
  {
    if frames != [] {
      var n := |frames| - 1;
      DisplaysWindow(frames[..n], lead);
      PushFromAt(Displays(frames[..n]), frames[n], n, 0, lead);
      Buffers.DisplayPushWindow(LeadEntries(frames[..n], lead), Entry(n, LeadValue(frames[n], lead)));
    }
  }

  /** The primary buffer holds the last 1500 lead-0 samples, oldest first. */
  lemma {:induction false} PrimaryWindow(frames: seq<Frame>)
    ensures Primary(frames) == Buffers.Window(LeadSamples(frames, 0), Buffers.PrimaryCapacity)
  {
    if frames != [] {
      var n := |frames| - 1;
      PrimaryWindow(frames[..n]);
      Buffers.PrimaryPushWindow(LeadSamples(frames[..n], 0), LeadValue(frames[n], 0));
    }
  }

  /**
   * After any history, each display list holds min(n, 201) points, and the
   * newest is the last frame's sample at x = n - 1.
   */
  lemma DisplayShape(frames: seq<Frame>, lead: int)
    requires 0 <= lead < LeadCount
    ensures |Displays(frames)[lead]| == if |frames| <= Buffers.DisplayCapacity then |frames| else Buffers.DisplayCapacity
    ensures frames != [] ==>
      Displays(frames)[lead][|Displays(frames)[lead]| - 1] == Entry(|frames| - 1, LeadValue(frames[|frames| - 1], lead))
  {
    DisplaysWindow(frames, lead);
    LeadEntriesLength(frames, lead);
    if frames != [] {
      LeadEntriesAt(frames, lead, |frames| - 1);
    }
  }

  /** The primary buffer holds min(n, 1500) samples, the newest being the last frame's lead 0. */
  lemma PrimaryShape(frames: seq<Frame>)
    ensures |Primary(frames)| == if |frames| <= Buffers.PrimaryCapacity then |frames| else Buffers.PrimaryCapacity
    ensures frames != [] ==> Primary(frames)[|Primary(frames)| - 1] == LeadValue(frames[|frames| - 1], 0)
  {
    PrimaryWindow(frames);
    LeadSamplesLength(frames, 0);
    if frames != [] {
      LeadSamplesAt(frames, 0, |frames| - 1);
    }
  }

  /** The frame a routing step hands on to `processFullPacket`, if any. */
  function Produced(r: (Reassembly.Pending, Option<seq<Byte>>)): seq<seq<Byte>> {
    if r.1.Some? then [r.1.value] else []
  }

  /**
   * The `for (lead in 0 until 12)` loop of `processFullPacket`, on the
   * lists it updates: decode each lead, push its point onto that lead's
   * display list by the display rule, and lead 0 onto the primary buffer.
   */
  method PushLeads(lists: seq<seq<Entry>>, buffer: seq<int>, packet: Frame, xVal: int)
    returns (lists': seq<seq<Entry>>, buffer': seq<int>)
    requires |lists| == LeadCount
    ensures lists' == PushAll(lists, packet, xVal)
    ensures buffer' == Buffers.PrimaryPush(buffer, LeadValue(packet, 0))
  {
    lists', buffer' := lists, buffer;
    var lead := 0;
    while lead < LeadCount
      invariant 0 <= lead <= LeadCount && |lists'| == LeadCount
      invariant PushFrom(lists', packet, xVal, lead) == PushAll(lists, packet, xVal)
      invariant buffer' == if lead == 0 then buffer else Buffers.PrimaryPush(buffer, LeadValue(packet, 0))
    {
      var ecgValue := LeadValue(packet, lead);
      var list := lists'[lead];
      if |list| > Buffers.DisplayTrimAbove {
        list := list[1..];
      }
      lists' := lists'[lead := list + [Entry(xVal, ecgValue)]];
      if lead == 0 {
        buffer' := buffer' + [ecgValue];
        if |buffer'| > Buffers.PrimaryCapacity {
          buffer' := buffer'[1..];
        }
      }
      lead := lead + 1;
    }
  }

  class EcgMonitor {
    /** `ecgData`: one display list per lead. */
    var ecgData: seq<seq<Entry>>
    /** `ecgBuffer`: lead-0 samples for detection. */
    var ecgBuffer: seq<int>
    var pendingEcgSamples: Reassembly.Pending
    var globalIndex: int
    var lastValidRR: Option<real>
    var currentBpm: real
    /** Every full frame processed so far, in order. */
    ghost var frames: seq<Frame>

    /**
     * The buffers are what pushing every processed frame in turn produces
     * (by DisplaysWindow and PrimaryWindow: the last 201 points of each lead
     * and the last 1500 lead-0 samples), and the counter is the number of frames.
     */
    ghost predicate BuffersValid()
      reads this`globalIndex, this`frames, this`ecgData, this`ecgBuffer
    {
      globalIndex == |frames| && ecgData == Displays(frames) && ecgBuffer == Primary(frames)
    }

    /**
     * The buffers follow the frames, every pending half is filed under its
     * key, and the BPM is derived from the last valid RR interval if there is one.
     */
    ghost predicate Valid()
      reads this
    {
      ReceiverValid() && Rate.Consistent(lastValidRR, currentBpm)
    }

    /** The part of Valid that the notification path maintains. */
    ghost predicate ReceiverValid()
      reads this`globalIndex, this`frames, this`ecgData, this`ecgBuffer, this`pendingEcgSamples
    {
      BuffersValid() && Reassembly.WellFormed(pendingEcgSamples)
    }

    constructor ()
      ensures Valid()
      ensures frames == [] && pendingEcgSamples == map[]
      ensures lastValidRR == None && currentBpm == 0.0
    {
      ecgData := seq(LeadCount, _ => []);
      ecgBuffer := [];
      pendingEcgSamples := map[];
      globalIndex := 0;
      lastValidRR := None;
      currentBpm := 0.0;
      frames := [];
    }

    /** `handleEcgNotification`: full frames are processed, half frames combined, the rest dropped. */
    method HandleNotification(packet: seq<Byte>)
      requires Valid()
      modifies this`globalIndex, this`frames, this`ecgData, this`ecgBuffer, this`pendingEcgSamples
      ensures Valid()
      ensures pendingEcgSamples == Reassembly.Route(old(pendingEcgSamples), packet).0
      ensures frames == old(frames) + Produced(Reassembly.Route(old(pendingEcgSamples), packet))
      ensures lastValidRR == old(lastValidRR) && currentBpm == old(currentBpm)
      ensures |packet| != FullFrameSize && |packet| != HalfFrameSize ==>
        ecgData == old(ecgData) && ecgBuffer == old(ecgBuffer) && globalIndex == old(globalIndex)
    {
      if |packet| == FullFrameSize {
        ProcessFullPacket(packet);
      } else if |packet| == HalfFrameSize {
        CombineHalfPacket(packet);
      }
    }

    /** `combineHalfPacket`: store a first half, or complete and process the frame. */
    method CombineHalfPacket(packet: seq<Byte>)
      requires ReceiverValid() && |packet| == HalfFrameSize
      modifies this`globalIndex, this`frames, this`ecgData, this`ecgBuffer, this`pendingEcgSamples
      ensures ReceiverValid()
      ensures pendingEcgSamples == Reassembly.Combine(old(pendingEcgSamples), packet).0
      ensures frames == old(frames) + Produced(Reassembly.Combine(old(pendingEcgSamples), packet))
    {
      var sampleIdx := packet[0] as int;
      if sampleIdx in pendingEcgSamples {
        var firstHalf := pendingEcgSamples[sampleIdx];
        pendingEcgSamples := pendingEcgSamples - {sampleIdx};
        assert |firstHalf| == HalfFrameSize;
        var fullPacket: Frame := firstHalf + packet[1..];
        ProcessFullPacket(fullPacket);
      } else {
        pendingEcgSamples := pendingEcgSamples[sampleIdx := packet];
      }
    }

    /**
     * `processFullPacket` (decoding and buffer updates): the frame takes the
     * next x; for each lead in turn its point goes onto its display list by
     * the display rule, and lead 0 also onto the primary buffer.
     */
    method ProcessFullPacket(packet: Frame)
      requires BuffersValid()
      modifies this`globalIndex, this`frames, this`ecgData, this`ecgBuffer
      ensures BuffersValid()
      ensures frames == old(frames) + [packet]
      ensures globalIndex == old(globalIndex) + 1
      ensures ecgData == PushAll(old(ecgData), packet, old(globalIndex))
      ensures ecgBuffer == Buffers.PrimaryPush(old(ecgBuffer), LeadValue(packet, 0))
    {
      var xVal := globalIndex;
      globalIndex := globalIndex + 1;
      ecgData, ecgBuffer := PushLeads(ecgData, ecgBuffer, packet, xVal);
      assert (frames + [packet])[..|frames|] == frames;
      frames := frames + [packet];
    }

    /**
     * `computeBpmFromBuffer` from the detected peaks: refresh `lastValidRR`
     * from the surviving RR intervals, then the BPM if an interval is known.
     */
    method ComputeBpm(peaks: seq<int>)
      requires Valid()
      modifies this`lastValidRR, this`currentBpm
      ensures Valid()
      ensures lastValidRR == Rate.NextRR(old(lastValidRR), peaks)
      ensures currentBpm == if lastValidRR.Some? then Rate.Bpm(lastValidRR.value) else old(currentBpm)
      ensures ecgBuffer == old(ecgBuffer) && pendingEcgSamples == old(pendingEcgSamples)
      ensures globalIndex == old(globalIndex) && frames == old(frames)
    {
      if |peaks| >= 2 {
        var rrIntervals := Rate.RRIntervals(peaks);
        lastValidRR := if rrIntervals != [] then Some(Rate.Mean(rrIntervals)) else lastValidRR;
      }
      assert lastValidRR == Rate.NextRR(old(lastValidRR), peaks);
      if lastValidRR.None? {
        return;
      }
      currentBpm := Rate.Bpm(lastValidRR.value);
    }
  }
}
