/**
 * The byte layout of the ECG notifications: signed Kotlin bytes, the 25-byte
 * full frame and the big-endian two's-complement 16-bit lead samples in it.
 */
module Wire {
  /** A Kotlin `Byte`: a signed 8-bit value. */
  type Byte = x: int | -128 <= x < 128

  /** A full frame: one key byte followed by 12 two-byte lead samples. */
  const FullFrameSize := 25
  /** A half frame: one key byte followed by 12 payload bytes. */
  const HalfFrameSize := 13
  const LeadCount := 12

  /** A complete frame, as `processFullPacket` receives it. */
  type Frame = f: seq<Byte> | |f| == FullFrameSize witness seq(FullFrameSize, _ => 0)

  /** `b.toInt() and 0xFF`: the same eight bits read as an unsigned value. */
  function Unsigned(b: Byte): (u: int)
    ensures 0 <= u < 256
    ensures (u - b) % 256 == 0
  {
    if b < 0 then b + 256 else b
  }

  /** Kotlin's `Int.toShort()`: keep the low 16 bits, read them as two's complement. */
  function ToShort(v: int): (s: int)
    ensures -32768 <= s < 32768
    ensures (s - v) % 65536 == 0
  {
    var m := v % 65536;
    if m >= 32768 then m - 65536 else m
  }

  /**
   * `((high shl 8) or low).toShort()` with `high` and `low` masked to 0..255;
   * the two masked bytes occupy disjoint bits, so `or` is addition here.
   * The result is the signed high byte scaled by 256 plus the unsigned low byte.
   */
  function Decode16(high: Byte, low: Byte): (v: int)
    ensures -32768 <= v < 32768
    ensures v == high * 256 + Unsigned(low)
  {
    ToShort(Unsigned(high) * 256 + Unsigned(low))
  }

  /** The sample of lead `lead` in a full frame: bytes `1 + 2*lead` and `2 + 2*lead`. */
  function LeadValue(frame: seq<Byte>, lead: int): (v: int)
    requires |frame| == FullFrameSize
    requires 0 <= lead < LeadCount
    ensures -32768 <= v < 32768
    ensures v == frame[1 + 2 * lead] * 256 + Unsigned(frame[2 + 2 * lead])
  {
    Decode16(frame[1 + 2 * lead], frame[2 + 2 * lead])
  }

  /** Byte 0 of a frame (its key) takes no part in any lead value. */
  lemma LeadIgnoresKeyByte(f: seq<Byte>, g: seq<Byte>, lead: int)
    requires |f| == FullFrameSize && |g| == FullFrameSize
    requires 0 <= lead < LeadCount
    requires f[1..] == g[1..]
    ensures LeadValue(f, lead) == LeadValue(g, lead)
  {
    assert f[1 + 2 * lead] == f[1..][2 * lead] == g[1..][2 * lead] == g[1 + 2 * lead];
    assert f[2 + 2 * lead] == f[1..][1 + 2 * lead] == g[1..][1 + 2 * lead] == g[2 + 2 * lead];
  }

  /** The sender's side: a 16-bit sample as a big-endian pair of signed bytes. */
  function Encode16(v: int): (r: (Byte, Byte))
    requires -32768 <= v < 32768
  {
    var lo := v % 256;
    (v / 256, if lo >= 128 then lo - 256 else lo)
  }

  lemma {:induction false} DecodeEncode(v: int)
    requires -32768 <= v < 32768
    ensures Decode16(Encode16(v).0, Encode16(v).1) == v
  {
    var (h, l) := Encode16(v);
    assert Unsigned(l) == v % 256;
  }

  lemma {:induction false} EncodeDecode(high: Byte, low: Byte)
    ensures Encode16(Decode16(high, low)) == (high, low)
  {
    var v := Decode16(high, low);
    assert v == high * 256 + Unsigned(low);
    assert v / 256 == high && v % 256 == Unsigned(low);
  }

  /** The sender's side: a full frame carrying `key` and one sample per lead. */
  function EncodeFrame(key: Byte, samples: seq<int>): (f: seq<Byte>)
    requires |samples| == LeadCount
    requires forall l :: 0 <= l < LeadCount ==> -32768 <= samples[l] < 32768
    ensures |f| == FullFrameSize && f[0] == key
  {
    seq(FullFrameSize, i requires 0 <= i < FullFrameSize =>
      if i == 0 then key
      else if i % 2 == 1 then Encode16(samples[(i - 1) / 2]).0
      else Encode16(samples[(i - 1) / 2]).1)
  }

  /** Decoding a frame gives back every sample that was encoded into it. */
  lemma {:induction false} DecodeEncodeFrame(key: Byte, samples: seq<int>, lead: int)
    requires |samples| == LeadCount
    requires forall l :: 0 <= l < LeadCount ==> -32768 <= samples[l] < 32768
    requires 0 <= lead < LeadCount
    ensures LeadValue(EncodeFrame(key, samples), lead) == samples[lead]
  {
    var f := EncodeFrame(key, samples);
    assert (1 + 2 * lead - 1) / 2 == lead && (2 + 2 * lead - 1) / 2 == lead;
    assert f[1 + 2 * lead] == Encode16(samples[lead]).0;
    assert f[2 + 2 * lead] == Encode16(samples[lead]).1;
    DecodeEncode(samples[lead]);
  }
}
