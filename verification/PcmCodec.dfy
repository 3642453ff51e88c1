/** Interleaved little-endian PCM of 16, 24 or 32 bits: what the tone writer stores and the capture side reads back. */
module PcmCodec {
  import opened Words
  import opened Types

  type i64 = x: int | -0x8000_0000_0000_0000 <= x < 0x8000_0000_0000_0000

  predicate Width(bits: u8) {
    bits in {16, 24, 32}
  }

  /** The number of values a sample of this width can take. */
  function Range(bits: u8): (r: int)
    requires Width(bits)
    ensures r > 0 && r % 2 == 0
  {
    if bits == 16 then 0x1_0000 else if bits == 24 then 0x100_0000 else 0x1_0000_0000
  }

  predicate InRange(x: int, bits: u8)
    requires Width(bits)
  {
    -(Range(bits) / 2) <= x < Range(bits) / 2
  }

  // ---------------------------------------------------------------------------
  // One sample
  // ---------------------------------------------------------------------------

  /** The low bytes of `integer.to_le_bytes()`. */
  function EncodeSample(x: i64, bits: u8): (s: seq<u8>)
    requires Width(bits)
    ensures |s| == bits / 8
  {
    Le(x, 8)[..bits / 8]
  }

  /** Reinterpreting an unsigned word of `range` values as two's complement. */
  function Signed(n: int, range: int): (r: int) {
    if n < range / 2 then n else n - range
  }

  /** The three arms of the decoder; the 24-bit arm extends the sign by hand. */
  function DecodeSample(s: seq<u8>, bits: u8): (x: int)
    requires Width(bits) && |s| == bits / 8
  {
    if bits == 16 then Signed(FromLe(s), 0x1_0000)
    else if bits == 24 then Signed(FromLe(s + [SignByte(s[2])]), 0x1_0000_0000)
    else Signed(FromLe(s), 0x1_0000_0000)
  }

  function SignByte(top: u8): (b: u8) {
    if top < 0x80 then 0 else 0xff
  }

  lemma {:induction false} LePrefix(n: int, width: nat, k: nat)
    requires k <= width
    ensures Le(n, width)[..k] == Le(n, k)
    decreases width
  {
    if k > 0 {
      LePrefix(n / 256, width - 1, k - 1);
      assert Le(n, width)[..k] == [n % 256] + Le(n / 256, width - 1)[..k - 1];
    }
  }

  lemma {:induction false} FromLeSnoc(s: seq<u8>, top: u8)
    ensures FromLe(s + [top]) == FromLe(s) + Pow256(|s|) * top
  {
    if s == [] {
      assert FromLe([top]) == top;
    } else {
      FromLeSnoc(s[1..], top);
      assert (s + [top])[1..] == s[1..] + [top];
      assert 256 * (Pow256(|s| - 1) * top) == Pow256(|s|) * top;
    }
  }

  lemma PowersOf256()
    ensures Pow256(2) == 0x1_0000 && Pow256(3) == 0x100_0000 && Pow256(4) == 0x1_0000_0000
  {
    assert Pow256(1) == 0x100;
  }

  /** A three-byte string by its low half and its top byte, with one more byte on top. */
  lemma ThreeBytes(s: seq<u8>, sign: u8) returns (low: nat)
    requires |s| == 3
    ensures low < 0x1_0000
    ensures FromLe(s) == low + 0x1_0000 * (s[2] as int)
    ensures FromLe(s + [sign]) == FromLe(s) + 0x100_0000 * (sign as int)
  {
    PowersOf256();
    low := FromLe(s[..2]);
    FromLeSnoc(s[..2], s[2]);
    assert s[..2] + [s[2]] == s;
    FromLeSnoc(s, sign);
  }

  /** Extending the sign byte of 24 bits to 32 is the same as reading 24 bits as two's complement. */
  lemma SignExtension(s: seq<u8>)
    requires |s| == 3
    ensures Signed(FromLe(s + [SignByte(s[2])]), 0x1_0000_0000) == Signed(FromLe(s), 0x100_0000)
  {
    var low := ThreeBytes(s, SignByte(s[2]));
    var n := FromLe(s);
    assert s[2] < 0x80 <==> n < 0x80_0000;
  }

  /** All three arms read two's complement. */
  lemma DecodeIsSigned(s: seq<u8>, bits: u8)
    requires Width(bits) && |s| == bits / 8
    ensures DecodeSample(s, bits) == Signed(FromLe(s), Range(bits))
  {
    if bits == 24 {
      SignExtension(s);
    }
  }

  lemma SignedResidue(x: int, range: int)
    requires range > 0 && range % 2 == 0
    ensures var y := Signed(x % range, range);
            -(range / 2) <= y < range / 2 && (x == y <==> -(range / 2) <= x < range / 2)
  {
    var y := Signed(x % range, range);
    var e := if x % range < range / 2 then x / range else x / range + 1;
    assert x == range * (x / range) + x % range;
    assert x - y == range * e;
    if -(range / 2) <= x < range / 2 {
      SmallMultiple(range, e);
    }
  }

  /** A sample survives the trip exactly when it fits the width. */
  lemma RoundTripIff(x: i64, bits: u8)
    requires Width(bits)
    ensures DecodeSample(EncodeSample(x, bits), bits) == x <==> InRange(x, bits)
  {
    var w := bits / 8;
    PowersOf256();
    LePrefix(x, 8, w);
    LeTruncates(x, w);
    DecodeIsSigned(EncodeSample(x, bits), bits);
    SignedResidue(x, Range(bits));
  }

  // ---------------------------------------------------------------------------
  // Whole buffers, as sequences of encoded samples
  // ---------------------------------------------------------------------------

  function Flat(cs: seq<seq<u8>>): (s: seq<u8>) {
    if cs == [] then [] else cs[0] + Flat(cs[1..])
  }

  lemma {:induction false} FlatAppend(a: seq<seq<u8>>, b: seq<seq<u8>>)
    ensures Flat(a + b) == Flat(a) + Flat(b)
  {
    if a == [] {
      assert a + b == b;
    } else {
      FlatAppend(a[1..], b);
      var ab := a + b;
      assert ab[0] == a[0] && ab[1..] == a[1..] + b;
      assert a[0] + (Flat(a[1..]) + Flat(b)) == (a[0] + Flat(a[1..])) + Flat(b);
    }
  }

  /** One encoded sample on every channel. */
  function Copies(one: seq<u8>, channels: nat): (r: seq<seq<u8>>)
    ensures |r| == channels && forall i | 0 <= i < channels :: r[i] == one
  {
    seq(channels, _ => one)
  }

  /** Every encoded sample once per channel, frame after frame. */
  function Spread(encoded: seq<seq<u8>>, channels: nat): (r: seq<seq<u8>>) {
    if encoded == [] then [] else Spread(encoded[..|encoded| - 1], channels) + Copies(encoded[|encoded| - 1], channels)
  }

  /** The interleaved buffer. */
  function Interleaved(encoded: seq<seq<u8>>, channels: nat): (s: seq<u8>) {
    Flat(Spread(encoded, channels))
  }

  /** `chunks_exact(width)`; a short remainder is ignored. */
  function Chunks(bytes: seq<u8>, width: nat): (r: seq<seq<u8>>)
    requires 0 < width
    ensures AllOf(r, width)
    decreases |bytes|
  {
    if |bytes| < width then [] else [bytes[..width]] + Chunks(bytes[width..], width)
  }

  predicate AllOf(cs: seq<seq<u8>>, width: nat) {
    forall i | 0 <= i < |cs| :: |cs[i]| == width
  }

  /** Cutting a buffer of equal pieces gives the pieces back. */
  lemma {:induction false} ChunksOfFlat(cs: seq<seq<u8>>, width: nat)
    requires 0 < width && AllOf(cs, width)
    ensures Chunks(Flat(cs), width) == cs
  {
    if cs != [] {
      ChunksOfFlat(cs[1..], width);
      var s := Flat(cs);
      assert s[..width] == cs[0] && s[width..] == Flat(cs[1..]);
    }
  }

  function EncodeAll(samples: seq<i64>, bits: u8): (r: seq<seq<u8>>)
    requires Width(bits)
    ensures |r| == |samples| && forall i | 0 <= i < |samples| :: r[i] == EncodeSample(samples[i], bits)
  {
    seq(|samples|, i requires 0 <= i < |samples| => EncodeSample(samples[i], bits))
  }

  function DecodeEach(chunks: seq<seq<u8>>, bits: u8): (r: seq<int>)
    requires Width(bits) && AllOf(chunks, bits / 8)
    ensures |r| == |chunks|
  {
    if chunks == [] then []
    else DecodeEach(chunks[..|chunks| - 1], bits) + [DecodeSample(chunks[|chunks| - 1], bits)]
  }

  /** `decode_samples`. */
  function DecodeAll(bytes: seq<u8>, bits: u8): (r: seq<int>)
    requires Width(bits)
  {
    DecodeEach(Chunks(bytes, bits / 8), bits)
  }

  /** Every sample once per channel. */
  function PerChannel(samples: seq<i64>, channels: nat): (r: seq<int>) {
    if samples == [] then []
    else PerChannel(samples[..|samples| - 1], channels) + seq(channels, _ => samples[|samples| - 1])
  }

  /** `more` further copies of one encoded sample decode to as many copies of its value. */
  lemma {:induction false} DecodeCopies(before: seq<seq<u8>>, one: seq<u8>, x: int, more: nat, bits: u8)
    requires Width(bits) && AllOf(before, bits / 8) && |one| == bits / 8 && DecodeSample(one, bits) == x
    ensures AllOf(before + Copies(one, more), bits / 8)
    ensures DecodeEach(before + Copies(one, more), bits) == DecodeEach(before, bits) + seq(more, _ => x)
  {
    if more == 0 {
      assert before + Copies(one, 0) == before;
    } else {
      var all := before + Copies(one, more);
      DecodeCopies(before, one, x, more - 1, bits);
      assert all[..|all| - 1] == before + Copies(one, more - 1);
      var shorter := seq(more - 1, _ => x);
      assert seq(more, _ => x) == shorter + [x];
    }
  }

  lemma {:induction false} DecodeSpread(samples: seq<i64>, channels: nat, bits: u8)
    requires Width(bits) && forall i | 0 <= i < |samples| :: InRange(samples[i], bits)
    ensures AllOf(Spread(EncodeAll(samples, bits), channels), bits / 8)
    ensures DecodeEach(Spread(EncodeAll(samples, bits), channels), bits) == PerChannel(samples, channels)
  {
    if samples != [] {
      var init, last := samples[..|samples| - 1], samples[|samples| - 1];
      DecodeSpread(init, channels, bits);
      assert EncodeAll(samples, bits)[..|init|] == EncodeAll(init, bits);
      RoundTripIff(last, bits);
      DecodeCopies(Spread(EncodeAll(init, bits), channels), EncodeSample(last, bits), last, channels, bits);
    }
  }

  /** Decoding what was written returns each in-range sample once per channel, for any number of frames and channels. */
  lemma DecodeWritten(samples: seq<i64>, channels: nat, bits: u8)
    requires Width(bits) && forall i | 0 <= i < |samples| :: InRange(samples[i], bits)
    ensures DecodeAll(Interleaved(EncodeAll(samples, bits), channels), bits) == PerChannel(samples, channels)
  {
    DecodeSpread(samples, channels, bits);
    ChunksOfFlat(Spread(EncodeAll(samples, bits), channels), bits / 8);
  }

  // ---------------------------------------------------------------------------
  // The writers
  // ---------------------------------------------------------------------------

  /** The offset computation of `write_sample`, against the running position. */
  lemma SampleOffset(frame: nat, channels: nat, channel: nat, width: nat)
    ensures (frame * channels + channel) * width == frame * (channels * width) + channel * width
  {
  }

  /** Copy one encoded sample to `offset`. */
  method CopyInto(buffer: array<u8>, offset: nat, encoded: seq<u8>)
    requires offset + |encoded| <= buffer.Length
    modifies buffer
    ensures buffer[..] == old(buffer[..offset]) + encoded + old(buffer[offset + |encoded|..])
  {
    ghost var was := buffer[..];
    var i := 0;
    while i < |encoded|
      invariant 0 <= i <= |encoded|
      invariant forall k | 0 <= k < buffer.Length ::
                  buffer[k] == if offset <= k < offset + i then encoded[k - offset] else was[k]
    {
      buffer[offset + i] := encoded[i];
      i := i + 1;
    }
  }

  lemma AppendAt(before: seq<u8>, was: seq<u8>, after: seq<u8>, at: nat, here: nat, done: seq<u8>, one: seq<u8>)
    requires at + |done| == here && here + |one| <= |was|
    requires before == was[..at] + done + was[here..] && after == before[..here] + one + before[here + |one|..]
    ensures after == was[..at] + (done + one) + was[here + |one|..]
  {
    assert before[..here] == was[..at] + done;
    assert before[here + |one|..] == was[here + |one|..];
  }

  lemma {:induction false} CopiesGrow(one: seq<u8>, n: nat)
    ensures Flat(Copies(one, n + 1)) == Flat(Copies(one, n)) + one
    ensures |Flat(Copies(one, n))| == n * |one|
  {
    assert Copies(one, n + 1) == Copies(one, n) + [one];
    FlatAppend(Copies(one, n), [one]);
    assert Flat([one]) == one + Flat([one][1..]);
    if n > 0 {
      CopiesGrow(one, n - 1);
      assert n * |one| == (n - 1) * |one| + |one|;
    }
  }

  /** The channel loop of `write_sample`, for a sample already encoded. */
  method WriteEncoded(buffer: array<u8>, frame: nat, channels: nat, encoded: seq<u8>, ghost at: nat)
    requires at == frame * (channels * |encoded|) && at + channels * |encoded| <= buffer.Length
    modifies buffer
    ensures buffer[..] == old(buffer[..at]) + Flat(Copies(encoded, channels)) + old(buffer[at + channels * |encoded|..])
  {
    var width := |encoded|;
    ghost var was := buffer[..];
    var channel: nat := 0;
    ghost var here := at;
    while channel < channels
      invariant 0 <= channel <= channels && here == at + channel * width && here <= buffer.Length
      invariant buffer[..] == was[..at] + Flat(Copies(encoded, channel)) + was[here..]
    {
      var offset := (frame * channels + channel) * width;
      SampleOffset(frame, channels, channel, width);
      NextFrame(channel, channels, width);
      CopiesGrow(encoded, channel);
      ghost var before := buffer[..];
      CopyInto(buffer, offset, encoded);
      AppendAt(before, was, buffer[..], at, here, Flat(Copies(encoded, channel)), encoded);
      channel, here := channel + 1, here + width;
    }
  }

  /** `write_sample`: one sample on each channel of one frame. */
  method WriteSample(buffer: array<u8>, frame: nat, channels: u8, bits: u8, x: i64, ghost one: seq<u8>, ghost at: nat)
    requires Width(bits) && one == EncodeSample(x, bits)
    requires at == frame * (channels * |one|) && at + channels * |one| <= buffer.Length
    modifies buffer
    ensures buffer[..] == old(buffer[..at]) + Flat(Copies(one, channels)) + old(buffer[at + channels * |one|..])
  {
    WriteEncoded(buffer, frame, channels, EncodeSample(x, bits), at);
  }

  lemma NextFrame(frame: nat, frames: nat, block: nat)
    requires frame < frames
    ensures (frame + 1) * block == frame * block + block <= frames * block
  {
    MulMono(frame + 1, frames, block);
  }

  lemma InterleavedGrow(encoded: seq<seq<u8>>, channels: nat, n: nat)
    requires n < |encoded|
    ensures Interleaved(encoded[..n + 1], channels)
         == Interleaved(encoded[..n], channels) + Flat(Copies(encoded[n], channels))
    ensures |Flat(Copies(encoded[n], channels))| == channels * |encoded[n]|
  {
    assert encoded[..n + 1][..n] == encoded[..n];
    FlatAppend(Spread(encoded[..n], channels), Copies(encoded[n], channels));
    CopiesGrow(encoded[n], channels);
  }

  lemma FilledFurther(before: seq<u8>, after: seq<u8>, was: seq<u8>, encoded: seq<seq<u8>>, channels: nat, n: nat)
    requires n < |encoded|
    requires var done, next := Interleaved(encoded[..n], channels), Flat(Copies(encoded[n], channels));
             && |done| + channels * |encoded[n]| <= |was| == |before| && before == done + was[|done|..]
             && after == before[..|done|] + next + before[|done| + channels * |encoded[n]|..]
    ensures var done := Interleaved(encoded[..n + 1], channels);
            |done| == |Interleaved(encoded[..n], channels)| + channels * |encoded[n]| && after == done + was[|done|..]
  {
    InterleavedGrow(encoded, channels, n);
    var done, next := Interleaved(encoded[..n], channels), Flat(Copies(encoded[n], channels));
    assert before == was[..0] + done + was[|done|..];
    AppendAt(before, was, after, 0, |done|, done, next);
  }

  /** One turn of the frame loop: the filled part grows by one frame. */
  method WriteNext(buffer: array<u8>, frame: nat, channels: u8, bits: u8, x: i64,
                   ghost encoded: seq<seq<u8>>, ghost was: seq<u8>)
    requires Width(bits) && frame < |encoded| && encoded[frame] == EncodeSample(x, bits)
    requires var done := Interleaved(encoded[..frame], channels);
             && |done| == frame * (channels * |encoded[frame]|)
             && |done| + channels * |encoded[frame]| <= buffer.Length == |was| && buffer[..] == done + was[|done|..]
    modifies buffer
    ensures var done := Interleaved(encoded[..frame + 1], channels);
            && |done| == |Interleaved(encoded[..frame], channels)| + channels * |encoded[frame]| <= buffer.Length
            && buffer[..] == done + was[|done|..]
  {
    ghost var before := buffer[..];
    WriteSample(buffer, frame, channels, bits, x, encoded[frame], |Interleaved(encoded[..frame], channels)|);
    FilledFurther(before, buffer[..], was, encoded, channels, frame);
  }

  /** The frame loop of `write_tone`: the buffer of one interval is filled exactly. */
  method WriteInterval(buffer: array<u8>, samples: seq<i64>, channels: u8, bits: u8)
    requires Width(bits) && buffer.Length == |samples| * (channels * (bits / 8))
    modifies buffer
    ensures buffer[..] == Interleaved(EncodeAll(samples, bits), channels)
  {
    ghost var block: nat := channels * (bits / 8);
    ghost var encoded := EncodeAll(samples, bits);
    ghost var was := buffer[..];
    var frame := 0;
    while frame < |samples|
      invariant 0 <= frame <= |samples|
      invariant |Interleaved(encoded[..frame], channels)| == frame * block <= buffer.Length
      invariant buffer[..] == Interleaved(encoded[..frame], channels) + was[frame * block..]
    {
      NextFrame(frame, |samples|, block);
      WriteNext(buffer, frame, channels, bits, samples[frame], encoded, was);
      frame := frame + 1;
    }
    assert encoded[..frame] == encoded;
  }

  /** `frames_per_interval`: the frames of one interval fill its bytes with nothing left over. */
  lemma IntervalIsWholeFrames(c: PcmConfiguration)
    requires c.BytesPerInterval().Some?
    ensures var b := c.BytesPerInterval().value;
            var frames := b / c.channels / (c.bitsPerSample / 8);
            frames * 1_000_000 == c.sampleRateHz * c.dataIntervalUs
            && frames * (c.channels * (c.bitsPerSample / 8)) == b
  {
    var units := c.sampleRateHz * c.dataIntervalUs / 1_000_000;
    var w := c.bitsPerSample / 8;
    var b := c.BytesPerInterval().value;
    assert b == units * c.channels * w;
    assert units * c.channels * w == c.channels * (units * w);
    UniqueRemainder(b, c.channels, units * w, 0);
    UniqueRemainder(units * w, w, units, 0);
    assert units * (c.channels * w) == b;
  }
}
