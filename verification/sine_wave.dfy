/** The byte accounting of the sine-wave stream that plays each note
    (pkg/sound/sound_libasound.go): bytes per sample of each format, the
    stream length `newSineWave` derives from a duration, and the way
    `sineWave.Read` hands out bytes, pads odd-sized reads to whole 4-byte
    groups and keeps the excess in `remaining`.

    The samples themselves are computed in floating point; here they are any
    bytes (`Synth`). A Go panic is a `Failure`. */
module SineWave {
  import opened FixedWidth
  import opened Results

  const FormatFloat32LE: int := 0
  const FormatUnsignedInt8: int := 1
  const FormatSignedInt16LE: int := 2

  /** `time.Second`, in nanoseconds. */
  const Second: int := 1_000_000_000

  /** The longest stream `newSineWave` can make: the byte count is an int64
      divided by `time.Second`. */
  const MaxLength: int := (TWO_63 - 1) / Second

  /** The run-time panics these functions can raise. */
  datatype Panic =
    | UnexpectedFormat(format: int)  // formatByteLength's default case
    | SliceBoundsOutOfRange          // buf[:s.length-s.pos] with a negative bound
    | IntegerDivideByZero            // s.pos / int64(num) with num == 0
    | IndexOutOfRange                // a sample loop writing past the end of buf

  predicate KnownFormat(format: int) {
    format == FormatFloat32LE || format == FormatUnsignedInt8 || format == FormatSignedInt16LE
  }

  /** `formatByteLength`: bytes per sample — a 32-bit float, an 8-bit or a
      16-bit integer — and a panic for any other format. */
  function FormatByteLength(format: int): (r: Result<int, Panic>)
    ensures r.Success? <==> KnownFormat(format)
    ensures r.Failure? ==> r.error == UnexpectedFormat(format)
    ensures format == FormatFloat32LE ==> r == Success(4)
    ensures format == FormatUnsignedInt8 ==> r == Success(1)
    ensures format == FormatSignedInt16LE ==> r == Success(2)
  {
    if format == FormatFloat32LE then Success(4)
    else if format == FormatUnsignedInt8 then Success(1)
    else if format == FormatSignedInt16LE then Success(2)
    else Failure(UnexpectedFormat(format))
  }

  /** The `SineWavePlayer` settings the stream uses (Go `int`s). */
  datatype Player = Player(sampleRate: i64, channelCount: i64, format: i64)

  /** A `sineWave`: its length and read position in bytes, the generated
      bytes not yet handed out, and the player settings it copies. The
      frequency only shapes the samples and is not kept. */
  datatype Wave = Wave(length: i64, pos: i64, remaining: seq<byte>,
                       channelCount: i64, format: i64, sampleRate: i64)

  // ---------------------------------------------------------------------
  // newSineWave
  // ---------------------------------------------------------------------

  /** The product `channels * bytesPerSample * sampleRate * duration`,
      multiplied left to right in int64 with wrap-around. */
  function WrappedProduct(sp: Player, bytesPerSample: int, duration: i64): (p: i64)
    ensures p == WrapI64(sp.channelCount * bytesPerSample * sp.sampleRate * duration)
  {
    var a := sp.channelCount * bytesPerSample;
    var b := WrapI64(a) * sp.sampleRate;
    var c := WrapI64(b) * duration;
    WrapI64Mul(a, sp.sampleRate);
    WrapI64Mul(a * sp.sampleRate, duration);
    WrapI64(c)
  }

  /** Rounds toward zero to a multiple of 4 (`l / 4 * 4`). */
  function RoundTo4(x: int): (l: int)
    ensures l % 4 == 0
    ensures 0 <= x ==> 0 <= l <= x < l + 4
    ensures x < 0 ==> l - 4 < x <= l <= 0
  {
    Quot(x, 4) * 4
  }

  /** `newSineWave`: a stream at position 0 whose length is the byte count
      of `duration` (nanoseconds), rounded down to whole 4-byte groups. */
  function NewSineWave(sp: Player, duration: i64): (r: Result<Wave, Panic>)
    ensures r.Failure? <==> !KnownFormat(sp.format)
    ensures r.Success? ==>
              var w := r.value;
              w.pos == 0 && w.remaining == [] && w.length % 4 == 0
              && w.channelCount == sp.channelCount && w.format == sp.format
              && w.sampleRate == sp.sampleRate
    // Without overflow: the largest multiple of 4 not above the exact count.
    ensures r.Success? ==>
              var exact := sp.channelCount * FormatByteLength(sp.format).value * sp.sampleRate * duration;
              0 <= exact < TWO_63 ==>
                0 <= r.value.length && r.value.length * Second <= exact < (r.value.length + 4) * Second
    // A product below 0 rounds toward zero: the smallest multiple of 4 not
    // below the exact count.
    ensures r.Success? ==>
              var exact := sp.channelCount * FormatByteLength(sp.format).value * sp.sampleRate * duration;
              -TWO_63 <= exact < 0 ==>
                r.value.length <= 0 && (r.value.length - 4) * Second < exact <= r.value.length * Second
    // No stream is longer than MaxLength.
    ensures r.Success? ==> r.value.length <= MaxLength
    ensures r.Success? && r.value.length >= 0 ==> Valid(r.value)
  {
    var bytesPerSample :- FormatByteLength(sp.format);
    var p := WrappedProduct(sp, bytesPerSample, duration);
    var l := Quot(p, Second);
    LengthFits(p);
    Success(Wave(RoundTo4(l), 0, [], sp.channelCount, sp.format, sp.sampleRate))
  }

  /** An int64 byte count divided by `time.Second` is at most MaxLength. */
  lemma LengthFits(p: i64)
    ensures Quot(p, Second) <= MaxLength
  {
    var q := Quot(p, Second);
    assert q * Second <= TWO_63 - 1;
  }

  // ---------------------------------------------------------------------
  // sineWave.Read
  // ---------------------------------------------------------------------

  /** The bytes the sample loops leave in a buffer of `n` bytes when the
      stream is at byte `pos`: any bytes, but exactly `n` of them. */
  type Synth = f: (int, nat) -> seq<byte> | forall pos: int, n: nat :: |f(pos, n)| == n
    witness (pos: int, n: nat) => seq(n, _ => 0)

  /** A stream as `newSineWave` makes it and `Read` keeps it: the position
      within the length, both on 4-byte boundaries, no longer than
      `newSineWave` can make it, and fewer than 4 bytes held back. */
  predicate Valid(s: Wave) {
    0 <= s.pos <= s.length <= MaxLength && s.pos % 4 == 0 && s.length % 4 == 0
    && |s.remaining| < 4
  }

  /** On a valid stream `s.pos + int64(len(buf))` does not wrap for any
      buffer shorter than 2^63 − MaxLength bytes, so `Read` takes it exact. */
  lemma PositionSumFits(s: Wave, size: nat)
    requires Valid(s) && size < TWO_63 - MaxLength
    ensures WrapI64(s.pos + size) == s.pos + size
  {
  }

  /** `num`, the bytes of one frame: bytes per sample times channels, in
      int64 with wrap-around. */
  function FrameSize(bytesPerSample: int, channelCount: int): (num: i64)
    ensures (bytesPerSample * channelCount - num) % TWO_64 == 0
    ensures -TWO_63 <= bytesPerSample * channelCount < TWO_63 ==> num == bytesPerSample * channelCount
  {
    WrapI64(bytesPerSample * channelCount)
  }

  /** The sample loops run over frames (`num > 0`) and channels
      (`channelCount > 0`), but `num` has wrapped and is smaller than a frame
      really is, so the first frame already writes past `num` bytes. */
  predicate FrameWrapped(bytesPerSample: int, channelCount: int) {
    var num := FrameSize(bytesPerSample, channelCount);
    0 < num && 0 < channelCount && num != bytesPerSample * channelCount
  }

  /** The player settings let a read generate samples of any length without
      panicking: a known format, a non-zero frame size, and a frame size that
      has not wrapped. */
  predicate Playable(s: Wave) {
    KnownFormat(s.format)
    && FrameSize(FormatByteLength(s.format).value, s.channelCount) != 0
    && !FrameWrapped(FormatByteLength(s.format).value, s.channelCount)
  }

  /** One call `Read(buf)`: the stream afterwards, the bytes copied into
      `buf` (so `n` is `|data|`), and whether `io.EOF` is returned. */
  datatype Chunk = Chunk(wave: Wave, data: seq<byte>, eof: bool)

  function Min(a: int, b: int): int {
    if a <= b then a else b
  }

  /** The first branch of `Read`: hand out held-back bytes from the front. */
  function ReadRemaining(s: Wave, size: nat): (c: Chunk)
    requires |s.remaining| > 0
    ensures !c.eof && |c.data| == Min(size, |s.remaining|)
    ensures c.data + c.wave.remaining == s.remaining
    ensures c.wave == s.(remaining := c.wave.remaining)
  {
    var n := Min(size, |s.remaining|);
    assert s.remaining[..n] + s.remaining[n..] == s.remaining;
    Chunk(s.(remaining := s.remaining[n..]), s.remaining[..n], false)
  }

  /** Bytes needed to bring `n` up to a whole number of 4-byte groups. */
  function Padding(n: nat): (k: nat)
    ensures k < 4 && (n + k) % 4 == 0
    ensures n % 4 == 0 ==> k == 0
  {
    if n % 4 > 0 then 4 - n % 4 else 0
  }

  /** The generating branch of `Read` once nothing can panic: a chunk of
      `want` bytes padded to whole 4-byte groups is generated at `pos`,
      `want` bytes of it are returned and the padding is held back. */
  function Generate(s: Wave, want: nat, eof: bool, synth: Synth): (c: Chunk)
    requires s.remaining == []
    ensures c.eof == eof && |c.data| == want && |c.wave.remaining| == Padding(want)
    ensures c.data + c.wave.remaining == synth(s.pos, want + Padding(want))
    ensures c.wave == s.(pos := WrapI64(s.pos + want + Padding(want)), remaining := c.wave.remaining)
  {
    var buf := synth(s.pos, want + Padding(want));
    var pos' := WrapI64(s.pos + |buf|);
    if |buf| != want then
      assert buf[..want] + buf[want..] == buf;
      Chunk(s.(pos := pos', remaining := buf[want..]), buf[..want], eof)
    else
      Chunk(s.(pos := pos'), buf, eof)
  }

  /** `sineWave.Read` with a buffer of `size` bytes. */
  function Read(s: Wave, size: nat, synth: Synth): (r: Result<Chunk, Panic>)
    // Held-back bytes go out first, from the front, without generating.
    ensures |s.remaining| > 0 ==>
              r.Success? && !r.value.eof
              && |r.value.data| == Min(size, |s.remaining|)
              && r.value.data + r.value.wave.remaining == s.remaining
              && r.value.wave.pos == s.pos
    // At the end with nothing held back: (0, EOF).
    ensures |s.remaining| == 0 && s.pos == s.length ==> r == Success(Chunk(s, [], true))
    // The length and the player settings never change.
    ensures r.Success? ==>
              var w := r.value.wave;
              w.length == s.length && w.channelCount == s.channelCount
              && w.format == s.format && w.sampleRate == s.sampleRate
    // The sample loops overrun the buffer only for a wrapped frame size.
    ensures r == Failure(IndexOutOfRange) ==>
              |s.remaining| == 0 && KnownFormat(s.format)
              && FrameWrapped(FormatByteLength(s.format).value, s.channelCount)
    // A generating read on a valid stream: no panic; EOF exactly when the
    // buffer was cut to what is left; the bytes generated are the ones
    // returned followed by the ones held back, and the position moves past
    // exactly those.
    ensures Valid(s) && Playable(s) && |s.remaining| == 0 && s.pos != s.length ==>
              r.Success?
              && var c := r.value;
                 (c.eof <==> s.pos + size > s.length)
                 && |c.data| == Min(size, s.length - s.pos)
                 && c.wave.pos == s.pos + |c.data| + |c.wave.remaining|
                 && c.data + c.wave.remaining == synth(s.pos, c.wave.pos - s.pos)
  {
    if |s.remaining| > 0 then
      Success(ReadRemaining(s, size))
    else if s.pos == s.length then
      Success(Chunk(s, [], true))
    else
      var eof := s.pos + size > s.length;
      if eof && s.length - s.pos < 0 then Failure(SliceBoundsOutOfRange)
      else
        var want: nat := if eof then s.length - s.pos else size;
        var bytesPerSample :- FormatByteLength(s.format);
        var num := FrameSize(bytesPerSample, s.channelCount);
        if num == 0 then Failure(IntegerDivideByZero)
        // `len(buf)/num >= 1`: the loops run for at least one frame, and
        // that frame overruns.
        else if FrameWrapped(bytesPerSample, s.channelCount)
                && num <= want + Padding(want) then Failure(IndexOutOfRange)
        else Success(Generate(s, want, eof, synth))
  }

  /** In a generating read whose frame size is exact, every index the sample
      loops write (`num*i + bytesPerSample*ch + j` for frame `i < n/num`,
      channel `ch` and byte `j` of the sample) lies inside the `n`-byte
      buffer. */
  lemma {:induction false} ExactFrameStaysInBuffer(k: nat, cc: nat, n: nat, i: nat, ch: nat, j: nat)
    requires 0 < k * cc && i < n / (k * cc) && ch < cc && j < k
    ensures 0 <= k * cc * i + k * ch + j < n
  {
    var num := k * cc;
    assert k * ch + j < num by {
      assert k * ch <= k * (cc - 1);
      assert k * (cc - 1) + k == num;
    }
    assert num * (i + 1) <= num * (n / num) by {
      assert i + 1 <= n / num;
    }
    assert num * (n / num) <= n;
    assert num * i + num == num * (i + 1);
  }

  /** When the frame size has wrapped, the first frame overruns the buffer:
      the bytes of its channel `n / k` include index `n`, the first one out
      of range (reached before any index wraps), while every channel before
      it fits. */
  lemma WrappedFrameOverrunsBuffer(k: nat, cc: nat, n: nat)
    requires 0 < k && 0 < cc && n < TWO_63 && TWO_63 <= k * cc
    ensures var ch := n / k;
            ch < cc && k * ch <= n < k * ch + k
            && forall c :: 0 <= c < ch ==> k * c + k <= n
  {
    var ch := n / k;
    assert k * ch <= n < k * ch + k;
    if cc <= ch {
      ScaleMonotone(k, cc, ch);
      assert false;
    }
    forall c | 0 <= c < ch
      ensures k * c + k <= n
    {
      ScaleMonotone(k, c + 1, ch);
    }
  }

  lemma ScaleMonotone(k: nat, a: int, b: int)
    requires a <= b
    ensures k * a <= k * b
  {
    assert k * b - k * a == k * (b - a);
  }

  /** The wrapped frame size `FrameWrapped` describes is exactly the one
      whose true value does not fit in an int64. */
  lemma FrameWrappedMeansOverflow(k: nat, cc: int)
    requires 0 < k
    ensures FrameWrapped(k, cc) <==> 0 < FrameSize(k, cc) && 0 < cc && TWO_63 <= k * cc
  {
    if 0 < cc {
      assert 0 < k * cc;
    }
  }

  /** Two channels of 2^62 + 1 float samples: the frame size wraps to 4, and
      a 4-byte read panics instead of returning a sample. */
  lemma HugeChannelCountPanics(synth: Synth)
    ensures FrameSize(4, 0x4000_0000_0000_0001) == 4
    ensures Read(Wave(8, 0, [], 0x4000_0000_0000_0001, FormatFloat32LE, 48000), 4, synth) == Failure(IndexOutOfRange)
  {
    var cc := 0x4000_0000_0000_0001;
    assert 4 * cc == TWO_64 + 4;
    assert FrameWrapped(4, cc);
  }

  /** Reading a valid stream never panics and keeps it valid: in particular
      the position never passes the length, because the length is a whole
      number of 4-byte groups and so is every padded chunk. A buffer that is
      not a whole number of groups is filled completely and the padding is
      held back. */
  lemma ReadKeepsValid(s: Wave, size: nat, synth: Synth)
    requires Valid(s) && Playable(s)
    ensures Read(s, size, synth).Success?
    ensures Valid(Read(s, size, synth).value.wave)
    ensures var c := Read(s, size, synth).value;
            |c.data| == Outstanding(s) - Outstanding(c.wave)
    ensures |s.remaining| == 0 && s.pos + size <= s.length ==>
              var c := Read(s, size, synth).value;
              |c.data| == size && |c.wave.remaining| == Padding(size)
  {
    if |s.remaining| == 0 && s.pos != s.length {
      var eof := s.pos + size > s.length;
      var want: nat := if eof then s.length - s.pos else size;
      assert Read(s, size, synth) == Success(Generate(s, want, eof, synth));
      GeneratedChunkFits(s, want);
    }
  }

  /** On a valid stream the padded chunk ends at or before the length. */
  lemma GeneratedChunkFits(s: Wave, want: nat)
    requires Valid(s) && want <= s.length - s.pos
    ensures s.pos + want + Padding(want) <= s.length
    ensures (s.pos + want + Padding(want)) % 4 == 0
  {
    var c, d := s.length / 4, s.pos / 4;
    assert s.length == 4 * c && s.pos == 4 * d;
    var b := want / 4;
    assert want == 4 * b + want % 4;
    if want % 4 > 0 {
      assert 4 * b < 4 * (c - d);
      assert want + Padding(want) == 4 * (b + 1);
    }
    assert s.pos + want + Padding(want) == 4 * (d + b + (if want % 4 > 0 then 1 else 0));
  }

  /** Reads with the given buffer sizes in turn: the stream afterwards and
      all bytes returned, or the first panic. */
  function ReadAll(s: Wave, sizes: seq<nat>, synth: Synth): Result<(Wave, seq<byte>), Panic>
    decreases |sizes|
  {
    if |sizes| == 0 then Success((s, []))
    else
      var c :- Read(s, sizes[0], synth);
      var rest :- ReadAll(c.wave, sizes[1..], synth);
      Success((rest.0, c.data + rest.1))
  }

  /** Bytes a stream has still to hand out: those not yet generated and
      those held back. */
  function Outstanding(s: Wave): int {
    s.length - s.pos + |s.remaining|
  }

  /** Over any series of reads of a valid stream nothing panics, and the
      bytes returned are exactly the bytes the stream no longer owes: no
      byte is lost or handed out twice, and never more than its length. */
  lemma {:induction false} ReadsAccountForEveryByte(s: Wave, sizes: seq<nat>, synth: Synth)
    requires Valid(s) && Playable(s)
    ensures ReadAll(s, sizes, synth).Success?
    ensures var (t, out) := ReadAll(s, sizes, synth).value;
            Valid(t) && Playable(t) && Outstanding(t) >= 0
            && |out| == Outstanding(s) - Outstanding(t)
    decreases |sizes|
  {
    if |sizes| > 0 {
      ReadKeepsValid(s, sizes[0], synth);
      var c := Read(s, sizes[0], synth).value;
      ReadsAccountForEveryByte(c.wave, sizes[1..], synth);
      var rest := ReadAll(c.wave, sizes[1..], synth).value;
      assert ReadAll(s, sizes, synth) == Success((rest.0, c.data + rest.1));
    }
  }

  /** A fresh stream read until it owes nothing has returned exactly
      `length` bytes. */
  lemma FreshStreamReturnsItsLength(s: Wave, sizes: seq<nat>, synth: Synth)
    requires Valid(s) && Playable(s) && s.pos == 0 && s.remaining == []
    ensures ReadAll(s, sizes, synth).Success?
    ensures var (t, out) := ReadAll(s, sizes, synth).value;
            |out| <= s.length && (Outstanding(t) == 0 ==> |out| == s.length)
  {
    ReadsAccountForEveryByte(s, sizes, synth);
  }
}
