/** The perf-buffer record that carries a `struct sound_note` from the probe
    to the Go program, and the Go handler `NotesPerfMapHandler` (main.go)
    that turns each record back into a `sound.Note` and queues it.

    The probe writes its two `u64` fields in the host's byte order and the
    handler reads them with `ByteOrder`, whose definition is not part of this
    model; it is taken to be one of Go's two `binary.ByteOrder`
    implementations, and every statement below holds for both. The lemmas
    that follow a note from the probe to the queue use one order for the
    write and the read, so they take `ByteOrder` to be the host's order. */
module NoteRecord {
  import opened FixedWidth
  import opened Results
  import opened Konami

  datatype ByteOrder = LittleEndian | BigEndian

  function Pow256(n: nat): (r: nat)
    ensures r > 0
  {
    if n == 0 then 1 else 256 * Pow256(n - 1)
  }

  // ---------------------------------------------------------------------
  // Unsigned integers as byte strings
  // ---------------------------------------------------------------------

  /** The value of `b` read least significant byte first. */
  function FromLittle(b: seq<byte>): nat {
    if |b| == 0 then 0 else b[0] + 256 * FromLittle(b[1..])
  }

  /** The low `n` bytes of `x`, least significant first. */
  function ToLittle(x: nat, n: nat): (b: seq<byte>)
    ensures |b| == n
  {
    if n == 0 then [] else [x % 256] + ToLittle(x / 256, n - 1)
  }

  /** The value of `b` read most significant byte first. */
  function FromBig(b: seq<byte>): nat {
    if |b| == 0 then 0 else 256 * FromBig(b[..|b| - 1]) + b[|b| - 1]
  }

  /** The low `n` bytes of `x`, most significant first. */
  function ToBig(x: nat, n: nat): (b: seq<byte>)
    ensures |b| == n
  {
    if n == 0 then [] else ToBig(x / 256, n - 1) + [x % 256]
  }

  lemma {:induction false} LittleBound(b: seq<byte>)
    ensures FromLittle(b) < Pow256(|b|)
  {
    if |b| > 0 {
      LittleBound(b[1..]);
    }
  }

  lemma {:induction false} BigBound(b: seq<byte>)
    ensures FromBig(b) < Pow256(|b|)
  {
    if |b| > 0 {
      BigBound(b[..|b| - 1]);
    }
  }

  /** Writing `n` bytes little-endian and reading them back gives the value
      whenever it fits in `n` bytes. */
  lemma {:induction false} LittleRoundTrip(x: nat, n: nat)
    requires x < Pow256(n)
    ensures FromLittle(ToLittle(x, n)) == x
  {
    if n > 0 {
      LittleRoundTrip(x / 256, n - 1);
      assert ToLittle(x, n)[1..] == ToLittle(x / 256, n - 1);
    }
  }

  /** Writing `n` bytes big-endian and reading them back gives the value
      whenever it fits in `n` bytes. */
  lemma {:induction false} BigRoundTrip(x: nat, n: nat)
    requires x < Pow256(n)
    ensures FromBig(ToBig(x, n)) == x
  {
    if n > 0 {
      BigRoundTrip(x / 256, n - 1);
      var b := ToBig(x, n);
      assert b[..|b| - 1] == ToBig(x / 256, n - 1);
    }
  }

  /** Appending the digit `d` in base 256 is undone by `/ 256` and `% 256`. */
  lemma DigitSplits(x: nat, d: byte)
    ensures (256 * x + d) / 256 == x && (256 * x + d) % 256 == d
  {
  }

  /** Every byte string is the encoding of the value it decodes to. */
  lemma {:induction false} LittleCanonical(b: seq<byte>)
    ensures ToLittle(FromLittle(b), |b|) == b
  {
    if |b| > 0 {
      var x := FromLittle(b[1..]);
      LittleCanonical(b[1..]);
      DigitSplits(x, b[0]);
      assert ToLittle(FromLittle(b), |b|) == [b[0]] + ToLittle(x, |b| - 1);
    }
  }

  /** Every byte string is the encoding of the value it decodes to. */
  lemma {:induction false} BigCanonical(b: seq<byte>)
    ensures ToBig(FromBig(b), |b|) == b
  {
    if |b| > 0 {
      var init, last := b[..|b| - 1], b[|b| - 1];
      var x := FromBig(init);
      BigCanonical(init);
      DigitSplits(x, last);
      assert ToBig(FromBig(b), |b|) == ToBig(x, |b| - 1) + [last];
      assert b == init + [last];
    }
  }

  lemma EightBytes()
    ensures Pow256(8) == TWO_64
  {
  }

  /** Eight bytes little-endian, as a positional sum. */
  lemma {:induction false} LittleEight(c: seq<byte>)
    requires |c| == 8
    ensures FromLittle(c)
         == (c[0] as int) + 0x100 * (c[1] as int) + 0x1_0000 * (c[2] as int) + 0x100_0000 * (c[3] as int)
            + 0x1_0000_0000 * (c[4] as int) + 0x100_0000_0000 * (c[5] as int)
            + 0x1_0000_0000_0000 * (c[6] as int) + 0x100_0000_0000_0000 * (c[7] as int)
  {
    assert FromLittle(c[7..]) == c[7] by { assert c[7..][1..] == []; }
    assert FromLittle(c[6..]) == c[6] + 256 * FromLittle(c[7..]) by { assert c[6..][1..] == c[7..]; }
    assert FromLittle(c[5..]) == c[5] + 256 * FromLittle(c[6..]) by { assert c[5..][1..] == c[6..]; }
    assert FromLittle(c[4..]) == c[4] + 256 * FromLittle(c[5..]) by { assert c[4..][1..] == c[5..]; }
    assert FromLittle(c[3..]) == c[3] + 256 * FromLittle(c[4..]) by { assert c[3..][1..] == c[4..]; }
    assert FromLittle(c[2..]) == c[2] + 256 * FromLittle(c[3..]) by { assert c[2..][1..] == c[3..]; }
    assert FromLittle(c[1..]) == c[1] + 256 * FromLittle(c[2..]) by { assert c[1..][1..] == c[2..]; }
  }

  /** Eight bytes big-endian, as a positional sum. */
  lemma {:induction false} BigEight(c: seq<byte>)
    requires |c| == 8
    ensures FromBig(c)
         == (c[7] as int) + 0x100 * (c[6] as int) + 0x1_0000 * (c[5] as int) + 0x100_0000 * (c[4] as int)
            + 0x1_0000_0000 * (c[3] as int) + 0x100_0000_0000 * (c[2] as int)
            + 0x1_0000_0000_0000 * (c[1] as int) + 0x100_0000_0000_0000 * (c[0] as int)
  {
    assert FromBig(c[..1]) == c[0] by { assert c[..1][..0] == []; }
    assert FromBig(c[..2]) == 256 * FromBig(c[..1]) + c[1] by { assert c[..2][..1] == c[..1]; }
    assert FromBig(c[..3]) == 256 * FromBig(c[..2]) + c[2] by { assert c[..3][..2] == c[..2]; }
    assert FromBig(c[..4]) == 256 * FromBig(c[..3]) + c[3] by { assert c[..4][..3] == c[..3]; }
    assert FromBig(c[..5]) == 256 * FromBig(c[..4]) + c[4] by { assert c[..5][..4] == c[..4]; }
    assert FromBig(c[..6]) == 256 * FromBig(c[..5]) + c[5] by { assert c[..6][..5] == c[..5]; }
    assert FromBig(c[..7]) == 256 * FromBig(c[..6]) + c[6] by { assert c[..7][..6] == c[..6]; }
    assert c[..8][..7] == c[..7] && c[..8] == c;
  }

  /** `order.Uint64(b)`: the first eight bytes of `b` as an unsigned 64-bit
      value (Go panics on fewer than eight), `b[0]` the least significant
      byte in little-endian order and the most significant in big-endian. */
  function Uint64(order: ByteOrder, b: seq<byte>): (x: u64)
    requires |b| >= 8
    ensures order == LittleEndian ==>
              x == (b[0] as int) + 0x100 * (b[1] as int) + 0x1_0000 * (b[2] as int) + 0x100_0000 * (b[3] as int)
                   + 0x1_0000_0000 * (b[4] as int) + 0x100_0000_0000 * (b[5] as int)
                   + 0x1_0000_0000_0000 * (b[6] as int) + 0x100_0000_0000_0000 * (b[7] as int)
    ensures order == BigEndian ==>
              x == (b[7] as int) + 0x100 * (b[6] as int) + 0x1_0000 * (b[5] as int) + 0x100_0000 * (b[4] as int)
                   + 0x1_0000_0000 * (b[3] as int) + 0x100_0000_0000 * (b[2] as int)
                   + 0x1_0000_0000_0000 * (b[1] as int) + 0x100_0000_0000_0000 * (b[0] as int)
  {
    EightBytes();
    match order
    case LittleEndian => LittleBound(b[..8]); LittleEight(b[..8]); FromLittle(b[..8])
    case BigEndian => BigBound(b[..8]); BigEight(b[..8]); FromBig(b[..8])
  }

  /** The eight bytes a `u64` occupies in memory in the given byte order. */
  function PutUint64(order: ByteOrder, x: u64): (b: seq<byte>)
    ensures |b| == 8
    ensures Uint64(order, b) == x
  {
    EightBytes();
    match order
    case LittleEndian =>
      var b := ToLittle(x, 8);
      LittleRoundTrip(x, 8);
      assert b[..8] == b;
      b
    case BigEndian =>
      var b := ToBig(x, 8);
      BigRoundTrip(x, 8);
      assert b[..8] == b;
      b
  }

  /** Reading eight bytes is one-to-one: the bytes are the memory image of
      the value read. */
  lemma Uint64Canonical(order: ByteOrder, b: seq<byte>)
    requires |b| == 8
    ensures PutUint64(order, Uint64(order, b)) == b
  {
    assert b[..8] == b;
    match order
    case LittleEndian => LittleCanonical(b);
    case BigEndian => BigCanonical(b);
  }

  // ---------------------------------------------------------------------
  // The record and its handler
  // ---------------------------------------------------------------------

  /** `sizeof(struct sound_note)`: two `u64` and no padding. */
  const RecordSize: nat := 16

  /** The record `push_sound_note` hands to `bpf_perf_event_output`:
      `freq` at offset 0, `duration` at offset 8. */
  function NoteBytes(order: ByteOrder, n: SoundNote): (b: seq<byte>)
    ensures |b| == RecordSize
    ensures Uint64(order, b[0..8]) == n.freq && Uint64(order, b[8..16]) == n.duration
  {
    var b := PutUint64(order, n.freq) + PutUint64(order, n.duration);
    assert b[0..8] == PutUint64(order, n.freq);
    assert b[8..16] == PutUint64(order, n.duration);
    b
  }

  /** `sound.Note`: signed 64-bit frequency and duration. */
  datatype Note = Note(freq: i64, duration: i64)

  /** The Go conversion `sound.Note{Freq: int64(freq), Duration: int64(duration)}`. */
  function ToNote(n: SoundNote): (g: Note)
    ensures AsUnsigned64(g.freq) == n.freq && AsUnsigned64(g.duration) == n.duration
  {
    SignedViewIsExact(n.freq);
    SignedViewIsExact(n.duration);
    Note(AsSigned64(n.freq), AsSigned64(n.duration))
  }

  /** The note `NotesPerfMapHandler` builds from a record, or `None` when
      the record is too short and is dropped. Only the first 16 bytes are
      read. */
  function DecodeRecord(order: ByteOrder, data: seq<byte>): (r: Option<Note>)
    ensures r.None? <==> |data| < RecordSize
    ensures r.Some? ==>
              AsUnsigned64(r.value.freq) == Uint64(order, data[0..8])
              && AsUnsigned64(r.value.duration) == Uint64(order, data[8..16])
  {
    if |data| < RecordSize then None
    else
      Some(ToNote(SoundNote(Uint64(order, data[0..8]), Uint64(order, data[8..16]))))
  }

  /** `NotesPerfMapHandler`: the note queue after one record arrives. A
      record shorter than 16 bytes queues nothing; any other queues exactly
      one note, at the back. */
  function HandleRecord(order: ByteOrder, queue: seq<Note>, data: seq<byte>): (q: seq<Note>)
    ensures |data| < RecordSize ==> q == queue
    ensures |data| >= RecordSize ==>
              |q| == |queue| + 1 && q[..|queue|] == queue && Some(q[|queue|]) == DecodeRecord(order, data)
  {
    match DecodeRecord(order, data)
    case None => queue
    case Some(n) => queue + [n]
  }

  /** Bytes after the first 16 are ignored. */
  lemma TrailingBytesIgnored(order: ByteOrder, data: seq<byte>, trailing: seq<byte>)
    requires |data| >= RecordSize
    ensures DecodeRecord(order, data + trailing) == DecodeRecord(order, data)
  {
    assert (data + trailing)[0..8] == data[0..8];
    assert (data + trailing)[8..16] == data[8..16];
  }

  /** What the probe sends is what the handler queues: frequency and
      duration come back bit for bit, whatever follows the record. */
  lemma RecordRoundTrip(order: ByteOrder, n: SoundNote, trailing: seq<byte>)
    ensures DecodeRecord(order, NoteBytes(order, n) + trailing) == Some(ToNote(n))
  {
    TrailingBytesIgnored(order, NoteBytes(order, n), trailing);
  }

  /** The records of a note log, in order. */
  function Records(order: ByteOrder, log: seq<SoundNote>): (rs: seq<seq<byte>>)
    ensures |rs| == |log|
    ensures forall i :: 0 <= i < |log| ==> rs[i] == NoteBytes(order, log[i])
  {
    seq(|log|, i requires 0 <= i < |log| => NoteBytes(order, log[i]))
  }

  /** The queue after the handler has run on each record in turn. */
  function HandleAll(order: ByteOrder, queue: seq<Note>, records: seq<seq<byte>>): seq<Note>
    decreases |records|
  {
    if |records| == 0 then queue
    else HandleAll(order, HandleRecord(order, queue, records[0]), records[1..])
  }

  /** The Go notes for a note log, one for one. */
  function ToNotes(log: seq<SoundNote>): (ns: seq<Note>)
    ensures |ns| == |log|
    ensures forall i :: 0 <= i < |log| ==> ns[i] == ToNote(log[i])
  {
    seq(|log|, i requires 0 <= i < |log| => ToNote(log[i]))
  }

  /** Every record of `records` decodes to the note at the same place in
      `notes`. */
  predicate AllDecode(order: ByteOrder, records: seq<seq<byte>>, notes: seq<Note>)
    decreases |records|
  {
    |records| == |notes|
    && (|records| > 0 ==>
          DecodeRecord(order, records[0]) == Some(notes[0])
          && AllDecode(order, records[1..], notes[1..]))
  }

  /** A record that decodes to `n` queues `n`, and then the rest follow. */
  lemma HandleAllFirst(order: ByteOrder, queue: seq<Note>, records: seq<seq<byte>>, n: Note)
    requires |records| > 0 && DecodeRecord(order, records[0]) == Some(n)
    ensures HandleAll(order, queue, records) == HandleAll(order, queue + [n], records[1..])
  {
  }

  /** Records that each decode to the next note of `notes` queue exactly
      those notes, in order. */
  lemma {:induction false} HandleAllDecodes(order: ByteOrder, queue: seq<Note>, records: seq<seq<byte>>, notes: seq<Note>)
    requires AllDecode(order, records, notes)
    ensures HandleAll(order, queue, records) == queue + notes
    decreases |records|
  {
    if |records| == 0 {
      assert queue + notes == queue;
    } else {
      HandleAllFirst(order, queue, records, notes[0]);
      HandleAllDecodes(order, queue + [notes[0]], records[1..], notes[1..]);
      assert queue + [notes[0]] + notes[1..] == queue + notes;
    }
  }

  /** The records of a note log decode to its Go notes. */
  lemma {:induction false} RecordsDecode(order: ByteOrder, log: seq<SoundNote>)
    ensures AllDecode(order, Records(order, log), ToNotes(log))
    decreases |log|
  {
    if |log| > 0 {
      var rs := Records(order, log);
      RecordRoundTrip(order, log[0], []);
      assert rs[0] + [] == rs[0];
      RecordsDecode(order, log[1..]);
      assert rs[1..] == Records(order, log[1..]);
      assert ToNotes(log)[1..] == ToNotes(log[1..]);
    }
  }

  /** Delivered in order, the probe's note log becomes the same sequence of
      notes in the Go queue, one for one. */
  lemma LogArrivesInOrder(order: ByteOrder, queue: seq<Note>, log: seq<SoundNote>)
    ensures HandleAll(order, queue, Records(order, log)) == queue + ToNotes(log)
  {
    RecordsDecode(order, log);
    HandleAllDecodes(order, queue, Records(order, log), ToNotes(log));
  }
}
