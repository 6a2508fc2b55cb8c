# Konami-code eBPF probe, modelled in Dafny

This project models konamicode-ebpf. A kprobe on the kernel's
`input_handle_event` watches every input event for the key sequence Up Up
Down Down Left Right Left Right B A Enter. It plays a rising chromatic scale
while the sequence is entered. On completion it bumps an activation counter
and plays a two-note chime. The notes travel through a perf buffer to a Go
program, which decodes them and plays each one as a sine-wave stream.

Three parts are modelled:

- **The matcher** (`Konami`, `KonamiRuns`; `ebpf/main.c`). One probe call is
  the pure function `HandleEvent(probe, event, updateResults)`.
  - `Probe` holds the value at key 0 of the two single-slot array maps, and
    the log of notes pushed so far.
  - Each map is `None` when its lookup misses.
  - `UpdateResults` carries the status each `bpf_map_update_elem` call returns.
  - The `switch` is modelled as written, including its two missing `break`s.
    When the test of case 4 fails, control falls into the test of case 5; case 6
    falls into case 7 the same way. So Right at step 4 advances to 5 with note F,
    and Right at step 6 advances to 7 with note G.
  - `Sequence`, `Scale` and `Accepts` state the code as it is meant to be
    entered. The contracts compare the switch against them, quirk included.
  - `KonamiRuns` feeds sequences of events to one sequential caller.
- **The perf record** (`NoteRecord`; `ebpf/main.c` and `main.go`).
  - The probe sends the 16 bytes of `struct sound_note`.
  - `NotesPerfMapHandler` drops records shorter than 16 bytes. Otherwise it
    reads two `u64` values at offsets 0 and 8, converts them to `int64` and
    queues one `sound.Note`.
  - `ByteOrder` is one of Go's two `binary.ByteOrder`s. Every lemma holds for
    both. The lemmas that follow a note from probe to queue use one order for
    the probe's host-order write and the handler's read, so they take
    `ByteOrder` to be the host's byte order.
- **The sine-wave stream** (`SineWave`; `pkg/sound/sound_libasound.go`).
  - `formatByteLength` gives the bytes per sample of each format.
  - `newSineWave` computes the stream length.
  - `sineWave.Read` does the byte accounting: cutting a buffer at the end of
    the stream, padding to whole 4-byte groups, and holding padding back in
    `remaining`.
  - The sample bytes are any bytes of the right length (`Synth`). A Go panic
    is a `Failure`.
  - Go `int` is taken to be 64 bits (amd64, arm64): the player settings are
    `i64`, and the frame size `num` wraps modulo 2^64.

Fixed-width arithmetic is written out in `FixedWidth`:
- the 32-bit wrap of the counter;
- `(unsigned int)` on the stored progress;
- Go's `int64(uint64)`;
- int64 multiplication with wrap-around;
- division truncated toward zero.

Two details of the code decide what a call leaves behind:

- **A failed map update does not undo anything.** `bpf_map_lookup_elem` on an
  array map returns a pointer into the stored value. `ks->completion++`,
  `ks->completion = 0` and `*counter += 1` therefore change the map before
  `bpf_map_update_elem` writes the same value back. A failed update changes
  only the return value. For the counter it also suppresses the chime. The
  stored progress and count are never rolled back.
- **The progress is a signed `int` read as `unsigned int`.** A negative stored
  value therefore takes the `default` branch and is reset.

## Model

| member | source | states |
|---|---|---|
| `Konami.Switch` | ebpf/main.c:92-207 | At case c in 0..9 the step's expected key (A or Q at step 9) gives that step's scale note. Right at case 4 or 6 gives the next step's note. Enter is the only activation, and only at case 10. Every other key, and every value outside 0..10, is a mismatch. |
| `Konami.HandleEvent` | ebpf/main.c:84-210 | Key-ups and non-key events return 0 and change nothing. A missed sequence lookup does the same. Every processed press makes exactly one write to the sequence map, and the stored progress ends in 0..10. The expected or fall-through key advances by one and pushes exactly that step's note. Enter at 10 resets to 0, bumps the counter if it is present, and pushes the chime only when the counter was found and its write-back returned 0. Any other press resets to 0 with no note and returns 0. Only a completed sequence changes the counter. |
| `Konami.Bump` | ebpf/main.c:55-59 | A missing counter stays missing. A present counter always moves by one modulo 2^32: up by exactly one below the int32 maximum, and from the maximum to −2^31. |
| `Konami.ChimeFor` | ebpf/main.c:61-73 | The chime is As then B, each 1000 ms, pushed exactly when the counter was found and its write-back succeeded. Otherwise nothing is pushed. |
| `Konami.AzertyAliasActsAsA` | ebpf/main.c:190-199 | At step 9, Q has exactly the effect of A. |
| `Konami.RightSkipsAhead` | ebpf/main.c:137-177 | Right at progress 4 moves to 5 and plays F. Right at progress 6 moves to 7 and plays G. |
| `Konami.SilentActivation` | ebpf/main.c:53-73 | Enter at 10 with the counter missing, or with its write-back failing, resets to 0 and pushes no note; a failed write-back still bumps a present counter by one. |
| `KonamiRuns.Run` | ebpf/main.c:34-44 | From an in-range start, progress stays within 0..10 along any run. A missing sequence slot makes the whole run a no-op; a missing counter stays missing. The note log only grows, and every added note lasts 1000 ms. |
| `KonamiRuns.CounterCountsActivations` | ebpf/main.c:53-61 | After any run the counter equals its start plus the number of Enter-at-10 presses, modulo 2^32, whatever the map updates returned. |
| `KonamiRuns.PressAdvances` | ebpf/main.c:93-200 | The expected key at step k < 10 moves to k+1, appends exactly step k's note and leaves the counter unchanged. |
| `KonamiRuns.FinishesFrom` | ebpf/main.c:93-205 | From any step k, with every map update succeeding, the rest of the code pushes the rest of the scale and then the chime if the counter is present. It bumps a present counter once, ends at 0, and counts exactly one activation. |
| `KonamiRuns.CodeActivatesOnce` | ebpf/main.c:93-205 | With the counter present and every map update succeeding, the full code entered from 0 gives exactly one activation and one counter increment. It pushes the ten scale notes then As and B, and ends at 0. |
| `KonamiRuns.ResetIsStable` | ebpf/main.c:206-208 | At 0, any events other than an Up press leave everything unchanged: reset is stable. |
| `NoteRecord.LittleRoundTrip` | main.go:124-125 | Little-endian encoding then decoding returns any value that fits in the given number of bytes. |
| `NoteRecord.BigRoundTrip` | main.go:124-125 | The same round trip holds for big-endian. |
| `NoteRecord.LittleCanonical` | main.go:124-125 | Every little-endian byte string is the encoding of the value it decodes to. |
| `NoteRecord.BigCanonical` | main.go:124-125 | Every big-endian byte string is the encoding of the value it decodes to. |
| `NoteRecord.Uint64` | main.go:124-125 | `ByteOrder.Uint64` reads the first eight bytes as the positional base-256 sum: `b[0]` least significant in little-endian order, most significant in big-endian. |
| `NoteRecord.PutUint64` | main.go:124-125 | The eight-byte image of a u64, read back with `Uint64` in the same order, is that u64. |
| `NoteRecord.Uint64Canonical` | main.go:124-125 | Reading eight bytes loses nothing: rewriting the value gives the same bytes. |
| `NoteRecord.NoteBytes` | ebpf/main.c:23-31 | A `sound_note` record is 16 bytes, with freq at offsets 0..8 and duration at 8..16. |
| `NoteRecord.ToNote` | main.go:127 | The `int64` fields of `sound.Note` have the same bit patterns as the `u64` fields. |
| `NoteRecord.DecodeRecord` | main.go:117-127 | A record is dropped exactly when it is shorter than 16 bytes. Otherwise freq is bytes 0..8 and duration is bytes 8..16, with the bits preserved. |
| `NoteRecord.HandleRecord` | main.go:117-129 | A short record leaves the queue unchanged. Any other record appends exactly one note, its decoding, at the back, and keeps the rest of the queue. |
| `NoteRecord.TrailingBytesIgnored` | main.go:124-125 | Bytes after offset 16 do not change the decoded note. |
| `NoteRecord.RecordRoundTrip` | main.go:124-127 | Decoding the probe's record for a note, followed by any bytes, gives that note's freq and duration bit for bit. |
| `NoteRecord.HandleAllDecodes` | main.go:117-129 | Records that each decode to the next of a list of notes queue exactly those notes, in order, after what was queued before. |
| `NoteRecord.RecordsDecode` | main.go:117-127 | The records the probe sends for a note log decode, one by one, to the Go notes of that log. |
| `NoteRecord.LogArrivesInOrder` | main.go:117-129 | The probe's note log, delivered in order, becomes the same notes in the same order in the Go queue. |
| `SineWave.FormatByteLength` | pkg/sound/sound_libasound.go:30-41 | Format 0 (32-bit float) has 4 bytes per sample, 1 (8-bit) has 1 and 2 (16-bit) has 2. Any other format panics. |
| `SineWave.WrappedProduct` | pkg/sound/sound_libasound.go:139 | Multiplying left to right with int64 wrap-around equals the exact product of the four factors, wrapped once. |
| `SineWave.RoundTo4` | pkg/sound/sound_libasound.go:140 | `l / 4 * 4` is a multiple of 4 on the zero side of l and less than 4 away from it. |
| `SineWave.NewSineWave` | pkg/sound/sound_libasound.go:138-148 | Panics exactly for an unknown format. Otherwise the stream starts at position 0 with nothing held back, and its length is a multiple of 4. For a product channels × bytes × rate × duration in 0..2^63−1, the length is the largest multiple of 4 with length × 1e9 ≤ the product; a negative product in −2^63..−1 rounds toward zero, to the smallest multiple of 4 (at most 0) with length × 1e9 ≥ the product. No stream is longer than (2^63 − 1) / 10^9 bytes. A non-negative length gives a valid stream. |
| `SineWave.ReadRemaining` | pkg/sound/sound_libasound.go:56-60 | With bytes held back, min(len(buf), held) of them are returned from the front and the rest stay held. There is no EOF and the position does not move. |
| `SineWave.Padding` | pkg/sound/sound_libasound.go:74-77 | The padding is under 4 bytes, brings the length to a multiple of 4, and is zero for a multiple of 4. |
| `SineWave.Generate` | pkg/sound/sound_libasound.go:116-122 | Returns exactly the wanted bytes and holds back the padding. Together they are the generated chunk, and the position moves past all of it. |
| `SineWave.Read` | pkg/sound/sound_libasound.go:55-128 | Held-back bytes go out first. At the end with nothing held, the result is (0, EOF). The sample loops overrun the buffer only when the frame size `num` has wrapped. On a valid stream whose frame size is non-zero and exact, a generating read does not panic. It reports EOF exactly when the buffer was cut to what is left, returns min(len(buf), length − pos) bytes, and moves the position past exactly the bytes returned or held back. |
| `SineWave.FrameSize` | pkg/sound/sound_libasound.go:81 | `num` is bytes per sample × channels reduced into int64 modulo 2^64, and is exact whenever the product fits. |
| `SineWave.PositionSumFits` | pkg/sound/sound_libasound.go:68 | On a valid stream, `s.pos + int64(len(buf))` does not wrap for any buffer shorter than 2^63 − (2^63 − 1) / 10^9 bytes. |
| `SineWave.LengthFits` | pkg/sound/sound_libasound.go:139-140 | An int64 byte count divided by `time.Second` is at most (2^63 − 1) / 10^9, so no stream is longer. |
| `SineWave.ExactFrameStaysInBuffer` | pkg/sound/sound_libasound.go:81-92 | With an exact frame size, every byte index the sample loops write lies inside the buffer. |
| `SineWave.WrappedFrameOverrunsBuffer` | pkg/sound/sound_libasound.go:81-92 | With a frame size whose true value exceeds int64, the first frame has a channel whose bytes include index len(buf), the first one out of range, and every channel before it fits. |
| `SineWave.FrameWrappedMeansOverflow` | pkg/sound/sound_libasound.go:81 | A positive frame size differs from bytes × channels, with channels positive, exactly when bytes × channels does not fit in an int64. |
| `SineWave.HugeChannelCountPanics` | pkg/sound/sound_libasound.go:81-92 | With 2^62 + 1 float channels the frame size wraps to 4, and a 4-byte read panics with an out-of-range index. |
| `SineWave.ReadKeepsValid` | pkg/sound/sound_libasound.go:67-77 | On a valid stream with a non-zero, exact frame size, Read never panics and never moves the position past the length. It keeps the position on a 4-byte boundary and holds back fewer than 4 bytes. A buffer that is not a multiple of 4 is filled completely and 4 − len%4 bytes are held back. Each read returns exactly what the stream stops owing. |
| `SineWave.GeneratedChunkFits` | pkg/sound/sound_libasound.go:116 | When length and position are multiples of 4, a padded chunk never ends past the length. |
| `SineWave.ReadsAccountForEveryByte` | pkg/sound/sound_libasound.go:55-128 | Over any series of reads of a valid stream with a non-zero, exact frame size, nothing panics. The bytes returned are exactly the bytes the stream no longer owes. |
| `SineWave.FreshStreamReturnsItsLength` | pkg/sound/sound_libasound.go:55-128 | A fresh stream returns at most `length` bytes in all, and exactly `length` once it owes nothing. |
| `FixedWidth.AsUnsigned32` | ebpf/main.c:91 | `(unsigned int)` keeps the bits: non-negative values are unchanged and negative ones become at least 2^31. |
| `FixedWidth.WrapI32Add` | ebpf/main.c:59 | Repeated 32-bit increments equal one increment by the sum, modulo 2^32. |
| `FixedWidth.WrapI64Mul` | pkg/sound/sound_libasound.go:139 | Wrapping between 64-bit multiplications does not change the wrapped product. |
| `FixedWidth.AsSigned64` | main.go:127 | `int64(u)` keeps the bits of u and leaves values below 2^63 unchanged. |
| `FixedWidth.Quot` | pkg/sound/sound_libasound.go:139-140 | Go's `/` by a positive divisor truncates toward zero. |

## Left out

- Probe attachment and argument extraction (`PT_REGS_PARM*`, ebpf/main.c:77-82) and `bpf_printk` are kernel plumbing. The entry point is a function of `(type, code, value)`.
- Concurrency is not modelled: the race between probes on several CPUs, which read, modify and write the shared maps without atomicity. The model has one sequential caller. A bound on what such a race can do to the progress is therefore not stated.
- Perf-buffer delivery is not modelled: drops when a buffer is full, and reordering between per-CPU buffers. `push_sound_note` appends to the note log, and its status never affects the state. `LogArrivesInOrder` assumes in-order, lossless delivery.
- The header with the `NOTE_*` values is not part of this model. `Frequency` uses fifth-octave values; no proof depends on them. The `KEY_*` and `EV_KEY` values are Linux's; only their distinctness matters.
- The return value of `activate_konamicode` is discarded by its caller (ebpf/main.c:203), so it is not modelled.
- The floating-point sample computation of `sineWave.Read` is not modelled (pkg/sound/sound_libasound.go:79-114). Which bytes the loops write, and which buffer bytes they leave untouched, are abstracted as `Synth`. The sine frequency field is dropped with it.
- SineWave.ReadKeepsValid: streams whose frame size has wrapped are not covered, although a read shorter than the wrapped frame does not panic on them; `Read` itself models both outcomes.
- SineWave.Read: the sum `s.pos + int64(len(buf))` is taken as exact. On a stream of arbitrary length it can wrap, but `newSineWave` never makes a stream longer than (2^63 − 1) / 10^9 bytes, and `Valid` includes that bound; on such a stream it wraps only for a buffer of at least 2^63 − (2^63 − 1) / 10^9 bytes (`PositionSumFits`).
- The oto player, `SineWavePlayer`'s queue and play loop, and `play`'s millisecond-to-`time.Duration` conversion are left out. They are audio I/O and goroutines.
- The rest of `main.go` is left out: manager setup, the counter watcher, `openURL`, `playSong` and signal handling. These are I/O, goroutines and foreign calls. `pkg/sound/sound.go` is a no-op stub. `pkg/sound/model.go` holds only constants and the `Note` type, which appear here as `SineWave.Format*` and `NoteRecord.Note`.
