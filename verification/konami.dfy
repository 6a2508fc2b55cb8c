/** The key-sequence matcher of the kprobe on `input_handle_event`
    (ebpf/main.c). Each input event `(type, code, value)` is one call of
    `HandleEvent`; the two single-slot BPF array maps (`konamicode_sequence`,
    `konamicode_activation_counter`) and the log of notes pushed to the `notes`
    perf buffer are passed in and returned explicitly as a `Probe` value.

    The switch is modelled as written, including its two missing `break`s
    (case 4 falls into case 5, case 6 into case 7); `Sequence`, `Scale` and
    `Accepts` are the reference statement of the Konami code that the
    contracts are written against. */
module Konami {
  import opened FixedWidth
  import opened Results

  // Input event type and key codes, as in linux/input-event-codes.h.
  // The proofs rely only on the key codes being pairwise distinct.
  const EV_KEY: u32 := 1
  const KEY_UP: u32 := 103
  const KEY_DOWN: u32 := 108
  const KEY_LEFT: u32 := 105
  const KEY_RIGHT: u32 := 106
  const KEY_B: u32 := 48
  const KEY_A: u32 := 30
  const KEY_Q: u32 := 16
  const KEY_ENTER: u32 := 28

  /** The twelve notes of the chromatic scale the probe plays
      (`NOTE_C`, `NOTE_CS`, ..., `NOTE_B`). */
  datatype Pitch = C | Cs | D | Ds | E | F | Fs | G | Gs | A | As | B

  /** Frequency in Hz written into `sound_note.freq` for a pitch. The header
      that defines the `NOTE_*` values is not part of this model; these are the
      fifth-octave values; main.go's `playSong` uses the same C, E and G. */
  function Frequency(p: Pitch): (hz: u64)
    ensures hz > 0
  {
    match p
    case C => 523
    case Cs => 554
    case D => 587
    case Ds => 622
    case E => 659
    case F => 698
    case Fs => 740
    case G => 784
    case Gs => 831
    case A => 880
    case As => 932
    case B => 988
  }

  /** `struct sound_note`: two unsigned 64-bit fields, frequency then
      duration in milliseconds. */
  datatype SoundNote = SoundNote(freq: u64, duration: u64)

  /** Every note the probe pushes lasts 1000 ms. */
  const NoteDuration: u64 := 1000

  function Tone(p: Pitch): SoundNote {
    SoundNote(Frequency(p), NoteDuration)
  }

  function Tones(ps: seq<Pitch>): (ns: seq<SoundNote>)
    ensures |ns| == |ps|
    ensures forall i :: 0 <= i < |ps| ==> ns[i] == Tone(ps[i])
  {
    seq(|ps|, i requires 0 <= i < |ps| => Tone(ps[i]))
  }

  // ---------------------------------------------------------------------
  // Reference statement of the code to enter
  // ---------------------------------------------------------------------

  /** Up Up Down Down Left Right Left Right B A Enter. */
  const Sequence: seq<u32> :=
    [KEY_UP, KEY_UP, KEY_DOWN, KEY_DOWN, KEY_LEFT, KEY_RIGHT,
     KEY_LEFT, KEY_RIGHT, KEY_B, KEY_A, KEY_ENTER]

  /** The note that confirms each of the ten non-terminal steps: an ascending
      chromatic scale from C. */
  const Scale: seq<Pitch> := [C, Cs, D, Ds, E, F, Fs, G, Gs, A]

  /** The two-note chime of a completed sequence. */
  const Chime: seq<Pitch> := [As, B]

  /** Step `step` of the sequence is satisfied by `code`; at the A step the
      Q key is accepted too, which is where A sits on an AZERTY keyboard. */
  predicate Accepts(step: nat, code: u32)
    requires step < |Sequence|
  {
    code == Sequence[step] || (step == 9 && code == KEY_Q)
  }

  /** The missing `break` after cases 4 and 6: a press that fails the test
      of that case goes on to the test of the next case. */
  predicate FallsThrough(step: nat, code: u32) {
    (step == 4 || step == 6) && code == Sequence[step + 1]
  }

  // ---------------------------------------------------------------------
  // The switch
  // ---------------------------------------------------------------------

  /** What the `switch (completion)` decides for one key press. */
  datatype Verdict =
    | Advance(pitch: Pitch)  // push the note, then `validate_konamicode_input`
    | Activate               // `activate_konamicode`, then `reset_konamicode`
    | Mismatch               // `break` or `default`: `reset_konamicode`

  /** The switch entered at case `arm`. Cases 4 and 6 end without `break`,
      so when their test fails control continues with the test of case 5
      (resp. 7); every other case, and any arm outside 0..10, ends in a
      mismatch. */
  function Switch(arm: int, code: u32): (v: Verdict)
    ensures 0 <= arm < 10 && Accepts(arm, code) ==> v == Advance(Scale[arm])
    ensures 0 <= arm && FallsThrough(arm, code) ==> v == Advance(Scale[arm + 1])
    ensures v.Advance? ==>
              0 <= arm < 10 && (Accepts(arm, code) || FallsThrough(arm, code))
    ensures v.Activate? <==> arm == 10 && code == KEY_ENTER
    decreases 10 - arm
  {
    if arm == 0 then (if code == KEY_UP then Advance(C) else Mismatch)
    else if arm == 1 then (if code == KEY_UP then Advance(Cs) else Mismatch)
    else if arm == 2 then (if code == KEY_DOWN then Advance(D) else Mismatch)
    else if arm == 3 then (if code == KEY_DOWN then Advance(Ds) else Mismatch)
    else if arm == 4 then (if code == KEY_LEFT then Advance(E) else Switch(5, code))
    else if arm == 5 then (if code == KEY_RIGHT then Advance(F) else Mismatch)
    else if arm == 6 then (if code == KEY_LEFT then Advance(Fs) else Switch(7, code))
    else if arm == 7 then (if code == KEY_RIGHT then Advance(G) else Mismatch)
    else if arm == 8 then (if code == KEY_B then Advance(Gs) else Mismatch)
    else if arm == 9 then (if code == KEY_A || code == KEY_Q then Advance(A) else Mismatch)
    else if arm == 10 then (if code == KEY_ENTER then Activate else Mismatch)
    else Mismatch
  }

  // ---------------------------------------------------------------------
  // Maps, events and one call of the probe
  // ---------------------------------------------------------------------

  /** `struct konamicode_status`. */
  datatype Status = Status(completion: i32)

  /** Everything the probe reads or writes: the value at key 0 of the
      sequence map and of the activation-counter map (`None` when the lookup
      misses), and the notes pushed to the perf buffer so far. */
  datatype Probe = Probe(sequence: Option<Status>, counter: Option<i32>, log: seq<SoundNote>)

  /** The status code `bpf_map_update_elem` returns on each map in this
      call (0 on success, a negative errno otherwise). */
  datatype UpdateResults = UpdateResults(sequence: int, counter: int)

  const AllUpdatesSucceed := UpdateResults(0, 0)

  /** The kprobe's arguments: `PT_REGS_PARM2..4`. */
  datatype Event = Event(eventType: u32, code: u32, value: i32)

  predicate KeyDown(ev: Event) {
    ev.eventType == EV_KEY && ev.value != 0
  }

  /** The result of one call: the probe's state afterwards, the program's
      return value, and the values written to the sequence map, in order. */
  datatype Reaction = Reaction(probe: Probe, ret: int, writes: seq<Status>)

  /** The counter after `activate_konamicode` has found it: incremented in
      place, with the 32-bit wrap-around of BPF arithmetic. */
  function Bump(counter: Option<i32>): (c: Option<i32>)
    ensures c.None? <==> counter.None?
    ensures counter.Some? ==> c.Some? && (c.value - counter.value - 1) % TWO_32 == 0
    ensures counter.Some? && counter.value < TWO_31 - 1 ==> c == Some(counter.value + 1)
    ensures counter == Some(TWO_31 - 1) ==> c == Some(-TWO_31)
  {
    match counter
    case None => None
    case Some(n) => Some(WrapI32(n + 1))
  }

  /** Notes `activate_konamicode` pushes: the chime, but only when the
      counter was found and writing it back succeeded. */
  function ChimeFor(counter: Option<i32>, status: int): (ns: seq<SoundNote>)
    ensures ns == [] || ns == Tones(Chime)
    ensures ns == Tones(Chime) <==> counter.Some? && status == 0
  {
    if counter.Some? && status == 0 then Tones(Chime) else []
  }

  /** A press that leaves the matcher anywhere but at 0. */
  predicate Progresses(completion: int, code: u32) {
    (0 <= completion < 10 && Accepts(completion, code)) || (0 <= completion && FallsThrough(completion, code))
  }

  /** One call of `kprobe_input_handle_event`.

      The lookup returns a pointer into the map's value, so `completion++`,
      `completion = 0` and `*counter += 1` change the map before the
      `bpf_map_update_elem` that writes the same value back; the status of
      that update changes only the return value (and, for the counter,
      whether the chime is pushed), never the stored state. */
  function HandleEvent(p: Probe, ev: Event, io: UpdateResults): (r: Reaction)
    // Key-up events and other event types are ignored.
    ensures !KeyDown(ev) ==> r == Reaction(p, 0, [])
    // A miss on the sequence map is a no-op returning 0.
    ensures p.sequence.None? ==> r == Reaction(p, 0, [])
    // Every processed key press makes exactly one write to the sequence map,
    // which is what the map holds afterwards, and it is within 0..10.
    ensures KeyDown(ev) && p.sequence.Some? ==>
              |r.writes| == 1 && r.probe.sequence == Some(r.writes[0])
              && 0 <= r.writes[0].completion <= 10
    // The expected key (or the fall-through key) at step c: one step further
    // and that step's note, counter untouched.
    ensures KeyDown(ev) && p.sequence.Some? && 0 <= p.sequence.value.completion < 10 ==>
              var c := p.sequence.value.completion;
              Accepts(c, ev.code) ==>
                r == Reaction(Probe(Some(Status(c + 1)), p.counter, p.log + [Tone(Scale[c])]),
                              io.sequence, [Status(c + 1)])
    ensures KeyDown(ev) && p.sequence.Some? && 0 <= p.sequence.value.completion ==>
              var c := p.sequence.value.completion;
              FallsThrough(c, ev.code) ==>
                r == Reaction(Probe(Some(Status(c + 1)), p.counter, p.log + [Tone(Scale[c + 1])]),
                              io.sequence, [Status(c + 1)])
    // Enter after ten matched steps: counter + 1, chime, back to 0.
    ensures KeyDown(ev) && p.sequence == Some(Status(10)) && ev.code == KEY_ENTER ==>
              r == Reaction(Probe(Some(Status(0)), Bump(p.counter), p.log + ChimeFor(p.counter, io.counter)),
                            io.sequence, [Status(0)])
    // Anything else, including a completion outside 0..10: reset, no note.
    ensures KeyDown(ev) && p.sequence.Some? ==>
              var c := p.sequence.value.completion;
              !Progresses(c, ev.code) && !(c == 10 && ev.code == KEY_ENTER) ==>
                r == Reaction(p.(sequence := Some(Status(0))), 0, [Status(0)])
    // Only a completed sequence touches the counter.
    ensures r.probe.counter != p.counter ==>
              KeyDown(ev) && p.sequence == Some(Status(10)) && ev.code == KEY_ENTER
  {
    if !KeyDown(ev) then Reaction(p, 0, [])
    else match p.sequence
      case None => Reaction(p, 0, [])
      case Some(ks) =>
        match Switch(AsUnsigned32(ks.completion), ev.code)
        case Advance(pitch) =>
          var ks' := Status(ks.completion + 1);
          Reaction(Probe(Some(ks'), p.counter, p.log + [Tone(pitch)]), io.sequence, [ks'])
        case Activate =>
          var ks' := Status(0);
          Reaction(Probe(Some(ks'), Bump(p.counter), p.log + ChimeFor(p.counter, io.counter)),
                   io.sequence, [ks'])
        case Mismatch =>
          var ks' := Status(0);
          Reaction(p.(sequence := Some(ks')), 0, [ks'])
  }

  /** At the A step, the AZERTY alias Q has exactly the effect of A. */
  lemma AzertyAliasActsAsA(p: Probe, eventType: u32, value: i32, io: UpdateResults)
    requires p.sequence == Some(Status(9))
    ensures HandleEvent(p, Event(eventType, KEY_Q, value), io)
         == HandleEvent(p, Event(eventType, KEY_A, value), io)
  {
  }

  /** The fall-through quirk, concretely: Right at step 4 (where Left is
      expected) is taken as step 5 and plays F; Right at step 6 is taken as
      step 7 and plays G. */
  lemma RightSkipsAhead(p: Probe, io: UpdateResults)
    requires p.sequence == Some(Status(4)) || p.sequence == Some(Status(6))
    ensures var r := HandleEvent(p, Event(EV_KEY, KEY_RIGHT, 1), io);
            var c := p.sequence.value.completion;
            r.probe.sequence == Some(Status(c + 1))
            && r.probe.log == p.log + [Tone(if c == 4 then F else G)]
  {
  }

  /** Completing the code is silent unless the counter is found and written
      back: a missing counter is neither bumped nor chimed, and a failed
      write-back still bumps the counter in place but pushes no note. */
  lemma SilentActivation(p: Probe, io: UpdateResults)
    requires p.sequence == Some(Status(10))
    requires p.counter.None? || io.counter != 0
    ensures var r := HandleEvent(p, Event(EV_KEY, KEY_ENTER, 1), io);
            r.probe == Probe(Some(Status(0)), Bump(p.counter), p.log)
            && (p.counter.Some? && p.counter.value < TWO_31 - 1 ==>
                  r.probe.counter == Some(p.counter.value + 1))
  {
  }
}
