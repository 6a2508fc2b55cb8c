/** Sequences of input events fed one at a time to the probe of module
    `Konami` by a single sequential caller: what stays true along any run,
    how the activation counter relates to the completed sequences, and what
    entering the code from scratch does. */
module KonamiRuns {
  import opened FixedWidth
  import opened Results
  import opened Konami

  /** One input event, together with what the kernel's map updates return
      while it is handled. */
  datatype Stimulus = Stimulus(event: Event, io: UpdateResults)

  /** The sequence map, when present, holds a progress within 0..10. */
  predicate InRange(p: Probe) {
    p.sequence.Some? ==> 0 <= p.sequence.value.completion <= 10
  }

  /** The probe after handling `trace` in order. */
  function Run(p: Probe, trace: seq<Stimulus>): (q: Probe)
    ensures InRange(p) ==> InRange(q)
    ensures p.sequence.None? ==> q == p
    ensures q.sequence.None? <==> p.sequence.None?
    ensures q.counter.None? <==> p.counter.None?
    ensures p.log <= q.log
    ensures forall i :: |p.log| <= i < |q.log| ==> q.log[i].duration == NoteDuration
    decreases |trace|
  {
    if |trace| == 0 then p
    else Run(HandleEvent(p, trace[0].event, trace[0].io).probe, trace[1..])
  }

  /** The press completes the code: Enter while ten steps are matched. */
  predicate Completes(p: Probe, ev: Event) {
    KeyDown(ev) && p.sequence == Some(Status(10)) && ev.code == KEY_ENTER
  }

  /** How many events of `trace` complete the code when it is run from `p`. */
  function Activations(p: Probe, trace: seq<Stimulus>): nat
    decreases |trace|
  {
    if |trace| == 0 then 0
    else
      (if Completes(p, trace[0].event) then 1 else 0)
      + Activations(HandleEvent(p, trace[0].event, trace[0].io).probe, trace[1..])
  }

  /** The counter after `n` increments with 32-bit wrap-around. */
  function BumpBy(counter: Option<i32>, n: nat): (c: Option<i32>)
    ensures c.None? <==> counter.None?
    ensures counter.Some? && counter.value + n < TWO_31 ==> c == Some(counter.value + n)
  {
    match counter
    case None => None
    case Some(v) => Some(WrapI32(v + n))
  }

  /** The activation counter counts completed sequences and nothing else,
      whatever the map updates return along the way. */
  lemma {:induction false} CounterCountsActivations(p: Probe, trace: seq<Stimulus>)
    ensures Run(p, trace).counter == BumpBy(p.counter, Activations(p, trace))
    decreases |trace|
  {
    if |trace| == 0 {
      assert BumpBy(p.counter, 0) == p.counter;
    } else {
      var q := HandleEvent(p, trace[0].event, trace[0].io).probe;
      var n := Activations(q, trace[1..]);
      CounterCountsActivations(q, trace[1..]);
      if p.counter.Some? {
        if Completes(p, trace[0].event) {
          assert q.counter == Some(WrapI32(p.counter.value + 1));
          WrapI32Add(p.counter.value + 1, n);
          assert BumpBy(q.counter, n) == BumpBy(p.counter, n + 1);
        } else {
          assert q.counter == p.counter;
        }
      }
    }
  }

  /** A key press with every map update succeeding. */
  function Press(code: u32): Stimulus {
    Stimulus(Event(EV_KEY, code, 1), AllUpdatesSucceed)
  }

  function Presses(codes: seq<u32>): (t: seq<Stimulus>)
    ensures |t| == |codes|
    ensures forall i :: 0 <= i < |codes| ==> t[i] == Press(codes[i])
  {
    seq(|codes|, i requires 0 <= i < |codes| => Press(codes[i]))
  }

  /** The expected press at a non-terminal step `k` moves to `k + 1` and
      plays that step's note. */
  lemma PressAdvances(p: Probe, k: nat)
    requires k < 10 && p.sequence == Some(Status(k))
    ensures HandleEvent(p, Press(Sequence[k]).event, AllUpdatesSucceed).probe
         == Probe(Some(Status(k + 1)), p.counter, p.log + [Tone(Scale[k])])
  {
    assert Accepts(k, Sequence[k]);
  }

  /** Enter after the ten matched steps, every update succeeding. */
  lemma EnterFinishes(p: Probe)
    requires p.sequence == Some(Status(10))
    ensures Run(p, Presses(Sequence[10..]))
         == Probe(Some(Status(0)), Bump(p.counter), p.log + ChimeFor(p.counter, 0))
    ensures Activations(p, Presses(Sequence[10..])) == 1
  {
    var trace := Presses(Sequence[10..]);
    assert trace == [Press(KEY_ENTER)];
    assert trace[1..] == [];
  }

  /** Running a non-empty trace is handling its first event, then the rest. */
  lemma RunUnfolds(p: Probe, trace: seq<Stimulus>, q: Probe)
    requires |trace| > 0 && q == HandleEvent(p, trace[0].event, trace[0].io).probe
    ensures Run(p, trace) == Run(q, trace[1..])
    ensures Activations(p, trace) == (if Completes(p, trace[0].event) then 1 else 0) + Activations(q, trace[1..])
  {
  }

  /** From step `k`, the rest of the code plays the rest of the scale, then
      the chime if the counter is there, bumps the counter once and leaves
      the matcher at 0. */
  lemma {:induction false} FinishesFrom(p: Probe, k: nat)
    requires k <= 10 && p.sequence == Some(Status(k))
    ensures Run(p, Presses(Sequence[k..]))
         == Probe(Some(Status(0)), Bump(p.counter), p.log + Tones(Scale[k..]) + ChimeFor(p.counter, 0))
    ensures Activations(p, Presses(Sequence[k..])) == 1
    decreases 10 - k
  {
    if k == 10 {
      EnterFinishes(p);
      assert Tones(Scale[k..]) == [];
    } else {
      var trace := Presses(Sequence[k..]);
      var q := Probe(Some(Status(k + 1)), p.counter, p.log + [Tone(Scale[k])]);
      assert trace[0] == Press(Sequence[k]);
      PressAdvances(p, k);
      assert !Completes(p, trace[0].event);
      RunUnfolds(p, trace, q);
      assert trace[1..] == Presses(Sequence[k + 1..]);
      FinishesFrom(q, k + 1);
      ScaleSuffix(p.log, k);
    }
  }

  lemma ScaleSuffix(log: seq<SoundNote>, k: nat)
    requires k < 10
    ensures log + [Tone(Scale[k])] + Tones(Scale[k + 1..]) == log + Tones(Scale[k..])
  {
    assert Tones(Scale[k..]) == [Tone(Scale[k])] + Tones(Scale[k + 1..]);
  }

  /** Entering Up Up Down Down Left Right Left Right B A Enter from a fresh
      matcher activates exactly once: the counter goes up by one, the ten
      scale notes and the chime are pushed in order, and the matcher is back
      at 0. */
  lemma CodeActivatesOnce(p: Probe)
    requires p.sequence == Some(Status(0)) && p.counter.Some?
    ensures var q := Run(p, Presses(Sequence));
            q.sequence == Some(Status(0))
            && q.counter == Bump(p.counter)
            && q.log == p.log + Tones(Scale) + Tones(Chime)
    ensures Activations(p, Presses(Sequence)) == 1
  {
    assert Sequence[0..] == Sequence;
    assert Scale[0..] == Scale;
    FinishesFrom(p, 0);
  }

  /** Once reset, the matcher stays at 0, silent, under any events that are
      not an Up press: resetting is stable. */
  lemma {:induction false} ResetIsStable(p: Probe, trace: seq<Stimulus>)
    requires p.sequence == Some(Status(0))
    requires forall i :: 0 <= i < |trace| ==> !(KeyDown(trace[i].event) && trace[i].event.code == KEY_UP)
    ensures Run(p, trace) == p
    decreases |trace|
  {
    if |trace| > 0 {
      var q := HandleEvent(p, trace[0].event, trace[0].io).probe;
      assert q == p;
      ResetIsStable(q, trace[1..]);
    }
  }
}
