/**
 Runs of the playback buffer under any interleaving of producers and callbacks: no underrun,
 a minimum length for every stretch of sound, and an account of every sample.
 */
module JitterBufferRuns {
  import opened Wrappers
  import opened Arithmetic
  import opened JitterBuffer

  datatype Event = Produce(samples: seq<Sample>) | Callback(outLen: nat, channels: nat)

  datatype Fate = Played | Dropped

  /** The buffer, everything ever pushed, what became of the oldest samples, and everything emitted. */
  datatype Ledger = Ledger(p: Playback, pushed: seq<Sample>, fates: seq<Fate>, trace: seq<Emission>)

  const EMPTY := Ledger(Playback([], false), [], [], [])

  function Drops(n: nat): seq<Fate> {
    seq(n, _ => Dropped)
  }

  function AfterProduce(l: Ledger, samples: seq<Sample>): Ledger {
    var p := Produced(l.p, samples);
    Ledger(p, l.pushed + samples, l.fates + Drops(|l.p.queue| + |samples| - |p.queue|), l.trace)
  }

  function AfterFrame(l: Ledger, outputFrames: nat): Ledger {
    var (p, emission) := Frame(l.p, outputFrames);
    Ledger(p, l.pushed,
           l.fates + Drops(|l.p.queue| - |Trimmed(l.p.queue, outputFrames)|) + (if emission.Popped? then [Played] else []),
           l.trace + [emission])
  }

  function AfterFrames(l: Ledger, outputFrames: nat, n: nat): Ledger {
    if n == 0 then l else AfterFrame(AfterFrames(l, outputFrames, n - 1), outputFrames)
  }

  function Step(l: Ledger, event: Event): Ledger {
    match event
    case Produce(samples) => AfterProduce(l, samples)
    case Callback(outLen, channels) => AfterFrames(l, outLen / Max1(channels), FrameCount(outLen, channels))
  }

  function Run(events: seq<Event>): Ledger {
    if events == [] then EMPTY else Step(Run(events[..|events| - 1]), events[|events| - 1])
  }

  /** The ledger follows the buffer: its state and emissions are those of the callback itself. */
  lemma {:induction false} LedgerFollowsCallback(l: Ledger, outputFrames: nat, n: nat)
    ensures var (p, emitted) := Frames(l.p, outputFrames, n);
            AfterFrames(l, outputFrames, n).p == p && AfterFrames(l, outputFrames, n).trace == l.trace + emitted
  {
    if n > 0 {
      LedgerFollowsCallback(l, outputFrames, n - 1);
      var before := AfterFrames(l, outputFrames, n - 1);
      var emission := Frame(before.p, outputFrames).1;
      var emitted := Frames(l.p, outputFrames, n - 1).1;
      assert AfterFrame(before, outputFrames).trace == before.trace + [emission];
      assert l.trace + (emitted + [emission]) == (l.trace + emitted) + [emission];
    }
  }

  // ------------------------------------------------------------------
  // The invariant

  /** The pushed samples that were played, in push order. */
  function PlayedOf(pushed: seq<Sample>, fates: seq<Fate>): seq<Sample>
    requires |fates| <= |pushed|
  {
    if fates == [] then []
    else
      var last := |fates| - 1;
      PlayedOf(pushed, fates[..last]) + if fates[last].Played? then [pushed[last]] else []
  }

  /** The samples heard. */
  function Heard(trace: seq<Emission>): seq<Sample> {
    if trace == [] then []
    else
      var last := trace[|trace| - 1];
      Heard(trace[..|trace| - 1]) + if last.Popped? then [last.sample] else []
  }

  /** How many frames of sound the trace ends with. */
  function Streak(trace: seq<Emission>): (n: nat)
    ensures n <= |trace|
    ensures forall i | |trace| - n <= i < |trace| :: trace[i].Popped?
    ensures n < |trace| ==> !trace[|trace| - n - 1].Popped?
  {
    if trace == [] || !trace[|trace| - 1].Popped? then 0 else Streak(trace[..|trace| - 1]) + 1
  }

  /** Samples leave from the oldest end only, and exactly the played ones were heard, in order. */
  ghost predicate Accounted(l: Ledger) {
    && |l.fates| <= |l.pushed|
    && l.p.queue == l.pushed[|l.fates|..]
    && Heard(l.trace) == PlayedOf(l.pushed, l.fates)
  }

  const MIN_STRETCH := BUFFER_START - BUFFER_MIN

  /** A stretch of sound that began at i and was over by j lasted at least MIN_STRETCH frames. */
  ghost predicate StretchesLong(trace: seq<Emission>) {
    forall i, j | 0 <= i < j < |trace| && StartsSound(trace, i) && !trace[j].Popped? :: j - i >= MIN_STRETCH
  }

  predicate StartsSound(trace: seq<Emission>, i: nat) {
    i < |trace| && trace[i].Popped? && (i == 0 || !trace[i - 1].Popped?)
  }

  ghost predicate Hysteresis(l: Ledger) {
    && (l.p.playing <==> Streak(l.trace) > 0)
    && (l.p.playing ==> |l.p.queue| + Streak(l.trace) >= BUFFER_START)
    && (forall k | 0 <= k < |l.trace| :: !l.trace[k].Underrun?)
    && StretchesLong(l.trace)
  }

  // ------------------------------------------------------------------
  // One frame

  /**
   One frame: sound comes from the queue's oldest kept sample and never from an empty queue; a silent
   frame drops nothing; afterwards at most TARGET + outputFrames samples are queued.
   */
  lemma FrameFacts(p: Playback, outputFrames: nat)
    ensures var (after, emission) := Frame(p, outputFrames);
            && !emission.Underrun?
            && (emission.Popped? <==> after.playing)
            && (emission.Silence? ==> after.queue == p.queue)
            && |after.queue| <= BUFFER_TARGET + outputFrames
            && (emission.Popped? ==> |p.queue| > BUFFER_MIN && |after.queue| + 1 == |Trimmed(p.queue, outputFrames)|)
            && (|p.queue| <= BUFFER_TARGET + outputFrames && |p.queue| <= BUFFER_MAX ==> Trimmed(p.queue, outputFrames) == p.queue)
  {
  }

  lemma {:induction false} PlayedOfDrops(pushed: seq<Sample>, fates: seq<Fate>, n: nat)
    requires |fates| + n <= |pushed|
    ensures PlayedOf(pushed, fates + Drops(n)) == PlayedOf(pushed, fates)
  {
    if n == 0 {
      assert fates + Drops(0) == fates;
    } else {
      PlayedOfDrops(pushed, fates, n - 1);
      assert (fates + Drops(n))[..|fates| + n - 1] == fates + Drops(n - 1);
    }
  }

  lemma {:induction false} PlayedOfMorePushed(pushed: seq<Sample>, more: seq<Sample>, fates: seq<Fate>)
    requires |fates| <= |pushed|
    ensures PlayedOf(pushed + more, fates) == PlayedOf(pushed, fates)
  {
    if fates != [] {
      PlayedOfMorePushed(pushed, more, fates[..|fates| - 1]);
    }
  }

  lemma ProduceKeepsAccounted(l: Ledger, samples: seq<Sample>)
    requires Accounted(l)
    ensures Accounted(AfterProduce(l, samples))
  {
    var after := AfterProduce(l, samples);
    var dropped := |l.p.queue| + |samples| - |after.p.queue|;
    assert l.p.queue + samples == after.pushed[|l.fates|..];
    assert after.p.queue == after.pushed[|l.fates| + dropped..];
    PlayedOfMorePushed(l.pushed, samples, l.fates);
    PlayedOfDrops(after.pushed, l.fates, dropped);
  }

  /** Dropping the oldest n queued samples keeps the account. */
  lemma DropKeepsAccounted(l: Ledger, n: nat)
    requires Accounted(l) && n <= |l.p.queue|
    ensures Accounted(Ledger(l.p.(queue := l.p.queue[n..]), l.pushed, l.fates + Drops(n), l.trace))
  {
    PlayedOfDrops(l.pushed, l.fates, n);
  }

  /** So does popping one sample and hearing it, or emitting something that is not a sample. */
  lemma EmitKeepsAccounted(l: Ledger, emission: Emission, playing: bool)
    requires Accounted(l)
    requires emission.Popped? ==> l.p.queue != [] && emission.sample == l.p.queue[0]
    ensures Accounted(Ledger(
      Playback(if emission.Popped? then l.p.queue[1..] else l.p.queue, playing), l.pushed,
      l.fates + (if emission.Popped? then [Played] else []), l.trace + [emission]))
  {
    assert (l.trace + [emission])[..|l.trace|] == l.trace;
    if emission.Popped? {
      assert (l.fates + [Played])[..|l.fates|] == l.fates;
    } else {
      assert l.fates + [] == l.fates;
    }
  }

  /** A frame pops the oldest sample the trimming kept, or nothing. */
  lemma FrameFromTrimmed(p: Playback, outputFrames: nat)
    ensures var kept := Trimmed(p.queue, outputFrames);
            var (after, emission) := Frame(p, outputFrames);
            && (emission.Popped? ==> kept != [] && emission.sample == kept[0])
            && after == Playback(if emission.Popped? then kept[1..] else kept, after.playing)
  {
  }

  lemma FrameKeepsAccounted(l: Ledger, outputFrames: nat)
    requires Accounted(l)
    ensures Accounted(AfterFrame(l, outputFrames))
  {
    var kept := Trimmed(l.p.queue, outputFrames);
    var dropped := |l.p.queue| - |kept|;
    TrimmedKeepsNewest(l.p.queue, outputFrames);
    DropKeepsAccounted(l, dropped);
    var trimmed := Ledger(l.p.(queue := kept), l.pushed, l.fates + Drops(dropped), l.trace);
    var (p, emission) := Frame(l.p, outputFrames);
    FrameFromTrimmed(l.p, outputFrames);
    EmitKeepsAccounted(trimmed, emission, p.playing);
    assert p == Playback(if emission.Popped? then kept[1..] else kept, p.playing);
  }

  lemma FrameKeepsHysteresis(l: Ledger, outputFrames: nat)
    requires Hysteresis(l)
    ensures Hysteresis(AfterFrame(l, outputFrames))
  {
    FrameFacts(l.p, outputFrames);
    var emission := Frame(l.p, outputFrames).1;
    var after := AfterFrame(l, outputFrames);
    var n := |l.trace|;
    assert after.trace == l.trace + [emission] && after.trace[..n] == l.trace;
    assert Streak(after.trace) == if emission.Popped? then Streak(l.trace) + 1 else 0;
    forall i, j | 0 <= i < j < n + 1 && StartsSound(after.trace, i) && !after.trace[j].Popped?
      ensures j - i >= MIN_STRETCH
    {
      assert StartsSound(l.trace, i);
      if j == n {
        StretchEndsLate(l, i);
      }
    }
  }

  /** When sound stops, the stretch that began at i has lasted long enough. */
  lemma StretchEndsLate(l: Ledger, i: nat)
    requires Hysteresis(l) && StartsSound(l.trace, i) && !PlaysNow(l.p)
    ensures |l.trace| - i >= MIN_STRETCH
  {
    var n, streak := |l.trace|, Streak(l.trace);
    if i < n - streak {
      var j := n - streak - 1;
      assert !l.trace[j].Popped?;
    }
  }

  lemma {:induction false} FramesKeepInvariant(l: Ledger, outputFrames: nat, n: nat)
    requires Accounted(l) && Hysteresis(l)
    ensures Accounted(AfterFrames(l, outputFrames, n)) && Hysteresis(AfterFrames(l, outputFrames, n))
  {
    if n > 0 {
      FramesKeepInvariant(l, outputFrames, n - 1);
      FrameKeepsAccounted(AfterFrames(l, outputFrames, n - 1), outputFrames);
      FrameKeepsHysteresis(AfterFrames(l, outputFrames, n - 1), outputFrames);
    }
  }

  lemma StepKeepsInvariant(l: Ledger, event: Event)
    requires Accounted(l) && Hysteresis(l)
    ensures Accounted(Step(l, event)) && Hysteresis(Step(l, event))
  {
    match event
    case Produce(samples) =>
      ProduceKeepsAccounted(l, samples);
      ProduceKeepsHysteresis(l, samples);
    case Callback(outLen, channels) =>
      FramesKeepInvariant(l, outLen / Max1(channels), FrameCount(outLen, channels));
  }

  lemma ProduceKeepsHysteresis(l: Ledger, samples: seq<Sample>)
    requires Hysteresis(l)
    ensures Hysteresis(AfterProduce(l, samples))
  {
  }

  lemma {:induction false} RunKeepsInvariant(events: seq<Event>)
    ensures Accounted(Run(events)) && Hysteresis(Run(events))
  {
    if events != [] {
      RunKeepsInvariant(events[..|events| - 1]);
      StepKeepsInvariant(Run(events[..|events| - 1]), events[|events| - 1]);
    }
  }

  // ------------------------------------------------------------------
  // What every run gives

  /**
   However producers and callbacks interleave and whatever the callback sizes, no frame ever pops an
   empty queue, and a stretch of sound that has ended lasted at least 2880 frames.
   */
  lemma SoundIsNeverChoppy(events: seq<Event>, i: nat, j: nat)
    ensures forall k | 0 <= k < |Run(events).trace| :: !Run(events).trace[k].Underrun?
    ensures i < j < |Run(events).trace| && StartsSound(Run(events).trace, i) && Run(events).trace[j].Silence? ==> j - i >= 2880
  {
    RunKeepsInvariant(events);
  }

  function CountOf(fates: seq<Fate>, fate: Fate): nat {
    if fates == [] then 0
    else CountOf(fates[..|fates| - 1], fate) + if fates[|fates| - 1] == fate then 1 else 0
  }

  /** Nothing is lost or invented: pushed = played + dropped + queued, and what was heard is what was played, in order. */
  lemma SamplesAreConserved(events: seq<Event>)
    ensures var l := Run(events);
            && |l.pushed| == CountOf(l.fates, Played) + CountOf(l.fates, Dropped) + |l.p.queue|
            && |l.fates| <= |l.pushed| && l.p.queue == l.pushed[|l.fates|..]
            && Heard(l.trace) == PlayedOf(l.pushed, l.fates)
            && |Heard(l.trace)| == CountOf(l.fates, Played)
  {
    RunKeepsInvariant(events);
    FatesCount(Run(events).pushed, Run(events).fates);
  }

  lemma {:induction false} FatesCount(pushed: seq<Sample>, fates: seq<Fate>)
    requires |fates| <= |pushed|
    ensures CountOf(fates, Played) + CountOf(fates, Dropped) == |fates|
    ensures |PlayedOf(pushed, fates)| == CountOf(fates, Played)
  {
    if fates != [] {
      FatesCount(pushed, fates[..|fates| - 1]);
    }
  }

  lemma PlainFrame(p: Playback, outputFrames: nat)
    requires PlaysNow(p) && |p.queue| <= BUFFER_START
    ensures Frame(p, outputFrames) == (Playback(p.queue[1..], true), Popped(p.queue[0]))
  {
  }

  /** Starting at the threshold with nothing more arriving, the first 2880 frames play the queue in order. */
  lemma {:induction false} ThresholdStretch(p: Playback, outputFrames: nat, n: nat)
    requires |p.queue| == BUFFER_START && !p.playing && n <= MIN_STRETCH
    ensures var (after, emitted) := Frames(p, outputFrames, n);
            && after == Playback(p.queue[n..], n > 0)
            && forall k | 0 <= k < n :: emitted[k] == Popped(p.queue[k])
  {
    if n > 0 {
      ThresholdStretch(p, outputFrames, n - 1);
      var before := Frames(p, outputFrames, n - 1).0;
      PlainFrame(before, outputFrames);
      assert before.queue[1..] == p.queue[n..] && before.queue[0] == p.queue[n - 1];
    }
  }

  /** The bound is exact: such a buffer plays 2880 frames and stops. */
  lemma ThresholdStretchIsExact(p: Playback, outputFrames: nat, n: nat)
    requires |p.queue| == BUFFER_START && !p.playing && n <= MIN_STRETCH
    ensures var (after, emitted) := Frames(p, outputFrames, n);
            && (forall k | 0 <= k < n :: emitted[k] == Popped(p.queue[k]))
            && after.queue == p.queue[n..]
            && (after.playing <==> n > 0)
            && (n == MIN_STRETCH ==> Frame(after, outputFrames).1.Silence?)
  {
    ThresholdStretch(p, outputFrames, n);
    if n == MIN_STRETCH {
      var after := Frames(p, outputFrames, n).0;
      assert |after.queue| == BUFFER_MIN;
      StopsAtMinimum(after, outputFrames);
    }
  }

  lemma StopsAtMinimum(p: Playback, outputFrames: nat)
    requires |p.queue| == BUFFER_MIN
    ensures Frame(p, outputFrames).1.Silence?
  {
  }

  /**
   From a buffer at the threshold with no producer the output array itself holds the queue: sample i of the
   first 2880 frames is the queue's sample number i / width, for every channel of its frame.
   */
  lemma ThresholdOutput(p: Playback, out: seq<Sample>, channels: nat, emissions: seq<Emission>, i: nat)
    requires |p.queue| == 4_800 && !p.playing && |out| / Max1(channels) > 0
    requires emissions == Frames(p, |out| / Max1(channels), FrameCount(|out|, channels)).1
    requires Shows(out, emissions, Max1(channels), |out|)
    requires i < |out| && i / Max1(channels) < 2_880
    ensures out[i] == p.queue[i / Max1(channels)]
  {
    var frames, frame := |out| / Max1(channels), i / Max1(channels);
    var count := if |emissions| < MIN_STRETCH then |emissions| else MIN_STRETCH;
    ThresholdStretch(p, frames, count);
    EmittedPrefix(p, frames, count, FrameCount(|out|, channels));
    assert emissions[frame] == Frames(p, frames, count).1[frame];
  }

  lemma {:induction false} EmittedPrefix(p: Playback, outputFrames: nat, m: nat, n: nat)
    requires m <= n
    ensures Frames(p, outputFrames, n).1[..m] == Frames(p, outputFrames, m).1
    decreases n
  {
    if m < n {
      EmittedPrefix(p, outputFrames, m, n - 1);
    }
  }

  /**
   What the array holds is what the ledger records: sample i shows the sample popped in frame i / width of
   the callback, and 0 where that frame was silent.
   */
  lemma OutputIsRecorded(
    l: Ledger, outputFrames: nat, n: nat, emissions: seq<Emission>, out: seq<Sample>, width: nat, i: nat, frame: nat)
    requires width >= 1 && emissions == Frames(l.p, outputFrames, n).1
    requires Shows(out, emissions, width, |out|) && i < |out| && frame == i / width
    ensures var trace := AfterFrames(l, outputFrames, n).trace;
            && |l.trace| + frame < |trace|
            && (forall x :: trace[|l.trace| + frame] == Popped(x) ==> out[i] == x)
            && (!trace[|l.trace| + frame].Popped? ==> out[i] == 0.0)
  {
    LedgerFollowsCallback(l, outputFrames, n);
    assert AfterFrames(l, outputFrames, n).trace[|l.trace| + frame] == emissions[frame];
  }
}
