/**
 The audio playback buffer (crates/client-ui/src/media.rs): a queue that producers extend and
 the output callback consumes frame by frame, with start and stop thresholds and trimming.
 */
module JitterBuffer {
  import opened Wrappers
  import opened Arithmetic

  type Sample = real

  const AUDIO_SAMPLE_RATE: nat := 48_000
  const BUFFER_START: nat := AUDIO_SAMPLE_RATE / 10
  const BUFFER_MIN: nat := AUDIO_SAMPLE_RATE / 25
  const BUFFER_TARGET: nat := AUDIO_SAMPLE_RATE / 5
  const BUFFER_MAX: nat := AUDIO_SAMPLE_RATE * 2

  /** What one output frame carried; `Underrun` is a pop from an empty queue. */
  datatype Emission = Popped(sample: Sample) | Silence | Underrun

  datatype Playback = Playback(queue: seq<Sample>, playing: bool)

  // ------------------------------------------------------------------
  // One frame and one callback

  /** Popping from the front while longer than `most` keeps the newest `most` samples. */
  function Newest(queue: seq<Sample>, most: nat): (r: seq<Sample>)
    ensures |r| == if |queue| > most then most else |queue|
  {
    if |queue| > most then queue[|queue| - most..] else queue
  }

  function PlaysNow(p: Playback): bool {
    (p.playing || |p.queue| >= BUFFER_START) && |p.queue| > BUFFER_MIN
  }

  function Trimmed(queue: seq<Sample>, outputFrames: nat): (r: seq<Sample>)
    ensures |r| <= |queue|
  {
    Newest(Newest(queue, BUFFER_MAX), BUFFER_TARGET + outputFrames)
  }

  lemma TrimmedKeepsNewest(queue: seq<Sample>, outputFrames: nat)
    ensures Trimmed(queue, outputFrames) == queue[|queue| - |Trimmed(queue, outputFrames)|..]
  {
  }

  function Frame(p: Playback, outputFrames: nat): (Playback, Emission) {
    var queue := Trimmed(p.queue, outputFrames);
    if !PlaysNow(p) then (Playback(queue, false), Silence)
    else if queue == [] then (Playback([], true), Underrun)
    else (Playback(queue[1..], true), Popped(queue[0]))
  }

  function Frames(p: Playback, outputFrames: nat, n: nat): (r: (Playback, seq<Emission>))
    ensures |r.1| == n
  {
    if n == 0 then (p, [])
    else
      var (before, emitted) := Frames(p, outputFrames, n - 1);
      var (after, emission) := Frame(before, outputFrames);
      (after, emitted + [emission])
  }

  /** chunks_mut yields one more frame than out.len() / channels when the last one is short. */
  function FrameCount(outLen: nat, channels: nat): nat {
    (outLen + Max1(channels) - 1) / Max1(channels)
  }

  function Produced(p: Playback, samples: seq<Sample>): Playback {
    p.(queue := Newest(p.queue + samples, BUFFER_MAX))
  }

  /** A popped sample is written as it is, anything else as silence. */
  predicate Carries(emission: Emission, value: Sample) {
    match emission
    case Popped(sample) => value == sample
    case _ => value == 0.0
  }

  /**
   One frame, in numbers: it plays when it was playing or 4800 samples wait, and more than 1920 do; the
   queue is cut to its newest 9600 samples and one per output frame, and to 96000; a frame that plays
   takes and writes the oldest sample left, any other writes 0.
   */
  predicate PlaysFrame(before: Playback, outputFrames: nat, after: Playback, value: Sample) {
    var waiting := |before.queue|;
    var most := if 9_600 + outputFrames < 96_000 then 9_600 + outputFrames else 96_000;
    var kept := if waiting > most then before.queue[waiting - most..] else before.queue;
    && (after.playing <==> (before.playing || waiting >= 4_800) && waiting > 1_920)
    && (after.playing ==> kept != [] && value == kept[0] && after.queue == kept[1..])
    && (!after.playing ==> value == 0.0 && after.queue == kept)
  }

  lemma FrameIsExact(p: Playback, outputFrames: nat, value: Sample)
    requires Carries(Frame(p, outputFrames).1, value)
    ensures PlaysFrame(p, outputFrames, Frame(p, outputFrames).0, value)
    ensures Frame(p, outputFrames).0.playing <==> Frame(p, outputFrames).1 == Popped(value)
    ensures !Frame(p, outputFrames).0.playing <==> Frame(p, outputFrames).1 == Silence
  {
  }

  // ------------------------------------------------------------------
  // The stream object

  class PlaybackStream {
    var queue: seq<Sample>
    var playing: bool

    function State(): Playback
      reads this
    {
      Playback(queue, playing)
    }

    constructor ()
      ensures State() == Playback([], false)
    {
      queue, playing := [], false;
    }

    method PopWhileLonger(most: nat)
      modifies this`queue
      ensures queue == Newest(old(queue), most)
    {
      ghost var dropped := 0;
      while |queue| > most
        invariant dropped <= |old(queue)| && queue == old(queue)[dropped..]
        invariant |queue| >= most || dropped == 0
      {
        queue := queue[1..];
        dropped := dropped + 1;
      }
    }

    /** The two trimming loops of a frame. */
    method Trim(outputFrames: nat)
      modifies this`queue
      ensures queue == Trimmed(old(queue), outputFrames)
    {
      PopWhileLonger(BUFFER_MAX);
      PopWhileLonger(BUFFER_TARGET + outputFrames);
    }

    /** The producer side of on_track and attach_data_receiver. */
    method Produce(samples: seq<Sample>)
      modifies this`queue
      ensures State() == Produced(old(State()), samples)
      ensures var all := old(queue) + samples;
              && |queue| == (if |all| > 96_000 then 96_000 else |all|)
              && queue == all[|all| - |queue|..] && playing == old(playing)
    {
      queue := queue + samples;
      PopWhileLonger(BUFFER_MAX);
    }

    /** The body of the loop over output frames. */
    method NextFrame(outputFrames: nat) returns (value: Sample, ghost emission: Emission)
      modifies this
      ensures (State(), emission) == Frame(old(State()), outputFrames)
      ensures Carries(emission, value)
      ensures PlaysFrame(old(State()), outputFrames, State(), value)
    {
      ghost var before := State();

      if !playing && |queue| >= BUFFER_START {
        playing := true;
      }
      if playing && |queue| <= BUFFER_MIN {
        playing := false;
      }
      Trim(outputFrames);
      if playing {
        if queue == [] {
          value, emission := 0.0, Underrun;
        } else {
          value, emission := queue[0], Popped(queue[0]);
          queue := queue[1..];
        }
      } else {
        value, emission := 0.0, Silence;
      }
      FrameIsExact(before, outputFrames, value);
    }

    /** Every sample of one output frame gets the same value. */
    method FillFrame(out: array<Sample>, start: nat, end: nat, value: Sample)
      requires start <= end <= out.Length
      modifies out
      ensures out[..] == Filled(old(out[..]), start, end, value)
    {
      for j := start to end
        invariant out[..] == Filled(old(out[..]), start, j, value)
      {
        out[j] := value;
      }
    }

    /** One output frame: its value goes to every sample of it. */
    method PlayFrame(out: array<Sample>, start: nat, end: nat, width: nat, outputFrames: nat, ghost before: seq<Emission>)
      returns (ghost emission: Emission)
      requires width >= 1 && start == Multiple(|before|, width) && start <= end <= start + width && end <= out.Length
      requires Shows(out[..], before, width, start)
      modifies this, out
      ensures (State(), emission) == Frame(old(State()), outputFrames)
      ensures Shows(out[..], before + [emission], width, end)
    {
      var value;
      value, emission := NextFrame(outputFrames);
      FillFrame(out, start, end, value);
      ShowsExtends(old(out[..]), before, width, start, end, emission, value);
    }

    /** The loop over frames of `width` samples. */
    method PlayFrames(out: array<Sample>, width: nat, outputFrames: nat) returns (ghost emissions: seq<Emission>)
      requires width >= 1
      modifies this, out
      ensures (State(), emissions) == Frames(old(State()), outputFrames, |emissions|)
      ensures out.Length <= Multiple(|emissions|, width) < out.Length + width
      ensures Shows(out[..], emissions, width, out.Length)
    {
      emissions := [];
      var start := 0;
      while start < out.Length
        invariant start <= out.Length && start <= Multiple(|emissions|, width) < start + width
        invariant start < out.Length ==> start == Multiple(|emissions|, width)
        invariant (State(), emissions) == Frames(old(State()), outputFrames, |emissions|)
        invariant Shows(out[..], emissions, width, start)
      {
        var end := if start + width < out.Length then start + width else out.Length;
        ghost var emission := PlayFrame(out, start, end, width, outputFrames, emissions);
        emissions := emissions + [emission];
        start := end;
      }
    }

    /** The output callback: every sample of output frame k gets the value of the k-th emission. */
    method Callback(out: array<Sample>, channels: nat) returns (ghost emissions: seq<Emission>)
      modifies this, out
      ensures (State(), emissions) == Frames(old(State()), out.Length / Max1(channels), FrameCount(out.Length, channels))
      ensures Shows(out[..], emissions, Max1(channels), out.Length)
    {
      var width := Max1(channels);
      emissions := PlayFrames(out, width, out.Length / width);
      FrameCountIs(out.Length, channels, |emissions|);
    }
  }

  function Filled(out: seq<Sample>, start: nat, end: nat, value: Sample): (r: seq<Sample>)
    ensures |r| == |out|
  {
    seq(|out|, i requires 0 <= i < |out| => if start <= i < end then value else out[i])
  }

  /** Output sample i belongs to frame i / width and carries that frame's emission. */
  ghost predicate Shows(out: seq<Sample>, emissions: seq<Emission>, width: nat, end: nat)
    requires width >= 1 && end <= |out|
  {
    forall i | 0 <= i < end :: 0 <= i / width < |emissions| && Carries(emissions[i / width], out[i])
  }

  lemma ShowsExtends(
    out: seq<Sample>, emissions: seq<Emission>, width: nat, start: nat, end: nat, emission: Emission, value: Sample)
    requires width >= 1 && start == Multiple(|emissions|, width) && start <= end <= start + width && end <= |out|
    requires Shows(out, emissions, width, start) && Carries(emission, value)
    ensures Shows(Filled(out, start, end, value), emissions + [emission], width, end)
  {
    MultipleIsProduct(|emissions|, width);
    forall i | start <= i < end ensures i / width == |emissions| {
      QuotientIs(i, width, |emissions|);
    }
  }

  lemma QuotientIs(i: nat, width: nat, k: nat)
    requires width >= 1 && k * width <= i < k * width + width
    ensures i / width == k
  {
    Quotient(i, width, k, i - k * width);
  }

  lemma FrameCountIs(outLen: nat, channels: nat, k: nat)
    requires outLen <= Multiple(k, Max1(channels)) < outLen + Max1(channels)
    ensures FrameCount(outLen, channels) == k
  {
    MultipleIsProduct(k, Max1(channels));
    QuotientIs(outLen + Max1(channels) - 1, Max1(channels), k);
  }

  /** There are just enough frames for the array: the last one may be short. */
  lemma FrameCountIsCeiling(outLen: nat, channels: nat, width: nat, n: nat)
    requires width == (if channels == 0 then 1 else channels) && n == FrameCount(outLen, channels)
    ensures outLen <= n * width < outLen + width
  {
    var total := outLen + width - 1;
    assert total == n * width + total % width;
  }
}
