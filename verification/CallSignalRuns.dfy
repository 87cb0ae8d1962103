/**
 Runs of the call-signal queue: every accepted signal is delivered once, evicted once or still
 queued; deliveries of one call to one device keep their order; evictions come late.
 */
module CallSignalRuns {
  import opened Wrappers
  import opened CallSignals

  datatype Event =
    | Send(signal: QueuedCallSignal)
    | Fetch(device: Uuid, callId: Option<string>, limit: nat)

  datatype Delivery = Delivery(device: Uuid, serial: nat)

  /** `pushedBy` is the serial number of the signal whose acceptance pushed `serial` out. */
  datatype Eviction = Eviction(serial: nat, pushedBy: nat)

  /** Accepted signals are numbered in order; the queue holds their numbers. */
  datatype Ledger = Ledger(
    accepted: seq<QueuedCallSignal>, queue: seq<nat>, delivered: seq<Delivery>, evicted: seq<Eviction>)

  function Signals(accepted: seq<QueuedCallSignal>, serials: seq<nat>): (r: seq<QueuedCallSignal>)
    requires forall i | 0 <= i < |serials| :: serials[i] < |accepted|
    ensures |r| == |serials|
  {
    seq(|serials|, i requires 0 <= i < |serials| => accepted[serials[i]])
  }

  function Deliveries(device: Uuid, serials: seq<nat>): (r: seq<Delivery>)
    ensures |r| == |serials|
  {
    seq(|serials|, i requires 0 <= i < |serials| => Delivery(device, serials[i]))
  }

  ghost predicate InRange(l: Ledger) {
    forall i | 0 <= i < |l.queue| :: l.queue[i] < |l.accepted|
  }

  function Step(l: Ledger, event: Event): Ledger
    requires InRange(l)
  {
    match event
    case Send(signal) =>
      var serial := |l.accepted|;
      Ledger(l.accepted + [signal], Enqueued<nat>(l.queue, serial), l.delivered,
             l.evicted + if |l.queue| >= MAX_SIGNAL_QUEUE then [Eviction(l.queue[0], serial)] else [])
    case Fetch(device, callId, limit) =>
      var mask := TakenMask(Signals(l.accepted, l.queue), device, callId, limit);
      Ledger(l.accepted, Select<nat>(l.queue, mask, false), l.delivered + Deliveries(device, Select<nat>(l.queue, mask, true)), l.evicted)
  }

  /** The ledger's queue is the queue of the operations themselves. */
  lemma LedgerFollowsQueue(l: Ledger, event: Event)
    requires Good(l)
    ensures InRange(Step(l, event))
    ensures var queue := Signals(l.accepted, l.queue);
            var after := Signals(Step(l, event).accepted, Step(l, event).queue);
            match event
            case Send(signal) => after == Enqueued(queue, signal)
            case Fetch(device, callId, limit) =>
              after == Select(queue, TakenMask(queue, device, callId, limit), false)
    ensures event.Fetch? ==>
              var queue := Signals(l.accepted, l.queue);
              var mask := TakenMask(queue, event.device, event.callId, event.limit);
              var taken := Select<nat>(l.queue, mask, true);
              && Step(l, event).delivered == l.delivered + Deliveries(event.device, taken)
              && (forall i | 0 <= i < |taken| :: taken[i] < |l.accepted|)
              && Signals(l.accepted, taken) == Select(queue, mask, true)
  {
    match event
    case Send(signal) =>
    case Fetch(device, callId, limit) =>
      var mask := TakenMask(Signals(l.accepted, l.queue), device, callId, limit);
      SelectSignals(l.accepted, l.queue, mask, false);
      SelectSignals(l.accepted, l.queue, mask, true);
  }

  lemma {:induction false} SelectSignals(accepted: seq<QueuedCallSignal>, serials: seq<nat>, mask: seq<bool>, bit: bool)
    requires |mask| == |serials| && forall i | 0 <= i < |serials| :: serials[i] < |accepted|
    ensures forall i | 0 <= i < |Select<nat>(serials, mask, bit)| :: Select<nat>(serials, mask, bit)[i] < |accepted|
    ensures Signals(accepted, Select<nat>(serials, mask, bit)) == Select(Signals(accepted, serials), mask, bit)
  {
    if serials != [] {
      var last := |serials| - 1;
      SelectSignals(accepted, serials[..last], mask[..last], bit);
      assert Signals(accepted, serials)[..last] == Signals(accepted, serials[..last]);
    }
  }

  // ------------------------------------------------------------------
  // The invariant

  function Serials(n: nat): seq<nat> {
    seq(n, i => i)
  }

  function DeliveredSerials(delivered: seq<Delivery>): seq<nat> {
    seq(|delivered|, i requires 0 <= i < |delivered| => delivered[i].serial)
  }

  function EvictedSerials(evicted: seq<Eviction>): seq<nat> {
    seq(|evicted|, i requires 0 <= i < |evicted| => evicted[i].serial)
  }

  ghost predicate Increasing(s: seq<nat>) {
    forall i, j | 0 <= i < j < |s| :: s[i] < s[j]
  }

  predicate SameCall(a: QueuedCallSignal, b: QueuedCallSignal) {
    a.toDevice == b.toDevice && a.item.callId == b.item.callId
  }

  /** Queued, delivered and evicted numbers together are exactly the accepted numbers, each once. */
  ghost predicate Balanced(l: Ledger) {
    multiset(l.queue) + multiset(DeliveredSerials(l.delivered)) + multiset(EvictedSerials(l.evicted))
    == multiset(Serials(|l.accepted|))
  }

  ghost predicate Addressed(l: Ledger) {
    forall i | 0 <= i < |l.delivered| ::
      l.delivered[i].serial < |l.accepted| && l.accepted[l.delivered[i].serial].toDevice == l.delivered[i].device
  }

  /** Deliveries of one call to one device are in acceptance order, and the queue holds only later ones. */
  ghost predicate InOrder(l: Ledger)
    requires InRange(l) && Addressed(l)
  {
    && (forall i, j | 0 <= i < j < |l.delivered| &&
          SameCall(l.accepted[l.delivered[i].serial], l.accepted[l.delivered[j].serial]) ::
          l.delivered[i].serial < l.delivered[j].serial)
    && (forall i, j | 0 <= i < |l.delivered| && 0 <= j < |l.queue| &&
          SameCall(l.accepted[l.delivered[i].serial], l.accepted[l.queue[j]]) ::
          l.delivered[i].serial < l.queue[j])
  }

  ghost predicate EvictedLate(l: Ledger) {
    forall i | 0 <= i < |l.evicted| ::
      l.evicted[i].pushedBy < |l.accepted| && l.evicted[i].pushedBy - l.evicted[i].serial >= MAX_SIGNAL_QUEUE
  }

  ghost predicate Good(l: Ledger) {
    && InRange(l) && Increasing(l.queue) && |l.queue| <= MAX_SIGNAL_QUEUE
    && Balanced(l) && Addressed(l) && InOrder(l) && EvictedLate(l)
  }

  // ------------------------------------------------------------------
  // Selection

  lemma {:induction false} SelectPartitions(xs: seq<nat>, mask: seq<bool>)
    requires |mask| == |xs|
    ensures multiset(xs) == multiset(Select<nat>(xs, mask, true)) + multiset(Select<nat>(xs, mask, false))
  {
    if xs != [] {
      var last := |xs| - 1;
      SelectPartitions(xs[..last], mask[..last]);
      Together(xs[..last], Select<nat>(xs[..last], mask[..last], true), Select<nat>(xs[..last], mask[..last], false),
               xs[last], mask[last]);
      assert xs == xs[..last] + [xs[last]];
    }
  }

  lemma Together(xs: seq<nat>, taken: seq<nat>, kept: seq<nat>, x: nat, bit: bool)
    requires multiset(xs) == multiset(taken) + multiset(kept)
    ensures multiset(xs + [x]) == multiset(taken + if bit then [x] else []) + multiset(kept + if bit then [] else [x])
  {
    assert taken + [] == taken && kept + [] == kept;
  }

  lemma {:induction false} SelectIsShorter(xs: seq<nat>, mask: seq<bool>, bit: bool)
    requires |mask| == |xs|
    ensures |Select<nat>(xs, mask, bit)| <= |xs|
  {
    if xs != [] {
      SelectIsShorter(xs[..|xs| - 1], mask[..|xs| - 1], bit);
    }
  }

  lemma {:induction false} SelectPicks(xs: seq<nat>, mask: seq<bool>, bit: bool, x: nat)
    requires |mask| == |xs|
    ensures x in Select<nat>(xs, mask, bit) <==> exists i | 0 <= i < |xs| :: xs[i] == x && mask[i] == bit
  {
    if xs != [] {
      var last := |xs| - 1;
      SelectPicks(xs[..last], mask[..last], bit, x);
      if x in Select<nat>(xs[..last], mask[..last], bit) {
        var i :| 0 <= i < last && xs[..last][i] == x && mask[..last][i] == bit;
        assert xs[i] == x && mask[i] == bit;
      }
      if i :| 0 <= i < last && xs[i] == x && mask[i] == bit {
        assert xs[..last][i] == x && mask[..last][i] == bit;
      }
    }
  }

  lemma {:induction false} SelectKeepsIncreasing(xs: seq<nat>, mask: seq<bool>, bit: bool)
    requires |mask| == |xs| && Increasing(xs)
    ensures Increasing(Select<nat>(xs, mask, bit))
    ensures xs != [] ==> forall x | x in Select<nat>(xs, mask, bit) :: x <= xs[|xs| - 1]
  {
    if xs != [] {
      var last := |xs| - 1;
      SelectKeepsIncreasing(xs[..last], mask[..last], bit);
      var selected := Select<nat>(xs[..last], mask[..last], bit);
      forall x | x in selected ensures x < xs[last] {
        assert xs[..last][last - 1] < xs[last];
      }
      AppendKeepsIncreasing(selected, xs[last]);
    }
  }

  lemma AppendKeepsIncreasing(s: seq<nat>, x: nat)
    requires Increasing(s) && forall y | y in s :: y < x
    ensures Increasing(s + [x])
  {
    assert forall i | 0 <= i < |s| :: s[i] in s;
  }

  /** Among signals of one call to one device a fetch takes a prefix. */
  lemma TakenIsPrefix(queue: seq<QueuedCallSignal>, device: Uuid, callId: Option<string>, limit: nat, i: nat, j: nat)
    requires i < j < |queue| && SameCall(queue[i], queue[j]) && Taken(queue, device, callId, limit, j)
    ensures Taken(queue, device, callId, limit, i)
  {
    MatchCountGrows(queue, device, callId, i, j);
  }

  // ------------------------------------------------------------------
  // Each step

  lemma {:induction false} FirstIsOld(queue: seq<nat>, bound: nat)
    requires queue != [] && Increasing(queue) && queue[|queue| - 1] < bound
    ensures queue[0] + |queue| <= bound
  {
    if |queue| > 1 {
      var init := queue[..|queue| - 1];
      assert init[|init| - 1] < queue[|queue| - 1];
      FirstIsOld(init, queue[|queue| - 1]);
    }
  }

  /** Accepting a signal adds its number, wherever the oldest one goes. */
  lemma OneMoreSerial(queue: seq<nat>, delivered: seq<nat>, evicted: seq<nat>, n: nat)
    requires multiset(queue) + multiset(delivered) + multiset(evicted) == multiset(Serials(n))
    ensures multiset(queue + [n]) + multiset(delivered) + multiset(evicted) == multiset(Serials(n + 1))
  {
    assert Serials(n + 1) == Serials(n) + [n];
  }

  /** Evicting the oldest number moves it from one side to the other. */
  lemma OldestMoves(queue: seq<nat>, delivered: seq<nat>, evicted: seq<nat>)
    requires queue != []
    ensures multiset(queue[1..]) + multiset(delivered) + multiset(evicted + [queue[0]])
            == multiset(queue) + multiset(delivered) + multiset(evicted)
  {
    assert queue == [queue[0]] + queue[1..];
  }

  lemma SendKeepsBalanced(l: Ledger, signal: QueuedCallSignal)
    requires InRange(l) && Balanced(l)
    ensures Balanced(Step(l, Send(signal)))
  {
    var after := Step(l, Send(signal));
    var n := |l.accepted|;
    var delivered, evicted := DeliveredSerials(l.delivered), EvictedSerials(l.evicted);
    if |l.queue| >= MAX_SIGNAL_QUEUE {
      OldestMoves(l.queue, delivered, evicted);
      OneMoreSerial(l.queue[1..], delivered, evicted + [l.queue[0]], n);
      assert EvictedSerials(after.evicted) == evicted + [l.queue[0]];
    } else {
      OneMoreSerial(l.queue, delivered, evicted, n);
      assert after.evicted == l.evicted;
    }
  }

  /** A new signal goes to the end, so it is later than every delivery. */
  lemma SendKeepsOrder(l: Ledger, signal: QueuedCallSignal, after: Ledger)
    requires InRange(l) && Addressed(l) && InOrder(l)
    requires after.accepted == l.accepted + [signal] && after.delivered == l.delivered
    requires forall j | 0 <= j < |after.queue| :: after.queue[j] == |l.accepted| || after.queue[j] in l.queue
    ensures InRange(after) && Addressed(after) && InOrder(after)
  {
    assert forall i | 0 <= i < |l.accepted| :: after.accepted[i] == l.accepted[i];
  }

  /** The signal pushed out, if any, is the oldest of 2048 queued ones. */
  lemma SendKeepsEvictedLate(l: Ledger, signal: QueuedCallSignal)
    requires InRange(l) && Increasing(l.queue) && EvictedLate(l)
    ensures EvictedLate(Step(l, Send(signal)))
  {
    if |l.queue| >= MAX_SIGNAL_QUEUE {
      FirstIsOld(l.queue, |l.accepted|);
    }
  }

  lemma SendKeepsGood(l: Ledger, signal: QueuedCallSignal)
    requires Good(l)
    ensures Good(Step(l, Send(signal)))
  {
    var after := Step(l, Send(signal));
    SendKeepsBalanced(l, signal);
    SendKeepsEvictedLate(l, signal);
    SendKeepsOrder(l, signal, after);
    if |l.queue| >= MAX_SIGNAL_QUEUE {
      AppendKeepsIncreasing(l.queue[1..], |l.accepted|);
    } else {
      AppendKeepsIncreasing(l.queue, |l.accepted|);
    }
  }

  lemma MovedKeepsBalanced(l: Ledger, device: Uuid, taken: seq<nat>, kept: seq<nat>)
    requires Balanced(l) && multiset(l.queue) == multiset(taken) + multiset(kept)
    ensures Balanced(l.(queue := kept, delivered := l.delivered + Deliveries(device, taken)))
  {
    var after := l.(queue := kept, delivered := l.delivered + Deliveries(device, taken));
    assert DeliveredSerials(after.delivered) == DeliveredSerials(l.delivered) + taken;
  }

  /** What a fetch takes is addressed to the device and precedes everything of its call that stays. */
  lemma FetchTakesOldest(l: Ledger, device: Uuid, callId: Option<string>, limit: nat, taken: nat)
    requires Good(l)
    requires var mask := TakenMask(Signals(l.accepted, l.queue), device, callId, limit);
             taken in Select<nat>(l.queue, mask, true)
    ensures taken in l.queue && taken < |l.accepted| && l.accepted[taken].toDevice == device
    ensures var mask := TakenMask(Signals(l.accepted, l.queue), device, callId, limit);
            forall kept | kept in Select<nat>(l.queue, mask, false) ::
              kept in l.queue && (SameCall(l.accepted[taken], l.accepted[kept]) ==> taken < kept)
  {
    var signals := Signals(l.accepted, l.queue);
    var mask := TakenMask(signals, device, callId, limit);
    SelectPicks(l.queue, mask, true, taken);
    var j :| 0 <= j < |l.queue| && l.queue[j] == taken && mask[j];
    forall kept | kept in Select<nat>(l.queue, mask, false)
      ensures kept in l.queue && (SameCall(l.accepted[taken], l.accepted[kept]) ==> taken < kept)
    {
      SelectPicks(l.queue, mask, false, kept);
      var i :| 0 <= i < |l.queue| && l.queue[i] == kept && !mask[i];
      if i < j && SameCall(l.accepted[taken], l.accepted[kept]) {
        TakenIsPrefix(signals, device, callId, limit, i, j);
      }
    }
  }

  /** What a fetch takes and what it leaves, against the ledger before. */
  lemma FetchSplits(l: Ledger, device: Uuid, callId: Option<string>, limit: nat, taken: seq<nat>, kept: seq<nat>)
    requires Good(l)
    requires var mask := TakenMask(Signals(l.accepted, l.queue), device, callId, limit);
             taken == Select<nat>(l.queue, mask, true) && kept == Select<nat>(l.queue, mask, false)
    ensures Increasing(taken)
    ensures forall i | 0 <= i < |taken| ::
              taken[i] in l.queue && taken[i] < |l.accepted| && l.accepted[taken[i]].toDevice == device
    ensures forall j | 0 <= j < |kept| :: kept[j] in l.queue && kept[j] < |l.accepted|
    ensures forall i, j | 0 <= i < |taken| && 0 <= j < |kept| && SameCall(l.accepted[taken[i]], l.accepted[kept[j]]) ::
              taken[i] < kept[j]
  {
    var mask := TakenMask(Signals(l.accepted, l.queue), device, callId, limit);
    SelectKeepsIncreasing(l.queue, mask, true);
    forall j | 0 <= j < |kept| ensures kept[j] in l.queue && kept[j] < |l.accepted| {
      SelectPicks(l.queue, mask, false, kept[j]);
    }
    forall i | 0 <= i < |taken|
      ensures taken[i] in l.queue && taken[i] < |l.accepted| && l.accepted[taken[i]].toDevice == device
      ensures forall j | 0 <= j < |kept| && SameCall(l.accepted[taken[i]], l.accepted[kept[j]]) :: taken[i] < kept[j]
    {
      FetchTakesOldest(l, device, callId, limit, taken[i]);
    }
  }

  lemma FetchKeepsOrder(l: Ledger, device: Uuid, callId: Option<string>, limit: nat)
    requires Good(l)
    ensures InRange(Step(l, Fetch(device, callId, limit))) && Addressed(Step(l, Fetch(device, callId, limit)))
    ensures InOrder(Step(l, Fetch(device, callId, limit)))
  {
    var mask := TakenMask(Signals(l.accepted, l.queue), device, callId, limit);
    var taken, kept := Select<nat>(l.queue, mask, true), Select<nat>(l.queue, mask, false);
    FetchSplits(l, device, callId, limit, taken, kept);
    MovedKeepsOrder(l, device, taken, kept);
  }

  /** Moving `taken` to the delivered list and leaving `kept` queued keeps the order. */
  lemma MovedKeepsOrder(l: Ledger, device: Uuid, taken: seq<nat>, kept: seq<nat>)
    requires Good(l) && Increasing(taken)
    requires forall i | 0 <= i < |taken| ::
               taken[i] in l.queue && taken[i] < |l.accepted| && l.accepted[taken[i]].toDevice == device
    requires forall j | 0 <= j < |kept| :: kept[j] in l.queue && kept[j] < |l.accepted|
    requires forall i, j | 0 <= i < |taken| && 0 <= j < |kept| && SameCall(l.accepted[taken[i]], l.accepted[kept[j]]) ::
               taken[i] < kept[j]
    ensures var after := l.(queue := kept, delivered := l.delivered + Deliveries(device, taken));
            InRange(after) && Addressed(after) && InOrder(after)
  {
  }

  lemma StepKeepsGood(l: Ledger, event: Event)
    requires Good(l)
    ensures Good(Step(l, event))
  {
    match event
    case Send(signal) => SendKeepsGood(l, signal);
    case Fetch(device, callId, limit) =>
      var mask := TakenMask(Signals(l.accepted, l.queue), device, callId, limit);
      SelectPartitions(l.queue, mask);
      MovedKeepsBalanced(l, device, Select<nat>(l.queue, mask, true), Select<nat>(l.queue, mask, false));
      FetchKeepsOrder(l, device, callId, limit);
      SelectKeepsIncreasing(l.queue, mask, false);
      SelectIsShorter(l.queue, mask, false);
  }

  const EMPTY := Ledger([], [], [], [])

  ghost predicate IsRun(states: seq<Ledger>, events: seq<Event>) {
    && |states| == |events| + 1
    && states[0] == EMPTY
    && forall k | 0 <= k < |events| :: InRange(states[k]) && states[k + 1] == Step(states[k], events[k])
  }

  lemma EmptyIsGood()
    ensures Good(EMPTY)
  {
    assert Serials(0) == [] && DeliveredSerials([]) == [] && EvictedSerials([]) == [];
  }

  lemma {:induction false} RunKeepsGood(states: seq<Ledger>, events: seq<Event>, k: nat)
    requires IsRun(states, events) && k <= |events|
    ensures Good(states[k])
  {
    if k > 0 {
      RunKeepsGood(states, events, k - 1);
      StepKeepsGood(states[k - 1], events[k - 1]);
    } else {
      EmptyIsGood();
    }
  }

  // ------------------------------------------------------------------
  // What every run gives

  lemma SerialOccursOnce(n: nat, s: nat)
    ensures multiset(Serials(n))[s] == if s < n then 1 else 0
  {
    if n > 0 {
      SerialOccursOnce(n - 1, s);
      assert Serials(n) == Serials(n - 1) + [n - 1];
    }
  }

  /** Every accepted signal is in exactly one place, exactly once: queued, delivered to its addressee, or evicted. */
  lemma EverySignalOnce(states: seq<Ledger>, events: seq<Event>, k: nat, s: nat)
    requires IsRun(states, events) && k <= |events|
    ensures var l := states[k];
            multiset(l.queue)[s] + multiset(DeliveredSerials(l.delivered))[s] + multiset(EvictedSerials(l.evicted))[s]
            == if s < |l.accepted| then 1 else 0
    ensures forall i | 0 <= i < |states[k].delivered| ::
              && states[k].delivered[i].serial < |states[k].accepted|
              && states[k].accepted[states[k].delivered[i].serial].toDevice == states[k].delivered[i].device
  {
    RunKeepsGood(states, events, k);
    SerialOccursOnce(|states[k].accepted|, s);
  }

  /** One device receives the signals of one call in the order the server accepted them. */
  lemma CallsStayInOrder(states: seq<Ledger>, events: seq<Event>, k: nat, i: nat, j: nat)
    requires IsRun(states, events) && k <= |events| && i < j < |states[k].delivered|
    ensures var l := states[k];
            && l.delivered[i].serial < |l.accepted| && l.delivered[j].serial < |l.accepted|
            && (SameCall(l.accepted[l.delivered[i].serial], l.accepted[l.delivered[j].serial]) ==>
                  l.delivered[i].serial < l.delivered[j].serial)
  {
    RunKeepsGood(states, events, k);
  }

  /** The queue never exceeds its bound, and an evicted signal saw at least 2048 later ones accepted. */
  lemma EvictionsComeLate(states: seq<Ledger>, events: seq<Event>, k: nat, i: nat)
    requires IsRun(states, events) && k <= |events|
    ensures |states[k].queue| <= 2048
    ensures i < |states[k].evicted| ==>
              states[k].evicted[i].serial + 2048 <= states[k].evicted[i].pushedBy < |states[k].accepted|
  {
    RunKeepsGood(states, events, k);
  }
}
