/**
 The in-memory call-signal queue (crates/server/src/domain/call_signaling.rs): one bounded
 queue for all devices, a send that evicts the oldest, and a fetch that filters and keeps the rest.
 */
module CallSignals {
  import opened Wrappers

  type Uuid = string

  const MAX_SIGNAL_QUEUE: nat := 2048

  datatype CallSignalItem = CallSignalItem(callId: string, fromDevice: Uuid, kind: string, payload: string, createdAt: int)

  datatype QueuedCallSignal = QueuedCallSignal(toDevice: Uuid, item: CallSignalItem)

  datatype SignalError =
    | DeviceMismatch | InvalidCallSignal | RecipientNotFound | RecipientBlockedYou | YouBlockedRecipient | RecipientOffline

  /** What the directory, the block list and the presence table answer about one send. */
  datatype SendChecks = SendChecks(
    fromUser: Option<string>, toUser: Option<string>, blocker: Option<string>, online: bool)

  /** The Unicode White_Space property. */
  predicate IsWhitespace(c: char) {
    var n := c as int;
    || 0x09 <= n <= 0x0D || n == 0x20 || n == 0x85 || n == 0xA0 || n == 0x1680
    || 0x2000 <= n <= 0x200A || n == 0x2028 || n == 0x2029 || n == 0x202F || n == 0x205F || n == 0x3000
  }

  /** str::trim leaves nothing. */
  predicate Blank(s: string) {
    forall i | 0 <= i < |s| :: IsWhitespace(s[i])
  }

  predicate MaySend(authDevice: Uuid, from: Uuid, callId: string, kind: string, checks: SendChecks) {
    && authDevice == from && !Blank(callId) && !Blank(kind)
    && checks.fromUser.Some? && checks.toUser.Some? && checks.blocker.None? && checks.online
  }

  /** The answer to a send that is refused: the first check that fails. */
  function Refusal(authDevice: Uuid, from: Uuid, callId: string, kind: string, checks: SendChecks): SignalError {
    if authDevice != from then DeviceMismatch
    else if Blank(callId) || Blank(kind) then InvalidCallSignal
    else if checks.fromUser.None? then DeviceMismatch
    else if checks.toUser.None? then RecipientNotFound
    else if checks.blocker.None? then RecipientOffline
    else if checks.blocker == checks.toUser then RecipientBlockedYou
    else YouBlockedRecipient
  }

  // ------------------------------------------------------------------
  // The queue operations as functions

  function Enqueued<T>(queue: seq<T>, signal: T): seq<T> {
    (if |queue| >= MAX_SIGNAL_QUEUE then queue[1..] else queue) + [signal]
  }

  predicate Matches(signal: QueuedCallSignal, device: Uuid, callId: Option<string>) {
    signal.toDevice == device && (callId.None? || callId.value == signal.item.callId)
  }

  function MatchCount(queue: seq<QueuedCallSignal>, device: Uuid, callId: Option<string>): nat {
    if queue == [] then 0
    else MatchCount(queue[..|queue| - 1], device, callId) + if Matches(queue[|queue| - 1], device, callId) then 1 else 0
  }

  /** Position i is handed out: it matches and fewer than `limit` matches precede it. */
  predicate Taken(queue: seq<QueuedCallSignal>, device: Uuid, callId: Option<string>, limit: nat, i: nat)
    requires i < |queue|
  {
    Matches(queue[i], device, callId) && MatchCount(queue[..i], device, callId) < limit
  }

  function TakenMask(queue: seq<QueuedCallSignal>, device: Uuid, callId: Option<string>, limit: nat): (mask: seq<bool>)
    ensures |mask| == |queue|
  {
    seq(|queue|, i requires 0 <= i < |queue| => Taken(queue, device, callId, limit, i))
  }

  /** The entries of xs whose mask bit equals `bit`, in order. */
  function Select<T>(xs: seq<T>, mask: seq<bool>, bit: bool): seq<T>
    requires |mask| == |xs|
  {
    if xs == [] then []
    else
      var last := |xs| - 1;
      Select(xs[..last], mask[..last], bit) + if mask[last] == bit then [xs[last]] else []
  }

  function Items(signals: seq<QueuedCallSignal>): (items: seq<CallSignalItem>)
    ensures |items| == |signals| && forall i | 0 <= i < |items| :: items[i] == signals[i].item
  {
    seq(|signals|, i requires 0 <= i < |signals| => signals[i].item)
  }

  function FetchLimit(limit: Option<nat>): (r: nat)
    ensures 1 <= r <= 500 && (limit == None ==> r == 100)
    ensures limit != None ==> r == if limit.value < 1 then 1 else if limit.value > 500 then 500 else limit.value
  {
    var wanted := if limit.Some? then limit.value else 100;
    if wanted < 1 then 1 else if wanted > 500 then 500 else wanted
  }

  // ------------------------------------------------------------------
  // The queue object

  class CallSignalQueue {
    var queue: seq<QueuedCallSignal>

    constructor ()
      ensures queue == []
    {
      queue := [];
    }

    method SendCallSignal(
        authDevice: Uuid, from: Uuid, to: Uuid, callId: string, kind: string, payload: string,
        checks: SendChecks, now: int)
      returns (result: Result<bool, SignalError>)
      modifies this
      ensures result.Ok? <==> MaySend(authDevice, from, callId, kind, checks)
      ensures result.Ok? <==>
                && authDevice == from && !Blank(callId) && !Blank(kind)
                && checks.fromUser != None && checks.toUser != None && checks.blocker == None && checks.online
      ensures result.Err? && authDevice == from && !Blank(callId) && !Blank(kind) && checks.fromUser != None && checks.toUser != None ==>
                result.error == (if checks.blocker == None then RecipientOffline
                                 else if checks.blocker == checks.toUser then RecipientBlockedYou else YouBlockedRecipient)
      ensures result.Ok? ==>
                queue == (if |old(queue)| >= 2048 then old(queue)[1..] else old(queue)) +
                         [QueuedCallSignal(to, CallSignalItem(callId, from, kind, payload, now))]
      ensures result.Err? ==> result.error == Refusal(authDevice, from, callId, kind, checks)
      ensures queue == if result.Ok?
                       then Enqueued(old(queue), QueuedCallSignal(to, CallSignalItem(callId, from, kind, payload, now)))
                       else old(queue)
    {
      if authDevice != from {
        return Err(DeviceMismatch);
      }
      if Blank(callId) || Blank(kind) {
        return Err(InvalidCallSignal);
      }
      if checks.fromUser.None? {
        return Err(DeviceMismatch);
      }
      if checks.toUser.None? {
        return Err(RecipientNotFound);
      }
      if checks.blocker.Some? {
        if checks.blocker.value == checks.toUser.value {
          return Err(RecipientBlockedYou);
        }
        return Err(YouBlockedRecipient);
      }
      if !checks.online {
        return Err(RecipientOffline);
      }
      if |queue| >= MAX_SIGNAL_QUEUE {
        queue := queue[1..];
      }
      queue := queue + [QueuedCallSignal(to, CallSignalItem(callId, from, kind, payload, now))];
      result := Ok(true);
    }

    /** Pop every signal once; the first `limit` matches go out, everything else stays in order. */
    method FetchCallSignals(authDevice: Uuid, device: Uuid, callId: Option<string>, wanted: Option<nat>)
      returns (result: Result<seq<CallSignalItem>, SignalError>)
      modifies this
      ensures result.Err? <==> authDevice != device
      ensures result.Err? ==> queue == old(queue)
      ensures result.Ok? ==>
                var mask := TakenMask(old(queue), device, callId, FetchLimit(wanted));
                && result.value == Items(Select(old(queue), mask, true))
                && queue == Select(old(queue), mask, false)
    {
      if authDevice != device {
        return Err(DeviceMismatch);
      }
      var limit := FetchLimit(wanted);
      var signals: seq<CallSignalItem> := [];
      var retained: seq<QueuedCallSignal> := [];
      ghost var all := queue;
      ghost var mask := TakenMask(all, device, callId, limit);
      ghost var n, taken := 0, [];
      while queue != []
        invariant n <= |all| && queue == all[n..]
        invariant taken == Select(all[..n], mask[..n], true) && retained == Select(all[..n], mask[..n], false)
        invariant signals == Items(taken) && |taken| == Least(MatchCount(all[..n], device, callId), limit)
        decreases |queue|
      {
        var signal := queue[0];
        queue := queue[1..];
        FetchStep(all, device, callId, limit, n);
        var callMatches := callId.None? || callId.value == signal.item.callId;
        if signal.toDevice == device && callMatches && |signals| < limit {
          ItemsOneMore(taken, signal);
          signals := signals + [signal.item];
          taken := taken + [signal];
        } else {
          retained := retained + [signal];
        }
        n := n + 1;
      }
      assert all[..n] == all && mask[..n] == mask;
      queue := retained;
      result := Ok(signals);
    }
  }

  lemma ItemsOneMore(signals: seq<QueuedCallSignal>, signal: QueuedCallSignal)
    ensures Items(signals + [signal]) == Items(signals) + [signal.item]
  {
  }

  /** What the n-th pop adds to what goes out and to what stays. */
  lemma FetchStep(all: seq<QueuedCallSignal>, device: Uuid, callId: Option<string>, limit: nat, n: nat)
    requires n < |all|
    requires var mask := TakenMask(all, device, callId, limit);
             |Select(all[..n], mask[..n], true)| == Least(MatchCount(all[..n], device, callId), limit)
    ensures var mask := TakenMask(all, device, callId, limit);
            var taken, kept := Select(all[..n], mask[..n], true), Select(all[..n], mask[..n], false);
            var takes := Matches(all[n], device, callId) && |taken| < limit;
            && Select(all[..n + 1], mask[..n + 1], true) == (if takes then taken + [all[n]] else taken)
            && Select(all[..n + 1], mask[..n + 1], false) == (if takes then kept else kept + [all[n]])
            && |Select(all[..n + 1], mask[..n + 1], true)| == Least(MatchCount(all[..n + 1], device, callId), limit)
  {
    var mask := TakenMask(all, device, callId, limit);
    SelectStep(all, mask, n, true);
    SelectStep(all, mask, n, false);
    MatchCountStep(all, device, callId, n);
  }

  /** The signal is for this device and, when a call is named, of that call. */
  ghost predicate Wanted(signal: QueuedCallSignal, device: Uuid, callId: Option<string>) {
    signal.toDevice == device && forall id :: callId == Some(id) ==> signal.item.callId == id
  }

  lemma {:induction false} SelectByMask(xs: seq<QueuedCallSignal>, mask: seq<bool>, bit: bool, s: QueuedCallSignal)
    requires |mask| == |xs| && s in Select(xs, mask, bit)
    ensures exists i | 0 <= i < |xs| :: xs[i] == s && mask[i] == bit
  {
    var last := |xs| - 1;
    if s in Select(xs[..last], mask[..last], bit) {
      SelectByMask(xs[..last], mask[..last], bit, s);
      var i :| 0 <= i < last && xs[..last][i] == s && mask[..last][i] == bit;
      assert xs[i] == s && mask[i] == bit;
    } else {
      assert xs[last] == s && mask[last] == bit;
    }
  }

  lemma {:induction false} SelectSplits(xs: seq<QueuedCallSignal>, mask: seq<bool>)
    requires |mask| == |xs|
    ensures multiset(Select(xs, mask, true)) + multiset(Select(xs, mask, false)) == multiset(xs)
  {
    if xs != [] {
      var last := |xs| - 1;
      var taken, kept := Select(xs[..last], mask[..last], true), Select(xs[..last], mask[..last], false);
      SelectSplits(xs[..last], mask[..last]);
      OneMoreSplits(xs[..last], taken, kept, xs[last], mask[last]);
      assert xs == xs[..last] + [xs[last]];
    }
  }

  lemma OneMoreSplits(
    xs: seq<QueuedCallSignal>, taken: seq<QueuedCallSignal>, kept: seq<QueuedCallSignal>, x: QueuedCallSignal, bit: bool)
    requires multiset(taken) + multiset(kept) == multiset(xs)
    ensures multiset(taken + if bit == true then [x] else []) + multiset(kept + if bit == false then [x] else [])
            == multiset(xs + [x])
  {
    assert taken + [] == taken && kept + [] == kept;
  }

  lemma {:induction false} TakenIsLeast(queue: seq<QueuedCallSignal>, device: Uuid, callId: Option<string>, limit: nat, n: nat)
    requires n <= |queue|
    ensures var mask := TakenMask(queue, device, callId, limit);
            |Select(queue[..n], mask[..n], true)| == Least(MatchCount(queue[..n], device, callId), limit)
  {
    if n > 0 {
      TakenIsLeast(queue, device, callId, limit, n - 1);
      SelectStep(queue, TakenMask(queue, device, callId, limit), n - 1, true);
      MatchCountStep(queue, device, callId, n - 1);
    }
  }

  lemma {:induction false} MatchCountGrows(queue: seq<QueuedCallSignal>, device: Uuid, callId: Option<string>, i: nat, j: nat)
    requires i <= j <= |queue|
    ensures MatchCount(queue[..i], device, callId) <= MatchCount(queue[..j], device, callId)
    decreases j
  {
    if i < j {
      MatchCountGrows(queue, device, callId, i, j - 1);
      assert queue[..j][..j - 1] == queue[..j - 1];
    }
  }

  lemma TakenIsWanted(queue: seq<QueuedCallSignal>, device: Uuid, callId: Option<string>, limit: nat, s: QueuedCallSignal)
    requires s in Select(queue, TakenMask(queue, device, callId, limit), true)
    ensures Wanted(s, device, callId)
  {
    var mask := TakenMask(queue, device, callId, limit);
    SelectByMask(queue, mask, true, s);
    var i :| 0 <= i < |queue| && queue[i] == s && mask[i] == true;
    assert Taken(queue, device, callId, limit, i);
  }

  lemma WantedIsKeptWhenFull(queue: seq<QueuedCallSignal>, device: Uuid, callId: Option<string>, limit: nat, s: QueuedCallSignal)
    requires s in Select(queue, TakenMask(queue, device, callId, limit), false) && Wanted(s, device, callId)
    ensures MatchCount(queue[..|queue|], device, callId) >= limit
  {
    var mask := TakenMask(queue, device, callId, limit);
    SelectByMask(queue, mask, false, s);
    var i :| 0 <= i < |queue| && queue[i] == s && mask[i] == false;
    assert !Taken(queue, device, callId, limit, i);
    MatchCountGrows(queue, device, callId, i, |queue|);
  }

  /**
   A fetch hands out only signals for this device and this call, at most `limit` of them, and leaves a
   wanted one only when the limit is reached; what it hands out and what it leaves are the whole queue.
   */
  lemma FetchIsExact(queue: seq<QueuedCallSignal>, device: Uuid, callId: Option<string>, limit: nat)
    ensures var mask := TakenMask(queue, device, callId, limit);
            var taken, kept := Select(queue, mask, true), Select(queue, mask, false);
            && (forall s | s in taken :: Wanted(s, device, callId))
            && |taken| <= limit
            && (forall s | s in kept && Wanted(s, device, callId) :: |taken| == limit)
            && multiset(taken) + multiset(kept) == multiset(queue)
  {
    var mask := TakenMask(queue, device, callId, limit);
    SelectSplits(queue, mask);
    TakenIsLeast(queue, device, callId, limit, |queue|);
    assert queue[..|queue|] == queue && mask[..|mask|] == mask;
    forall s | s in Select(queue, mask, true) ensures Wanted(s, device, callId) {
      TakenIsWanted(queue, device, callId, limit, s);
    }
    forall s | s in Select(queue, mask, false) && Wanted(s, device, callId)
      ensures MatchCount(queue[..|queue|], device, callId) >= limit
    {
      WantedIsKeptWhenFull(queue, device, callId, limit, s);
    }
  }

  lemma SelectStep(xs: seq<QueuedCallSignal>, mask: seq<bool>, n: nat, bit: bool)
    requires |mask| == |xs| && n < |xs|
    ensures Select(xs[..n + 1], mask[..n + 1], bit) ==
            Select(xs[..n], mask[..n], bit) + if mask[n] == bit then [xs[n]] else []
  {
    assert xs[..n + 1][..n] == xs[..n] && mask[..n + 1][..n] == mask[..n];
  }

  lemma MatchCountStep(queue: seq<QueuedCallSignal>, device: Uuid, callId: Option<string>, n: nat)
    requires n < |queue|
    ensures MatchCount(queue[..n + 1], device, callId) ==
            MatchCount(queue[..n], device, callId) + if Matches(queue[n], device, callId) then 1 else 0
  {
    assert queue[..n + 1][..n] == queue[..n];
  }

  function Least(a: nat, b: nat): nat {
    if a < b then a else b
  }
}
