/**
 Runs of the chat history: message ids stay distinct, and an unread counter never
 claims more than its chat holds, however acknowledgements fail or succeed.
 */
module HistoryRuns {
  import opened Wrappers
  import opened PeerSessions
  import opened Mailbox
  import opened ChatHistory

  datatype AppStep =
    | Arrive(msg: DecryptedMessage)
    | MarkSelected
    | Click(name: string)
    | OpenChat(peer: string, device: DeviceId)
    | PollAck(outcome: AckOutcome)
    | Statuses(statuses: seq<Status>)
    | Compose(text: string, ts: int, id: MessageId)
    | SendDone(name: string, index: nat, ok: bool)
    | LearnPeer(device: DeviceId, peer: string)
    | Delete(name: string)
    | LogOut
    | LogIn(saved: AppState)

  function Step(rendering: Rendering, st: AppState, step: AppStep): AppState {
    match step
    case Arrive(msg) => Pushed(rendering, st, msg)
    case MarkSelected => SelectedMarked(st).0
    case Click(name) => Clicked(st, name)
    case OpenChat(peer, device) => ChatOpened(st, peer, device)
    case PollAck(outcome) => AckPolled(st, outcome)
    case Statuses(statuses) => st.(chats := StatusesApplied(st.chats, statuses))
    case Compose(text, ts, id) => Composed(st, st.selected, text, ts, id)
    case SendDone(name, index, ok) => StatusUpdated(st, name, index, if ok then Sent else Failed)
    case LearnPeer(device, peer) => PeerLearned(st, device, peer)
    case Delete(name) => Deleted(st, name)
    case LogOut => LoggedOut(st)
    case LogIn(saved) => LoggedIn(st, saved)
  }

  ghost predicate IncomingWithId(chats: Chats, id: MessageId) {
    exists name, i | name in chats && 0 <= i < |chats[name]| ::
      !chats[name][i].outgoing && chats[name][i].messageId == Some(id)
  }

  /**
   What the rest of the system guarantees about a step: new ids are fresh, a report does not call a
   received message read, a history read back keeps its own counters, and no step loses the messages
   of an acknowledgement on its way. A late send result may hit any message.
   */
  ghost predicate Allowed(st: AppState, step: AppStep) {
    match step
    case Statuses(statuses) =>
      forall k | 0 <= k < |statuses| && statuses[k].read :: !IncomingWithId(st.chats, statuses[k].messageId)
    case Compose(text, ts, id) => !HasId(st.chats, id)
    case Delete(name) => !AckOnItsWay(st, name)
    case LogOut => st.readAck.None?
    case LogIn(saved) => DistinctIds(saved.chats) && CountersOk(saved) && HoldsAck(st.readAck, saved)
    case _ => true
  }

  /** The history read back has room for every message the acknowledgement may give back. */
  predicate HoldsAck(ack: Option<ReadAck>, saved: AppState) {
    ack.Some? ==>
      Unread(saved.unread, ack.value.chat) + |ack.value.ids| <= Recoverable(ChatOf(saved.chats, ack.value.chat), ack.value.ids)
  }

  predicate AckOnItsWay(st: AppState, name: string) {
    st.readAck.Some? && st.readAck.value.chat == name
  }

  // ------------------------------------------------------------------
  // The invariant

  ghost predicate DistinctIds(chats: Chats) {
    forall a, i, b, j | SameId(chats, a, i, b, j) :: a == b && i == j
  }

  predicate SameId(chats: Chats, a: string, i: int, b: string, j: int) {
    && a in chats && b in chats && 0 <= i < |chats[a]| && 0 <= j < |chats[b]|
    && chats[a][i].messageId.Some? && chats[a][i].messageId == chats[b][j].messageId
  }

  /** How many received messages of a chat are not marked Read. */
  function UnreadHeld(messages: seq<ChatMessage>): nat {
    if messages == [] then 0
    else UnreadHeld(messages[..|messages| - 1]) + if AwaitsRead(messages[|messages| - 1]) then 1 else 0
  }

  /** How many received messages are marked Read and named by the acknowledgement. */
  function ReadNamed(messages: seq<ChatMessage>, ids: seq<MessageId>): nat {
    if messages == [] then 0
    else
      var last := messages[|messages| - 1];
      ReadNamed(messages[..|messages| - 1], ids) +
      if !last.outgoing && last.status == Read && IdAmong(last, ids) then 1 else 0
  }

  predicate CounterOk(unread: map<string, nat>, chats: Chats, name: string) {
    Unread(unread, name) <= UnreadHeld(ChatOf(chats, name))
  }

  ghost predicate CountersOk(st: AppState) {
    forall name :: CounterOk(st.unread, st.chats, name)
  }

  /** How many received messages would not be marked Read if the acknowledgement failed. */
  function Recoverable(messages: seq<ChatMessage>, ids: seq<MessageId>): nat {
    UnreadHeld(messages) + ReadNamed(messages, ids)
  }

  /** Giving the acknowledged ids back would not make the counter claim too much. */
  ghost predicate AckCovered(st: AppState) {
    HoldsAck(st.readAck, st) && (st.readAck.Some? ==> st.readAck.value.ids != [])
  }

  ghost predicate Good(st: AppState) {
    DistinctIds(st.chats) && CountersOk(st) && AckCovered(st)
  }

  // ------------------------------------------------------------------
  // Counting

  ghost function Awaiting(messages: seq<ChatMessage>): set<int> {
    set i | 0 <= i < |messages| && !messages[i].outgoing && messages[i].status != Read
  }

  lemma AwaitingOneMore(messages: seq<ChatMessage>)
    requires messages != []
    ensures var last := |messages| - 1;
            Awaiting(messages) == Awaiting(messages[..last]) + if AwaitsRead(messages[last]) then {last} else {}
  {
  }

  /** The number a counter may not exceed: the received messages of the chat not marked Read. */
  lemma {:induction false} UnreadHeldIsCount(messages: seq<ChatMessage>)
    ensures UnreadHeld(messages) == |Awaiting(messages)|
  {
    if messages != [] {
      UnreadHeldIsCount(messages[..|messages| - 1]);
      AwaitingOneMore(messages);
    }
  }

  lemma CountsOfAppend(messages: seq<ChatMessage>, m: ChatMessage, ids: seq<MessageId>)
    ensures UnreadHeld(messages + [m]) == UnreadHeld(messages) + if AwaitsRead(m) then 1 else 0
    ensures ReadNamed(messages + [m], ids) >= ReadNamed(messages, ids)
  {
    assert (messages + [m])[..|messages|] == messages;
  }

  /** Same ids and directions, and no received message newly marked Read. */
  ghost predicate NoNewReads(before: seq<ChatMessage>, after: seq<ChatMessage>) {
    && |before| == |after|
    && forall i | 0 <= i < |before| ::
      && after[i].outgoing == before[i].outgoing && after[i].messageId == before[i].messageId
      && (!before[i].outgoing && after[i].status == Read ==> before[i].status == Read)
  }

  lemma {:induction false} NoNewReadsKeepCounts(before: seq<ChatMessage>, after: seq<ChatMessage>, ids: seq<MessageId>)
    requires NoNewReads(before, after)
    ensures UnreadHeld(after) >= UnreadHeld(before) && Recoverable(after, ids) >= Recoverable(before, ids)
  {
    if before != [] {
      NoNewReadsKeepCounts(before[..|before| - 1], after[..|after| - 1], ids);
    }
  }

  /** Restoring a failed acknowledgement gives back every message that was marked Read under it. */
  lemma {:induction false} RestoredCounts(messages: seq<ChatMessage>, ids: seq<MessageId>)
    ensures UnreadHeld(Restored(messages, ids)) == UnreadHeld(messages) + ReadNamed(messages, ids)
  {
    if messages != [] {
      var init := messages[..|messages| - 1];
      RestoredCounts(init, ids);
      assert Restored(messages, ids)[..|messages| - 1] == Restored(init, ids);
    }
  }

  lemma {:induction false} MarkedCounts(messages: seq<ChatMessage>, ids: seq<MessageId>)
    requires forall id | id in UnreadIds(messages) :: id in ids
    ensures ReadNamed(MarkedRead(messages), ids) >= |UnreadIds(messages)|
  {
    if messages != [] {
      var init := messages[..|messages| - 1];
      var last := messages[|messages| - 1];
      assert UnreadIds(messages) == UnreadIds(init) +
        if AwaitsRead(last) && last.messageId.Some? then [last.messageId.value] else [];
      MarkedCounts(init, ids);
      assert MarkedRead(messages)[..|messages| - 1] == MarkedRead(init);
      if AwaitsRead(last) && last.messageId.Some? {
        assert UnreadIds(messages)[|UnreadIds(init)|] == last.messageId.value;
      }
    }
  }

  // ------------------------------------------------------------------
  // Each step keeps the invariant

  /** Changing only statuses leaves ids where they are. */
  lemma SameIdsStayDistinct(before: Chats, after: Chats)
    requires DistinctIds(before)
    requires forall name | name in after ::
               && name in before && |after[name]| == |before[name]|
               && forall i | 0 <= i < |after[name]| :: after[name][i].messageId == before[name][i].messageId
    ensures DistinctIds(after)
  {
    assert forall a, i, b, j | SameId(after, a, i, b, j) :: SameId(before, a, i, b, j);
  }

  lemma AppendedStaysDistinct(before: Chats, name: string, m: ChatMessage)
    requires DistinctIds(before) && (m.messageId.Some? ==> !HasId(before, m.messageId.value))
    ensures DistinctIds(before[name := ChatOf(before, name) + [m]])
  {
    var after := before[name := ChatOf(before, name) + [m]];
    forall a, i, b, j | SameId(after, a, i, b, j) ensures a == b && i == j {
      assert i < |ChatOf(before, a)| && j < |ChatOf(before, b)| ==> SameId(before, a, i, b, j);
      if m.messageId.Some? {
        var id := m.messageId.value;
        assert forall c | c in before :: !IdIn(before[c], id);
        assert forall c, k | c in before && 0 <= k < |before[c]| :: before[c][k].messageId != Some(id);
      }
    }
  }

  lemma EmptyChatKeepsGood(st: AppState, name: string)
    requires Good(st)
    ensures Good(st.(chats := st.chats[name := ChatOf(st.chats, name)]))
  {
    var after := st.(chats := st.chats[name := ChatOf(st.chats, name)]);
    EmptyChatKeepsDistinct(st.chats, name);
    forall other ensures CounterOk(after.unread, after.chats, other) {
      assert CounterOk(st.unread, st.chats, other);
    }
  }

  lemma ArriveKeepsGood(rendering: Rendering, st: AppState, msg: DecryptedMessage)
    requires Good(st)
    ensures Good(Pushed(rendering, st, msg))
  {
    var nick := Nick(st.peerByDevice, msg.fromDevice);
    if HasId(st.chats, msg.messageId) {
    } else if rendering.parse(msg.text).Contact? {
      EmptyChatKeepsGood(st, nick);
    } else {
      var m := IncomingMessage(rendering, msg);
      AppendedStaysDistinct(st.chats, nick, m);
      CountsOfAppend(ChatOf(st.chats, nick), m, if st.readAck.Some? then st.readAck.value.ids else []);
      var after := Pushed(rendering, st, msg);
      forall name ensures CounterOk(after.unread, after.chats, name) {
        assert CounterOk(st.unread, st.chats, name);
      }
    }
  }

  lemma MarkKeepsGood(st: AppState)
    requires Good(st)
    ensures Good(SelectedMarked(st).0)
  {
    if st.readAck.None? && st.selected != "" && st.selected in st.chats {
      var messages := st.chats[st.selected];
      var after := SelectedMarked(st).0;
      SameIdsStayDistinct(st.chats, after.chats);
      MarkedCounts(messages, UnreadIds(messages));
      forall name ensures CounterOk(after.unread, after.chats, name) {
        assert CounterOk(st.unread, st.chats, name);
      }
    }
  }

  /** The failed acknowledgement's ids go back on the counter of its own chat. */
  lemma FailedAckKeepsGood(st: AppState)
    requires Good(st) && st.readAck.Some?
    ensures Good(AckPolled(st, Answered(false)))
  {
    var ack, after := st.readAck.value, AckPolled(st, Answered(false));
    var messages := ChatOf(st.chats, ack.chat);
    RestoredCounts(messages, ack.ids);
    SameIdsStayDistinct(st.chats, after.chats);
    assert ack.chat in st.chats;
    forall name ensures CounterOk(after.unread, after.chats, name) {
      assert CounterOk(st.unread, st.chats, name);
    }
  }

  lemma PollKeepsGood(st: AppState, outcome: AckOutcome)
    requires Good(st)
    ensures Good(AckPolled(st, outcome))
  {
    if st.readAck.Some? && outcome == Answered(false) {
      FailedAckKeepsGood(st);
    } else {
      assert forall name :: CounterOk(st.unread, st.chats, name) ==> CounterOk(AckPolled(st, outcome).unread, st.chats, name);
    }
  }

  lemma {:induction false} StatusesAddNoReads(chats: Chats, statuses: seq<Status>)
    requires forall k | 0 <= k < |statuses| && statuses[k].read :: !IncomingWithId(chats, statuses[k].messageId)
    ensures var after := StatusesApplied(chats, statuses);
            after.Keys == chats.Keys && forall name | name in chats :: NoNewReads(chats[name], after[name])
  {
    if statuses != [] {
      var init := statuses[..|statuses| - 1];
      StatusesAddNoReads(chats, init);
      var before := StatusesApplied(chats, init);
      var s := statuses[|statuses| - 1];
      forall name | name in chats ensures NoNewReads(chats[name], WithStatus(before[name], s.messageId, StatusFor(s))) {
        if s.read {
          assert forall i | 0 <= i < |chats[name]| && !chats[name][i].outgoing :: chats[name][i].messageId != Some(s.messageId);
        }
      }
    }
  }

  /** Statuses may change in any way that marks no received message Read. */
  lemma NoNewReadsKeepGood(st: AppState, after: Chats)
    requires Good(st) && after.Keys == st.chats.Keys
    requires forall name | name in st.chats :: NoNewReads(st.chats[name], after[name])
    ensures Good(st.(chats := after))
  {
    SameIdsStayDistinct(st.chats, after);
    forall name ensures CounterOk(st.unread, after, name) {
      assert CounterOk(st.unread, st.chats, name);
      if name in after {
        NoNewReadsKeepCounts(st.chats[name], after[name], []);
      }
    }
    if st.readAck.Some? {
      var chat := st.readAck.value.chat;
      NoNewReadsKeepCounts(ChatOf(st.chats, chat), ChatOf(after, chat), st.readAck.value.ids);
    }
  }

  lemma StatusesKeepGood(st: AppState, statuses: seq<Status>)
    requires Good(st)
    requires forall k | 0 <= k < |statuses| && statuses[k].read :: !IncomingWithId(st.chats, statuses[k].messageId)
    ensures Good(st.(chats := StatusesApplied(st.chats, statuses)))
  {
    StatusesAddNoReads(st.chats, statuses);
    NoNewReadsKeepGood(st, StatusesApplied(st.chats, statuses));
  }

  /** A late send result keeps the counters truthful even when a deletion put another message at its index. */
  lemma LateSendResultKeepsGood(st: AppState, name: string, index: nat, status: MessageStatus)
    requires Good(st) && status != Read
    ensures Good(StatusUpdated(st, name, index, status))
  {
    NoNewReadsKeepGood(st, StatusUpdated(st, name, index, status).chats);
  }

  lemma ComposeKeepsGood(st: AppState, name: string, text: string, ts: int, id: MessageId)
    requires Good(st) && !HasId(st.chats, id)
    ensures Good(Composed(st, name, text, ts, id))
  {
    var m := ChatMessage(true, text, ts, Sending, Some(id), None);
    AppendedStaysDistinct(st.chats, name, m);
    CountsOfAppend(ChatOf(st.chats, name), m, if st.readAck.Some? then st.readAck.value.ids else []);
    var after := Composed(st, name, text, ts, id);
    forall other ensures CounterOk(after.unread, after.chats, other) {
      assert CounterOk(st.unread, st.chats, other);
    }
  }

  lemma OpenChatKeepsGood(st: AppState, peer: string, device: DeviceId)
    requires Good(st)
    ensures Good(ChatOpened(st, peer, device))
  {
    EmptyChatKeepsGood(st, peer);
    MarkKeepsGood(st.(selected := peer, chats := st.chats[peer := ChatOf(st.chats, peer)],
                      peerByDevice := st.peerByDevice[device := peer]));
  }

  lemma DeleteKeepsGood(st: AppState, name: string)
    requires Good(st) && !AckOnItsWay(st, name)
    ensures Good(Deleted(st, name))
  {
    assert forall a, i, b, j | SameId(Deleted(st, name).chats, a, i, b, j) :: SameId(st.chats, a, i, b, j);
    var after := Deleted(st, name);
    forall other ensures CounterOk(after.unread, after.chats, other) {
      assert CounterOk(st.unread, st.chats, other);
    }
  }

  lemma LogOutKeepsGood(st: AppState)
    requires st.readAck.None?
    ensures Good(LoggedOut(st))
  {
    assert forall name :: Unread(LoggedOut(st).unread, name) == 0;
  }

  lemma StepKeepsGood(rendering: Rendering, st: AppState, step: AppStep)
    requires Good(st) && Allowed(st, step)
    ensures Good(Step(rendering, st, step))
  {
    match step
    case Arrive(msg) => ArriveKeepsGood(rendering, st, msg);
    case MarkSelected => MarkKeepsGood(st);
    case Click(name) => MarkKeepsGood(st.(selected := name));
    case OpenChat(peer, device) => OpenChatKeepsGood(st, peer, device);
    case PollAck(outcome) => PollKeepsGood(st, outcome);
    case Statuses(statuses) => StatusesKeepGood(st, statuses);
    case Compose(text, ts, id) => ComposeKeepsGood(st, st.selected, text, ts, id);
    case SendDone(name, index, ok) => LateSendResultKeepsGood(st, name, index, if ok then Sent else Failed);
    case LearnPeer(device, peer) => EmptyChatKeepsGood(st, peer);
    case Delete(name) => DeleteKeepsGood(st, name);
    case LogOut => LogOutKeepsGood(st);
    case LogIn(saved) =>
  }

  /** Distinctness alone needs only fresh outgoing ids: it survives deletions, any statuses and any indexes. */
  lemma StepKeepsDistinct(rendering: Rendering, st: AppState, step: AppStep)
    requires DistinctIds(st.chats) && (step.Compose? ==> !HasId(st.chats, step.id))
    requires step.LogIn? ==> DistinctIds(step.saved.chats)
    ensures DistinctIds(Step(rendering, st, step).chats)
  {
    match step
    case Arrive(msg) => ArriveKeepsDistinct(rendering, st, msg);
    case MarkSelected => MarkKeepsDistinct(st);
    case Click(name) => MarkKeepsDistinct(st.(selected := name));
    case OpenChat(peer, device) =>
      EmptyChatKeepsDistinct(st.chats, peer);
      MarkKeepsDistinct(st.(selected := peer, chats := st.chats[peer := ChatOf(st.chats, peer)],
                            peerByDevice := st.peerByDevice[device := peer]));
    case PollAck(outcome) => SameIdsStayDistinct(st.chats, AckPolled(st, outcome).chats);
    case Statuses(statuses) =>
      StatusesKeepIds(st.chats, statuses);
      SameIdsStayDistinct(st.chats, StatusesApplied(st.chats, statuses));
    case Compose(text, ts, id) =>
      AppendedStaysDistinct(st.chats, st.selected, ChatMessage(true, text, ts, Sending, Some(id), None));
    case SendDone(name, index, ok) =>
      SameIdsStayDistinct(st.chats, StatusUpdated(st, name, index, if ok then Sent else Failed).chats);
    case LearnPeer(device, peer) => EmptyChatKeepsDistinct(st.chats, peer);
    case Delete(name) => SameIdsStayDistinct(st.chats, Deleted(st, name).chats);
    case LogOut =>
    case LogIn(saved) =>
  }

  lemma ArriveKeepsDistinct(rendering: Rendering, st: AppState, msg: DecryptedMessage)
    requires DistinctIds(st.chats)
    ensures DistinctIds(Pushed(rendering, st, msg).chats)
  {
    var nick := Nick(st.peerByDevice, msg.fromDevice);
    EmptyChatKeepsDistinct(st.chats, nick);
    if !HasId(st.chats, msg.messageId) {
      AppendedStaysDistinct(st.chats, nick, IncomingMessage(rendering, msg));
    }
  }

  lemma MarkKeepsDistinct(st: AppState)
    requires DistinctIds(st.chats)
    ensures DistinctIds(SelectedMarked(st).0.chats)
  {
    SameIdsStayDistinct(st.chats, SelectedMarked(st).0.chats);
  }

  lemma EmptyChatKeepsDistinct(chats: Chats, name: string)
    requires DistinctIds(chats)
    ensures DistinctIds(chats[name := ChatOf(chats, name)])
  {
    var after := chats[name := ChatOf(chats, name)];
    assert forall a, i, b, j | SameId(after, a, i, b, j) :: SameId(chats, a, i, b, j);
  }

  lemma {:induction false} StatusesKeepIds(chats: Chats, statuses: seq<Status>)
    ensures var after := StatusesApplied(chats, statuses);
            && after.Keys == chats.Keys
            && forall name | name in chats ::
                 |after[name]| == |chats[name]| &&
                 forall i | 0 <= i < |chats[name]| :: after[name][i] == chats[name][i].(status := after[name][i].status)
  {
    if statuses != [] {
      StatusesKeepIds(chats, statuses[..|statuses| - 1]);
    }
  }

  /** Every chat keeps its messages, with their ids, at their places. */
  ghost predicate KeepsIds(before: Chats, after: Chats) {
    forall name | name in before ::
      && name in after && |before[name]| <= |after[name]|
      && forall i | 0 <= i < |before[name]| :: after[name][i].messageId == before[name][i].messageId
  }

  lemma KeptIdsAreHeld(before: Chats, after: Chats, id: MessageId)
    requires KeepsIds(before, after) && HasId(before, id)
    ensures HasId(after, id)
  {
    var name :| name in before && IdIn(before[name], id);
    var i :| 0 <= i < |before[name]| && before[name][i].messageId == Some(id);
    assert after[name][i].messageId == Some(id);
    assert IdIn(after[name], id);
  }

  /** Only deletions, logouts and logins take messages out of a history. */
  lemma StepKeepsIds(rendering: Rendering, st: AppState, step: AppStep)
    requires !step.Delete? && !step.LogOut? && !step.LogIn?
    ensures KeepsIds(st.chats, Step(rendering, st, step).chats)
  {
    match step
    case Arrive(msg) => ArriveKeepsIds(rendering, st, msg);
    case MarkSelected => MarkKeepsIds(st);
    case Click(name) => MarkKeepsIds(st.(selected := name));
    case OpenChat(peer, device) =>
      var entered := st.(selected := peer, chats := st.chats[peer := ChatOf(st.chats, peer)],
                        peerByDevice := st.peerByDevice[device := peer]);
      MarkKeepsIds(entered);
      KeepsIdsTransitive(st.chats, entered.chats, SelectedMarked(entered).0.chats);
    case Statuses(statuses) => StatusesKeepIds(st.chats, statuses);
    case _ => OtherStepsKeepIds(rendering, st, step);
  }

  lemma KeepsIdsTransitive(a: Chats, b: Chats, c: Chats)
    requires KeepsIds(a, b) && KeepsIds(b, c)
    ensures KeepsIds(a, c)
  {
  }

  lemma ArriveKeepsIds(rendering: Rendering, st: AppState, msg: DecryptedMessage)
    ensures KeepsIds(st.chats, Pushed(rendering, st, msg).chats)
  {
  }

  lemma MarkKeepsIds(st: AppState)
    ensures KeepsIds(st.chats, SelectedMarked(st).0.chats)
  {
  }

  lemma OtherStepsKeepIds(rendering: Rendering, st: AppState, step: AppStep)
    requires step.PollAck? || step.Compose? || step.SendDone? || step.LearnPeer?
    ensures KeepsIds(st.chats, Step(rendering, st, step).chats)
  {
  }

  ghost predicate IsRun(rendering: Rendering, states: seq<AppState>, steps: seq<AppStep>) {
    && |states| == |steps| + 1
    && forall k | 0 <= k < |steps| :: Allowed(states[k], steps[k]) && states[k + 1] == Step(rendering, states[k], steps[k])
  }

  /** In every run from a good state: ids are distinct and no counter exceeds the messages that await reading. */
  lemma {:induction false} RunKeepsGood(rendering: Rendering, states: seq<AppState>, steps: seq<AppStep>, k: nat)
    requires IsRun(rendering, states, steps) && Good(states[0]) && k <= |steps|
    ensures DistinctIds(states[k].chats)
    ensures forall name :: CounterOk(states[k].unread, states[k].chats, name)
    ensures Good(states[k])
  {
    if k > 0 {
      RunKeepsGood(rendering, states, steps, k - 1);
      StepKeepsGood(rendering, states[k - 1], steps[k - 1]);
    }
  }

  /** Deleting a chat is safe exactly when no acknowledgement of it is on its way: otherwise a failed one overcounts. */
  lemma DeleteIsSafeExactly(st: AppState, name: string)
    requires Good(st)
    ensures CountersOk(AckPolled(Deleted(st, name), Answered(false))) <==> !AckOnItsWay(st, name)
  {
    if AckOnItsWay(st, name) {
      var after := AckPolled(Deleted(st, name), Answered(false));
      assert Unread(after.unread, name) == |st.readAck.value.ids| > 0;
      assert UnreadHeld(ChatOf(after.chats, name)) == 0;
      assert !CounterOk(after.unread, after.chats, name);
    } else {
      DeleteKeepsGood(st, name);
      PollKeepsGood(Deleted(st, name), Answered(false));
    }
  }

  /** Logging out is safe exactly when no acknowledgement is on its way. */
  lemma LogOutIsSafeExactly(st: AppState)
    requires Good(st)
    ensures CountersOk(AckPolled(LoggedOut(st), Answered(false))) <==> st.readAck.None?
  {
    var after := AckPolled(LoggedOut(st), Answered(false));
    if st.readAck.Some? {
      var name := st.readAck.value.chat;
      assert Unread(after.unread, name) == |st.readAck.value.ids| > 0;
      assert UnreadHeld(ChatOf(after.chats, name)) == 0;
      assert !CounterOk(after.unread, after.chats, name);
    } else {
      LogOutKeepsGood(st);
    }
  }

  /** Reading a history back is safe exactly when it has room for the acknowledgement on its way. */
  lemma LogInIsSafeExactly(st: AppState, saved: AppState)
    requires Good(st) && CountersOk(saved) && DistinctIds(saved.chats)
    ensures CountersOk(AckPolled(LoggedIn(st, saved), Answered(false))) <==> HoldsAck(st.readAck, saved)
  {
    var after := AckPolled(LoggedIn(st, saved), Answered(false));
    if HoldsAck(st.readAck, saved) {
      PollKeepsGood(LoggedIn(st, saved), Answered(false));
    } else {
      var ack := st.readAck.value;
      RestoredCounts(ChatOf(saved.chats, ack.chat), ack.ids);
      assert !CounterOk(after.unread, after.chats, ack.chat);
    }
  }

  /** A received message with this id awaits reading. */
  ghost predicate AwaitingWithId(chats: Chats, id: MessageId) {
    exists name, i | name in chats && 0 <= i < |chats[name]| ::
      AwaitsRead(chats[name][i]) && chats[name][i].messageId == Some(id)
  }

  lemma {:induction false} ReadLowersCount(messages: seq<ChatMessage>, id: MessageId)
    ensures UnreadHeld(WithStatus(messages, id, Read)) <= UnreadHeld(messages)
    ensures UnreadHeld(WithStatus(messages, id, Read)) == UnreadHeld(messages) <==>
              forall i | 0 <= i < |messages| && AwaitsRead(messages[i]) :: messages[i].messageId != Some(id)
  {
    if messages != [] {
      var init := messages[..|messages| - 1];
      ReadLowersCount(init, id);
      assert WithStatus(messages, id, Read)[..|messages| - 1] == WithStatus(init, id, Read);
      assert forall i | 0 <= i < |init| :: messages[i] == init[i];
    }
  }

  /**
   While the counters are exact, a report that calls an id read is safe exactly when no received message
   with that id awaits reading: what `Allowed` asks of a report cannot be dropped.
   */
  lemma ReadReportIsSafeExactly(st: AppState, id: MessageId, delivered: bool)
    requires forall name :: Unread(st.unread, name) == UnreadHeld(ChatOf(st.chats, name))
    ensures CountersOk(st.(chats := StatusApplied(st.chats, Status(id, delivered, true)))) <==> !AwaitingWithId(st.chats, id)
  {
    var after := StatusApplied(st.chats, Status(id, delivered, true));
    forall name | name in st.chats
      ensures CounterOk(st.unread, after, name) <==>
              forall i | 0 <= i < |st.chats[name]| && AwaitsRead(st.chats[name][i]) :: st.chats[name][i].messageId != Some(id)
    {
      ReadLowersCount(st.chats[name], id);
    }
    assert forall name | name !in st.chats :: CounterOk(st.unread, after, name);
    if CountersOk(st.(chats := after)) {
      forall name | name in st.chats ensures CounterOk(st.unread, after, name) {
        assert CounterOk(st.(chats := after).unread, st.(chats := after).chats, name);
      }
    }
  }
}
