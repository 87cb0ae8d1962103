/** Runs from the empty history that lose a message some counter still answers for. */
module HistoryLosses {
  import opened Wrappers
  import opened PeerSessions
  import opened Mailbox
  import opened ChatHistory
  import opened HistoryRuns

  const NOTHING := AppState(map[], map[], map[], "", None)

  /** The steps taken one after another. */
  function After(rendering: Rendering, steps: seq<AppStep>): AppState {
    if steps == [] then NOTHING
    else Step(rendering, After(rendering, steps[..|steps| - 1]), steps[|steps| - 1])
  }

  lemma AfterOneMore(rendering: Rendering, steps: seq<AppStep>, step: AppStep)
    ensures After(rendering, steps + [step]) == Step(rendering, After(rendering, steps), step)
  {
    assert (steps + [step])[..|steps|] == steps;
  }

  /** A message arrives from an unknown device and its chat is clicked: its acknowledgement is on its way. */
  function ReadingRun(msg: DecryptedMessage): seq<AppStep> {
    [Arrive(msg)] + [Click(Nick(map[], msg.fromDevice))]
  }

  function Reading(rendering: Rendering, msg: DecryptedMessage): AppState {
    var name := Nick(map[], msg.fromDevice);
    AppState(map[name := [IncomingMessage(rendering, msg).(status := Read)]], map[], map[], name,
             Some(ReadAck(name, [msg.messageId])))
  }

  function Arrived(rendering: Rendering, msg: DecryptedMessage): AppState {
    var name := Nick(map[], msg.fromDevice);
    AppState(map[name := [IncomingMessage(rendering, msg)]], map[], map[name := 1], "", None)
  }

  lemma FirstArrival(rendering: Rendering, msg: DecryptedMessage)
    requires !rendering.parse(msg.text).Contact?
    ensures Pushed(rendering, NOTHING, msg) == Arrived(rendering, msg)
  {
    var name := Nick(map[], msg.fromDevice);
    assert |name| >= 8;
    assert ChatOf(NOTHING.chats, name) + [IncomingMessage(rendering, msg)] == [IncomingMessage(rendering, msg)];
    assert Unread(NOTHING.unread, name) == 0;
  }

  lemma ClickReads(rendering: Rendering, msg: DecryptedMessage)
    ensures Clicked(Arrived(rendering, msg), Nick(map[], msg.fromDevice)) == Reading(rendering, msg)
  {
    var name, m := Nick(map[], msg.fromDevice), IncomingMessage(rendering, msg);
    assert |name| >= 8;
    assert UnreadIds([m]) == [msg.messageId];
    assert MarkedRead([m]) == [m.(status := Read)];
  }

  lemma ReadingIsReached(rendering: Rendering, msg: DecryptedMessage)
    requires !rendering.parse(msg.text).Contact?
    ensures After(rendering, ReadingRun(msg)) == Reading(rendering, msg)
  {
    var name := Nick(map[], msg.fromDevice);
    AfterOneMore(rendering, [], Arrive(msg));
    AfterOneMore(rendering, [Arrive(msg)], Click(name));
    assert [] + [Arrive(msg)] == [Arrive(msg)];
    FirstArrival(rendering, msg);
    ClickReads(rendering, msg);
  }

  /** The condition of the three lemmas on losses fails in a state that runs reach. */
  lemma ReadingIsGood(rendering: Rendering, msg: DecryptedMessage)
    requires !rendering.parse(msg.text).Contact?
    ensures Good(Reading(rendering, msg)) && AckOnItsWay(Reading(rendering, msg), Nick(map[], msg.fromDevice))
  {
    assert forall name :: CounterOk(NOTHING.unread, NOTHING.chats, name);
    ArriveKeepsGood(rendering, NOTHING, msg);
    FirstArrival(rendering, msg);
    StepKeepsGood(rendering, Arrived(rendering, msg), Click(Nick(map[], msg.fromDevice)));
    ClickReads(rendering, msg);
  }

  /**
   Arrive, click, then delete the chat, log out, or read back an empty history, and let the acknowledgement
   fail: each time a counter claims a message that its chat does not hold.
   */
  lemma LostAcksOvercount(rendering: Rendering, msg: DecryptedMessage, loss: AppStep)
    requires !rendering.parse(msg.text).Contact?
    requires loss in {Delete(Nick(map[], msg.fromDevice)), LogOut, LogIn(NOTHING)}
    ensures var name := Nick(map[], msg.fromDevice);
            var st := After(rendering, ReadingRun(msg) + [loss] + [PollAck(Answered(false))]);
            Unread(st.unread, name) == 1 && UnreadHeld(ChatOf(st.chats, name)) == 0
  {
    ReadingIsReached(rendering, msg);
    AfterOneMore(rendering, ReadingRun(msg), loss);
    AfterOneMore(rendering, ReadingRun(msg) + [loss], PollAck(Answered(false)));
  }

  /** Open a chat, send in it, delete it. */
  function ForgettingRun(peer: string, device: DeviceId, text: string, ts: int, id: MessageId): seq<AppStep> {
    [OpenChat(peer, device)] + [Compose(text, ts, id)] + [Delete(peer)]
  }

  lemma Forgotten(rendering: Rendering, peer: string, device: DeviceId, text: string, ts: int, id: MessageId)
    requires peer != ""
    ensures After(rendering, ForgettingRun(peer, device, text, ts, id)) == NOTHING.(peerByDevice := map[device := peer])
  {
    var entered := AppState(map[peer := []], map[device := peer], map[], peer, None);
    AfterOneMore(rendering, [], OpenChat(peer, device));
    assert [] + [OpenChat(peer, device)] == [OpenChat(peer, device)];
    assert ChatOpened(NOTHING, peer, device) == entered;
    AfterOneMore(rendering, [OpenChat(peer, device)], Compose(text, ts, id));
    AfterOneMore(rendering, [OpenChat(peer, device)] + [Compose(text, ts, id)], Delete(peer));
    assert Deleted(Composed(entered, peer, text, ts, id), peer) == NOTHING.(peerByDevice := map[device := peer]);
  }

  lemma ArrivedInChat(rendering: Rendering, peer: string, msg: DecryptedMessage)
    requires peer != "" && !rendering.parse(msg.text).Contact?
    ensures Pushed(rendering, NOTHING.(peerByDevice := map[msg.fromDevice := peer]), msg)
            == AppState(map[peer := [IncomingMessage(rendering, msg)]], map[msg.fromDevice := peer], map[peer := 1], "", None)
  {
    assert ChatOf(NOTHING.chats, peer) + [IncomingMessage(rendering, msg)] == [IncomingMessage(rendering, msg)];
    assert Unread(NOTHING.unread, peer) == 0;
  }

  /**
   Send to oneself, delete the chat, receive the message, and let a late report call it read: again a
   counter claims a message that its chat does not hold as unread.
   */
  lemma ForgottenSendOvercounts(rendering: Rendering, peer: string, msg: DecryptedMessage, text: string, ts: int)
    requires peer != "" && !rendering.parse(msg.text).Contact?
    ensures var sent := ForgettingRun(peer, msg.fromDevice, text, ts, msg.messageId);
            var st := After(rendering, sent + [Arrive(msg)] + [Statuses([Status(msg.messageId, true, true)])]);
            Unread(st.unread, peer) == 1 && UnreadHeld(ChatOf(st.chats, peer)) == 0
  {
    var sent := ForgettingRun(peer, msg.fromDevice, text, ts, msg.messageId);
    var m, report := IncomingMessage(rendering, msg), [Status(msg.messageId, true, true)];
    Forgotten(rendering, peer, msg.fromDevice, text, ts, msg.messageId);
    AfterOneMore(rendering, sent, Arrive(msg));
    AfterOneMore(rendering, sent + [Arrive(msg)], Statuses(report));
    ArrivedInChat(rendering, peer, msg);
    var chats := map[peer := [m]];
    assert report[..0] == [];
    assert StatusesApplied(chats, report) == StatusApplied(chats, report[0]);
    assert WithStatus([m], msg.messageId, Read) == [m.(status := Read)];
  }
}
