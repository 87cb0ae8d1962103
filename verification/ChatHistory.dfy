/**
 Chat history, unread counters and read acknowledgements of the desktop client
 (crates/client-ui/src/app.rs and history.rs).
 */
module ChatHistory {
  import opened Wrappers
  import opened PeerSessions
  import opened Mailbox

  datatype MessageStatus = Sending | Sent | Delivered | Read | Failed

  datatype Attachment = Attachment(
    fileName: string, fileSize: nat, data: Option<string>, blobId: Option<string>, fileKey: Option<string>)

  datatype ChatMessage = ChatMessage(
    outgoing: bool, text: string, ts: int, status: MessageStatus, messageId: Option<MessageId>,
    attachment: Option<Attachment>)

  /** What a plaintext parses to (EncryptedMessagePayload), `NotPayload` for ordinary text. */
  datatype Payload = Contact | File(file: Attachment) | Call(callId: string, video: bool) | NotPayload

  /** The JSON parser and the localised call texts. */
  datatype Rendering = Rendering(parse: string -> Payload, callText: bool -> string)
  {
    function Text(plaintext: string): string {
      match parse(plaintext)
      case File(file) => "File: " + file.fileName
      case Call(_, video) => callText(video)
      case _ => plaintext
    }

    function Attached(plaintext: string): Option<Attachment> {
      match parse(plaintext)
      case File(file) => Some(file)
      case _ => None
    }
  }

  /** A read acknowledgement on its way: read_ack_rx is set. */
  datatype ReadAck = ReadAck(chat: string, ids: seq<MessageId>)

  /** What a send looks at besides the chat: other threads, the login, the block list, the sessions and the input. */
  datatype SendChecks = SendChecks(
    sending: bool, loggedIn: bool, blocked: set<string>, withSession: set<string>, textIsBlank: bool)

  datatype AckOutcome = StillWaiting | WorkerGone | Answered(ok: bool)

  type Chats = map<string, seq<ChatMessage>>

  datatype AppState = AppState(
    chats: Chats, peerByDevice: map<DeviceId, string>, unread: map<string, nat>,
    selected: string, readAck: Option<ReadAck>)

  // ------------------------------------------------------------------
  // The operations as functions on the state

  predicate HasId(chats: Chats, id: MessageId) {
    exists name | name in chats :: IdIn(chats[name], id)
  }

  predicate IdIn(messages: seq<ChatMessage>, id: MessageId) {
    exists i | 0 <= i < |messages| :: messages[i].messageId == Some(id)
  }

  function Nick(peerByDevice: map<DeviceId, string>, device: DeviceId): string {
    if device in peerByDevice then peerByDevice[device]
    else "unknown:" + if |device| < 8 then device else device[..8]
  }

  function ChatOf(chats: Chats, name: string): seq<ChatMessage> {
    if name in chats then chats[name] else []
  }

  function Unread(unread: map<string, nat>, name: string): nat {
    if name in unread then unread[name] else 0
  }

  function IncomingMessage(rendering: Rendering, msg: DecryptedMessage): ChatMessage {
    ChatMessage(false, rendering.Text(msg.text), msg.createdAt, Delivered, Some(msg.messageId), rendering.Attached(msg.text))
  }

  function Pushed(rendering: Rendering, st: AppState, msg: DecryptedMessage): AppState {
    var nick := Nick(st.peerByDevice, msg.fromDevice);
    if HasId(st.chats, msg.messageId) then st
    else if rendering.parse(msg.text).Contact? then
      st.(chats := st.chats[nick := ChatOf(st.chats, nick)])
    else
      st.(chats := st.chats[nick := ChatOf(st.chats, nick) + [IncomingMessage(rendering, msg)]],
          unread := if st.selected != nick then st.unread[nick := Unread(st.unread, nick) + 1] else st.unread)
  }

  predicate AwaitsRead(m: ChatMessage) {
    !m.outgoing && m.status != Read
  }

  function UnreadIds(messages: seq<ChatMessage>): seq<MessageId> {
    if messages == [] then []
    else
      var last := messages[|messages| - 1];
      UnreadIds(messages[..|messages| - 1]) +
      if AwaitsRead(last) && last.messageId.Some? then [last.messageId.value] else []
  }

  function MarkedRead(messages: seq<ChatMessage>): (r: seq<ChatMessage>)
    ensures |r| == |messages|
  {
    seq(|messages|, i requires 0 <= i < |messages| =>
      if messages[i].outgoing then messages[i] else messages[i].(status := Read))
  }

  /** The new state and whether an acknowledgement was sent off. */
  function SelectedMarked(st: AppState): (AppState, bool) {
    if st.readAck.Some? || st.selected == "" || st.selected !in st.chats then (st, false)
    else
      var ids := UnreadIds(st.chats[st.selected]);
      if ids == [] then (st.(unread := st.unread - {st.selected}), false)
      else
        (st.(chats := st.chats[st.selected := MarkedRead(st.chats[st.selected])],
             unread := st.unread - {st.selected},
             readAck := Some(ReadAck(st.selected, ids))), true)
  }

  predicate IdAmong(m: ChatMessage, ids: seq<MessageId>) {
    m.messageId.Some? && m.messageId.value in ids
  }

  function Restored(messages: seq<ChatMessage>, ids: seq<MessageId>): (r: seq<ChatMessage>)
    ensures |r| == |messages|
  {
    seq(|messages|, i requires 0 <= i < |messages| =>
      if IdAmong(messages[i], ids) then messages[i].(status := Delivered) else messages[i])
  }

  function AckPolled(st: AppState, outcome: AckOutcome): AppState {
    if st.readAck.None? || outcome.StillWaiting? then st
    else if outcome == Answered(false) then
      var ack := st.readAck.value;
      st.(chats := if ack.chat in st.chats then st.chats[ack.chat := Restored(st.chats[ack.chat], ack.ids)] else st.chats,
          unread := st.unread[ack.chat := Unread(st.unread, ack.chat) + |ack.ids|],
          readAck := None)
    else st.(readAck := None)
  }

  function StatusFor(s: Status): MessageStatus {
    if s.read then Read else if s.delivered then Delivered else Sent
  }

  function WithStatus(messages: seq<ChatMessage>, id: MessageId, next: MessageStatus): (r: seq<ChatMessage>)
    ensures |r| == |messages|
  {
    seq(|messages|, i requires 0 <= i < |messages| =>
      if messages[i].messageId == Some(id) then messages[i].(status := next) else messages[i])
  }

  function StatusApplied(chats: Chats, s: Status): Chats {
    map name | name in chats :: WithStatus(chats[name], s.messageId, StatusFor(s))
  }

  function StatusesApplied(chats: Chats, statuses: seq<Status>): Chats {
    if statuses == [] then chats
    else StatusApplied(StatusesApplied(chats, statuses[..|statuses| - 1]), statuses[|statuses| - 1])
  }

  function Composed(st: AppState, name: string, text: string, ts: int, id: MessageId): AppState {
    st.(chats := st.chats[name := ChatOf(st.chats, name) + [ChatMessage(true, text, ts, Sending, Some(id), None)]])
  }

  function StatusUpdated(st: AppState, name: string, index: nat, status: MessageStatus): AppState {
    if name in st.chats && index < |st.chats[name]|
    then st.(chats := st.chats[name := st.chats[name][index := st.chats[name][index].(status := status)]])
    else st
  }

  /** A click on a chat in the list: the selected one is deselected, another is selected and marked read. */
  function Clicked(st: AppState, name: string): AppState {
    if st.selected == name then st.(selected := "")
    else SelectedMarked(st.(selected := name)).0
  }

  /** apply_open_chat_success. */
  function ChatOpened(st: AppState, peer: string, device: DeviceId): AppState {
    SelectedMarked(st.(selected := peer, chats := st.chats[peer := ChatOf(st.chats, peer)],
                       peerByDevice := st.peerByDevice[device := peer])).0
  }

  /** logout: the history is replaced by the empty one; an acknowledgement on its way stays on its way. */
  function LoggedOut(st: AppState): AppState {
    st.(chats := map[], peerByDevice := map[], unread := map[])
  }

  /** A login reads the history back; what is selected and the acknowledgement on its way stay as they are. */
  function LoggedIn(st: AppState, saved: AppState): AppState {
    st.(chats := saved.chats, peerByDevice := saved.peerByDevice, unread := saved.unread)
  }

  /** A peer mapping of a sync: the device is that peer's, who has a chat from now on. */
  function PeerLearned(st: AppState, device: DeviceId, peer: string): AppState {
    st.(peerByDevice := st.peerByDevice[device := peer], chats := st.chats[peer := ChatOf(st.chats, peer)])
  }

  function Deleted(st: AppState, name: string): AppState {
    st.(chats := st.chats - {name}, unread := st.unread - {name},
        selected := if st.selected == name then "" else st.selected)
  }

  // ------------------------------------------------------------------
  // The application object

  class MessengerApp {
    const rendering: Rendering
    var chats: Chats
    var peerByDevice: map<DeviceId, string>
    var unread: map<string, nat>
    var selected: string
    var readAck: Option<ReadAck>

    function State(): AppState
      reads this
    {
      AppState(chats, peerByDevice, unread, selected, readAck)
    }

    constructor (rendering: Rendering, st: AppState)
      ensures this.rendering == rendering && State() == st
    {
      this.rendering := rendering;
      chats, peerByDevice, unread, selected, readAck := st.chats, st.peerByDevice, st.unread, st.selected, st.readAck;
    }

    method PushIncoming(msg: DecryptedMessage)
      modifies this
      ensures State() == Pushed(rendering, old(State()), msg)
    {
      if HasId(chats, msg.messageId) {
        return;
      }
      var payload := rendering.parse(msg.text);
      var nick := Nick(peerByDevice, msg.fromDevice);
      var chat := if nick in chats then chats[nick] else [];
      if payload.Contact? {
        chats := chats[nick := chat];
        return;
      }
      var text, attachment := msg.text, None;
      match payload {
        case File(file) =>
          text, attachment := "File: " + file.fileName, Some(file);
        case Call(_, video) =>
          text := rendering.callText(video);
        case _ =>
      }
      chats := chats[nick := chat + [ChatMessage(false, text, msg.createdAt, Delivered, Some(msg.messageId), attachment)]];
      if selected != nick {
        unread := unread[nick := (if nick in unread then unread[nick] else 0) + 1];
      }
    }

    method MarkSelectedChatRead() returns (sent: Option<seq<MessageId>>)
      modifies this
      ensures (State(), sent.Some?) == SelectedMarked(old(State()))
      ensures sent.Some? ==> readAck == Some(ReadAck(selected, sent.value))
    {
      if readAck.Some? || selected == "" || selected !in chats {
        return None;
      }
      var messages := chats[selected];
      var ids := CollectUnread(messages);
      if ids == [] {
        unread := unread - {selected};
        return None;
      }
      var marked := messages;
      for i := 0 to |messages|
        invariant |marked| == |messages|
        invariant forall j | 0 <= j < i :: marked[j] == MarkedRead(messages)[j]
        invariant forall j | i <= j < |messages| :: marked[j] == messages[j]
      {
        if !marked[i].outgoing {
          marked := marked[i := marked[i].(status := Read)];
        }
      }
      assert marked == MarkedRead(messages);
      chats := chats[selected := marked];
      unread := unread - {selected};
      readAck := Some(ReadAck(selected, ids));
      sent := Some(ids);
    }

    static method CollectUnread(messages: seq<ChatMessage>) returns (ids: seq<MessageId>)
      ensures ids == UnreadIds(messages)
    {
      ids := [];
      for i := 0 to |messages|
        invariant ids == UnreadIds(messages[..i])
      {
        assert messages[..i + 1][..i] == messages[..i];
        if AwaitsRead(messages[i]) && messages[i].messageId.Some? {
          ids := ids + [messages[i].messageId.value];
        }
      }
      assert messages[..|messages|] == messages;
    }

    method PollReadAckResult(outcome: AckOutcome)
      modifies this
      ensures State() == AckPolled(old(State()), outcome)
    {
      if readAck.None? || outcome.StillWaiting? {
        return;
      }
      var ack := readAck.value;
      readAck := None;
      if outcome == Answered(false) {
        if ack.chat in chats {
          var messages := chats[ack.chat];
          var restored := messages;
          for i := 0 to |messages|
            invariant |restored| == |messages|
            invariant forall j | 0 <= j < i :: restored[j] == Restored(messages, ack.ids)[j]
            invariant forall j | i <= j < |messages| :: restored[j] == messages[j]
          {
            if IdAmong(restored[i], ack.ids) {
              restored := restored[i := restored[i].(status := Delivered)];
            }
          }
          assert restored == Restored(messages, ack.ids);
          chats := chats[ack.chat := restored];
        }
        unread := unread[ack.chat := (if ack.chat in unread then unread[ack.chat] else 0) + |ack.ids|];
      }
    }

    /** `changed` says whether any status really moved. */
    method ApplyOutgoingStatuses(statuses: seq<Status>) returns (changed: bool)
      modifies this`chats
      ensures chats == StatusesApplied(old(chats), statuses)
      ensures !changed ==> chats == old(chats)
    {
      changed := false;
      for k := 0 to |statuses|
        invariant chats == StatusesApplied(old(chats), statuses[..k])
        invariant !changed ==> chats == old(chats)
      {
        assert statuses[..k + 1][..k] == statuses[..k];
        var before := chats;
        var names := before.Keys;
        while names != {}
          invariant names <= before.Keys && chats.Keys == before.Keys
          invariant forall name | name in before ::
            chats[name] == if name in names then before[name] else StatusApplied(before, statuses[k])[name]
          invariant !changed ==> chats == old(chats)
          decreases names
        {
          var name :| name in names;
          var next, moved := SetStatus(chats[name], statuses[k].messageId, StatusFor(statuses[k]));
          if moved {
            changed := true;
          } else {
            assert chats[name := next] == chats;
          }
          chats := chats[name := next];
          names := names - {name};
        }
        assert chats == StatusApplied(before, statuses[k]);
      }
      assert statuses[..|statuses|] == statuses;
    }

    static method SetStatus(messages: seq<ChatMessage>, id: MessageId, status: MessageStatus)
      returns (next: seq<ChatMessage>, moved: bool)
      ensures next == WithStatus(messages, id, status)
      ensures moved <==> next != messages
    {
      next, moved := messages, false;
      ghost var changedAt := 0;
      for i := 0 to |messages|
        invariant |next| == |messages|
        invariant forall j | 0 <= j < i :: next[j] == WithStatus(messages, id, status)[j]
        invariant forall j | i <= j < |messages| :: next[j] == messages[j]
        invariant !moved ==> next == messages
        invariant moved ==> changedAt < i && WithStatus(messages, id, status)[changedAt] != messages[changedAt]
      {
        if next[i].messageId == Some(id) && next[i].status != status {
          next := next[i := next[i].(status := status)];
          moved := true;
          changedAt := i;
        }
      }
      assert next == WithStatus(messages, id, status);
    }

    /** A send starts unless one is on its way, nobody is logged in, or the chat or the text does not allow it. */
    method SendCurrentMessage(checks: SendChecks, text: string, ts: int, id: MessageId) returns (started: bool)
      modifies this`chats
      ensures started <==>
                && !checks.sending && checks.loggedIn && selected != "" && selected !in checks.blocked
                && selected in checks.withSession && !checks.textIsBlank
      ensures State() == if started then Composed(old(State()), selected, text, ts, id) else old(State())
      ensures started ==>
                chats == old(chats)[selected :=
                  (if selected in old(chats) then old(chats)[selected] else []) + [ChatMessage(true, text, ts, Sending, Some(id), None)]]
      ensures !started ==> chats == old(chats)
    {
      if checks.sending || !checks.loggedIn || selected == "" || selected in checks.blocked {
        return false;
      }
      if selected !in checks.withSession || checks.textIsBlank {
        return false;
      }
      var chat := if selected in chats then chats[selected] else [];
      chats := chats[selected := chat + [ChatMessage(true, text, ts, Sending, Some(id), None)]];
      started := true;
    }

    method UpdateMessageStatus(name: string, index: nat, status: MessageStatus)
      modifies this`chats
      ensures State() == StatusUpdated(old(State()), name, index, status)
      ensures name in old(chats) && index < |old(chats)[name]| ==>
                chats == old(chats)[name := old(chats)[name][index := old(chats)[name][index].(status := status)]]
      ensures !(name in old(chats) && index < |old(chats)[name]|) ==> chats == old(chats)
    {
      if name in chats && index < |chats[name]| {
        chats := chats[name := chats[name][index := chats[name][index].(status := status)]];
      }
    }

    method ClickChat(name: string) returns (sent: Option<seq<MessageId>>)
      modifies this
      ensures State() == Clicked(old(State()), name)
    {
      if selected == name {
        selected := "";
        return None;
      }
      selected := name;
      sent := MarkSelectedChatRead();
    }

    method ApplyOpenChatSuccess(peer: string, device: DeviceId) returns (sent: Option<seq<MessageId>>)
      modifies this
      ensures State() == ChatOpened(old(State()), peer, device)
    {
      selected := peer;
      chats := chats[peer := if peer in chats then chats[peer] else []];
      peerByDevice := peerByDevice[device := peer];
      sent := MarkSelectedChatRead();
    }

    /** One mapping of apply_sync_success whose identity checks out. */
    method ApplyPeerMapping(device: DeviceId, peer: string)
      modifies this
      ensures State() == PeerLearned(old(State()), device, peer)
      ensures peerByDevice == old(peerByDevice)[device := peer]
      ensures chats == if peer in old(chats) then old(chats) else old(chats)[peer := []]
      ensures unread == old(unread) && selected == old(selected) && readAck == old(readAck)
    {
      peerByDevice := peerByDevice[device := peer];
      if peer !in chats {
        chats := chats[peer := []];
      }
    }

    method LogOut()
      modifies this
      ensures State() == LoggedOut(old(State()))
      ensures chats == map[] && peerByDevice == map[] && unread == map[]
      ensures selected == old(selected) && readAck == old(readAck)
    {
      chats, peerByDevice, unread := map[], map[], map[];
    }

    /** The history a login read back replaces the one in memory. */
    method PollLoginResult(saved: AppState)
      modifies this
      ensures State() == LoggedIn(old(State()), saved)
      ensures chats == saved.chats && peerByDevice == saved.peerByDevice && unread == saved.unread
      ensures selected == old(selected) && readAck == old(readAck)
    {
      chats, peerByDevice, unread := saved.chats, saved.peerByDevice, saved.unread;
    }

    method DeleteChatLocally(name: string)
      modifies this
      ensures State() == Deleted(old(State()), name)
      ensures chats == old(chats) - {name} && unread == old(unread) - {name}
      ensures selected == if old(selected) == name then "" else old(selected)
      ensures peerByDevice == old(peerByDevice) && readAck == old(readAck)
    {
      chats := chats - {name};
      unread := unread - {name};
      if selected == name {
        selected := "";
      }
    }
  }

  /** Ids of the sent messages not yet known to be read. */
  ghost predicate IsOutgoingId(chats: Chats, id: MessageId) {
    exists name, i | name in chats && 0 <= i < |chats[name]| ::
      chats[name][i].outgoing && chats[name][i].status != Read && chats[name][i].messageId == Some(id)
  }

  method OutgoingMessageIds(chats: Chats) returns (ids: seq<MessageId>)
    ensures forall id :: id in ids <==> IsOutgoingId(chats, id)
    ensures forall id :: id in ids <==> exists name, i | name in chats && 0 <= i < |chats[name]| ::
              chats[name][i].outgoing && chats[name][i].status != Read && chats[name][i].messageId == Some(id)
  {
    ids := [];
    var names := chats.Keys;
    while names != {}
      invariant names <= chats.Keys
      invariant forall id :: id in ids <==> IsOutgoingId(map name | name in chats && name !in names :: chats[name], id)
      decreases names
    {
      var name :| name in names;
      ghost var done := map other | other in chats && other !in names :: chats[other];
      ghost var more := map other | other in chats && other !in names - {name} :: chats[other];
      var messages := chats[name];
      ghost var before := ids;
      for i := 0 to |messages|
        invariant forall id :: id in ids <==> id in before || OutgoingIn(messages[..i], id)
      {
        assert messages[..i + 1] == messages[..i] + [messages[i]];
        if messages[i].outgoing && messages[i].status != Read && messages[i].messageId.Some? {
          ids := ids + [messages[i].messageId.value];
        }
      }
      assert messages[..|messages|] == messages;
      forall id ensures IsOutgoingId(more, id) <==> IsOutgoingId(done, id) || OutgoingIn(messages, id) {
        OutgoingSplits(done, more, name, id);
      }
      names := names - {name};
    }
    assert chats == map name | name in chats && name !in names :: chats[name];
  }

  ghost predicate OutgoingIn(messages: seq<ChatMessage>, id: MessageId) {
    exists i | 0 <= i < |messages| ::
      messages[i].outgoing && messages[i].status != Read && messages[i].messageId == Some(id)
  }

  lemma OutgoingSplits(done: Chats, more: Chats, name: string, id: MessageId)
    requires name in more && name !in done && done == more - {name}
    ensures IsOutgoingId(more, id) <==> IsOutgoingId(done, id) || OutgoingIn(more[name], id)
  {
    if IsOutgoingId(done, id) {
      var other, i :| other in done && 0 <= i < |done[other]| &&
        done[other][i].outgoing && done[other][i].status != Read && done[other][i].messageId == Some(id);
      assert more[other][i] == done[other][i];
    }
    if OutgoingIn(more[name], id) {
      var i :| 0 <= i < |more[name]| &&
        more[name][i].outgoing && more[name][i].status != Read && more[name][i].messageId == Some(id);
      assert more[name][i].outgoing;
    }
    if IsOutgoingId(more, id) {
      var other, i :| other in more && 0 <= i < |more[other]| &&
        more[other][i].outgoing && more[other][i].status != Read && more[other][i].messageId == Some(id);
      assert other != name ==> done[other][i] == more[other][i];
    }
  }
}
