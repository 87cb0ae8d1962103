/**
 What the history operations do, message by message, said without their specification functions: each
 theorem about runs is about functions that these laws pin down.
 */
module HistoryLaws {
  import opened Wrappers
  import opened PeerSessions
  import opened Mailbox
  import opened ChatHistory
  import opened HistoryRuns

  /** Some message of the history carries this id. */
  ghost predicate Holds(chats: Chats, id: MessageId) {
    exists name, i | name in chats && 0 <= i < |chats[name]| :: chats[name][i].messageId == Some(id)
  }

  lemma HoldsIsHasId(chats: Chats, id: MessageId)
    ensures Holds(chats, id) <==> HasId(chats, id)
  {
    if Holds(chats, id) {
      var name, i :| name in chats && 0 <= i < |chats[name]| && chats[name][i].messageId == Some(id);
      assert IdIn(chats[name], id);
    }
    if HasId(chats, id) {
      var name :| name in chats && IdIn(chats[name], id);
      var i :| 0 <= i < |chats[name]| && chats[name][i].messageId == Some(id);
      assert chats[name][i].messageId == Some(id);
    }
  }

  /** The chat a device's messages go to. */
  ghost predicate GoesTo(peerByDevice: map<DeviceId, string>, device: DeviceId, nick: string) {
    if device in peerByDevice then nick == peerByDevice[device]
    else exists k: nat :: (k == 8 <= |device| || k == |device| < 8) && nick == "unknown:" + device[..k]
  }

  lemma NickIsWhereItGoes(peerByDevice: map<DeviceId, string>, device: DeviceId)
    ensures GoesTo(peerByDevice, device, Nick(peerByDevice, device))
  {
    if device !in peerByDevice {
      var k: nat := if |device| < 8 then |device| else 8;
      assert Nick(peerByDevice, device) == "unknown:" + device[..k];
    }
  }

  /** What a received plaintext shows. */
  ghost predicate ShownAs(rendering: Rendering, plaintext: string, m: ChatMessage) {
    match rendering.parse(plaintext)
    case File(file) => m.text == "File: " + file.fileName && m.attachment == Some(file)
    case Call(_, video) => m.text == rendering.callText(video) && m.attachment == None
    case Contact => false
    case NotPayload => m.text == plaintext && m.attachment == None
  }

  /** A message already held is ignored. */
  lemma KnownIdIsIgnored(rendering: Rendering, st: AppState, msg: DecryptedMessage)
    requires Holds(st.chats, msg.messageId)
    ensures Pushed(rendering, st, msg) == st
  {
    HoldsIsHasId(st.chats, msg.messageId);
  }

  /** A new contact card opens its chat, if there is none yet, and does nothing else. */
  lemma CardOnlyOpensChat(rendering: Rendering, st: AppState, msg: DecryptedMessage, nick: string)
    requires !Holds(st.chats, msg.messageId) && rendering.parse(msg.text) == Contact
    requires GoesTo(st.peerByDevice, msg.fromDevice, nick)
    ensures Pushed(rendering, st, msg) == st.(chats := if nick in st.chats then st.chats else st.chats[nick := []])
  {
    HoldsIsHasId(st.chats, msg.messageId);
    NickIsWhereItGoes(st.peerByDevice, msg.fromDevice);
    assert nick in st.chats ==> st.chats[nick := st.chats[nick]] == st.chats;
  }

  /**
   Any other new message is appended to its chat, after whatever the chat held, and counted exactly when
   another chat is selected; nothing else changes.
   */
  lemma ArrivalIsAppended(rendering: Rendering, st: AppState, msg: DecryptedMessage, nick: string)
    requires !Holds(st.chats, msg.messageId) && rendering.parse(msg.text) != Contact
    requires GoesTo(st.peerByDevice, msg.fromDevice, nick)
    ensures var after := Pushed(rendering, st, msg);
            var before := if nick in st.chats then st.chats[nick] else [];
            && after.chats.Keys == st.chats.Keys + {nick}
            && (forall other | other in st.chats && other != nick :: after.chats[other] == st.chats[other])
            && |after.chats[nick]| == |before| + 1 && after.chats[nick][..|before|] == before
            && var m := after.chats[nick][|before|];
               !m.outgoing && m.ts == msg.createdAt && m.status == MessageStatus.Delivered
               && m.messageId == Some(msg.messageId) && ShownAs(rendering, msg.text, m)
    ensures var after := Pushed(rendering, st, msg);
            var count := if nick in st.unread then st.unread[nick] else 0;
            && after.unread == (if st.selected == nick then st.unread else st.unread[nick := count + 1])
            && after.peerByDevice == st.peerByDevice && after.selected == st.selected && after.readAck == st.readAck
  {
    HoldsIsHasId(st.chats, msg.messageId);
    NickIsWhereItGoes(st.peerByDevice, msg.fromDevice);
  }

  /** The message waits for its acknowledgement. */
  ghost predicate Waits(m: ChatMessage, id: MessageId) {
    !m.outgoing && m.status != Read && m.messageId == Some(id)
  }

  lemma {:induction false} UnreadIdsAreWaiting(messages: seq<ChatMessage>, id: MessageId)
    ensures id in UnreadIds(messages) <==> exists i | 0 <= i < |messages| :: Waits(messages[i], id)
  {
    if messages != [] {
      var last := |messages| - 1;
      UnreadIdsAreWaiting(messages[..last], id);
      assert (exists i | 0 <= i < last :: Waits(messages[..last][i], id)) <==> exists i | 0 <= i < last :: Waits(messages[i], id);
    }
  }

  lemma {:induction false} UnreadIdsHaveLength(messages: seq<ChatMessage>)
    ensures |UnreadIds(messages)| <= |messages|
    ensures UnreadIds(messages) == [] <==> forall i, id | 0 <= i < |messages| :: !Waits(messages[i], id)
  {
    if messages != [] {
      var last := |messages| - 1;
      UnreadIdsHaveLength(messages[..last]);
      assert (forall i, id | 0 <= i < last :: !Waits(messages[..last][i], id)) <==> forall i, id | 0 <= i < last :: !Waits(messages[i], id);
      if messages[last].messageId.Some? {
        assert Waits(messages[last], messages[last].messageId.value) <==> AwaitsRead(messages[last]);
      }
    }
  }

  /**
   Marking sends off exactly the ids that wait in the selected chat and marks every received message of it
   Read, unless an acknowledgement is on its way or nothing waits; its counter goes, and nothing else changes.
   */
  lemma MarkingIsExact(st: AppState)
    ensures var (after, sent) := SelectedMarked(st);
            var open := st.readAck.None? && st.selected != "" && st.selected in st.chats;
            && (sent <==> open && exists i, id | 0 <= i < |st.chats[st.selected]| :: Waits(st.chats[st.selected][i], id))
            && (!open ==> after == st)
            && (open && !sent ==> after == st.(unread := st.unread - {st.selected}))
    ensures SelectedMarked(st).1 ==>
              var after := SelectedMarked(st).0;
              var before := st.chats[st.selected];
              && after.readAck.Some? && after.readAck.value.chat == st.selected
              && (forall id :: id in after.readAck.value.ids <==> exists i | 0 <= i < |before| :: Waits(before[i], id))
              && after.chats.Keys == st.chats.Keys
              && (forall other | other in st.chats && other != st.selected :: after.chats[other] == st.chats[other])
              && |after.chats[st.selected]| == |before|
              && (forall i | 0 <= i < |before| ::
                    after.chats[st.selected][i] == if before[i].outgoing then before[i] else before[i].(status := Read))
              && after.unread == st.unread - {st.selected}
              && after.peerByDevice == st.peerByDevice && after.selected == st.selected
  {
    if st.readAck.None? && st.selected != "" && st.selected in st.chats {
      var before := st.chats[st.selected];
      UnreadIdsHaveLength(before);
      forall id ensures id in UnreadIds(before) <==> exists i | 0 <= i < |before| :: Waits(before[i], id) {
        UnreadIdsAreWaiting(before, id);
      }
    }
  }

  /** A failed acknowledgement puts its messages back to Delivered and its ids back on the counter; any other answer only ends it. */
  lemma PollIsExact(st: AppState, outcome: AckOutcome)
    requires st.readAck.Some?
    ensures var after := AckPolled(st, outcome);
            var ack := st.readAck.value;
            && (outcome == StillWaiting ==> after == st)
            && (outcome == WorkerGone || outcome == Answered(true) ==> after == st.(readAck := None))
            && (outcome == Answered(false) ==>
                  && after.readAck == None && after.chats.Keys == st.chats.Keys
                  && after.unread == st.unread[ack.chat := (if ack.chat in st.unread then st.unread[ack.chat] else 0) + |ack.ids|]
                  && after.peerByDevice == st.peerByDevice && after.selected == st.selected)
    ensures outcome == Answered(false) ==>
              forall name | name in st.chats ::
                && |AckPolled(st, outcome).chats[name]| == |st.chats[name]|
                && forall i | 0 <= i < |st.chats[name]| ::
                  var m := st.chats[name][i];
                  var named := name == st.readAck.value.chat && m.messageId.Some? && m.messageId.value in st.readAck.value.ids;
                  AckPolled(st, outcome).chats[name][i] == if named then m.(status := MessageStatus.Delivered) else m
  {
  }

  /** The last of these reports that names the id, if any. */
  ghost predicate LastReport(statuses: seq<Status>, id: Option<MessageId>, k: int) {
    && -1 <= k < |statuses|
    && (k >= 0 ==> id == Some(statuses[k].messageId))
    && forall j | k < j < |statuses| :: id != Some(statuses[j].messageId)
  }

  /** Every message takes what the last report naming it says; a message no report names keeps its status. */
  lemma {:induction false} LastReportWins(chats: Chats, statuses: seq<Status>, name: string, i: nat, k: int)
    requires name in chats && i < |chats[name]| && LastReport(statuses, chats[name][i].messageId, k)
    ensures var after := StatusesApplied(chats, statuses);
            && after.Keys == chats.Keys && |after[name]| == |chats[name]|
            && after[name][i] == chats[name][i].(status :=
                 if k < 0 then chats[name][i].status
                 else if statuses[k].read then Read
                 else if statuses[k].delivered then MessageStatus.Delivered
                 else Sent)
  {
    if statuses != [] {
      var last := |statuses| - 1;
      var id := chats[name][i].messageId;
      if k == last {
        var earlier := LastReportBefore(statuses[..last], id);
        LastReportWins(chats, statuses[..last], name, i, earlier);
      } else {
        assert id != Some(statuses[last].messageId);
        LastReportWins(chats, statuses[..last], name, i, k);
      }
    }
  }

  lemma {:induction false} LastReportBefore(statuses: seq<Status>, id: Option<MessageId>) returns (k: int)
    ensures LastReport(statuses, id, k)
  {
    if statuses == [] {
      k := -1;
    } else if id == Some(statuses[|statuses| - 1].messageId) {
      k := |statuses| - 1;
    } else {
      k := LastReportBefore(statuses[..|statuses| - 1], id);
    }
  }

  /** A click deselects the selected chat; on another chat it selects that one and marks it. */
  lemma ClickIsExact(st: AppState, name: string)
    ensures st.selected == name ==> Clicked(st, name) == st.(selected := "")
    ensures st.selected != name ==> Clicked(st, name) == SelectedMarked(st.(selected := name)).0
  {
  }

  /** Opening a chat selects it, learns its device, keeps what the chat held, and marks it. */
  lemma OpeningIsExact(st: AppState, peer: string, device: DeviceId)
    ensures var entered := AppState(
              if peer in st.chats then st.chats else st.chats[peer := []], st.peerByDevice[device := peer],
              st.unread, peer, st.readAck);
            ChatOpened(st, peer, device) == SelectedMarked(entered).0
  {
    assert peer in st.chats ==> st.chats[peer := st.chats[peer]] == st.chats;
  }

  /** A send result writes Sent or Failed at its index, whatever stands there, and a mapping learns its peer. */
  lemma ResultsAndMappingsAreExact(rendering: Rendering, st: AppState, name: string, index: nat, ok: bool, device: DeviceId)
    ensures HistoryRuns.Step(rendering, st, SendDone(name, index, ok)) ==
            if name in st.chats && index < |st.chats[name]|
            then st.(chats := st.chats[name := st.chats[name][index :=
                   st.chats[name][index].(status := if ok then Sent else MessageStatus.Failed)]])
            else st
    ensures HistoryRuns.Step(rendering, st, LearnPeer(device, name)) ==
            st.(peerByDevice := st.peerByDevice[device := name],
                chats := if name in st.chats then st.chats else st.chats[name := []])
    ensures HistoryRuns.Step(rendering, st, MarkSelected) == SelectedMarked(st).0
  {
    assert name in st.chats ==> st.chats[name := st.chats[name]] == st.chats;
  }
}
