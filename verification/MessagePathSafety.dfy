/** Every action keeps the message path sound, so every run does: what that means end to end. */
module MessagePathSafety {
  import opened Wrappers
  import opened Crypto
  import opened PeerSessions
  import opened BatchRecords
  import opened SyncFlow
  import opened Mailbox
  import opened ChatHistory
  import opened HistoryRuns
  import opened MessagePath

  // ------------------------------------------------------------------
  // Facts

  lemma RowGrows(w: World, f: Facts, g: Facts, row: Row)
    requires Grows(f, g) && RowOk(w, f, row)
    ensures RowOk(w, g, row)
  {
    if row.ackedAt.Some? {
      FiledGrows(w, f, g, row.toDevice, row.messageId);
    }
  }

  /** The logs grow and the rows stay: only the new filings need a reason. */
  lemma LogsGrow(w: World, f: Facts, g: Facts)
    requires FactsOk(w, f) && Grows(f, g) && g.rows == f.rows
    requires forall x | x in g.filed && x !in f.filed ::
               FiledExactly(w, g, x.device, x.id) && x.shown == w.rendering.Text(g.issued[x.id].text)
    ensures FactsOk(w, g)
  {
    forall r | 0 <= r < |g.rows| ensures RowOk(w, g, g.rows[r]) {
      RowGrows(w, f, g, f.rows[r]);
    }
    forall x | x in g.filed
      ensures FiledExactly(w, g, x.device, x.id) && x.shown == w.rendering.Text(g.issued[x.id].text)
    {
      if x in f.filed {
        FiledGrows(w, f, g, x.device, x.id);
      }
    }
  }

  /** The rows change and the logs stay: every new or changed row needs a reason. */
  lemma RowsGrow(w: World, f: Facts, g: Facts)
    requires FactsOk(w, f) && Grows(f, g) && g.filed == f.filed && TableOk(g.rows)
    requires forall r | 0 <= r < |g.rows| && !(r < |f.rows| && g.rows[r] == f.rows[r]) :: RowOk(w, g, g.rows[r])
    ensures FactsOk(w, g)
  {
    forall r | 0 <= r < |g.rows| ensures RowOk(w, g, g.rows[r]) {
      if r < |f.rows| && g.rows[r] == f.rows[r] {
        RowGrows(w, f, g, f.rows[r]);
      }
    }
    forall x | x in g.filed
      ensures FiledExactly(w, g, x.device, x.id) && x.shown == w.rendering.Text(g.issued[x.id].text)
    {
      FiledGrows(w, f, g, x.device, x.id);
    }
  }

  // ------------------------------------------------------------------
  // Client side

  /** Ids held by a history are ids that were issued. */
  lemma HeldIdsAreIssued(w: World, f: Facts, d: DeviceId, app: AppState, id: MessageId)
    requires AppOk(w, f, d, app)
    ensures HasId(app.chats, id) ==> id in f.issued
  {
  }

  lemma ComposedIsOk(w: World, f: Facts, d: DeviceId, app: AppState, text: string, ts: int, id: MessageId)
    requires AppOk(w, f, d, app) && !HasId(app.chats, id) && ShownBy(f, d, id)
    ensures AppOk(w, f, d, Composed(app, app.selected, text, ts, id))
  {
    var m := ChatMessage(true, text, ts, Sending, Some(id), None);
    AppendedStaysDistinct(app.chats, app.selected, m);
    assert MessageOk(w, f, d, m);
    assert ChatOk(w, f, d, ChatOf(app.chats, app.selected) + [m]);
  }

  /** The facts have grown; only device d's client changed, and it is fine. */
  lemma OneClientChanged(w: World, s: System, d: DeviceId, c: Client, s': System)
    requires Sound(w, s) && Grows(s.facts, s'.facts) && FactsOk(w, s'.facts)
    requires s'.clients == s.clients[d := c] && s'.net == s.net
    requires ClientOk(w, s'.facts, d, c)
    ensures Sound(w, s')
  {
    NetGrows(w, s.facts, s'.facts, s.net);
    ClientsGrow(w, s.facts, s'.facts, s.clients);
  }

  /** The facts are the same; device d's client and the network changed, and both are fine. */
  lemma ClientAndNetChanged(w: World, s: System, d: DeviceId, c: Client, s': System)
    requires Sound(w, s) && s'.facts == s.facts && s'.clients == s.clients[d := c]
    requires ClientOk(w, s.facts, d, c) && NetOk(w, s.facts, s'.net)
    ensures Sound(w, s')
  {
  }

  lemma IssueKeepsSound(w: World, s: System, d: DeviceId, action: Action, s': System)
    requires Sound(w, s) && Next(w, s, d, action, s') && action.IssueMessage?
    ensures Sound(w, s')
  {
    var f, g := s.facts, s'.facts;
    var c := s.clients[d];
    LogsGrow(w, f, g);
    AppGrows(w, f, g, d, c.app);
    AppGrows(w, f, g, d, c.savedApp);
    HeldIdsAreIssued(w, f, d, c.app, action.id);
    if action.shown {
      ComposedIsOk(w, g, d, c.app, action.display, action.ts, action.id);
    }
    OneClientChanged(w, s, d, s'.clients[d], s');
  }

  lemma PostKeepsSound(w: World, s: System, d: DeviceId, id: MessageId, nonce: string, json: string)
    requires w.crypto.Lawful() && Sound(w, s) && d in s.clients && id in s.facts.issued && s.facts.issued[id].device == d
    ensures Sound(w, Transmitted(w, s, d, id, nonce, json))
  {
    var issue, sessions := s.facts.issued[id], s.clients[d].sessions;
    var s' := Transmitted(w, s, d, id, nonce, json);
    if issue.to in sessions {
      SealedUsesCounterKey(w.crypto, sessions[issue.to], issue.text, nonce, json);
      ClientAndNetChanged(w, s, d, s'.clients[d], s');
    }
  }

  lemma TransmitKeepsSound(w: World, s: System, d: DeviceId, action: Action, s': System)
    requires w.crypto.Lawful() && Sound(w, s) && Next(w, s, d, action, s') && action.Transmit?
    ensures Sound(w, s')
  {
    PostKeepsSound(w, s, d, action.id, action.nonce, action.json);
  }

  /** Every plaintext a batch yields is the text its id was issued for. */
  lemma {:induction false} BatchIsAuthentic(
    w: World, f: Facts, d: DeviceId, sessions: Sessions, batch: seq<PendingEnvelope>)
    requires w.crypto.Lawful()
    requires forall item | item in batch :: ItemOk(w, f, d, item)
    ensures forall msg | msg in OpenAll(w.crypto, sessions, batch).1 :: PlaintextOk(w, f, d, msg)
  {
    if batch != [] {
      var item := batch[|batch| - 1];
      assert item in batch && ItemOk(w, f, d, item);
      BatchIsAuthentic(w, f, d, sessions, batch[..|batch| - 1]);
      var before := OpenAll(w.crypto, sessions, batch[..|batch| - 1]).0;
      if item.fromDevice in before {
        var session := before[item.fromDevice];
        var n := item.wire.envelope.counter;
        if Opened(w.crypto, session, item.wire).1.Ok? {
          var key := w.crypto.messageKeyOf(w.crypto.Chain(session.recvChain, n - session.recvCounter));
          w.crypto.OpeningIsAuthentic(key, item.wire.envelope.inner, f.issued[item.messageId].text);
        }
      }
    }
  }

  lemma DecryptKeepsSound(w: World, s: System, d: DeviceId, action: Action, s': System)
    requires w.crypto.Lawful() && Sound(w, s) && Next(w, s, d, action, s') && action.DecryptBatch?
    ensures Sound(w, s')
  {
    var sessions := s.clients[d].sessions;
    CountersAfterBatch(w.crypto, sessions, action.batch, "");
    forall item | item in action.batch ensures ItemOk(w, s.facts, d, item) {
      assert (d, action.batch) in s.net.answers;
      assert ItemOk(w, s.facts, (d, action.batch).0, item);
    }
    BatchIsAuthentic(w, s.facts, d, sessions, action.batch);
    ClientAndNetChanged(w, s, d, s'.clients[d], s');
  }

  lemma SessionActionKeepsSound(w: World, s: System, d: DeviceId, action: Action, s': System)
    requires w.crypto.Lawful() && Sound(w, s) && Next(w, s, d, action, s')
    requires action.Rederive? || action.ResetSession? || action.SaveSessions? || action.LoadSessions?
    ensures Sound(w, s')
  {
    if action.Rederive? {
      DerivedKeepsWellFormed(w.crypto, s.clients[d].sessions, action.own, action.bundle, action.replace);
    }
    assert s'.facts == s.facts && s'.net == s.net;
    assert ClientOk(w, s.facts, d, s'.clients[d]);
  }

  // ------------------------------------------------------------------
  // Application steps

  /** A status change is harmless on a received message, and on a sent one unless it falsely says Read. */
  lemma StatusChangeIsOk(w: World, f: Facts, d: DeviceId, m: ChatMessage, status: MessageStatus)
    requires MessageOk(w, f, d, m)
    requires !m.outgoing || status != Read || ReadBySomeone(f, m.messageId.value)
    ensures MessageOk(w, f, d, m.(status := status))
  {
  }

  lemma {:induction false} UnreadIdsAreFiled(w: World, f: Facts, d: DeviceId, messages: seq<ChatMessage>)
    requires ChatOk(w, f, d, messages)
    ensures AckIdsOk(w, f, d, UnreadIds(messages))
  {
    if messages != [] {
      UnreadIdsAreFiled(w, f, d, messages[..|messages| - 1]);
      assert MessageOk(w, f, d, messages[|messages| - 1]);
    }
  }

  lemma MarkedIsOk(w: World, f: Facts, d: DeviceId, app: AppState)
    requires AppOk(w, f, d, app)
    ensures AppOk(w, f, d, SelectedMarked(app).0)
  {
    MarkKeepsDistinct(app);
    if app.readAck.None? && app.selected != "" && app.selected in app.chats {
      var messages := app.chats[app.selected];
      UnreadIdsAreFiled(w, f, d, messages);
      forall i | 0 <= i < |messages| ensures MessageOk(w, f, d, MarkedRead(messages)[i]) {
        assert MessageOk(w, f, d, messages[i]);
      }
      assert ChatOk(w, f, d, MarkedRead(messages));
    }
  }

  lemma PolledIsOk(w: World, f: Facts, d: DeviceId, app: AppState, outcome: AckOutcome)
    requires AppOk(w, f, d, app)
    ensures AppOk(w, f, d, AckPolled(app, outcome))
  {
    SameIdsStayDistinct(app.chats, AckPolled(app, outcome).chats);
    if app.readAck.Some? && outcome == Answered(false) && app.readAck.value.chat in app.chats {
      var messages := app.chats[app.readAck.value.chat];
      forall i | 0 <= i < |messages| ensures MessageOk(w, f, d, Restored(messages, app.readAck.value.ids)[i]) {
        StatusChangeIsOk(w, f, d, messages[i], MessageStatus.Delivered);
      }
      assert ChatOk(w, f, d, Restored(messages, app.readAck.value.ids));
    }
  }

  lemma {:induction false} StatusesAreOk(w: World, f: Facts, d: DeviceId, chats: Chats, statuses: seq<Status>)
    requires forall name | name in chats :: ChatOk(w, f, d, chats[name])
    requires ReportOk(f, d, statuses)
    ensures forall name | name in StatusesApplied(chats, statuses) ::
              ChatOk(w, f, d, StatusesApplied(chats, statuses)[name])
  {
    if statuses != [] {
      var init := statuses[..|statuses| - 1];
      var last := statuses[|statuses| - 1];
      StatusesAreOk(w, f, d, chats, init);
      var before := StatusesApplied(chats, init);
      forall name | name in before ensures ChatOk(w, f, d, WithStatus(before[name], last.messageId, StatusFor(last))) {
        assert ChatOk(w, f, d, before[name]);
        forall i | 0 <= i < |before[name]|
          ensures MessageOk(w, f, d, WithStatus(before[name], last.messageId, StatusFor(last))[i])
        {
          assert MessageOk(w, f, d, before[name][i]);
        }
      }
    }
  }

  lemma PushedIsOk(w: World, f: Facts, d: DeviceId, app: AppState, msg: DecryptedMessage)
    requires AppOk(w, f, d, app) && PlaintextOk(w, f, d, msg)
    requires FiledBy(w, d, app, Arrive(msg)) <= f.filed
    ensures AppOk(w, f, d, Pushed(w.rendering, app, msg))
  {
    ArriveKeepsDistinct(w.rendering, app, msg);
    if !HasId(app.chats, msg.messageId) && !w.rendering.parse(msg.text).Contact? {
      var nick := Nick(app.peerByDevice, msg.fromDevice);
      var m := IncomingMessage(w.rendering, msg);
      assert Filed(d, msg.messageId, m.text) in FiledBy(w, d, app, Arrive(msg));
      assert MessageOk(w, f, d, m);
      assert ChatOk(w, f, d, ChatOf(app.chats, nick) + [m]);
    }
  }

  lemma UpdatedIsOk(w: World, f: Facts, d: DeviceId, app: AppState, name: string, index: nat, status: MessageStatus)
    requires AppOk(w, f, d, app) && status != Read
    ensures AppOk(w, f, d, StatusUpdated(app, name, index, status))
  {
    SameIdsStayDistinct(app.chats, StatusUpdated(app, name, index, status).chats);
    if name in app.chats && index < |app.chats[name]| {
      var messages := app.chats[name];
      StatusChangeIsOk(w, f, d, messages[index], status);
      assert ChatOk(w, f, d, messages[index := messages[index].(status := status)]);
    }
  }

  lemma OpenedChatIsOk(w: World, f: Facts, d: DeviceId, app: AppState, name: string)
    requires AppOk(w, f, d, app)
    ensures AppOk(w, f, d, app.(chats := app.chats[name := ChatOf(app.chats, name)]))
  {
    EmptyChatKeepsDistinct(app.chats, name);
  }

  lemma UiStepIsOk(w: World, f: Facts, d: DeviceId, app: AppState, step: AppStep)
    requires AppOk(w, f, d, app) && !step.Compose?
    requires step.Arrive? ==> PlaintextOk(w, f, d, step.msg)
    requires step.Statuses? ==> ReportOk(f, d, step.statuses)
    requires step.LogIn? ==> AppOk(w, f, d, step.saved)
    requires FiledBy(w, d, app, step) <= f.filed
    ensures AppOk(w, f, d, HistoryRuns.Step(w.rendering, app, step))
  {
    match step
    case Arrive(msg) => PushedIsOk(w, f, d, app, msg);
    case MarkSelected => MarkedIsOk(w, f, d, app);
    case Click(name) => MarkedIsOk(w, f, d, app.(selected := name));
    case OpenChat(peer, device) =>
      OpenedChatIsOk(w, f, d, app, peer);
      MarkedIsOk(w, f, d, app.(selected := peer, chats := app.chats[peer := ChatOf(app.chats, peer)],
                               peerByDevice := app.peerByDevice[device := peer]));
    case PollAck(outcome) => PolledIsOk(w, f, d, app, outcome);
    case Statuses(statuses) =>
      StatusesAreOk(w, f, d, app.chats, statuses);
      StatusesKeepIds(app.chats, statuses);
      SameIdsStayDistinct(app.chats, StatusesApplied(app.chats, statuses));
    case SendDone(name, index, ok) => UpdatedIsOk(w, f, d, app, name, index, if ok then Sent else Failed);
    case LearnPeer(device, peer) => OpenedChatIsOk(w, f, d, app, peer);
    case Delete(name) => SameIdsStayDistinct(app.chats, Deleted(app, name).chats);
    case LogOut =>
    case LogIn(saved) =>
  }

  /** What the network supplies to an application step is true. */
  lemma SupplyIsOk(w: World, s: System, d: DeviceId, step: AppStep)
    requires NetOk(w, s.facts, s.net) && d in s.clients && Supplied(s, d, step)
    ensures step.Arrive? ==> PlaintextOk(w, s.facts, d, step.msg)
    ensures step.Statuses? ==> ReportOk(s.facts, d, step.statuses)
  {
    if step.Arrive? {
      var out :| (d, out) in s.net.decrypted && step.msg in out;
      assert PlaintextOk(w, s.facts, (d, out).0, step.msg);
    }
    if step.Statuses? {
      assert ReportOk(s.facts, (d, step.statuses).0, (d, step.statuses).1);
    }
  }

  /** What a step files is what the sender issued. */
  lemma FilingIsOk(w: World, f: Facts, g: Facts, d: DeviceId, app: AppState, step: AppStep)
    requires FactsOk(w, f) && g == f.(filed := f.filed + FiledBy(w, d, app, step))
    requires step.Arrive? ==> PlaintextOk(w, f, d, step.msg)
    ensures Grows(f, g) && FactsOk(w, g)
  {
    if step.Arrive? {
      HandedOutGrows(f, g, d, step.msg.messageId);
    }
    LogsGrow(w, f, g);
  }

  lemma AppChangeIsOk(w: World, s: System, d: DeviceId, app: AppState, s': System)
    requires Sound(w, s) && d in s.clients && AppOk(w, s.facts, d, app)
    requires s' == WithClient(s, d, s.clients[d].(app := app)).(net := s.net.(acks := s.net.acks + AckRequest(d, app)))
    ensures Sound(w, s')
  {
    ClientAndNetChanged(w, s, d, s'.clients[d], s');
  }

  lemma UiStepKeepsSound(w: World, s: System, d: DeviceId, step: AppStep, g: Facts)
    requires Sound(w, s) && d in s.clients && Supplied(s, d, step)
    requires g == s.facts.(filed := s.facts.filed + FiledBy(w, d, s.clients[d].app, step))
    ensures Sound(w, s.(facts := g)) && AppOk(w, g, d, HistoryRuns.Step(w.rendering, s.clients[d].app, step))
  {
    var f, app := s.facts, s.clients[d].app;
    SupplyIsOk(w, s, d, step);
    FilingIsOk(w, f, g, d, app, step);
    NetGrows(w, f, g, s.net);
    ClientsGrow(w, f, g, s.clients);
    SupplyIsOk(w, s.(facts := g), d, step);
    assert ClientOk(w, g, d, s.clients[d]);
    UiStepIsOk(w, g, d, app, step);
  }

  lemma UiKeepsSound(w: World, s: System, d: DeviceId, action: Action, s': System)
    requires Sound(w, s) && Next(w, s, d, action, s') && action.Ui?
    ensures Sound(w, s')
  {
    UiStepKeepsSound(w, s, d, action.step, s'.facts);
    AppChangeIsOk(w, s.(facts := s'.facts), d, s'.clients[d].app, s');
  }

  lemma AppActionKeepsSound(w: World, s: System, d: DeviceId, action: Action, s': System)
    requires Sound(w, s) && Next(w, s, d, action, s')
    requires action.SaveApp? || action.LoadApp?
    ensures Sound(w, s')
  {
    assert s'.facts == s.facts && s'.net == s.net;
    assert ClientOk(w, s.facts, d, s'.clients[d]);
  }

  // ------------------------------------------------------------------
  // Server side

  lemma InsertKeepsTable(rows: seq<Row>, post: Post, now: Time)
    requires TableOk(rows) && forall i | 0 <= i < |rows| :: rows[i].createdAt <= now
    ensures TableOk(Inserted(rows, post.id, post.fromDevice, post.toDevice, post.wire, now))
  {
  }

  lemma InsertKeepsSound(w: World, s: System, d: DeviceId, action: Action, s': System)
    requires Sound(w, s) && Next(w, s, d, action, s') && action.ServerInsert?
    ensures Sound(w, s')
  {
    var f, g := s.facts, s'.facts;
    InsertKeepsTable(f.rows, action.post, action.now);
    assert Carries(w, f, action.post.id, d, action.post.wire);
    OnlyRowsChanged(w, s, s');
  }

  /** The facts have grown by a change of rows; the clients and the network did not move. */
  lemma OnlyRowsChanged(w: World, s: System, s': System)
    requires Sound(w, s) && s'.clients == s.clients && s'.net == s.net
    requires Grows(s.facts, s'.facts) && s'.facts.filed == s.facts.filed && TableOk(s'.facts.rows)
    requires forall r | 0 <= r < |s'.facts.rows| && !(r < |s.facts.rows| && s'.facts.rows[r] == s.facts.rows[r]) ::
               RowOk(w, s'.facts, s'.facts.rows[r])
    ensures Sound(w, s')
  {
    RowsGrow(w, s.facts, s'.facts);
    NetGrows(w, s.facts, s'.facts, s.net);
    ClientsGrow(w, s.facts, s'.facts, s.clients);
  }

  lemma DrainedRowsAreOk(w: World, f: Facts, g: Facts, marked: seq<nat>, now: Time)
    requires FactsOk(w, f) && g == f.(rows := Mailbox.Delivered(f.rows, marked, now))
    ensures Grows(f, g) && TableOk(g.rows)
    ensures forall r | 0 <= r < |g.rows| :: RowOk(w, g, g.rows[r])
  {
    DeliveredKeepsTable(f.rows, marked, now);
    forall r | 0 <= r < |g.rows| ensures RowOk(w, g, g.rows[r]) {
      RowGrows(w, f, g, f.rows[r]);
    }
  }

  lemma DrainedItemsAreOk(w: World, f: Facts, g: Facts, d: DeviceId, picked: seq<nat>, now: Time)
    requires forall k | 0 <= k < |picked| :: picked[k] < |f.rows| && f.rows[picked[k]].toDevice == d
    requires g == f.(rows := Mailbox.Delivered(f.rows, picked, now))
    requires forall r | 0 <= r < |f.rows| :: RowOk(w, f, f.rows[r])
    ensures forall item | item in ItemsOf(f.rows, picked) :: ItemOk(w, g, d, item)
  {
    var items := ItemsOf(f.rows, picked);
    forall item | item in items ensures ItemOk(w, g, d, item) {
      var k :| 0 <= k < |items| && items[k] == item;
      var r := picked[k];
      assert r in picked && RowOk(w, f, f.rows[r]);
      assert g.rows[r].messageId == item.messageId && g.rows[r].toDevice == d && g.rows[r].deliveredAt.Some?;
    }
  }

  lemma DrainKeepsSound(w: World, s: System, d: DeviceId, action: Action, s': System)
    requires Sound(w, s) && Next(w, s, d, action, s') && action.ServerDrain?
    ensures Sound(w, s')
  {
    DrainedRowsAreOk(w, s.facts, s'.facts, action.picked, action.now);
    DrainedItemsAreOk(w, s.facts, s'.facts, d, action.picked, action.now);
    OnlyRowsChanged(w, s, s'.(net := s.net));
  }

  /** What an acknowledgement names was handed out and filed before. */
  lemma AckedRowsAreOk(w: World, f: Facts, g: Facts, d: DeviceId, ids: seq<MessageId>, at: Time)
    requires FactsOk(w, f) && AckIdsOk(w, f, d, ids) && g == f.(rows := Acked(f.rows, d, ids, at))
    ensures Grows(f, g) && TableOk(g.rows)
    ensures forall r | 0 <= r < |f.rows| && g.rows[r] != f.rows[r] ::
              && f.rows[r].toDevice == d && f.rows[r].deliveredAt.Some?
              && FiledExactly(w, f, d, f.rows[r].messageId) && RowOk(w, g, g.rows[r])
  {
    forall r | 0 <= r < |f.rows| && g.rows[r] != f.rows[r]
      ensures f.rows[r].toDevice == d && f.rows[r].deliveredAt.Some?
      ensures FiledExactly(w, f, d, f.rows[r].messageId) && RowOk(w, g, g.rows[r])
    {
      var id := f.rows[r].messageId;
      assert id in ids && FiledExactly(w, f, d, id) && RowOk(w, f, f.rows[r]);
      var q :| 0 <= q < |f.rows| && f.rows[q].messageId == id && f.rows[q].toDevice == d && f.rows[q].deliveredAt.Some?;
      assert q == r;
      FiledGrows(w, f, g, d, id);
    }
  }

  lemma AckKeepsSound(w: World, s: System, d: DeviceId, action: Action, s': System)
    requires Sound(w, s) && Next(w, s, d, action, s') && action.ServerAck?
    ensures Sound(w, s')
  {
    assert AckIdsOk(w, s.facts, (d, action.ids).0, (d, action.ids).1);
    AckedRowsAreOk(w, s.facts, s'.facts, d, action.ids, action.at);
    OnlyRowsChanged(w, s, s');
  }

  lemma {:induction false} ReportIsOk(f: Facts, rows: seq<Row>, d: DeviceId, ids: seq<MessageId>)
    requires |rows| <= |f.rows| && forall r | 0 <= r < |rows| :: rows[r] == f.rows[r]
    requires AskedOk(f, d, ids)
    ensures ReportOk(f, d, StatusesOf(rows, d, ids))
  {
    if rows != [] {
      ReportIsOk(f, rows[..|rows| - 1], d, ids);
      var last := rows[|rows| - 1];
      assert last == f.rows[|rows| - 1];
    }
  }

  lemma ReportKeepsSound(w: World, s: System, d: DeviceId, action: Action, s': System)
    requires Sound(w, s) && Next(w, s, d, action, s') && action.ServerReport?
    ensures Sound(w, s')
  {
    assert AskedOk(s.facts, (d, action.ids).0, (d, action.ids).1);
    ReportIsOk(s.facts, s.facts.rows, d, action.ids);
  }

  /** A sync asks only about messages the history shows as sent. */
  lemma AskKeepsSound(w: World, s: System, d: DeviceId, action: Action, s': System)
    requires Sound(w, s) && Next(w, s, d, action, s') && action.AskStatuses?
    ensures Sound(w, s')
  {
    OutgoingIdsAreShown(w, s.facts, d, s.clients[d].app, action.ids);
  }

  lemma OutgoingIdsAreShown(w: World, f: Facts, d: DeviceId, app: AppState, ids: seq<MessageId>)
    requires AppOk(w, f, d, app) && forall id | id in ids :: IsOutgoingId(app.chats, id)
    ensures AskedOk(f, d, ids)
  {
    forall id | id in ids ensures ShownBy(f, d, id) {
      var name, i :| name in app.chats && 0 <= i < |app.chats[name]| &&
        app.chats[name][i].outgoing && app.chats[name][i].status != Read && app.chats[name][i].messageId == Some(id);
      assert ChatOk(w, f, d, app.chats[name]);
      assert MessageOk(w, f, d, app.chats[name][i]);
    }
  }

  // ------------------------------------------------------------------
  // Every run

  lemma StepKeepsSound(w: World, s: System, d: DeviceId, action: Action, s': System)
    requires w.crypto.Lawful() && Sound(w, s) && Next(w, s, d, action, s')
    ensures Sound(w, s')
  {
    match action
    case IssueMessage(_, _, _, _, _, _) => IssueKeepsSound(w, s, d, action, s');
    case Transmit(_, _, _) => TransmitKeepsSound(w, s, d, action, s');
    case ServerInsert(_, _) => InsertKeepsSound(w, s, d, action, s');
    case ServerDrain(_, _, _, _) => DrainKeepsSound(w, s, d, action, s');
    case DecryptBatch(_) => DecryptKeepsSound(w, s, d, action, s');
    case Ui(_) => UiKeepsSound(w, s, d, action, s');
    case SaveApp => AppActionKeepsSound(w, s, d, action, s');
    case LoadApp => AppActionKeepsSound(w, s, d, action, s');
    case ServerAck(_, _) => AckKeepsSound(w, s, d, action, s');
    case AskStatuses(_) => AskKeepsSound(w, s, d, action, s');
    case ServerReport(_) => ReportKeepsSound(w, s, d, action, s');
    case _ => SessionActionKeepsSound(w, s, d, action, s');
  }

  lemma {:induction false} RunKeepsSound(w: World, states: seq<System>, actions: seq<(DeviceId, Action)>, k: nat)
    requires IsSystemRun(w, states, actions) && k <= |actions|
    ensures Sound(w, states[k])
  {
    if k > 0 {
      RunKeepsSound(w, states, actions, k - 1);
      StepKeepsSound(w, states[k - 1], actions[k - 1].0, actions[k - 1].1, states[k]);
    }
  }

  /**
   In every run each session's chains stand exactly at their counters below its root, and any plaintext
   a client ever obtains under an id is exactly the text that id's issuer encrypted.
   */
  lemma ChainsAndPlaintexts(
    w: World, states: seq<System>, actions: seq<(DeviceId, Action)>, k: nat,
    d: DeviceId, peer: DeviceId, out: seq<DecryptedMessage>, msg: DecryptedMessage)
    requires IsSystemRun(w, states, actions) && k <= |actions|
    ensures d in states[k].clients && peer in states[k].clients[d].sessions ==>
              var session := states[k].clients[d].sessions[peer];
              && session.sendChain == w.crypto.Chain(session.sharedKey, session.sendCounter)
              && session.recvChain == w.crypto.Chain(session.sharedKey, session.recvCounter)
    ensures (d, out) in states[k].net.decrypted && msg in out ==>
              && msg.messageId in states[k].facts.issued
              && states[k].facts.issued[msg.messageId].device == msg.fromDevice
              && states[k].facts.issued[msg.messageId].text == msg.text
  {
    RunKeepsSound(w, states, actions, k);
    if (d, out) in states[k].net.decrypted && msg in out {
      assert PlaintextOk(w, states[k].facts, (d, out).0, msg);
    }
    if d in states[k].clients && peer in states[k].clients[d].sessions {
      assert ClientOk(w, states[k].facts, d, states[k].clients[d]);
    }
  }

  lemma OnlyAcksAcknowledge(w: World, s: System, d: DeviceId, action: Action, s': System, r: nat)
    requires Next(w, s, d, action, s') && r < |s.facts.rows| && s.facts.rows[r].ackedAt.None?
    requires r < |s'.facts.rows| && s'.facts.rows[r].ackedAt.Some?
    ensures action.ServerAck? && d == s.facts.rows[r].toDevice
  {
  }

  /** A row is acknowledged only after a drain handed it out and its addressee's history received its exact text. */
  lemma ReadMeansDeliveredAndFiled(w: World, states: seq<System>, actions: seq<(DeviceId, Action)>, k: nat, r: nat)
    requires IsSystemRun(w, states, actions) && k < |actions| && r < |states[k].facts.rows|
    requires states[k].facts.rows[r].ackedAt.None?
    requires r < |states[k + 1].facts.rows| && states[k + 1].facts.rows[r].ackedAt.Some?
    ensures var row := states[k].facts.rows[r];
            && actions[k].0 == row.toDevice && actions[k].1.ServerAck?
            && row.deliveredAt.Some?
            && FiledExactly(w, states[k].facts, row.toDevice, row.messageId)
  {
    RunKeepsSound(w, states, actions, k);
    AckedOnlyWhenFiled(w, states[k], actions[k].0, actions[k].1, states[k + 1], r);
  }

  lemma AckedOnlyWhenFiled(w: World, s: System, d: DeviceId, action: Action, s': System, r: nat)
    requires Sound(w, s) && Next(w, s, d, action, s') && r < |s.facts.rows| && s.facts.rows[r].ackedAt.None?
    requires r < |s'.facts.rows| && s'.facts.rows[r].ackedAt.Some?
    ensures var row := s.facts.rows[r];
            && d == row.toDevice && action.ServerAck? && row.deliveredAt.Some?
            && FiledExactly(w, s.facts, row.toDevice, row.messageId)
  {
    OnlyAcksAcknowledge(w, s, d, action, s', r);
    assert AckIdsOk(w, s.facts, (d, action.ids).0, (d, action.ids).1);
    AckedRowsAreOk(w, s.facts, s'.facts, d, action.ids, action.at);
  }

  /**
   The read receipt is truthful: when the sender's history shows Read on a message it sent, the server
   delivered that message to the device it was issued to, and that device's history received exactly
   the text that was issued, which was not a contact card.
   */
  lemma ReadReceiptsAreTruthful(
    w: World, states: seq<System>, actions: seq<(DeviceId, Action)>, k: nat, d: DeviceId, name: string, i: nat)
    requires IsSystemRun(w, states, actions) && k <= |actions|
    requires d in states[k].clients && name in states[k].clients[d].app.chats
    requires i < |states[k].clients[d].app.chats[name]|
    requires var m := states[k].clients[d].app.chats[name][i]; m.outgoing && m.status == Read
    ensures var f := states[k].facts;
            var m := states[k].clients[d].app.chats[name][i];
            && m.messageId.Some? && m.messageId.value in f.issued
            && var issue := f.issued[m.messageId.value];
            && issue.device == d
            && FiledExactly(w, f, issue.to, m.messageId.value)
  {
    RunKeepsSound(w, states, actions, k);
    var f := states[k].facts;
    assert ClientOk(w, f, d, states[k].clients[d]);
    assert ChatOk(w, f, d, states[k].clients[d].app.chats[name]);
    var m := states[k].clients[d].app.chats[name][i];
    assert MessageOk(w, f, d, m);
    var r :| 0 <= r < |f.rows| && f.rows[r].messageId == m.messageId.value && f.rows[r].ackedAt.Some?;
    assert RowOk(w, f, f.rows[r]);
  }

  /**
   However often envelopes are redelivered and sessions refreshed, reset or reloaded, every history keeps
   its message ids pairwise distinct, and each received message shows the text its id was issued for.
   */
  lemma HistoriesStayDistinctAndTrue(
    w: World, states: seq<System>, actions: seq<(DeviceId, Action)>, k: nat, d: DeviceId)
    requires IsSystemRun(w, states, actions) && k <= |actions| && d in states[k].clients
    ensures DistinctIds(states[k].clients[d].app.chats)
    ensures forall name, i | name in states[k].clients[d].app.chats && 0 <= i < |states[k].clients[d].app.chats[name]| ::
              var m := states[k].clients[d].app.chats[name][i];
              && m.messageId.Some? && m.messageId.value in states[k].facts.issued
              && (!m.outgoing ==> m.text == w.rendering.Text(states[k].facts.issued[m.messageId.value].text))
  {
    RunKeepsSound(w, states, actions, k);
    var f, app := states[k].facts, states[k].clients[d].app;
    assert ClientOk(w, f, d, states[k].clients[d]);
    forall name, i | name in app.chats && 0 <= i < |app.chats[name]|
      ensures MessageOk(w, f, d, app.chats[name][i])
    {
      assert ChatOk(w, f, d, app.chats[name]);
    }
  }

  /** A contact card is never acknowledged, so it stays pending for ever. */
  lemma ContactsStayPending(w: World, states: seq<System>, actions: seq<(DeviceId, Action)>, k: nat, r: nat)
    requires IsSystemRun(w, states, actions) && k <= |actions| && r < |states[k].facts.rows|
    requires var id := states[k].facts.rows[r].messageId;
             id in states[k].facts.issued && w.rendering.parse(states[k].facts.issued[id].text).Contact?
    ensures states[k].facts.rows[r].ackedAt.None?
  {
    RunKeepsSound(w, states, actions, k);
    assert RowOk(w, states[k].facts, states[k].facts.rows[r]);
  }
}
