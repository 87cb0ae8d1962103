/**
 What the logs of the message path stand for: a filing is a message in a history, a delivery is a drain,
 and an acknowledged row was both drained by and shown to its addressee.
 */
module MessagePathLaws {
  import opened Wrappers
  import opened Crypto
  import opened PeerSessions
  import opened Mailbox
  import opened ChatHistory
  import opened HistoryRuns
  import opened HistoryLaws
  import opened MessagePath
  import opened MessagePathSafety

  /** The history holds a received message with this id and this text. */
  ghost predicate ShowsReceived(chats: Chats, id: MessageId, text: string) {
    exists name, i | name in chats && 0 <= i < |chats[name]| ::
      !chats[name][i].outgoing && chats[name][i].messageId == Some(id) && chats[name][i].text == text
  }

  /** Whatever a step files, the history it leads to shows as received. */
  lemma FiledIsShown(w: World, d: DeviceId, app: AppState, step: AppStep, x: Filed)
    requires x in FiledBy(w, d, app, step)
    ensures step.Arrive? && x.device == d && x.id == step.msg.messageId
    ensures ShowsReceived(HistoryRuns.Step(w.rendering, app, step).chats, x.id, x.shown)
  {
    var msg := step.msg;
    var nick := Nick(app.peerByDevice, msg.fromDevice);
    HoldsIsHasId(app.chats, msg.messageId);
    NickIsWhereItGoes(app.peerByDevice, msg.fromDevice);
    ArrivalIsAppended(w.rendering, app, msg, nick);
    var after := Pushed(w.rendering, app, msg);
    var last := |after.chats[nick]| - 1;
    assert after.chats[nick][last].messageId == Some(x.id) && after.chats[nick][last].text == x.shown;
  }

  /** Whatever an arrival newly shows, it files. */
  lemma ShownIsFiled(w: World, d: DeviceId, app: AppState, msg: DecryptedMessage, id: MessageId, text: string)
    requires !Holds(app.chats, id)
    requires ShowsReceived(HistoryRuns.Step(w.rendering, app, Arrive(msg)).chats, id, text)
    ensures Filed(d, id, text) in FiledBy(w, d, app, Arrive(msg))
  {
    HoldsIsHasId(app.chats, msg.messageId);
    var after := Pushed(w.rendering, app, msg);
    var name, i :| name in after.chats && 0 <= i < |after.chats[name]| &&
      !after.chats[name][i].outgoing && after.chats[name][i].messageId == Some(id) && after.chats[name][i].text == text;
  }

  /** Every filing of a run was shown by the device's own history at some moment of the run. */
  lemma {:induction false} FiledWasShown(
    w: World, states: seq<System>, actions: seq<(DeviceId, Action)>, k: nat, x: Filed)
    requires IsSystemRun(w, states, actions) && k <= |actions| && x in states[k].facts.filed
    ensures exists j | 0 <= j <= k :: ShownAt(states, j, x)
  {
    if k > 0 {
      if x in states[k - 1].facts.filed {
        FiledWasShown(w, states, actions, k - 1, x);
      } else {
        NewFilingIsShown(w, states[k - 1], actions[k - 1].0, actions[k - 1].1, states[k], x);
        assert ShownAt(states, k, x);
      }
    }
  }

  ghost predicate ShownAt(states: seq<System>, j: int, x: Filed) {
    0 <= j < |states| && x.device in states[j].clients && ShowsReceived(states[j].clients[x.device].app.chats, x.id, x.shown)
  }

  lemma NewFilingIsShown(w: World, s: System, d: DeviceId, action: Action, s': System, x: Filed)
    requires Next(w, s, d, action, s') && x in s'.facts.filed && x !in s.facts.filed
    ensures x.device in s'.clients && ShowsReceived(s'.clients[x.device].app.chats, x.id, x.shown)
  {
    FiledIsShown(w, d, s.clients[d].app, action.step, x);
  }

  // ------------------------------------------------------------------
  // Deliveries

  /** A row gains its delivery time only from a drain of its addressee that picked it. */
  lemma DeliveredOnlyByDrain(w: World, s: System, d: DeviceId, action: Action, s': System, r: nat)
    requires Next(w, s, d, action, s') && r < |s.facts.rows|
    ensures r < |s'.facts.rows|
    ensures s'.facts.rows[r].deliveredAt != None <==>
              s.facts.rows[r].deliveredAt != None || (action.ServerDrain? && r in action.picked)
    ensures action.ServerDrain? && r in action.picked ==> s.facts.rows[r].toDevice == d
  {
    if action.ServerDrain? && r in action.picked {
      var k :| 0 <= k < |action.picked| && action.picked[k] == r;
      assert IsPending(s.facts.rows, action.locked, d, action.picked[k]);
    }
  }

  /** A row enters the table undelivered and unacknowledged, with what was posted. */
  lemma NewRowIsUndelivered(w: World, s: System, d: DeviceId, action: Action, s': System, r: nat)
    requires Next(w, s, d, action, s') && |s.facts.rows| <= r < |s'.facts.rows|
    ensures action.ServerInsert? && r == |s.facts.rows|
    ensures s'.facts.rows[r] ==
            Row(action.post.id, d, action.post.toDevice, action.post.wire, action.now, None, None)
  {
  }

  lemma RowsStay(w: World, s: System, d: DeviceId, action: Action, s': System, r: nat)
    requires Next(w, s, d, action, s') && r < |s.facts.rows|
    ensures r < |s'.facts.rows| && s'.facts.rows[r].toDevice == s.facts.rows[r].toDevice
    ensures s'.facts.rows[r].messageId == s.facts.rows[r].messageId
  {
  }

  /** An answer to device d carries this envelope under this id. */
  ghost predicate Answered(net: Network, d: DeviceId, id: MessageId, wire: WireEnvelope) {
    exists answer, n: nat | answer in net.answers && n < |answer.1| ::
      answer.0 == d && answer.1[n].messageId == id && answer.1[n].wire == wire
  }

  /** Step j was a drain by row r's addressee that handed the row out. */
  ghost predicate HandedOutAt(states: seq<System>, actions: seq<(DeviceId, Action)>, j: int, r: nat, to: DeviceId, id: MessageId) {
    && 0 <= j < |actions| && j + 1 < |states|
    && actions[j].0 == to && actions[j].1.ServerDrain? && r in actions[j].1.picked
    && r < |states[j].facts.rows| && states[j].facts.rows[r].messageId == id
    && Answered(states[j + 1].net, to, id, states[j].facts.rows[r].envelope)
  }

  lemma DrainAnswers(w: World, s: System, d: DeviceId, action: Action, s': System, r: nat)
    requires Next(w, s, d, action, s') && action.ServerDrain? && r in action.picked && r < |s.facts.rows|
    ensures Answered(s'.net, d, s.facts.rows[r].messageId, s.facts.rows[r].envelope)
  {
    var n :| 0 <= n < |action.picked| && action.picked[n] == r;
    var items := ItemsOf(s.facts.rows, action.picked);
    assert (d, items) in s'.net.answers;
    assert (d, items).1[n] == ItemOf(s.facts.rows[r]);
  }

  /** In every run a delivered row was handed to its addressee by one of its drains. */
  lemma {:induction false} DeliveredMeansHandedOut(
    w: World, states: seq<System>, actions: seq<(DeviceId, Action)>, k: nat, r: nat)
    requires IsSystemRun(w, states, actions) && k <= |actions| && r < |states[k].facts.rows|
    requires states[k].facts.rows[r].deliveredAt != None
    ensures var row := states[k].facts.rows[r];
            exists j | 0 <= j < k :: HandedOutAt(states, actions, j, r, row.toDevice, row.messageId)
  {
    if k > 0 {
      var s, d, action, s' := states[k - 1], actions[k - 1].0, actions[k - 1].1, states[k];
      if r < |s.facts.rows| {
        DeliveredOnlyByDrain(w, s, d, action, s', r);
        RowsStay(w, s, d, action, s', r);
        if s.facts.rows[r].deliveredAt != None {
          DeliveredMeansHandedOut(w, states, actions, k - 1, r);
        } else {
          DrainAnswers(w, s, d, action, s', r);
          assert HandedOutAt(states, actions, k - 1, r, d, s.facts.rows[r].messageId);
        }
      } else {
        NewRowIsUndelivered(w, s, d, action, s', r);
      }
    }
  }

  /**
   End to end, without any log: an acknowledged row was handed to its addressee by one of its drains, and
   at some moment of the run the addressee's history showed, as received, exactly the text its id was
   issued for.
   */
  lemma ReadMeansHandedOutAndShown(w: World, states: seq<System>, actions: seq<(DeviceId, Action)>, k: nat, r: nat)
    requires IsSystemRun(w, states, actions) && k <= |actions| && r < |states[k].facts.rows|
    requires states[k].facts.rows[r].ackedAt != None
    ensures var f, row := states[k].facts, states[k].facts.rows[r];
            && row.messageId in f.issued && f.issued[row.messageId].to == row.toDevice
            && (exists j | 0 <= j < k :: HandedOutAt(states, actions, j, r, row.toDevice, row.messageId))
            && exists j | 0 <= j <= k ::
                 ShownAt(states, j, Filed(row.toDevice, row.messageId, w.rendering.Text(f.issued[row.messageId].text)))
  {
    RunKeepsSound(w, states, actions, k);
    var f, row := states[k].facts, states[k].facts.rows[r];
    assert RowOk(w, f, row);
    DeliveredMeansHandedOut(w, states, actions, k, r);
    FiledWasShown(w, states, actions, k, Filed(row.toDevice, row.messageId, w.rendering.Text(f.issued[row.messageId].text)));
  }

  // ------------------------------------------------------------------
  // Acknowledgements and posts

  /** An acknowledgement leaves a client only for ids that its own marking just set or still waits for. */
  lemma AcksComeFromMarking(w: World, s: System, d: DeviceId, action: Action, s': System, a: (DeviceId, seq<MessageId>))
    requires Next(w, s, d, action, s') && a in s'.net.acks && a !in s.net.acks
    ensures a.0 == d && action.Ui? && d in s'.clients
    ensures s'.clients[d].app.readAck != None && s'.clients[d].app.readAck.value.ids == a.1
  {
  }

  /** A post is what the device's own session sealed of the text the id was issued for, to the peer it was issued to. */
  lemma PostsAreSealed(w: World, s: System, d: DeviceId, action: Action, s': System, p: Post)
    requires w.crypto.Lawful() && Sound(w, s) && Next(w, s, d, action, s') && p in s'.net.posts && p !in s.net.posts
    ensures action.Transmit? && d in s.clients && p.id == action.id && p.fromDevice == d && p.id in s.facts.issued
    ensures var issue := s.facts.issued[p.id];
            && p.toDevice == issue.to && issue.to in s.clients[d].sessions
            && var session := s.clients[d].sessions[issue.to];
               p.wire == Ratchet(
                 RatchetEnvelope(2, session.sendCounter,
                   w.crypto.seal(w.crypto.MessageKey(session.sharedKey, session.sendCounter), action.nonce, issue.text)),
                 action.json)
  {
    assert ClientOk(w, s.facts, d, s.clients[d]);
    TransmittedIsSealed(w, s, d, action.id, action.nonce, action.json, p);
  }

  lemma TransmittedIsSealed(w: World, s: System, d: DeviceId, id: MessageId, nonce: string, json: string, p: Post)
    requires w.crypto.Lawful() && d in s.clients && AllWellFormed(w.crypto, s.clients[d].sessions) && id in s.facts.issued
    requires p in Transmitted(w, s, d, id, nonce, json).net.posts && p !in s.net.posts
    ensures var issue := s.facts.issued[id];
            && p.id == id && p.fromDevice == d && p.toDevice == issue.to && issue.to in s.clients[d].sessions
            && var session := s.clients[d].sessions[issue.to];
               p.wire == Ratchet(
                 RatchetEnvelope(2, session.sendCounter,
                   w.crypto.seal(w.crypto.MessageKey(session.sharedKey, session.sendCounter), nonce, issue.text)), json)
  {
    var issue := s.facts.issued[id];
    if issue.to in s.clients[d].sessions {
      SealedUsesCounterKey(w.crypto, s.clients[d].sessions[issue.to], issue.text, nonce, json);
    }
  }

  // ------------------------------------------------------------------
  // Restarts

  /** What a client saved is what a restart reads back; a session file that does not open leaves no session. */
  lemma SavedComesBack(w: World, s: System, d: DeviceId, saved: System, load: Action, after: System)
    requires Next(w, saved, d, load, after)
    ensures load == LoadSessions(true) && Next(w, s, d, SaveSessions, saved) ==>
              after.clients[d].sessions == s.clients[d].sessions
    ensures load == LoadSessions(false) ==> after.clients[d].sessions == map[]
    ensures load == LoadApp && Next(w, s, d, SaveApp, saved) ==>
              var was, now := s.clients[d].app, after.clients[d].app;
              now == AppState(was.chats, was.peerByDevice, was.unread, "", None)
  {
  }

  /** A reset removes exactly one session; a derivation does what the client core does. */
  lemma SessionsChangeAsAsked(w: World, s: System, d: DeviceId, action: Action, s': System)
    requires Next(w, s, d, action, s')
    ensures forall peer :: action == ResetSession(peer) ==> s'.clients[d].sessions == s.clients[d].sessions - {peer}
    ensures action.Rederive? ==>
              s'.clients[d].sessions == Derived(w.crypto, s.clients[d].sessions, action.own, action.bundle, action.replace)
  {
  }
}
