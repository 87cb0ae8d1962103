/**
 The whole message path: clients with sessions and histories, the server's table, and a
 network that may lose, delay, repeat and reorder everything it was ever given.
 */
module MessagePath {
  import opened Wrappers
  import opened Crypto
  import opened PeerSessions
  import opened Mailbox
  import opened ChatHistory
  import opened HistoryRuns

  datatype World = World(crypto: CryptoEngine, rendering: Rendering)

  /** What a client allotted a message id for: the fresh UUID of one outgoing payload, shown in its history or not. */
  datatype Issue = Issue(device: DeviceId, to: DeviceId, text: string, shown: bool)

  datatype Post = Post(id: MessageId, fromDevice: DeviceId, toDevice: DeviceId, wire: WireEnvelope)

  /** `shown` entered the history of `device` as a received message with this id. */
  datatype Filed = Filed(device: DeviceId, id: MessageId, shown: string)

  /** The server's rows, and two logs that only grow. */
  datatype Facts = Facts(rows: seq<Row>, issued: map<MessageId, Issue>, filed: set<Filed>)

  datatype Client = Client(sessions: Sessions, stored: Sessions, app: AppState, savedApp: AppState)

  /** Everything ever put on the network or handed between threads; nothing is ever removed. */
  datatype Network = Network(
    posts: set<Post>,
    answers: set<(DeviceId, seq<PendingEnvelope>)>,
    decrypted: set<(DeviceId, seq<DecryptedMessage>)>,
    acks: set<(DeviceId, seq<MessageId>)>,
    asked: set<(DeviceId, seq<MessageId>)>,
    reports: set<(DeviceId, seq<Status>)>)

  datatype System = System(clients: map<DeviceId, Client>, net: Network, facts: Facts)

  datatype Action =
    | IssueMessage(id: MessageId, to: DeviceId, text: string, display: string, ts: int, shown: bool)
    | Transmit(id: MessageId, nonce: string, json: string)
    | ServerInsert(post: Post, now: Time)
    | ServerDrain(limit: nat, locked: set<nat>, picked: seq<nat>, now: Time)
    | DecryptBatch(batch: seq<PendingEnvelope>)
    | Rederive(own: Key, bundle: Option<PrekeyBundle>, replace: bool)
    | ResetSession(peer: DeviceId)
    | SaveSessions
    | LoadSessions(fileOpens: bool)
    | Ui(step: AppStep)
    | SaveApp
    | LoadApp
    | ServerAck(ids: seq<MessageId>, at: Time)
    | AskStatuses(ids: seq<MessageId>)
    | ServerReport(ids: seq<MessageId>)

  // ------------------------------------------------------------------
  // One action of device d

  function WithClient(s: System, d: DeviceId, c: Client): System {
    s.(clients := s.clients[d := c])
  }

  /**
   An app step may use a message only if a sync decrypted it, a report only if the server made it, and
   a login reads back what this client saved.
   */
  ghost predicate Supplied(s: System, d: DeviceId, step: AppStep)
    requires d in s.clients
  {
    match step
    case Arrive(msg) => exists out :: (d, out) in s.net.decrypted && msg in out
    case Statuses(statuses) => (d, statuses) in s.net.reports
    case LogIn(saved) => saved == s.clients[d].savedApp
    case Compose(_, _, _) => false
    case _ => true
  }

  function FiledBy(w: World, d: DeviceId, app: AppState, step: AppStep): set<Filed> {
    if step.Arrive? && !HasId(app.chats, step.msg.messageId) && !w.rendering.parse(step.msg.text).Contact?
    then {Filed(d, step.msg.messageId, w.rendering.Text(step.msg.text))}
    else {}
  }

  function AckRequest(d: DeviceId, app: AppState): set<(DeviceId, seq<MessageId>)> {
    if app.readAck.Some? then {(d, app.readAck.value.ids)} else {}
  }

  function Transmitted(w: World, s: System, d: DeviceId, id: MessageId, nonce: string, json: string): System
    requires d in s.clients && id in s.facts.issued
  {
    var c := s.clients[d];
    var issue := s.facts.issued[id];
    if issue.to !in c.sessions then s
    else
      match Sealed(w.crypto, c.sessions[issue.to], issue.text, nonce, json)
      case None => s
      case Some((next, wire)) =>
        WithClient(s, d, c.(sessions := c.sessions[issue.to := next]))
        .(net := s.net.(posts := s.net.posts + {Post(id, d, issue.to, wire)}))
  }

  ghost predicate Next(w: World, s: System, d: DeviceId, action: Action, s': System)
  {
    d in s.clients &&
    var c := s.clients[d];
    var net := s.net;
    var facts := s.facts;
    match action
    case IssueMessage(id, to, text, display, ts, shown) =>
      && id !in facts.issued
      && s' == WithClient(s, d, if shown then c.(app := Composed(c.app, c.app.selected, display, ts, id)) else c)
               .(facts := facts.(issued := facts.issued[id := Issue(d, to, text, shown)]))
    case Transmit(id, nonce, json) =>
      && id in facts.issued && facts.issued[id].device == d
      && s' == Transmitted(w, s, d, id, nonce, json)
    case ServerInsert(post, now) =>
      && post in net.posts && post.fromDevice == d
      && (forall i | 0 <= i < |facts.rows| :: facts.rows[i].createdAt <= now)
      && s' == s.(facts := facts.(rows := Inserted(facts.rows, post.id, d, post.toDevice, post.wire, now)))
    case ServerDrain(limit, locked, picked, now) =>
      && ValidPick(facts.rows, locked, d, limit, picked)
      && s' == s.(facts := facts.(rows := Mailbox.Delivered(facts.rows, picked, now)),
                  net := net.(answers := net.answers + {(d, ItemsOf(facts.rows, picked))}))
    case DecryptBatch(batch) =>
      && (d, batch) in net.answers
      && var (sessions, out) := OpenAll(w.crypto, c.sessions, batch);
      s' == WithClient(s, d, c.(sessions := sessions)).(net := net.(decrypted := net.decrypted + {(d, out)}))
    case Rederive(own, bundle, replace) =>
      s' == WithClient(s, d, c.(sessions := Derived(w.crypto, c.sessions, own, bundle, replace)))
    case ResetSession(peer) => s' == WithClient(s, d, c.(sessions := c.sessions - {peer}))
    case SaveSessions => s' == WithClient(s, d, c.(stored := c.sessions))
    case LoadSessions(fileOpens) => s' == WithClient(s, d, c.(sessions := if fileOpens then c.stored else map[]))
    case Ui(step) =>
      && Supplied(s, d, step)
      && var app := HistoryRuns.Step(w.rendering, c.app, step);
      s' == WithClient(s, d, c.(app := app))
            .(net := net.(acks := net.acks + AckRequest(d, app)),
              facts := facts.(filed := facts.filed + FiledBy(w, d, c.app, step)))
    case SaveApp => s' == WithClient(s, d, c.(savedApp := c.app))
    case LoadApp => s' == WithClient(s, d, c.(app := c.savedApp.(selected := "", readAck := None)))
    case ServerAck(ids, at) =>
      && (d, ids) in net.acks
      && s' == s.(facts := facts.(rows := Acked(facts.rows, d, ids, at)))
    case AskStatuses(ids) =>
      && (forall id :: id in ids <==> IsOutgoingId(c.app.chats, id))
      && s' == s.(net := net.(asked := net.asked + {(d, ids)}))
    case ServerReport(ids) =>
      && (d, ids) in net.asked
      && s' == s.(net := net.(reports := net.reports + {(d, StatusesOf(facts.rows, d, ids))}))
  }

  const EMPTY_APP := AppState(map[], map[], map[], "", None)

  ghost predicate Initial(s: System) {
    && (forall d | d in s.clients :: s.clients[d] == Client(map[], map[], EMPTY_APP, EMPTY_APP))
    && s.net == Network({}, {}, {}, {}, {}, {})
    && s.facts == Facts([], map[], {})
  }

  ghost predicate IsSystemRun(w: World, states: seq<System>, actions: seq<(DeviceId, Action)>) {
    && w.crypto.Lawful()
    && |states| == |actions| + 1
    && Initial(states[0])
    && forall k | 0 <= k < |actions| :: Next(w, states[k], actions[k].0, actions[k].1, states[k + 1])
  }

  // ------------------------------------------------------------------
  // What every reachable state satisfies

  /** A v2 envelope that seals the text its id was issued for. */
  ghost predicate Carries(w: World, f: Facts, id: MessageId, from: DeviceId, wire: WireEnvelope) {
    && id in f.issued && f.issued[id].device == from
    && wire.IsV2() && w.crypto.Seals(wire.envelope.inner, f.issued[id].text)
  }

  /** A drain has handed message id to device d. */
  ghost predicate HandedOut(f: Facts, d: DeviceId, id: MessageId) {
    exists r | 0 <= r < |f.rows| ::
      f.rows[r].messageId == id && f.rows[r].toDevice == d && f.rows[r].deliveredAt.Some?
  }

  /** The addressee's history received exactly the text the id was issued for, and not as a contact card. */
  ghost predicate FiledExactly(w: World, f: Facts, d: DeviceId, id: MessageId) {
    && id in f.issued
    && Filed(d, id, w.rendering.Text(f.issued[id].text)) in f.filed
    && !w.rendering.parse(f.issued[id].text).Contact?
    && HandedOut(f, d, id)
  }

  ghost predicate ReadBySomeone(f: Facts, id: MessageId) {
    exists r | 0 <= r < |f.rows| :: f.rows[r].messageId == id && f.rows[r].ackedAt.Some?
  }

  ghost predicate RowOk(w: World, f: Facts, row: Row) {
    && Carries(w, f, row.messageId, row.fromDevice, row.envelope)
    && f.issued[row.messageId].to == row.toDevice
    && (row.ackedAt.Some? ==> row.deliveredAt.Some? && FiledExactly(w, f, row.toDevice, row.messageId))
  }

  ghost predicate FactsOk(w: World, f: Facts) {
    && TableOk(f.rows)
    && (forall r | 0 <= r < |f.rows| :: RowOk(w, f, f.rows[r]))
    && (forall x | x in f.filed :: FiledExactly(w, f, x.device, x.id) && x.shown == w.rendering.Text(f.issued[x.id].text))
  }

  ghost predicate ItemOk(w: World, f: Facts, d: DeviceId, item: PendingEnvelope) {
    Carries(w, f, item.messageId, item.fromDevice, item.wire) && HandedOut(f, d, item.messageId)
  }

  ghost predicate PlaintextOk(w: World, f: Facts, d: DeviceId, msg: DecryptedMessage) {
    && msg.messageId in f.issued
    && f.issued[msg.messageId].device == msg.fromDevice
    && f.issued[msg.messageId].text == msg.text
    && HandedOut(f, d, msg.messageId)
  }

  ghost predicate AckIdsOk(w: World, f: Facts, d: DeviceId, ids: seq<MessageId>) {
    forall id | id in ids :: FiledExactly(w, f, d, id)
  }

  /** Device d put message id into its own history as sent. */
  predicate ShownBy(f: Facts, d: DeviceId, id: MessageId) {
    id in f.issued && f.issued[id].device == d && f.issued[id].shown
  }

  ghost predicate AskedOk(f: Facts, d: DeviceId, ids: seq<MessageId>) {
    forall id | id in ids :: ShownBy(f, d, id)
  }

  /** A report to device d speaks of messages d showed as sent, and calls them read only if they were. */
  ghost predicate ReportOk(f: Facts, d: DeviceId, statuses: seq<Status>) {
    forall st | st in statuses :: ShownBy(f, d, st.messageId) && (st.read ==> ReadBySomeone(f, st.messageId))
  }

  ghost predicate NetOk(w: World, f: Facts, net: Network) {
    && (forall p | p in net.posts :: Carries(w, f, p.id, p.fromDevice, p.wire) && f.issued[p.id].to == p.toDevice)
    && (forall a, item | a in net.answers && item in a.1 :: ItemOk(w, f, a.0, item))
    && (forall a, msg | a in net.decrypted && msg in a.1 :: PlaintextOk(w, f, a.0, msg))
    && (forall a | a in net.acks :: AckIdsOk(w, f, a.0, a.1))
    && (forall a | a in net.asked :: AskedOk(f, a.0, a.1))
    && (forall a | a in net.reports :: ReportOk(f, a.0, a.1))
  }

  ghost predicate MessageOk(w: World, f: Facts, d: DeviceId, m: ChatMessage) {
    && m.messageId.Some? && m.messageId.value in f.issued
    && var id := m.messageId.value;
    if m.outgoing then ShownBy(f, d, id) && (m.status == Read ==> ReadBySomeone(f, id))
    else FiledExactly(w, f, d, id) && m.text == w.rendering.Text(f.issued[id].text)
  }

  ghost predicate ChatOk(w: World, f: Facts, d: DeviceId, messages: seq<ChatMessage>) {
    forall i | 0 <= i < |messages| :: MessageOk(w, f, d, messages[i])
  }

  ghost predicate AppOk(w: World, f: Facts, d: DeviceId, app: AppState) {
    && (forall name | name in app.chats :: ChatOk(w, f, d, app.chats[name]))
    && (app.readAck.Some? ==> AckIdsOk(w, f, d, app.readAck.value.ids))
    && DistinctIds(app.chats)
  }

  ghost predicate ClientOk(w: World, f: Facts, d: DeviceId, c: Client) {
    && AllWellFormed(w.crypto, c.sessions) && AllWellFormed(w.crypto, c.stored)
    && AppOk(w, f, d, c.app) && AppOk(w, f, d, c.savedApp)
  }

  ghost predicate Sound(w: World, s: System) {
    && FactsOk(w, s.facts)
    && NetOk(w, s.facts, s.net)
    && forall d | d in s.clients :: ClientOk(w, s.facts, d, s.clients[d])
  }

  // ------------------------------------------------------------------
  // Facts only grow

  ghost predicate Grows(f: Facts, g: Facts) {
    && (forall id | id in f.issued :: id in g.issued && g.issued[id] == f.issued[id])
    && f.filed <= g.filed
    && |f.rows| <= |g.rows|
    && forall r | 0 <= r < |f.rows| ::
      && g.rows[r].messageId == f.rows[r].messageId && g.rows[r].toDevice == f.rows[r].toDevice
      && (f.rows[r].deliveredAt.Some? ==> g.rows[r].deliveredAt.Some?)
      && (f.rows[r].ackedAt.Some? ==> g.rows[r].ackedAt.Some?)
  }

  lemma HandedOutGrows(f: Facts, g: Facts, d: DeviceId, id: MessageId)
    requires Grows(f, g) && HandedOut(f, d, id)
    ensures HandedOut(g, d, id)
  {
    var r :| 0 <= r < |f.rows| && f.rows[r].messageId == id && f.rows[r].toDevice == d && f.rows[r].deliveredAt.Some?;
    assert g.rows[r].messageId == id;
  }

  lemma FiledGrows(w: World, f: Facts, g: Facts, d: DeviceId, id: MessageId)
    requires Grows(f, g) && FiledExactly(w, f, d, id)
    ensures FiledExactly(w, g, d, id)
  {
    HandedOutGrows(f, g, d, id);
  }

  lemma ReadGrows(f: Facts, g: Facts, id: MessageId)
    requires Grows(f, g) && ReadBySomeone(f, id)
    ensures ReadBySomeone(g, id)
  {
    var r :| 0 <= r < |f.rows| && f.rows[r].messageId == id && f.rows[r].ackedAt.Some?;
    assert g.rows[r].messageId == id;
  }

  lemma AckIdsGrow(w: World, f: Facts, g: Facts, d: DeviceId, ids: seq<MessageId>)
    requires Grows(f, g) && AckIdsOk(w, f, d, ids)
    ensures AckIdsOk(w, g, d, ids)
  {
    forall id | id in ids ensures FiledExactly(w, g, d, id) {
      FiledGrows(w, f, g, d, id);
    }
  }

  lemma ReportGrows(f: Facts, g: Facts, d: DeviceId, statuses: seq<Status>)
    requires Grows(f, g) && ReportOk(f, d, statuses)
    ensures ReportOk(g, d, statuses)
  {
    forall st | st in statuses && st.read ensures ReadBySomeone(g, st.messageId) {
      ReadGrows(f, g, st.messageId);
    }
  }

  lemma NetGrows(w: World, f: Facts, g: Facts, net: Network)
    requires Grows(f, g) && NetOk(w, f, net)
    ensures NetOk(w, g, net)
  {
    forall a, item | a in net.answers && item in a.1 ensures ItemOk(w, g, a.0, item) {
      HandedOutGrows(f, g, a.0, item.messageId);
    }
    forall a, msg | a in net.decrypted && msg in a.1 ensures PlaintextOk(w, g, a.0, msg) {
      HandedOutGrows(f, g, a.0, msg.messageId);
    }
    forall a | a in net.acks ensures AckIdsOk(w, g, a.0, a.1) {
      AckIdsGrow(w, f, g, a.0, a.1);
    }
    forall a | a in net.reports ensures ReportOk(g, a.0, a.1) {
      ReportGrows(f, g, a.0, a.1);
    }
  }

  lemma MessageGrows(w: World, f: Facts, g: Facts, d: DeviceId, m: ChatMessage)
    requires Grows(f, g) && MessageOk(w, f, d, m)
    ensures MessageOk(w, g, d, m)
  {
    if !m.outgoing {
      FiledGrows(w, f, g, d, m.messageId.value);
    } else if m.status == Read {
      ReadGrows(f, g, m.messageId.value);
    }
  }

  lemma AppGrows(w: World, f: Facts, g: Facts, d: DeviceId, app: AppState)
    requires Grows(f, g) && AppOk(w, f, d, app)
    ensures AppOk(w, g, d, app)
  {
    forall name, i | name in app.chats && 0 <= i < |app.chats[name]| ensures MessageOk(w, g, d, app.chats[name][i]) {
      assert ChatOk(w, f, d, app.chats[name]);
      MessageGrows(w, f, g, d, app.chats[name][i]);
    }
    if app.readAck.Some? {
      AckIdsGrow(w, f, g, d, app.readAck.value.ids);
    }
  }

  lemma ClientsGrow(w: World, f: Facts, g: Facts, clients: map<DeviceId, Client>)
    requires Grows(f, g) && forall d | d in clients :: ClientOk(w, f, d, clients[d])
    ensures forall d | d in clients :: ClientOk(w, g, d, clients[d])
  {
    forall d | d in clients ensures ClientOk(w, g, d, clients[d]) {
      AppGrows(w, f, g, d, clients[d].app);
      AppGrows(w, f, g, d, clients[d].savedApp);
    }
  }
}
