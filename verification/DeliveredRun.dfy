/**
 A run in which everything goes well: two fresh devices agree on a key, one writes to the other, and in
 the end the writer's history shows Read. So none of the safety results holds for want of runs.
 */
module DeliveredRun {
  import opened Wrappers
  import opened Crypto
  import opened PeerSessions
  import opened Mailbox
  import opened ChatHistory
  import opened HistoryRuns
  import opened HistoryLosses
  import opened MessagePath

  /** Who writes what to whom. */
  datatype Letter = Letter(
    from: DeviceId, to: DeviceId, fromKey: Key, toKey: Key, peer: string,
    id: MessageId, text: string, nonce: string, json: string)

  ghost predicate Sendable(w: World, l: Letter) {
    && w.crypto.Lawful() && w.crypto.decodes(l.fromKey) && w.crypto.decodes(l.toKey)
    && l.from != l.to && l.peer != "" && !w.rendering.parse(l.text).Contact?
  }

  function Root(w: World, l: Letter): Key {
    w.crypto.agree(l.fromKey, w.crypto.publicOf(l.toKey))
  }

  // ------------------------------------------------------------------
  // The run: what everybody holds after k actions

  function Wire(w: World, l: Letter): WireEnvelope {
    Ratchet(RatchetEnvelope(2, 0, w.crypto.seal(w.crypto.MessageKey(Root(w, l), 0), l.nonce, l.text)), l.json)
  }

  function Decrypted(l: Letter): DecryptedMessage {
    DecryptedMessage(l.id, l.from, l.text, 0)
  }

  function Item(w: World, l: Letter): PendingEnvelope {
    PendingEnvelope(l.id, l.from, Wire(w, l), 0)
  }

  function SentMessage(l: Letter, status: MessageStatus): ChatMessage {
    ChatMessage(true, l.text, 0, status, Some(l.id), None)
  }

  function WriterApp(l: Letter, messages: seq<ChatMessage>): AppState {
    AppState(map[l.peer := messages], map[l.to := l.peer], map[], l.peer, None)
  }

  function WriterSession(w: World, l: Letter): PeerSession {
    FreshSession(Root(w, l)).(sendChain := w.crypto.nextChainOf(Root(w, l)), sendCounter := 1)
  }

  function ReaderSession(w: World, l: Letter): PeerSession {
    FreshSession(Root(w, l)).(recvChain := w.crypto.nextChainOf(Root(w, l)), recvCounter := 1)
  }

  function WriterAt(w: World, l: Letter, k: nat): Client {
    var sessions := if k < 1 then map[] else map[l.to := if k < 5 then FreshSession(Root(w, l)) else WriterSession(w, l)];
    var app := if k < 3 then NOTHING
               else WriterApp(l, if k < 4 then [] else [SentMessage(l, if k < 14 then Sending else Read)]);
    Client(sessions, map[], app, NOTHING)
  }

  function ReaderAt(w: World, l: Letter, k: nat): Client {
    var sessions := if k < 2 then map[] else map[l.from := if k < 8 then FreshSession(Root(w, l)) else ReaderSession(w, l)];
    var app := if k < 9 then NOTHING
               else if k < 10 then Arrived(w.rendering, Decrypted(l)) else Reading(w.rendering, Decrypted(l));
    Client(sessions, map[], app, NOTHING)
  }

  function NetAt(w: World, l: Letter, k: nat): Network {
    Network(
      if k < 5 then {} else {Post(l.id, l.from, l.to, Wire(w, l))},
      if k < 7 then {} else {(l.to, [Item(w, l)])},
      if k < 8 then {} else {(l.to, [Decrypted(l)])},
      if k < 10 then {} else {(l.to, [l.id])},
      if k < 12 then {} else {(l.from, [l.id])},
      if k < 13 then {} else {(l.from, [Status(l.id, true, true)])})
  }

  function RowAt(w: World, l: Letter, k: nat): Row {
    Row(l.id, l.from, l.to, Wire(w, l), 0, if k < 7 then None else Some(1), if k < 11 then None else Some(2))
  }

  function FactsAt(w: World, l: Letter, k: nat): Facts {
    Facts(if k < 6 then [] else [RowAt(w, l, k)],
          if k < 4 then map[] else map[l.id := Issue(l.from, l.to, l.text, true)],
          if k < 9 then {} else {Filed(l.to, l.id, w.rendering.Text(l.text))})
  }

  function Stage(w: World, l: Letter, k: nat): System {
    System(map[l.from := WriterAt(w, l, k), l.to := ReaderAt(w, l, k)], NetAt(w, l, k), FactsAt(w, l, k))
  }

  /** The k-th action and whose it is. */
  function Act(w: World, l: Letter, k: nat): (DeviceId, Action) {
    match k
    case 0 => (l.from, Rederive(l.fromKey, Some(PrekeyBundle(l.to, w.crypto.publicOf(l.toKey), "")), false))
    case 1 => (l.to, Rederive(l.toKey, Some(PrekeyBundle(l.from, w.crypto.publicOf(l.fromKey), "")), false))
    case 2 => (l.from, Ui(OpenChat(l.peer, l.to)))
    case 3 => (l.from, IssueMessage(l.id, l.to, l.text, l.text, 0, true))
    case 4 => (l.from, Transmit(l.id, l.nonce, l.json))
    case 5 => (l.from, ServerInsert(Post(l.id, l.from, l.to, Wire(w, l)), 0))
    case 6 => (l.to, ServerDrain(1, {}, [0], 1))
    case 7 => (l.to, DecryptBatch([Item(w, l)]))
    case 8 => (l.to, Ui(Arrive(Decrypted(l))))
    case 9 => (l.to, Ui(Click(Nick(map[], l.from))))
    case 10 => (l.to, ServerAck([l.id], 2))
    case 11 => (l.from, AskStatuses([l.id]))
    case 12 => (l.from, ServerReport([l.id]))
    case _ => (l.from, Ui(Statuses([Status(l.id, true, true)])))
  }

  ghost predicate Goes(w: World, l: Letter, k: nat) {
    Next(w, Stage(w, l, k), Act(w, l, k).0, Act(w, l, k).1, Stage(w, l, k + 1))
  }

  // ------------------------------------------------------------------
  // The facts behind the steps

  lemma BothDerive(w: World, l: Letter)
    requires Sendable(w, l)
    ensures Derived(w.crypto, map[], l.fromKey, Some(PrekeyBundle(l.to, w.crypto.publicOf(l.toKey), "")), false)
            == map[l.to := FreshSession(Root(w, l))]
    ensures Derived(w.crypto, map[], l.toKey, Some(PrekeyBundle(l.from, w.crypto.publicOf(l.fromKey), "")), false)
            == map[l.from := FreshSession(Root(w, l))]
    ensures WellFormed(w.crypto, FreshSession(Root(w, l)))
  {
    SharedKeyIsSymmetric(w.crypto, l.fromKey, l.toKey);
    SharedKeyIsSymmetric(w.crypto, l.toKey, l.fromKey);
    assert w.crypto.decodes(w.crypto.agree(l.fromKey, w.crypto.publicOf(l.toKey)));
  }

  lemma LetterIsSealed(w: World, l: Letter)
    requires Sendable(w, l)
    ensures Sealed(w.crypto, FreshSession(Root(w, l)), l.text, l.nonce, l.json) == Some((WriterSession(w, l), Wire(w, l)))
  {
    BothDerive(w, l);
    SealedUsesCounterKey(w.crypto, FreshSession(Root(w, l)), l.text, l.nonce, l.json);
    ChainStarts(w, l);
  }

  lemma ChainStarts(w: World, l: Letter)
    ensures w.crypto.Chain(Root(w, l), 0) == Root(w, l)
    ensures w.crypto.Chain(Root(w, l), 1) == w.crypto.nextChainOf(Root(w, l))
  {
    assert w.crypto.Chain(Root(w, l), 1) == w.crypto.nextChainOf(w.crypto.Chain(Root(w, l), 0));
  }

  lemma LetterOpens(w: World, l: Letter)
    requires Sendable(w, l)
    ensures Opened(w.crypto, FreshSession(Root(w, l)), Wire(w, l)) == (ReaderSession(w, l), Ok(l.text))
  {
    BothDerive(w, l);
    ChainStarts(w, l);
    var key := w.crypto.MessageKey(Root(w, l), 0);
    assert w.crypto.decodes(w.crypto.messageKeyOf(w.crypto.Chain(Root(w, l), 0)));
    assert w.crypto.open(key, w.crypto.seal(key, l.nonce, l.text)) == Some(l.text);
    V2OpensExactly(w.crypto, FreshSession(Root(w, l)), Wire(w, l));
  }

  lemma BatchOpens(w: World, l: Letter)
    requires Sendable(w, l)
    ensures OpenAll(w.crypto, map[l.from := FreshSession(Root(w, l))], [Item(w, l)])
            == (map[l.from := ReaderSession(w, l)], [Decrypted(l)])
  {
    LetterOpens(w, l);
    var sessions := map[l.from := FreshSession(Root(w, l))];
    assert sessions[l.from := ReaderSession(w, l)] == map[l.from := ReaderSession(w, l)];
    assert OpenOne(w.crypto, sessions, Item(w, l)) == (map[l.from := ReaderSession(w, l)], [Decrypted(l)]);
    assert [Item(w, l)][..0] == [];
    assert OpenAll(w.crypto, sessions, []) == (sessions, []);
    assert [] + [Decrypted(l)] == [Decrypted(l)];
  }

  lemma ReportIsApplied(l: Letter)
    ensures StatusesApplied(WriterApp(l, [SentMessage(l, Sending)]).chats, [Status(l.id, true, true)])
            == WriterApp(l, [SentMessage(l, Read)]).chats
  {
    var chats, report := WriterApp(l, [SentMessage(l, Sending)]).chats, [Status(l.id, true, true)];
    assert report[..0] == [];
    assert StatusesApplied(chats, report) == StatusApplied(chats, report[0]);
    assert WithStatus([SentMessage(l, Sending)], l.id, Read) == [SentMessage(l, Read)];
  }

  lemma OnlyLetterIsOutgoing(l: Letter)
    ensures forall id :: id in [l.id] <==> IsOutgoingId(WriterApp(l, [SentMessage(l, Sending)]).chats, id)
  {
    assert WriterApp(l, [SentMessage(l, Sending)]).chats[l.peer][0] == SentMessage(l, Sending);
  }

  // ------------------------------------------------------------------
  // The steps

  lemma UiGoes(w: World, s: System, d: DeviceId, step: AppStep, app: AppState, filed: set<Filed>, s': System)
    requires d in s.clients && Supplied(s, d, step)
    requires app == HistoryRuns.Step(w.rendering, s.clients[d].app, step) && filed == FiledBy(w, d, s.clients[d].app, step)
    requires s'.clients == s.clients[d := s.clients[d].(app := app)]
    requires s'.net == s.net.(acks := s.net.acks + if app.readAck.Some? then {(d, app.readAck.value.ids)} else {})
    requires s'.facts == s.facts.(filed := s.facts.filed + filed)
    ensures Next(w, s, d, Ui(step), s')
  {
  }

  lemma Derives(w: World, l: Letter)
    requires Sendable(w, l)
    ensures Goes(w, l, 0) && Goes(w, l, 1)
  {
    BothDerive(w, l);
  }

  lemma OpensChat(w: World, l: Letter)
    requires Sendable(w, l)
    ensures Goes(w, l, 2)
  {
    assert ChatOpened(NOTHING, l.peer, l.to) == WriterApp(l, []);
    UiGoes(w, Stage(w, l, 2), l.from, OpenChat(l.peer, l.to), WriterApp(l, []), {}, Stage(w, l, 3));
  }

  lemma Composes(w: World, l: Letter)
    requires Sendable(w, l)
    ensures Goes(w, l, 3)
  {
    assert [] + [SentMessage(l, Sending)] == [SentMessage(l, Sending)];
    assert Composed(WriterApp(l, []), l.peer, l.text, 0, l.id) == WriterApp(l, [SentMessage(l, Sending)]);
  }

  lemma Transmits(w: World, l: Letter)
    requires Sendable(w, l)
    ensures Goes(w, l, 4)
  {
    LetterIsSealed(w, l);
    assert map[l.to := FreshSession(Root(w, l))][l.to := WriterSession(w, l)] == map[l.to := WriterSession(w, l)];
  }

  lemma Inserts(w: World, l: Letter)
    requires Sendable(w, l)
    ensures Goes(w, l, 5)
  {
    assert Inserted([], l.id, l.from, l.to, Wire(w, l), 0) == [RowAt(w, l, 6)];
  }

  lemma Drains(w: World, l: Letter)
    requires Sendable(w, l)
    ensures Goes(w, l, 6)
  {
    assert ItemsOf([RowAt(w, l, 6)], [0]) == [Item(w, l)];
    assert Mailbox.Delivered([RowAt(w, l, 6)], [0], 1) == [RowAt(w, l, 7)];
  }

  lemma Decrypts(w: World, l: Letter)
    requires Sendable(w, l)
    ensures Goes(w, l, 7)
  {
    BatchOpens(w, l);
    assert (l.to, [Item(w, l)]) in NetAt(w, l, 7).answers;
  }

  lemma Arrives(w: World, l: Letter)
    requires Sendable(w, l)
    ensures Goes(w, l, 8)
  {
    FirstArrival(w.rendering, Decrypted(l));
    assert (l.to, [Decrypted(l)]) in NetAt(w, l, 8).decrypted && Decrypted(l) in [Decrypted(l)];
    assert Supplied(Stage(w, l, 8), l.to, Arrive(Decrypted(l)));
    assert FiledBy(w, l.to, NOTHING, Arrive(Decrypted(l))) == {Filed(l.to, l.id, w.rendering.Text(l.text))};
    UiGoes(w, Stage(w, l, 8), l.to, Arrive(Decrypted(l)), Arrived(w.rendering, Decrypted(l)),
           {Filed(l.to, l.id, w.rendering.Text(l.text))}, Stage(w, l, 9));
  }

  lemma Clicks(w: World, l: Letter)
    requires Sendable(w, l)
    ensures Goes(w, l, 9)
  {
    ClickReads(w.rendering, Decrypted(l));
    UiGoes(w, Stage(w, l, 9), l.to, Click(Nick(map[], l.from)), Reading(w.rendering, Decrypted(l)), {}, Stage(w, l, 10));
  }

  lemma Acknowledges(w: World, l: Letter)
    requires Sendable(w, l)
    ensures Goes(w, l, 10)
  {
    assert Acked([RowAt(w, l, 10)], l.to, [l.id], 2) == [RowAt(w, l, 11)];
    assert (l.to, [l.id]) in NetAt(w, l, 10).acks;
  }

  lemma Asks(w: World, l: Letter)
    requires Sendable(w, l)
    ensures Goes(w, l, 11)
  {
    OnlyLetterIsOutgoing(l);
    AskGoes(w, Stage(w, l, 11), l.from, [l.id], Stage(w, l, 12));
  }

  lemma AskGoes(w: World, s: System, d: DeviceId, ids: seq<MessageId>, s': System)
    requires d in s.clients && forall id :: id in ids <==> IsOutgoingId(s.clients[d].app.chats, id)
    requires s' == s.(net := s.net.(asked := s.net.asked + {(d, ids)}))
    ensures Next(w, s, d, AskStatuses(ids), s')
  {
  }

  lemma LetterIsReported(w: World, l: Letter)
    ensures StatusesOf([RowAt(w, l, 12)], l.from, [l.id]) == [Status(l.id, true, true)]
  {
    var rows := [RowAt(w, l, 12)];
    assert rows[..0] == [];
    assert StatusesOf([], l.from, [l.id]) == [];
  }

  lemma ReportGoes(w: World, s: System, d: DeviceId, ids: seq<MessageId>, s': System)
    requires d in s.clients && (d, ids) in s.net.asked
    requires s' == s.(net := s.net.(reports := s.net.reports + {(d, StatusesOf(s.facts.rows, d, ids))}))
    ensures Next(w, s, d, ServerReport(ids), s')
  {
  }

  lemma Reports(w: World, l: Letter)
    requires Sendable(w, l)
    ensures Goes(w, l, 12)
  {
    LetterIsReported(w, l);
    assert (l.from, [l.id]) in NetAt(w, l, 12).asked;
    ReportGoes(w, Stage(w, l, 12), l.from, [l.id], Stage(w, l, 13));
  }

  lemma ReportIsLearned(w: World, l: Letter)
    ensures HistoryRuns.Step(w.rendering, WriterApp(l, [SentMessage(l, Sending)]), Statuses([Status(l.id, true, true)]))
            == WriterApp(l, [SentMessage(l, Read)])
  {
    ReportIsApplied(l);
  }

  lemma LearnsFrom(w: World, l: Letter, report: seq<Status>)
    requires Sendable(w, l) && (l.from, report) in NetAt(w, l, 13).reports
    requires HistoryRuns.Step(w.rendering, WriterApp(l, [SentMessage(l, Sending)]), Statuses(report))
             == WriterApp(l, [SentMessage(l, Read)])
    ensures Next(w, Stage(w, l, 13), l.from, Ui(Statuses(report)), Stage(w, l, 14))
  {
    UiGoes(w, Stage(w, l, 13), l.from, Statuses(report), WriterApp(l, [SentMessage(l, Read)]), {}, Stage(w, l, 14));
  }

  lemma Learns(w: World, l: Letter)
    requires Sendable(w, l)
    ensures Goes(w, l, 13)
  {
    ReportIsLearned(w, l);
    LearnsFrom(w, l, [Status(l.id, true, true)]);
  }

  lemma EveryStepGoes(w: World, l: Letter, k: nat)
    requires Sendable(w, l) && k < 14
    ensures Goes(w, l, k)
  {
    match k
    case 0 => Derives(w, l);
    case 1 => Derives(w, l);
    case 2 => OpensChat(w, l);
    case 3 => Composes(w, l);
    case 4 => Transmits(w, l);
    case 5 => Inserts(w, l);
    case 6 => Drains(w, l);
    case 7 => Decrypts(w, l);
    case 8 => Arrives(w, l);
    case 9 => Clicks(w, l);
    case 10 => Acknowledges(w, l);
    case 11 => Asks(w, l);
    case 12 => Reports(w, l);
    case _ => Learns(w, l);
  }

  /**
   From two fresh devices a run leads to a state in which the writer's history shows the message as Read
   and the reader's shows exactly its text.
   */
  lemma LettersCanBeRead(w: World, l: Letter) returns (states: seq<System>, actions: seq<(DeviceId, Action)>)
    requires Sendable(w, l)
    ensures IsSystemRun(w, states, actions)
    ensures var s := states[|actions|];
            && l.from in s.clients && l.to in s.clients
            && s.clients[l.from].app == WriterApp(l, [ChatMessage(true, l.text, 0, Read, Some(l.id), None)])
            && exists name | name in s.clients[l.to].app.chats ::
              s.clients[l.to].app.chats[name] == [IncomingMessage(w.rendering, Decrypted(l)).(status := Read)]
  {
    states := seq(15, k requires 0 <= k < 15 => Stage(w, l, k));
    actions := seq(14, k requires 0 <= k < 14 => Act(w, l, k));
    forall k | 0 <= k < 14 ensures Next(w, states[k], actions[k].0, actions[k].1, states[k + 1]) {
      EveryStepGoes(w, l, k);
    }
    assert Nick(map[], l.from) in states[14].clients[l.to].app.chats;
  }
}
