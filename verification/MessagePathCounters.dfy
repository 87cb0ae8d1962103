/** The unread counters of every client of the message path. */
module MessagePathCounters {
  import opened Wrappers
  import opened Crypto
  import opened PeerSessions
  import opened Mailbox
  import opened ChatHistory
  import opened HistoryRuns
  import opened MessagePath
  import opened MessagePathSafety

  /**
   No deletion, logout or login of device d loses the messages of an acknowledgement on its way, and d
   files no message as received that its history once showed as sent.
   */
  ghost predicate Careful(w: World, s: System, d: DeviceId, action: Action)
    requires d in s.clients
  {
    action.Ui? ==>
      var app := s.clients[d].app;
      match action.step
      case Delete(name) => !AckOnItsWay(app, name)
      case LogOut => app.readAck.None?
      case LogIn(saved) => HoldsAck(app.readAck, saved)
      case Arrive(msg) => FiledBy(w, d, app, action.step) != {} ==> !ShownBy(s.facts, d, msg.messageId)
      case _ => true
  }

  /** Device d never filed a message as received that its history once showed as sent. */
  ghost predicate NeverFiledShown(f: Facts, d: DeviceId) {
    forall x | x in f.filed && x.device == d :: x.id in f.issued && !ShownBy(f, d, x.id)
  }

  /** The counters of device d are truthful, in memory and as saved. */
  ghost predicate Counted(s: System, d: DeviceId) {
    && d in s.clients
    && Good(s.clients[d].app) && CountersOk(s.clients[d].savedApp)
    && NeverFiledShown(s.facts, d)
  }

  /** What a history once showed as sent it never holds as received. */
  lemma ShownIsNotReceived(w: World, f: Facts, d: DeviceId, app: AppState, id: MessageId)
    requires AppOk(w, f, d, app) && NeverFiledShown(f, d) && ShownBy(f, d, id)
    ensures !IncomingWithId(app.chats, id)
  {
    forall name, i | name in app.chats && 0 <= i < |app.chats[name]| && !app.chats[name][i].outgoing
      ensures app.chats[name][i].messageId != Some(id)
    {
      var m := app.chats[name][i];
      assert ChatOk(w, f, d, app.chats[name]);
      assert MessageOk(w, f, d, m);
      var other := m.messageId.value;
      assert Filed(d, other, w.rendering.Text(f.issued[other].text)) in f.filed;
    }
  }

  /** Everything a history step assumes of its surroundings, the message path provides. */
  lemma UiIsAllowed(w: World, s: System, d: DeviceId, step: AppStep)
    requires Sound(w, s) && Counted(s, d) && Supplied(s, d, step) && Careful(w, s, d, Ui(step))
    ensures Allowed(s.clients[d].app, step)
  {
    var app := s.clients[d].app;
    SupplyIsOk(w, s, d, step);
    assert ClientOk(w, s.facts, d, s.clients[d]);
    if step.Statuses? {
      forall k | 0 <= k < |step.statuses| ensures !IncomingWithId(app.chats, step.statuses[k].messageId) {
        assert step.statuses[k] in step.statuses;
        ShownIsNotReceived(w, s.facts, d, app, step.statuses[k].messageId);
      }
    }
  }

  lemma UiKeepsCounted(w: World, s: System, d: DeviceId, action: Action, s': System)
    requires Sound(w, s) && Next(w, s, d, action, s') && action.Ui?
    requires Counted(s, d) && Careful(w, s, d, action)
    ensures Counted(s', d)
  {
    UiIsAllowed(w, s, d, action.step);
    StepKeepsGood(w.rendering, s.clients[d].app, action.step);
    SupplyIsOk(w, s, d, action.step);
  }

  lemma IssueKeepsCounted(w: World, s: System, d: DeviceId, action: Action, s': System)
    requires Sound(w, s) && Next(w, s, d, action, s') && action.IssueMessage?
    requires Counted(s, d)
    ensures Counted(s', d)
  {
    var app := s.clients[d].app;
    assert ClientOk(w, s.facts, d, s.clients[d]);
    HeldIdsAreIssued(w, s.facts, d, app, action.id);
    ComposeKeepsGood(app, app.selected, action.display, action.ts, action.id);
  }

  lemma LoadKeepsCounted(w: World, s: System, d: DeviceId, action: Action, s': System)
    requires Sound(w, s) && Next(w, s, d, action, s') && action.LoadApp?
    requires Counted(s, d)
    ensures Counted(s', d)
  {
    assert ClientOk(w, s.facts, d, s.clients[d]);
    var app, saved := s'.clients[d].app, s.clients[d].savedApp;
    forall name ensures CounterOk(app.unread, app.chats, name) {
      assert CounterOk(saved.unread, saved.chats, name);
    }
  }

  /** Another device's action leaves d's history and filings alone, and no issued message changes hands. */
  lemma OthersKeepCounted(w: World, s: System, d: DeviceId, other: DeviceId, action: Action, s': System)
    requires Next(w, s, other, action, s') && other != d && Counted(s, d)
    ensures Counted(s', d)
  {
    assert s'.clients[d] == s.clients[d];
    assert forall x | x in s'.facts.filed && x.device == d :: x in s.facts.filed;
  }

  lemma StepKeepsCounted(w: World, s: System, d: DeviceId, other: DeviceId, action: Action, s': System)
    requires Sound(w, s) && Next(w, s, other, action, s')
    requires Counted(s, d) && (other == d ==> Careful(w, s, d, action))
    ensures Counted(s', d)
  {
    if other != d {
      OthersKeepCounted(w, s, d, other, action, s');
    } else {
      match action
      case Ui(_) => UiKeepsCounted(w, s, d, action, s');
      case IssueMessage(_, _, _, _, _, _) => IssueKeepsCounted(w, s, d, action, s');
      case LoadApp => LoadKeepsCounted(w, s, d, action, s');
      case _ =>
    }
  }

  ghost predicate CarefulUntil(w: World, states: seq<System>, actions: seq<(DeviceId, Action)>, k: nat, d: DeviceId)
    requires k <= |actions| && |states| == |actions| + 1
  {
    forall j | 0 <= j < k && actions[j].0 == d :: d in states[j].clients && Careful(w, states[j], d, actions[j].1)
  }

  lemma InitialIsCounted(s: System, d: DeviceId)
    requires Initial(s) && d in s.clients
    ensures Counted(s, d)
  {
    assert forall name :: CounterOk(map[], map[], name);
  }

  lemma {:induction false} RunKeepsCounted(
    w: World, states: seq<System>, actions: seq<(DeviceId, Action)>, k: nat, d: DeviceId)
    requires IsSystemRun(w, states, actions) && k <= |actions| && d in states[0].clients
    requires CarefulUntil(w, states, actions, k, d)
    ensures Counted(states[k], d)
  {
    if k == 0 {
      InitialIsCounted(states[0], d);
    } else {
      RunKeepsCounted(w, states, actions, k - 1, d);
      RunKeepsSound(w, states, actions, k - 1);
      StepKeepsCounted(w, states[k - 1], d, actions[k - 1].0, actions[k - 1].1, states[k]);
    }
  }

  /**
   In every run of the whole system no unread counter of a careful device exceeds the received messages
   not marked Read, whatever the other devices, the server and the network do.
   */
  lemma CountersNeverOverstate(
    w: World, states: seq<System>, actions: seq<(DeviceId, Action)>, k: nat, d: DeviceId, name: string)
    requires IsSystemRun(w, states, actions) && k <= |actions| && d in states[0].clients
    requires CarefulUntil(w, states, actions, k, d)
    ensures d in states[k].clients
    ensures var app := states[k].clients[d].app; Unread(app.unread, name) <= UnreadHeld(ChatOf(app.chats, name))
  {
    RunKeepsCounted(w, states, actions, k, d);
    var app := states[k].clients[d].app;
    assert CounterOk(app.unread, app.chats, name);
  }

  // ------------------------------------------------------------------
  // A device that keeps its history

  /** The action takes no message out of the device's history. */
  predicate KeepsHistory(action: Action) {
    !action.LoadApp? && (action.Ui? ==> !action.step.Delete? && !action.step.LogOut? && !action.step.LogIn?)
  }

  ghost predicate KeepsHistoryUntil(actions: seq<(DeviceId, Action)>, k: nat, d: DeviceId)
    requires k <= |actions|
  {
    forall j | 0 <= j < k && actions[j].0 == d :: KeepsHistory(actions[j].1)
  }

  /** Every message d ever showed as sent is still in its history. */
  ghost predicate ShownAreHeld(s: System, d: DeviceId) {
    && d in s.clients
    && forall id | ShownBy(s.facts, d, id) :: HasId(s.clients[d].app.chats, id)
  }

  lemma ComposedHoldsId(app: AppState, text: string, ts: int, id: MessageId)
    ensures var after := Composed(app, app.selected, text, ts, id);
            KeepsIds(app.chats, after.chats) && HasId(after.chats, id)
  {
    var chat := Composed(app, app.selected, text, ts, id).chats[app.selected];
    assert chat[|chat| - 1].messageId == Some(id);
    assert IdIn(chat, id);
  }

  lemma StepKeepsShown(w: World, s: System, d: DeviceId, other: DeviceId, action: Action, s': System)
    requires Next(w, s, other, action, s') && ShownAreHeld(s, d) && (other == d ==> KeepsHistory(action))
    ensures ShownAreHeld(s', d)
  {
    var app := s.clients[d].app;
    if other == d && action.Ui? {
      StepKeepsIds(w.rendering, app, action.step);
    }
    if other == d && action.IssueMessage? {
      ComposedHoldsId(app, action.display, action.ts, action.id);
    }
    forall id | ShownBy(s'.facts, d, id) ensures HasId(s'.clients[d].app.chats, id) {
      if ShownBy(s.facts, d, id) && KeepsIds(app.chats, s'.clients[d].app.chats) {
        KeptIdsAreHeld(app.chats, s'.clients[d].app.chats, id);
      }
    }
  }

  /** A device that still holds all it showed files none of it as received. */
  lemma KeepingIsCareful(w: World, s: System, d: DeviceId, action: Action)
    requires ShownAreHeld(s, d) && KeepsHistory(action)
    ensures Careful(w, s, d, action)
  {
  }

  lemma {:induction false} RunKeepsShown(
    w: World, states: seq<System>, actions: seq<(DeviceId, Action)>, k: nat, d: DeviceId)
    requires IsSystemRun(w, states, actions) && k <= |actions| && d in states[0].clients
    requires KeepsHistoryUntil(actions, k, d)
    ensures ShownAreHeld(states[k], d) && CarefulUntil(w, states, actions, k, d)
  {
    if k > 0 {
      RunKeepsShown(w, states, actions, k - 1, d);
      if actions[k - 1].0 == d {
        KeepingIsCareful(w, states[k - 1], d, actions[k - 1].1);
      }
      StepKeepsShown(w, states[k - 1], d, actions[k - 1].0, actions[k - 1].1, states[k]);
    }
  }

  /**
   In every run in which a device neither deletes a chat, logs out, logs in again nor restarts, none of
   its unread counters exceeds the received messages not marked Read: nothing else is assumed.
   */
  lemma KeptHistoriesNeverOverstate(
    w: World, states: seq<System>, actions: seq<(DeviceId, Action)>, k: nat, d: DeviceId, name: string)
    requires IsSystemRun(w, states, actions) && k <= |actions| && d in states[0].clients
    requires KeepsHistoryUntil(actions, k, d)
    ensures d in states[k].clients
    ensures var app := states[k].clients[d].app; Unread(app.unread, name) <= UnreadHeld(ChatOf(app.chats, name))
  {
    RunKeepsShown(w, states, actions, k, d);
    CountersNeverOverstate(w, states, actions, k, d, name);
  }
}
