/**
 The sync worker of the desktop client (run_sync_flow in crates/client-ui/src/app.rs):
 derive missing sessions, decrypt, and when nothing opened refresh the sessions and retry.
 */
module SyncFlow {
  import opened Wrappers
  import opened Crypto
  import opened PeerSessions
  import opened BatchRecords
  import opened Mailbox

  /** What the server answered while item i was being handled. */
  datatype ItemAnswers = ItemAnswers(
    resolved: Option<string>,            // resolve_device_user, first loop
    derivedBundle: Option<PrekeyBundle>, // bundle fetched by derive_peer_shared_key
    resolvedAgain: Option<string>,       // resolve_device_user, recovery loop
    checkedBundle: Option<PrekeyBundle>, // bundle whose identity is compared
    refreshBundle: Option<PrekeyBundle>) // bundle fetched again by refresh_peer_shared_key

  /** What the worker copied out of the history before it started. */
  datatype Known = Known(
    peerByDevice: map<DeviceId, string>, identityKeys: map<string, Key>, signingKeys: map<string, Key>,
    missingSafety: set<string>)

  /** The peer a sender was found to be, with the bundle its identity is checked against later. */
  datatype PeerMapping = PeerMapping(device: DeviceId, peer: string, bundle: PrekeyBundle)

  datatype SyncSuccess = SyncSuccess(
    mappings: seq<PeerMapping>, decrypted: seq<DecryptedMessage>, statuses: seq<Status>, pendingCount: nat)

  function PeerOf(known: Known, device: DeviceId, resolved: Option<string>): Option<string> {
    if device in known.peerByDevice then Some(known.peerByDevice[device]) else resolved
  }

  predicate Matches(pinned: map<string, Key>, peer: string, key: Key) {
    peer in pinned ==> pinned[peer] == key
  }

  predicate IdentityMatches(known: Known, peer: string, bundle: PrekeyBundle) {
    Matches(known.identityKeys, peer, bundle.identityKey) && Matches(known.signingKeys, peer, bundle.signingKey)
  }

  // ------------------------------------------------------------------
  // The two loops as functions of what they met

  predicate DerivesFor(known: Known, sessions: Sessions, item: PendingEnvelope, answers: ItemAnswers) {
    var peer := PeerOf(known, item.fromDevice, answers.resolved);
    peer.Some? && (item.fromDevice !in sessions || peer.value in known.missingSafety)
  }

  function AfterDerive(
      crypto: CryptoEngine, own: Key, known: Known, sessions: Sessions,
      pending: seq<PendingEnvelope>, answers: seq<ItemAnswers>)
    : Sessions
    requires |answers| == |pending|
  {
    if pending == [] then sessions
    else
      var last := |pending| - 1;
      var before := AfterDerive(crypto, own, known, sessions, pending[..last], answers[..last]);
      if DerivesFor(known, before, pending[last], answers[last])
      then Derived(crypto, before, own, answers[last].derivedBundle, false)
      else before
  }

  /** What the first loop reports: one mapping for each derivation that succeeded. */
  function DerivedMappings(
      crypto: CryptoEngine, own: Key, known: Known, sessions: Sessions,
      pending: seq<PendingEnvelope>, answers: seq<ItemAnswers>)
    : seq<PeerMapping>
    requires |answers| == |pending|
  {
    if pending == [] then []
    else
      var last := |pending| - 1;
      var before := AfterDerive(crypto, own, known, sessions, pending[..last], answers[..last]);
      var bundle := answers[last].derivedBundle;
      DerivedMappings(crypto, own, known, sessions, pending[..last], answers[..last]) +
      if DerivesFor(known, before, pending[last], answers[last]) && bundle.Some?
         && crypto.DeriveSharedKey(own, bundle.value.identityKey).Some?
      then [PeerMapping(pending[last].fromDevice, PeerOf(known, pending[last].fromDevice, answers[last].resolved).value, bundle.value)]
      else []
  }

  /** The recovery loop reports every bundle it fetched, also one whose identity changed. */
  function CheckedMappings(known: Known, pending: seq<PendingEnvelope>, answers: seq<ItemAnswers>): seq<PeerMapping>
    requires |answers| == |pending|
  {
    if pending == [] then []
    else
      var last := |pending| - 1;
      var peer := PeerOf(known, pending[last].fromDevice, answers[last].resolvedAgain);
      CheckedMappings(known, pending[..last], answers[..last]) +
      if peer.Some? && answers[last].checkedBundle.Some?
      then [PeerMapping(pending[last].fromDevice, peer.value, answers[last].checkedBundle.value)]
      else []
  }

  /** The recovery loop reaches the refresh for this item: peer known, bundle fetched, identity unchanged. */
  predicate RefreshesFor(known: Known, item: PendingEnvelope, answers: ItemAnswers) {
    var peer := PeerOf(known, item.fromDevice, answers.resolvedAgain);
    peer.Some? && answers.checkedBundle.Some? && IdentityMatches(known, peer.value, answers.checkedBundle.value)
  }

  function AfterRefresh(
      crypto: CryptoEngine, own: Key, known: Known, sessions: Sessions,
      pending: seq<PendingEnvelope>, answers: seq<ItemAnswers>)
    : Sessions
    requires |answers| == |pending|
  {
    if pending == [] then sessions
    else
      var last := |pending| - 1;
      var before := AfterRefresh(crypto, own, known, sessions, pending[..last], answers[..last]);
      if RefreshesFor(known, pending[last], answers[last])
      then Derived(crypto, before, own, answers[last].refreshBundle, true)
      else before
  }

  predicate SomeRefresh(known: Known, pending: seq<PendingEnvelope>, answers: seq<ItemAnswers>)
    requires |answers| == |pending|
  {
    exists i | 0 <= i < |pending| :: RefreshesFor(known, pending[i], answers[i])
  }

  /** Derive, then decrypt once. */
  function FirstPass(
      crypto: CryptoEngine, own: Key, known: Known, sessions: Sessions,
      pending: seq<PendingEnvelope>, answers: seq<ItemAnswers>)
    : (Sessions, seq<DecryptedMessage>)
    requires |answers| == |pending|
  {
    OpenAll(crypto, AfterDerive(crypto, own, known, sessions, pending, answers), pending)
  }

  /** The mappings a sync reports: the recovery loop's follow the first loop's when the first pass opened nothing. */
  function SyncMappings(
      crypto: CryptoEngine, own: Key, known: Known, sessions: Sessions,
      pending: seq<PendingEnvelope>, answers: seq<ItemAnswers>)
    : seq<PeerMapping>
    requires |answers| == |pending|
  {
    DerivedMappings(crypto, own, known, sessions, pending, answers) +
    if pending != [] && FirstPass(crypto, own, known, sessions, pending, answers).1 == []
    then CheckedMappings(known, pending, answers) else []
  }

  /** The sessions and messages a sync ends with. */
  function Synced(
      crypto: CryptoEngine, own: Key, known: Known, sessions: Sessions,
      pending: seq<PendingEnvelope>, answers: seq<ItemAnswers>)
    : (Sessions, seq<DecryptedMessage>)
    requires |answers| == |pending|
  {
    var (first, out) := FirstPass(crypto, own, known, sessions, pending, answers);
    if pending != [] && out == [] && SomeRefresh(known, pending, answers)
    then OpenAll(crypto, AfterRefresh(crypto, own, known, first, pending, answers), pending)
    else (first, out)
  }

  /** What item i adds to the first loop. */
  lemma DeriveStep(
    crypto: CryptoEngine, own: Key, known: Known, sessions: Sessions,
    pending: seq<PendingEnvelope>, answers: seq<ItemAnswers>, i: nat)
    requires |answers| == |pending| && i < |pending|
    ensures var before := AfterDerive(crypto, own, known, sessions, pending[..i], answers[..i]);
            var mappings := DerivedMappings(crypto, own, known, sessions, pending[..i], answers[..i]);
            var bundle := answers[i].derivedBundle;
            && AfterDerive(crypto, own, known, sessions, pending[..i + 1], answers[..i + 1]) ==
               (if DerivesFor(known, before, pending[i], answers[i]) then Derived(crypto, before, own, bundle, false) else before)
            && DerivedMappings(crypto, own, known, sessions, pending[..i + 1], answers[..i + 1]) == mappings +
               if DerivesFor(known, before, pending[i], answers[i]) && bundle.Some?
                  && crypto.DeriveSharedKey(own, bundle.value.identityKey).Some?
               then [PeerMapping(pending[i].fromDevice, PeerOf(known, pending[i].fromDevice, answers[i].resolved).value, bundle.value)]
               else []
  {
    assert pending[..i + 1][..i] == pending[..i] && answers[..i + 1][..i] == answers[..i];
  }

  /** First loop of run_sync_flow. */
  method DeriveMissingSessions(
      core: ClientCore, own: Key, known: Known, pending: seq<PendingEnvelope>, answers: seq<ItemAnswers>, diskOk: bool)
    returns (mappings: seq<PeerMapping>)
    requires |answers| == |pending|
    modifies core
    ensures core.sessions == AfterDerive(core.crypto, own, known, old(core.sessions), pending, answers)
    ensures mappings == DerivedMappings(core.crypto, own, known, old(core.sessions), pending, answers)
    ensures !diskOk ==> core.stored == old(core.stored)
  {
    mappings := [];
    for i := 0 to |pending|
      invariant core.sessions == AfterDerive(core.crypto, own, known, old(core.sessions), pending[..i], answers[..i])
      invariant mappings == DerivedMappings(core.crypto, own, known, old(core.sessions), pending[..i], answers[..i])
      invariant !diskOk ==> core.stored == old(core.stored)
    {
      DeriveStep(core.crypto, own, known, old(core.sessions), pending, answers, i);
      var item := pending[i];
      var peer := PeerOf(known, item.fromDevice, answers[i].resolved);
      if peer.Some? && (item.fromDevice !in core.sessions || peer.value in known.missingSafety) {
        var derived := core.DerivePeerSharedKey(own, answers[i].derivedBundle, false, diskOk);
        if derived.Ok? {
          mappings := mappings + [PeerMapping(item.fromDevice, peer.value, derived.value.1)];
        }
      }
    }
    assert pending[..|pending|] == pending && answers[..|answers|] == answers;
  }

  /** What item i adds to the recovery loop. */
  lemma RefreshStep(
    crypto: CryptoEngine, own: Key, known: Known, sessions: Sessions,
    pending: seq<PendingEnvelope>, answers: seq<ItemAnswers>, i: nat)
    requires |answers| == |pending| && i < |pending|
    ensures var before := AfterRefresh(crypto, own, known, sessions, pending[..i], answers[..i]);
            var peer := PeerOf(known, pending[i].fromDevice, answers[i].resolvedAgain);
            && AfterRefresh(crypto, own, known, sessions, pending[..i + 1], answers[..i + 1]) ==
               (if RefreshesFor(known, pending[i], answers[i]) then Derived(crypto, before, own, answers[i].refreshBundle, true)
                else before)
            && CheckedMappings(known, pending[..i + 1], answers[..i + 1]) == CheckedMappings(known, pending[..i], answers[..i]) +
               if peer.Some? && answers[i].checkedBundle.Some?
               then [PeerMapping(pending[i].fromDevice, peer.value, answers[i].checkedBundle.value)] else []
  {
    assert pending[..i + 1][..i] == pending[..i] && answers[..i + 1][..i] == answers[..i];
  }

  /** Recovery loop of run_sync_flow; `refreshed` is set even when the refresh itself fails. */
  method RefreshSessions(
      core: ClientCore, own: Key, known: Known, pending: seq<PendingEnvelope>, answers: seq<ItemAnswers>, diskOk: bool)
    returns (refreshed: bool, mappings: seq<PeerMapping>)
    requires |answers| == |pending|
    modifies core
    ensures mappings == CheckedMappings(known, pending, answers)
    ensures core.sessions == AfterRefresh(core.crypto, own, known, old(core.sessions), pending, answers)
    ensures refreshed <==> SomeRefresh(known, pending, answers)
    ensures !diskOk || !refreshed ==> core.stored == old(core.stored)
  {
    refreshed, mappings := false, [];
    for i := 0 to |pending|
      invariant mappings == CheckedMappings(known, pending[..i], answers[..i])
      invariant core.sessions == AfterRefresh(core.crypto, own, known, old(core.sessions), pending[..i], answers[..i])
      invariant refreshed <==> exists j | 0 <= j < i :: RefreshesFor(known, pending[j], answers[j])
      invariant !diskOk || !refreshed ==> core.stored == old(core.stored)
    {
      RefreshStep(core.crypto, own, known, old(core.sessions), pending, answers, i);
      var peer := PeerOf(known, pending[i].fromDevice, answers[i].resolvedAgain);
      if peer.None? || answers[i].checkedBundle.None? {
        continue;
      }
      mappings := mappings + [PeerMapping(pending[i].fromDevice, peer.value, answers[i].checkedBundle.value)];
      if IdentityMatches(known, peer.value, answers[i].checkedBundle.value) {
        var _ := core.DerivePeerSharedKey(own, answers[i].refreshBundle, true, diskOk);
        refreshed := true;
      }
    }
    assert pending[..|pending|] == pending && answers[..|answers|] == answers;
  }

  /** `fetched` is the answer to fetch_pending, `reported` the answer to message_statuses. */
  method RunSyncFlow(
      core: ClientCore, own: Key, known: Known,
      fetched: Option<seq<PendingEnvelope>>, answers: seq<ItemAnswers>,
      outgoing: seq<MessageId>, reported: Option<seq<Status>>, diskOk: bool)
    returns (result: Option<SyncSuccess>)
    requires core.crypto.Lawful()
    requires fetched.Some? ==> |answers| == |fetched.value|
    modifies core
    ensures fetched.None? ==> result == None && core.sessions == old(core.sessions) && core.stored == old(core.stored)
    ensures fetched.Some? ==>
              && result.Some?
              && (core.sessions, result.value.decrypted) ==
                 Synced(core.crypto, own, known, old(core.sessions), fetched.value, answers)
              && result.value.mappings == SyncMappings(core.crypto, own, known, old(core.sessions), fetched.value, answers)
              && result.value.statuses == (if outgoing == [] || reported.None? then [] else reported.value)
              && result.value.pendingCount == |fetched.value|
              && core.stored == if diskOk then core.sessions else old(core.stored)
  {
    if fetched.None? {
      return None;
    }
    var pending := fetched.value;
    var mappings := DeriveMissingSessions(core, own, known, pending, answers, diskOk);
    var decrypted, _ := core.DecryptPendingWithSessions(pending, diskOk);
    if |pending| > 0 && decrypted == [] {
      ghost var first := core.sessions;
      var refreshed, checked := RefreshSessions(core, own, known, pending, answers, diskOk);
      mappings := mappings + checked;
      if refreshed {
        var retried, _ := core.DecryptPendingWithSessions(pending, diskOk);
        decrypted := retried;
      } else {
        NoRefreshNoChange(core.crypto, own, known, first, pending, answers);
      }
    }
    var statuses := if outgoing == [] || reported.None? then [] else reported.value;
    result := Some(SyncSuccess(mappings, decrypted, statuses, |pending|));
  }

  // ------------------------------------------------------------------
  // Recovery makes progress

  /** The root of the last refresh that succeeded for `device`, if any did. */
  function LastRoot(
      crypto: CryptoEngine, own: Key, known: Known, pending: seq<PendingEnvelope>, answers: seq<ItemAnswers>,
      device: DeviceId)
    : Option<Key>
    requires |answers| == |pending|
  {
    if pending == [] then None
    else
      var last := |pending| - 1;
      var bundle := answers[last].refreshBundle;
      if RefreshesFor(known, pending[last], answers[last]) && bundle.Some? && bundle.value.deviceUuid == device
         && crypto.DeriveSharedKey(own, bundle.value.identityKey).Some?
      then crypto.DeriveSharedKey(own, bundle.value.identityKey)
      else LastRoot(crypto, own, known, pending[..last], answers[..last], device)
  }

  lemma DerivedKeepsWellFormed(
    crypto: CryptoEngine, sessions: Sessions, own: Key, bundle: Option<PrekeyBundle>, replace: bool)
    requires crypto.Lawful() && AllWellFormed(crypto, sessions)
    ensures AllWellFormed(crypto, Derived(crypto, sessions, own, bundle, replace))
  {
    if bundle.Some? {
      assert crypto.decodes(crypto.agree(own, bundle.value.identityKey));
    }
  }

  lemma {:induction false} DeriveKeepsWellFormed(
    crypto: CryptoEngine, own: Key, known: Known, sessions: Sessions,
    pending: seq<PendingEnvelope>, answers: seq<ItemAnswers>)
    requires crypto.Lawful() && AllWellFormed(crypto, sessions) && |answers| == |pending|
    ensures AllWellFormed(crypto, AfterDerive(crypto, own, known, sessions, pending, answers))
  {
    if pending != [] {
      var last := |pending| - 1;
      DeriveKeepsWellFormed(crypto, own, known, sessions, pending[..last], answers[..last]);
      DerivedKeepsWellFormed(crypto, AfterDerive(crypto, own, known, sessions, pending[..last], answers[..last]),
                             own, answers[last].derivedBundle, false);
    }
  }

  /** After the recovery loop a refreshed device has a fresh session; every other session is untouched. */
  lemma {:induction false} RefreshReplacesSessions(
    crypto: CryptoEngine, own: Key, known: Known, sessions: Sessions,
    pending: seq<PendingEnvelope>, answers: seq<ItemAnswers>, device: DeviceId)
    requires crypto.Lawful() && AllWellFormed(crypto, sessions) && |answers| == |pending|
    ensures var after := AfterRefresh(crypto, own, known, sessions, pending, answers);
            && AllWellFormed(crypto, after)
            && match LastRoot(crypto, own, known, pending, answers, device)
               case Some(root) => device in after && after[device] == FreshSession(root)
               case None => (device in after <==> device in sessions) && (device in after ==> after[device] == sessions[device])
  {
    if pending != [] {
      var last := |pending| - 1;
      RefreshReplacesSessions(crypto, own, known, sessions, pending[..last], answers[..last], device);
      DerivedKeepsWellFormed(crypto, AfterRefresh(crypto, own, known, sessions, pending[..last], answers[..last]),
                             own, answers[last].refreshBundle, true);
    }
  }

  /** A batch that opens nothing moves nothing. */
  lemma {:induction false} NothingOpenedNothingMoved(crypto: CryptoEngine, sessions: Sessions, pending: seq<PendingEnvelope>)
    requires OpenAll(crypto, sessions, pending).1 == []
    ensures OpenAll(crypto, sessions, pending).0 == sessions
  {
    if pending != [] {
      NothingOpenedNothingMoved(crypto, sessions, pending[..|pending| - 1]);
    }
  }

  lemma {:induction false} NoRefreshNoChange(
    crypto: CryptoEngine, own: Key, known: Known, sessions: Sessions,
    pending: seq<PendingEnvelope>, answers: seq<ItemAnswers>)
    requires |answers| == |pending| && !SomeRefresh(known, pending, answers)
    ensures AfterRefresh(crypto, own, known, sessions, pending, answers) == sessions
  {
    if pending != [] {
      var last := |pending| - 1;
      assert forall i | 0 <= i < last :: !RefreshesFor(known, pending[i], answers[i]);
      NoRefreshNoChange(crypto, own, known, sessions, pending[..last], answers[..last]);
      assert !RefreshesFor(known, pending[last], answers[last]);
    }
  }

  /**
   When the first pass opens nothing, the retry yields exactly the records above floor 0 for every
   refreshed device, and the first envelope authentic under a refreshed root is among what opens.
   */
  lemma RecoveryOpensFirstAuthentic(
    crypto: CryptoEngine, own: Key, known: Known, sessions: Sessions,
    pending: seq<PendingEnvelope>, answers: seq<ItemAnswers>, device: DeviceId, i: nat)
    requires crypto.Lawful() && AllWellFormed(crypto, sessions) && |answers| == |pending|
    requires var derived := AfterDerive(crypto, own, known, sessions, pending, answers);
             OpenAll(crypto, derived, pending).1 == []
    requires var root := LastRoot(crypto, own, known, pending, answers, device);
             && root.Some?
             && i < |pending| && Authentic(crypto, root.value, device, pending[i])
             && forall j | 0 <= j < i :: !Authentic(crypto, root.value, device, pending[j])
    ensures var root := LastRoot(crypto, own, known, pending, answers, device).value;
            var derived := AfterDerive(crypto, own, known, sessions, pending, answers);
            var refreshed := AfterRefresh(crypto, own, known, derived, pending, answers);
            var out := Synced(crypto, own, known, sessions, pending, answers).1;
            && refreshed[device := FreshSession(root)] == refreshed
            && out == Yields(crypto, refreshed, pending, |pending|)
            && DecryptedMessage(pending[i].messageId, device, TextUnder(crypto, root, pending[i]).value, pending[i].createdAt)
               in out
  {
    var derived := AfterDerive(crypto, own, known, sessions, pending, answers);
    var root := LastRoot(crypto, own, known, pending, answers, device).value;
    DeriveKeepsWellFormed(crypto, own, known, sessions, pending, answers);
    NothingOpenedNothingMoved(crypto, derived, pending);
    RefreshReplacesSessions(crypto, own, known, derived, pending, answers, device);
    LastRootNeedsRefresh(crypto, own, known, pending, answers, device);
    var refreshed := AfterRefresh(crypto, own, known, derived, pending, answers);
    assert pending[..|pending|] == pending;
    BatchYieldsRecords(crypto, refreshed, pending, |pending|);
    FreshSessionOpensFirstAuthentic(crypto, refreshed, pending, device, root, i);
  }

  lemma {:induction false} LastRootNeedsRefresh(
    crypto: CryptoEngine, own: Key, known: Known, pending: seq<PendingEnvelope>, answers: seq<ItemAnswers>, device: DeviceId)
    requires |answers| == |pending| && LastRoot(crypto, own, known, pending, answers, device).Some?
    ensures SomeRefresh(known, pending, answers)
  {
    var last := |pending| - 1;
    if RefreshesFor(known, pending[last], answers[last]) {
    } else {
      LastRootNeedsRefresh(crypto, own, known, pending[..last], answers[..last], device);
      var i :| 0 <= i < last && RefreshesFor(known, pending[..last][i], answers[..last][i]);
      assert RefreshesFor(known, pending[i], answers[i]);
    }
  }

  /**
   End to end: when the refreshed device's bundle carries the key its owner really holds, any envelope
   the owner sealed from a session on the same shared key brings at least one message out of the sync.
   */
  lemma SyncNeverStaysStuck(
    crypto: CryptoEngine, own: Key, known: Known, sessions: Sessions,
    pending: seq<PendingEnvelope>, answers: seq<ItemAnswers>, device: DeviceId, devicePrivate: Key,
    sender: PeerSession, k: nat, text: string, nonce: string, json: string)
    requires crypto.Lawful() && AllWellFormed(crypto, sessions) && |answers| == |pending|
    requires crypto.decodes(own) && crypto.decodes(devicePrivate)
    requires LastRoot(crypto, own, known, pending, answers, device) == crypto.DeriveSharedKey(own, crypto.publicOf(devicePrivate))
    requires WellFormed(crypto, sender)
             && Some(sender.sharedKey) == crypto.DeriveSharedKey(devicePrivate, crypto.publicOf(own))
    requires k < |pending| && pending[k].fromDevice == device && Sealed(crypto, sender, text, nonce, json).Some?
             && pending[k].wire == Sealed(crypto, sender, text, nonce, json).value.1
    ensures Synced(crypto, own, known, sessions, pending, answers).1 != []
  {
    SharedKeyIsSymmetric(crypto, own, devicePrivate);
    var root := LastRoot(crypto, own, known, pending, answers, device).value;
    SealedIsAuthentic(crypto, sender, device, pending[k].messageId, text, nonce, json, pending[k].createdAt);
    var first := FirstAuthentic(crypto, root, device, pending, k);
    var derived := AfterDerive(crypto, own, known, sessions, pending, answers);
    if OpenAll(crypto, derived, pending).1 == [] {
      RecoveryOpensFirstAuthentic(crypto, own, known, sessions, pending, answers, device, first);
    }
  }

  lemma {:induction false} FirstAuthentic(
    crypto: CryptoEngine, root: Key, device: DeviceId, pending: seq<PendingEnvelope>, k: nat)
    returns (first: nat)
    requires k < |pending| && Authentic(crypto, root, device, pending[k])
    ensures first <= k && Authentic(crypto, root, device, pending[first])
    ensures forall j | 0 <= j < first :: !Authentic(crypto, root, device, pending[j])
  {
    if j :| 0 <= j < k && Authentic(crypto, root, device, pending[j]) {
      first := FirstAuthentic(crypto, root, device, pending, j);
    } else {
      first := k;
    }
  }

  // ------------------------------------------------------------------
  // What the two loops do to one device, on the maps alone

  /** The sender's nickname: the one known, or else the one the server resolved. */
  ghost predicate Resolves(known: Known, item: PendingEnvelope, resolved: Option<string>, peer: string) {
    (item.fromDevice in known.peerByDevice && known.peerByDevice[item.fromDevice] == peer)
    || (item.fromDevice !in known.peerByDevice && resolved == Some(peer))
  }

  /** The checked bundle of item i carries an identity other than the pinned one. */
  ghost predicate IdentityChanged(known: Known, item: PendingEnvelope, answers: ItemAnswers) {
    exists peer :: Resolves(known, item, answers.resolvedAgain, peer) && answers.checkedBundle.Some? &&
      var b := answers.checkedBundle.value;
      || (peer in known.identityKeys && known.identityKeys[peer] != b.identityKey)
      || (peer in known.signingKeys && known.signingKeys[peer] != b.signingKey)
  }

  /** The checked bundle of item i carries the pinned identity, or nothing was pinned. */
  ghost predicate IdentityKept(known: Known, item: PendingEnvelope, answers: ItemAnswers) {
    exists peer :: Resolves(known, item, answers.resolvedAgain, peer) && answers.checkedBundle.Some? &&
      var b := answers.checkedBundle.value;
      && (peer in known.identityKeys ==> known.identityKeys[peer] == b.identityKey)
      && (peer in known.signingKeys ==> known.signingKeys[peer] == b.signingKey)
  }

  /** Item i's refresh would put device's session on this key. */
  ghost predicate RefreshGives(crypto: CryptoEngine, own: Key, answers: ItemAnswers, device: DeviceId, key: Key) {
    && answers.refreshBundle.Some? && answers.refreshBundle.value.deviceUuid == device
    && crypto.DeriveSharedKey(own, answers.refreshBundle.value.identityKey) == Some(key)
  }

  /** A changed identity is never refreshed, an unchanged or unpinned one always is. */
  lemma RefreshNeedsIdentity(known: Known, item: PendingEnvelope, answers: ItemAnswers)
    ensures IdentityChanged(known, item, answers) ==> !RefreshesFor(known, item, answers)
    ensures RefreshesFor(known, item, answers) <==> IdentityKept(known, item, answers)
  {
    var peer := PeerOf(known, item.fromDevice, answers.resolvedAgain);
    if peer.Some? {
      assert Resolves(known, item, answers.resolvedAgain, peer.value);
    }
  }

  /**
   A changed identity stops the recovery: when the checked bundle of every item that would refresh a
   device differs from a pinned key of its peer, that device's session stays exactly as it was.
   */
  lemma {:induction false} ChangedIdentityIsNotRefreshed(
    crypto: CryptoEngine, own: Key, known: Known, sessions: Sessions,
    pending: seq<PendingEnvelope>, answers: seq<ItemAnswers>, device: DeviceId)
    requires |answers| == |pending|
    requires forall i | 0 <= i < |pending| && answers[i].refreshBundle.Some? && answers[i].refreshBundle.value.deviceUuid == device ::
               IdentityChanged(known, pending[i], answers[i])
    ensures var after := AfterRefresh(crypto, own, known, sessions, pending, answers);
            (device in after <==> device in sessions) && (device in after ==> after[device] == sessions[device])
  {
    if pending != [] {
      var last := |pending| - 1;
      ChangedIdentityIsNotRefreshed(crypto, own, known, sessions, pending[..last], answers[..last], device);
      RefreshNeedsIdentity(known, pending[last], answers[last]);
    }
  }

  /** An item with kept identity whose refresh succeeds leaves a fresh session, on its key or on that of a later such item. */
  lemma {:induction false} KeptIdentityIsRefreshed(
    crypto: CryptoEngine, own: Key, known: Known, sessions: Sessions,
    pending: seq<PendingEnvelope>, answers: seq<ItemAnswers>, device: DeviceId, i: nat, key: Key)
    requires |answers| == |pending| && i < |pending|
    requires IdentityKept(known, pending[i], answers[i]) && RefreshGives(crypto, own, answers[i], device, key)
    ensures var after := AfterRefresh(crypto, own, known, sessions, pending, answers);
            && device in after
            && (after[device] == PeerSession(key, key, key, 0, 0)
                || exists j, other | i < j < |pending| ::
                     && IdentityKept(known, pending[j], answers[j]) && RefreshGives(crypto, own, answers[j], device, other)
                     && after[device] == PeerSession(other, other, other, 0, 0))
  {
    var last := |pending| - 1;
    RefreshNeedsIdentity(known, pending[last], answers[last]);
    if i < last {
      KeptIdentityIsRefreshed(crypto, own, known, sessions, pending[..last], answers[..last], device, i, key);
      var before := AfterRefresh(crypto, own, known, sessions, pending[..last], answers[..last]);
      if before[device] != PeerSession(key, key, key, 0, 0) {
        var j, other :| i < j < last && IdentityKept(known, pending[..last][j], answers[..last][j])
          && RefreshGives(crypto, own, answers[..last][j], device, other)
          && before[device] == PeerSession(other, other, other, 0, 0);
        assert IdentityKept(known, pending[j], answers[j]) && RefreshGives(crypto, own, answers[j], device, other);
      }
      var bundle := answers[last].refreshBundle;
      if IdentityKept(known, pending[last], answers[last]) && bundle.Some? && bundle.value.deviceUuid == device {
        var derived := crypto.DeriveSharedKey(own, bundle.value.identityKey);
        if derived.Some? {
          assert RefreshGives(crypto, own, answers[last], device, derived.value);
        }
      }
    }
  }

  /** The first loop leaves the sessions that were there alone. */
  lemma {:induction false} FirstLoopKeepsSessions(
    crypto: CryptoEngine, own: Key, known: Known, sessions: Sessions,
    pending: seq<PendingEnvelope>, answers: seq<ItemAnswers>, device: DeviceId)
    requires |answers| == |pending| && device in sessions
    ensures var after := AfterDerive(crypto, own, known, sessions, pending, answers);
            device in after && after[device] == sessions[device]
  {
    if pending != [] {
      var last := |pending| - 1;
      FirstLoopKeepsSessions(crypto, own, known, sessions, pending[..last], answers[..last], device);
    }
  }

  /** A known sender whose bundle is usable has a session afterwards, and the bundle's device has one if a safety number was missing. */
  lemma {:induction false} FirstLoopDerives(
    crypto: CryptoEngine, own: Key, known: Known, sessions: Sessions,
    pending: seq<PendingEnvelope>, answers: seq<ItemAnswers>, i: nat, peer: string, key: Key)
    requires |answers| == |pending| && i < |pending| && Derivable(crypto, own, known, pending[i], answers[i], peer, key)
    ensures var after := AfterDerive(crypto, own, known, sessions, pending, answers);
            var device := answers[i].derivedBundle.value.deviceUuid;
            device in after || (pending[i].fromDevice in after && peer !in known.missingSafety)
  {
    var last := |pending| - 1;
    if i < last {
      FirstLoopDerives(crypto, own, known, sessions, pending[..last], answers[..last], i, peer, key);
    }
  }

  /** A session the first loop adds is a fresh one on the key of some item's bundle for that device. */
  lemma {:induction false} FirstLoopAddsFresh(
    crypto: CryptoEngine, own: Key, known: Known, sessions: Sessions,
    pending: seq<PendingEnvelope>, answers: seq<ItemAnswers>, device: DeviceId)
    returns (i: nat, peer: string, key: Key)
    requires |answers| == |pending| && device !in sessions
    requires device in AfterDerive(crypto, own, known, sessions, pending, answers)
    ensures i < |pending| && Derivable(crypto, own, known, pending[i], answers[i], peer, key)
    ensures answers[i].derivedBundle.value.deviceUuid == device
    ensures AfterDerive(crypto, own, known, sessions, pending, answers)[device] == PeerSession(key, key, key, 0, 0)
  {
    var last := |pending| - 1;
    if device in AfterDerive(crypto, own, known, sessions, pending[..last], answers[..last]) {
      i, peer, key := FirstLoopAddsFresh(crypto, own, known, sessions, pending[..last], answers[..last], device);
    } else {
      i := last;
      peer := PeerOf(known, pending[last].fromDevice, answers[last].resolved).value;
      key := crypto.DeriveSharedKey(own, answers[last].derivedBundle.value.identityKey).value;
    }
  }

  /** Item i's sender is known as `peer` and its bundle gives this key. */
  ghost predicate Derivable(
    crypto: CryptoEngine, own: Key, known: Known, item: PendingEnvelope, answers: ItemAnswers, peer: string, key: Key)
  {
    && Resolves(known, item, answers.resolved, peer) && answers.derivedBundle.Some?
    && crypto.DeriveSharedKey(own, answers.derivedBundle.value.identityKey) == Some(key)
  }

  /** Without a retry the sync ends with its first pass. */
  lemma NoRetryKeepsFirstPass(
    crypto: CryptoEngine, own: Key, known: Known, sessions: Sessions,
    pending: seq<PendingEnvelope>, answers: seq<ItemAnswers>)
    requires |answers| == |pending|
    requires FirstPass(crypto, own, known, sessions, pending, answers).1 != []
             || forall i | 0 <= i < |pending| :: !IdentityKept(known, pending[i], answers[i])
    ensures Synced(crypto, own, known, sessions, pending, answers) ==
            OpenAll(crypto, AfterDerive(crypto, own, known, sessions, pending, answers), pending)
  {
    forall i | 0 <= i < |pending| ensures RefreshesFor(known, pending[i], answers[i]) <==> IdentityKept(known, pending[i], answers[i]) {
      RefreshNeedsIdentity(known, pending[i], answers[i]);
    }
  }

  ghost predicate Checked(known: Known, item: PendingEnvelope, answers: ItemAnswers, m: PeerMapping) {
    && Resolves(known, item, answers.resolvedAgain, m.peer)
    && m.device == item.fromDevice && answers.checkedBundle == Some(m.bundle)
  }

  /** The recovery loop reports every bundle it fetched for a known sender, a changed identity included, and nothing else. */
  lemma {:induction false} EveryCheckedBundleIsReported(known: Known, pending: seq<PendingEnvelope>, answers: seq<ItemAnswers>)
    requires |answers| == |pending|
    ensures forall m :: m in CheckedMappings(known, pending, answers) <==>
              exists i | 0 <= i < |pending| :: Checked(known, pending[i], answers[i], m)
  {
    if pending != [] {
      var last := |pending| - 1;
      EveryCheckedBundleIsReported(known, pending[..last], answers[..last]);
      forall m: PeerMapping
        ensures m in CheckedMappings(known, pending, answers) <==>
          exists i | 0 <= i < |pending| :: Checked(known, pending[i], answers[i], m)
      {
        var init := CheckedMappings(known, pending[..last], answers[..last]);
        assert m in init <==> exists i | 0 <= i < last :: Checked(known, pending[..last][i], answers[..last][i], m);
        assert (exists i | 0 <= i < last :: Checked(known, pending[..last][i], answers[..last][i], m)) <==>
               (exists i | 0 <= i < last :: Checked(known, pending[i], answers[i], m));
      }
    }
  }

  /** One of the first n items derives m. */
  ghost predicate DerivesEarlier(
    crypto: CryptoEngine, own: Key, known: Known, sessions: Sessions,
    pending: seq<PendingEnvelope>, answers: seq<ItemAnswers>, n: nat, m: PeerMapping)
    requires |answers| == |pending|
  {
    n > 0 && (DerivesEarlier(crypto, own, known, sessions, pending, answers, n - 1, m)
              || Derives(crypto, own, known, sessions, pending, answers, n - 1, m))
  }

  lemma {:induction false} DerivesEarlierMeans(
    crypto: CryptoEngine, own: Key, known: Known, sessions: Sessions,
    pending: seq<PendingEnvelope>, answers: seq<ItemAnswers>, n: nat, m: PeerMapping)
    requires |answers| == |pending|
    ensures DerivesEarlier(crypto, own, known, sessions, pending, answers, n, m) <==>
            exists i | 0 <= i < n :: Derives(crypto, own, known, sessions, pending, answers, i, m)
  {
    if n > 0 {
      DerivesEarlierMeans(crypto, own, known, sessions, pending, answers, n - 1, m);
    }
  }

  lemma {:induction false} DerivationsReportedSoFar(
    crypto: CryptoEngine, own: Key, known: Known, sessions: Sessions,
    pending: seq<PendingEnvelope>, answers: seq<ItemAnswers>, n: nat, m: PeerMapping)
    requires |answers| == |pending| && n <= |pending|
    ensures m in DerivedMappings(crypto, own, known, sessions, pending[..n], answers[..n]) <==>
            DerivesEarlier(crypto, own, known, sessions, pending, answers, n, m)
  {
    if n > 0 {
      DerivationsReportedSoFar(crypto, own, known, sessions, pending, answers, n - 1, m);
      OneMoreDerivation(crypto, own, known, sessions, pending, answers, n - 1, m);
    }
  }

  lemma OneMoreDerivation(
    crypto: CryptoEngine, own: Key, known: Known, sessions: Sessions,
    pending: seq<PendingEnvelope>, answers: seq<ItemAnswers>, i: nat, m: PeerMapping)
    requires |answers| == |pending| && i < |pending|
    ensures m in DerivedMappings(crypto, own, known, sessions, pending[..i + 1], answers[..i + 1]) <==>
            m in DerivedMappings(crypto, own, known, sessions, pending[..i], answers[..i])
            || Derives(crypto, own, known, sessions, pending, answers, i, m)
  {
    DeriveStep(crypto, own, known, sessions, pending, answers, i);
    LastDerivation(crypto, own, known, sessions, pending, answers, i, m);
  }

  lemma LastDerivation(
    crypto: CryptoEngine, own: Key, known: Known, sessions: Sessions,
    pending: seq<PendingEnvelope>, answers: seq<ItemAnswers>, i: nat, m: PeerMapping)
    requires |answers| == |pending| && i < |pending|
    ensures var bundle := answers[i].derivedBundle;
            Derives(crypto, own, known, sessions, pending, answers, i, m) <==>
            DerivesFor(known, AfterDerive(crypto, own, known, sessions, pending[..i], answers[..i]), pending[i], answers[i])
            && bundle.Some? && crypto.DeriveSharedKey(own, bundle.value.identityKey).Some?
            && m == PeerMapping(pending[i].fromDevice, PeerOf(known, pending[i].fromDevice, answers[i].resolved).value, bundle.value)
  {
  }

  /** The first loop's mappings: each is some item's known sender and usable bundle, met when it had no session or no safety number. */
  lemma EveryDerivationIsReported(
    crypto: CryptoEngine, own: Key, known: Known, sessions: Sessions,
    pending: seq<PendingEnvelope>, answers: seq<ItemAnswers>, m: PeerMapping)
    requires |answers| == |pending|
    ensures m in DerivedMappings(crypto, own, known, sessions, pending, answers) <==>
              exists i | 0 <= i < |pending| :: Derives(crypto, own, known, sessions, pending, answers, i, m)
  {
    assert pending[..|pending|] == pending && answers[..|answers|] == answers;
    DerivationsReportedSoFar(crypto, own, known, sessions, pending, answers, |pending|, m);
    DerivesEarlierMeans(crypto, own, known, sessions, pending, answers, |pending|, m);
  }

  /** Item i, met without a session for its sender or with a missing safety number, derives m. */
  ghost predicate Derives(
    crypto: CryptoEngine, own: Key, known: Known, sessions: Sessions,
    pending: seq<PendingEnvelope>, answers: seq<ItemAnswers>, i: int, m: PeerMapping)
    requires |answers| == |pending|
  {
    && 0 <= i < |pending| && m.device == pending[i].fromDevice && answers[i].derivedBundle == Some(m.bundle)
    && Resolves(known, pending[i], answers[i].resolved, m.peer)
    && crypto.DeriveSharedKey(own, m.bundle.identityKey) != None
    && (m.device !in AfterDerive(crypto, own, known, sessions, pending[..i], answers[..i]) || m.peer in known.missingSafety)
  }

  /** The root a refreshed device ends on: that of the last item of kept identity whose refresh succeeded. */
  lemma {:induction false} LastKeptIdentityGivesRoot(
    crypto: CryptoEngine, own: Key, known: Known,
    pending: seq<PendingEnvelope>, answers: seq<ItemAnswers>, device: DeviceId, i: nat, key: Key)
    requires |answers| == |pending| && i < |pending|
    requires IdentityKept(known, pending[i], answers[i]) && RefreshGives(crypto, own, answers[i], device, key)
    requires forall j, other | i < j < |pending| && RefreshGives(crypto, own, answers[j], device, other) ::
               !IdentityKept(known, pending[j], answers[j])
    ensures LastRoot(crypto, own, known, pending, answers, device) == Some(key)
  {
    var last := |pending| - 1;
    RefreshNeedsIdentity(known, pending[last], answers[last]);
    if i < last {
      LastKeptIdentityGivesRoot(crypto, own, known, pending[..last], answers[..last], device, i, key);
      var bundle := answers[last].refreshBundle;
      if bundle.Some? && bundle.value.deviceUuid == device {
        var derived := crypto.DeriveSharedKey(own, bundle.value.identityKey);
        assert derived.Some? ==> RefreshGives(crypto, own, answers[last], device, derived.value);
      }
    }
  }
}
