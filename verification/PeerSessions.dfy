/**
 Peer sessions of the client core (crates/client-core/src/core.rs): each session
 holds a root key, a send chain and a receive chain with their counters.
 */
module PeerSessions {
  import opened Wrappers
  import opened Crypto

  type DeviceId = string
  type MessageId = string
  type Sessions = map<DeviceId, PeerSession>

  datatype PeerSession = PeerSession(
    sharedKey: Key, sendChain: Key, recvChain: Key, sendCounter: nat, recvCounter: nat)

  datatype RatchetEnvelope = RatchetEnvelope(v: nat, counter: nat, inner: string)

  /** An envelope as received: `text` is the base64 text, `Ratchet` one that parses as a RatchetEnvelope. */
  datatype WireEnvelope =
    | NotBase64
    | Ratchet(envelope: RatchetEnvelope, text: string)
    | Plain(text: string)
  {
    predicate IsV2() {
      Ratchet? && envelope.v == 2
    }
  }

  datatype PendingEnvelope = PendingEnvelope(
    messageId: MessageId, fromDevice: DeviceId, wire: WireEnvelope, createdAt: int)

  datatype DecryptedMessage = DecryptedMessage(
    messageId: MessageId, fromDevice: DeviceId, text: string, createdAt: int)

  datatype CoreError = InvalidBase64 | InvalidKey | StaleRatchetMessage | DecryptionFailed | BundleUnavailable | TransportFailed

  datatype PrekeyBundle = PrekeyBundle(deviceUuid: DeviceId, identityKey: Key, signingKey: Key)

  function FreshSession(root: Key): PeerSession {
    PeerSession(root, root, root, 0, 0)
  }

  /** Both chains are exactly as far below the root as their counters say. */
  predicate WellFormed(crypto: CryptoEngine, s: PeerSession) {
    && crypto.decodes(s.sharedKey)
    && s.sendChain == crypto.Chain(s.sharedKey, s.sendCounter)
    && s.recvChain == crypto.Chain(s.sharedKey, s.recvCounter)
  }

  predicate AllWellFormed(crypto: CryptoEngine, sessions: Sessions) {
    forall peer | peer in sessions :: WellFormed(crypto, sessions[peer])
  }

  // ------------------------------------------------------------------
  // Sending

  /** The ratchet envelope of counter n, serialised; only the legacy branch ever reads `text`. */
  function EncodeEnvelope(counter: nat, inner: string, json: string): WireEnvelope {
    Ratchet(RatchetEnvelope(2, counter, inner), json)
  }

  /** Encrypt under the next send key and advance the send chain. */
  function Sealed(crypto: CryptoEngine, s: PeerSession, text: string, nonce: string, json: string)
    : Option<(PeerSession, WireEnvelope)>
  {
    match crypto.RatchetStep(s.sendChain)
    case None => None
    case Some((messageKey, nextChain)) =>
      match crypto.Encrypt(messageKey, nonce, text)
      case None => None
      case Some(inner) =>
        Some((s.(sendChain := nextChain, sendCounter := s.sendCounter + 1),
              EncodeEnvelope(s.sendCounter, inner, json)))
  }

  /** What a well-formed session sends: counter = position, text sealed under that position's key of the root. */
  lemma SealedUsesCounterKey(crypto: CryptoEngine, s: PeerSession, text: string, nonce: string, json: string)
    requires crypto.Lawful() && WellFormed(crypto, s)
    ensures var sent := Sealed(crypto, s, text, nonce, json);
            && sent.Some?
            && WellFormed(crypto, sent.value.0)
            && sent.value.0 == s.(sendChain := sent.value.0.sendChain, sendCounter := s.sendCounter + 1)
            && sent.value.1.IsV2()
            && sent.value.1 == Ratchet(
                 RatchetEnvelope(2, s.sendCounter, crypto.seal(crypto.MessageKey(s.sharedKey, s.sendCounter), nonce, text)), json)
  {
    crypto.ChainDecodes(s.sharedKey, s.sendCounter);
    assert crypto.decodes(crypto.messageKeyOf(s.sendChain));
  }

  // ------------------------------------------------------------------
  // Opening one envelope

  /** The outcome of decrypt_with_session in closed form: no loop, only a jump along the receive chain. */
  function Opened(crypto: CryptoEngine, s: PeerSession, wire: WireEnvelope)
    : (outcome: (PeerSession, Result<string, CoreError>))
    ensures outcome.1.Err? ==> outcome.0 == s
  {
    if wire.NotBase64? then (s, Err(InvalidBase64))
    else if wire.IsV2() then
      var n := wire.envelope.counter;
      if n < s.recvCounter then (s, Err(StaleRatchetMessage))
      else if !crypto.decodes(s.recvChain) then (s, Err(InvalidKey))
      else
        var chain := crypto.Chain(s.recvChain, n - s.recvCounter);
        match crypto.Decrypt(crypto.messageKeyOf(chain), wire.envelope.inner)
        case None => (s, Err(DecryptionFailed))
        case Some(text) => (s.(recvChain := crypto.nextChainOf(chain), recvCounter := n + 1), Ok(text))
    else
      match crypto.Decrypt(s.sharedKey, wire.text)
      case None => (s, Err(DecryptionFailed))
      case Some(text) => (s, Ok(text))
  }

  /** The loop of decrypt_with_session: skip forward on a copy, replace the session only on success. */
  method DecryptWithSession(crypto: CryptoEngine, session: PeerSession, wire: WireEnvelope)
    returns (next: PeerSession, result: Result<string, CoreError>)
    requires crypto.Lawful()
    ensures (next, result) == Opened(crypto, session, wire)
  {
    next := session;
    if wire.NotBase64? {
      return next, Err(InvalidBase64);
    }
    if wire.IsV2() {
      var envelope := wire.envelope;
      var nextSession := session;
      while nextSession.recvCounter < envelope.counter
        invariant nextSession.recvCounter <= envelope.counter || nextSession == session
        invariant session.recvCounter <= nextSession.recvCounter
        invariant nextSession.recvCounter == session.recvCounter || crypto.decodes(session.recvChain)
        invariant nextSession == session.(recvCounter := nextSession.recvCounter,
          recvChain := crypto.Chain(session.recvChain, nextSession.recvCounter - session.recvCounter))
        decreases envelope.counter - nextSession.recvCounter
      {
        if crypto.decodes(session.recvChain) {
          crypto.ChainDecodes(session.recvChain, nextSession.recvCounter - session.recvCounter);
        }
        var step := crypto.RatchetStep(nextSession.recvChain);
        if step.None? {
          return session, Err(InvalidKey);
        }
        nextSession := nextSession.(recvChain := step.value.1, recvCounter := nextSession.recvCounter + 1);
      }
      if nextSession.recvCounter != envelope.counter {
        return session, Err(StaleRatchetMessage);
      }
      if crypto.decodes(session.recvChain) {
        crypto.ChainDecodes(session.recvChain, envelope.counter - session.recvCounter);
      }
      var step := crypto.RatchetStep(nextSession.recvChain);
      if step.None? {
        return session, Err(InvalidKey);
      }
      var plaintext := crypto.Decrypt(step.value.0, envelope.inner);
      if plaintext.None? {
        return session, Err(DecryptionFailed);
      }
      nextSession := nextSession.(recvChain := step.value.1, recvCounter := nextSession.recvCounter + 1);
      return nextSession, Ok(plaintext.value);
    }
    var plaintext := crypto.Decrypt(session.sharedKey, wire.text);
    result := if plaintext.Some? then Ok(plaintext.value) else Err(DecryptionFailed);
  }

  /**
   On a well-formed session a v2 envelope with counter n opens exactly when n has not
   been passed and the inner text opens under the n-th message key of the root; then
   the receive chain stands at n + 1, and otherwise nothing changes.
   */
  lemma V2OpensExactly(crypto: CryptoEngine, s: PeerSession, wire: WireEnvelope)
    requires crypto.Lawful() && WellFormed(crypto, s) && wire.Ratchet? && wire.envelope.v == 2
    ensures var n := wire.envelope.counter;
            var underRoot := crypto.Decrypt(crypto.MessageKey(s.sharedKey, n), wire.envelope.inner);
            var (next, result) := Opened(crypto, s, wire);
            && (result.Ok? <==> n >= s.recvCounter && underRoot.Some?)
            && (result.Ok? ==> result.value == underRoot.value)
            && (n < s.recvCounter ==> result == Err(StaleRatchetMessage))
            && (n >= s.recvCounter && underRoot.None? ==> result == Err(DecryptionFailed))
            && next == (if result.Ok?
                        then s.(recvCounter := n + 1, recvChain := crypto.Chain(s.sharedKey, n + 1))
                        else s)
  {
    var n := wire.envelope.counter;
    crypto.ChainDecodes(s.sharedKey, s.recvCounter);
    if n >= s.recvCounter {
      crypto.ChainAdds(s.sharedKey, s.recvCounter, n - s.recvCounter);
    }
  }

  /** Every other envelope is tried as a whole under the root, and never moves the session. */
  lemma OtherOpensExactly(crypto: CryptoEngine, s: PeerSession, wire: WireEnvelope)
    requires !(wire.Ratchet? && wire.envelope.v == 2)
    ensures Opened(crypto, s, wire) ==
            (s, if wire.NotBase64? then Err(InvalidBase64)
                else if crypto.Decrypt(s.sharedKey, wire.text).Some? then Ok(crypto.Decrypt(s.sharedKey, wire.text).value)
                else Err(DecryptionFailed))
  {
  }

  /** Opening keeps sessions well-formed, and an envelope that is not v2 never moves them. */
  lemma OpenedKeepsWellFormed(crypto: CryptoEngine, s: PeerSession, wire: WireEnvelope)
    requires crypto.Lawful() && WellFormed(crypto, s)
    ensures var (next, result) := Opened(crypto, s, wire);
            && WellFormed(crypto, next)
            && next.sharedKey == s.sharedKey
            && (result.Err? || !wire.IsV2() ==> next == s)
            && (result.Ok? && wire.IsV2() ==> s.recvCounter <= wire.envelope.counter < next.recvCounter)
  {
    if wire.IsV2() {
      V2OpensExactly(crypto, s, wire);
    }
  }

  // ------------------------------------------------------------------
  // Opening a batch

  function OpenOne(crypto: CryptoEngine, sessions: Sessions, item: PendingEnvelope): (Sessions, seq<DecryptedMessage>) {
    if item.fromDevice !in sessions then (sessions, [])
    else
      var (next, result) := Opened(crypto, sessions[item.fromDevice], item.wire);
      if result.Err? then (sessions, [])
      else (sessions[item.fromDevice := next],
            [DecryptedMessage(item.messageId, item.fromDevice, result.value, item.createdAt)])
  }

  function OpenAll(crypto: CryptoEngine, sessions: Sessions, pending: seq<PendingEnvelope>)
    : (Sessions, seq<DecryptedMessage>)
  {
    if pending == [] then (sessions, [])
    else
      var last := |pending| - 1;
      var (before, sofar) := OpenAll(crypto, sessions, pending[..last]);
      var (after, more) := OpenOne(crypto, before, pending[last]);
      (after, sofar + more)
  }

  function MessageIds(messages: seq<DecryptedMessage>): seq<MessageId> {
    seq(|messages|, i requires 0 <= i < |messages| => messages[i].messageId)
  }

  // ------------------------------------------------------------------
  // The client core's session map

  class ClientCore {
    const crypto: CryptoEngine
    /** peer_sessions, in memory. */
    var sessions: Sessions
    /** What the last successful save left in the session store. */
    var stored: Sessions

    constructor (crypto: CryptoEngine)
      ensures this.crypto == crypto && sessions == map[] && stored == map[]
    {
      this.crypto := crypto;
      sessions := map[];
      stored := map[];
    }

    /** Errors of the save are discarded by every caller; `diskOk` says whether it worked. */
    method PersistSessions(diskOk: bool)
      modifies this`stored
      ensures stored == if diskOk then sessions else old(stored)
    {
      if diskOk {
        stored := sessions;
      }
    }

    /**
     Ok(false) when there is no session; otherwise the envelope is posted and the answer is the
     transport's, while the session advances and is saved whatever that answer is.
     */
    method SendTextToPeerWithId(
        peer: DeviceId, text: string, nonce: string, json: string,
        answer: Result<bool, CoreError>, diskOk: bool)
      returns (result: Result<bool, CoreError>, posted: Option<WireEnvelope>)
      requires crypto.Lawful()
      modifies this
      ensures peer !in old(sessions) ==>
                result == Ok(false) && posted == None && sessions == old(sessions) && stored == old(stored)
      ensures peer in old(sessions) ==>
                match Sealed(crypto, old(sessions)[peer], text, nonce, json)
                case None => result.Err? && posted == None && sessions == old(sessions) && stored == old(stored)
                case Some((next, wire)) =>
                  && result == answer && posted == Some(wire)
                  && sessions == old(sessions)[peer := next]
                  && stored == if diskOk then sessions else old(stored)
    {
      if peer !in sessions {
        return Ok(false), None;
      }
      var session := sessions[peer];
      var step := crypto.RatchetStep(session.sendChain);
      if step.None? {
        return Err(InvalidKey), None;
      }
      var inner := crypto.Encrypt(step.value.0, nonce, text);
      if inner.None? {
        return Err(InvalidKey), None;
      }
      var wire := EncodeEnvelope(session.sendCounter, inner.value, json);
      session := session.(sendChain := step.value.1, sendCounter := session.sendCounter + 1);
      sessions := sessions[peer := session];
      PersistSessions(diskOk);
      return answer, Some(wire);
    }

    /** `bundle` is the outcome of fetch_peer_bundle; the answer is Ok exactly when it came and its key is usable. */
    method DerivePeerSharedKey(
        ownPrivate: Key, bundle: Option<PrekeyBundle>, replaceExisting: bool, diskOk: bool)
      returns (result: Result<(Key, PrekeyBundle), CoreError>)
      modifies this
      ensures sessions == Derived(crypto, old(sessions), ownPrivate, bundle, replaceExisting)
      ensures result.Ok? <==> bundle.Some? && crypto.DeriveSharedKey(ownPrivate, bundle.value.identityKey).Some?
      ensures result.Ok? ==>
                result.value == (crypto.DeriveSharedKey(ownPrivate, bundle.value.identityKey).value, bundle.value)
      ensures result.Err? ==> sessions == old(sessions) && stored == old(stored)
      ensures result.Ok? && (replaceExisting || bundle.value.deviceUuid !in old(sessions)) ==>
                var key := result.value.0;
                sessions == old(sessions)[bundle.value.deviceUuid := PeerSession(key, key, key, 0, 0)]
      ensures result.Ok? && !replaceExisting && bundle.value.deviceUuid in old(sessions) ==> sessions == old(sessions)
      ensures result.Ok? ==> stored == if diskOk then sessions else old(stored)
    {
      if bundle.None? {
        return Err(BundleUnavailable);
      }
      var key := crypto.DeriveSharedKey(ownPrivate, bundle.value.identityKey);
      if key.None? {
        return Err(InvalidKey);
      }
      if replaceExisting || bundle.value.deviceUuid !in sessions {
        sessions := sessions[bundle.value.deviceUuid := PeerSession(key.value, key.value, key.value, 0, 0)];
      }
      PersistSessions(diskOk);
      return Ok((key.value, bundle.value));
    }

    method ResetPeerSession(peer: DeviceId, diskOk: bool) returns (removed: bool)
      modifies this
      ensures removed <==> peer in old(sessions)
      ensures sessions == old(sessions) - {peer}
      ensures stored == if diskOk then sessions else old(stored)
    {
      removed := peer in sessions;
      sessions := sessions - {peer};
      PersistSessions(diskOk);
    }

    method DecryptPendingWithSessions(pending: seq<PendingEnvelope>, diskOk: bool)
      returns (out: seq<DecryptedMessage>, ackIds: seq<MessageId>)
      requires crypto.Lawful()
      modifies this
      ensures (sessions, out) == OpenAll(crypto, old(sessions), pending)
      ensures ackIds == MessageIds(out)
      ensures |ackIds| == |out| && forall i | 0 <= i < |out| :: ackIds[i] == out[i].messageId
      ensures stored == if diskOk then sessions else old(stored)
    {
      out, ackIds := [], [];
      for i := 0 to |pending|
        invariant (sessions, out) == OpenAll(crypto, old(sessions), pending[..i])
        invariant ackIds == MessageIds(out)
        invariant stored == old(stored)
      {
        assert pending[..i + 1][..i] == pending[..i];
        var item := pending[i];
        ghost var before := (sessions, out);
        ghost var step := OpenOne(crypto, sessions, item);
        assert OpenAll(crypto, old(sessions), pending[..i + 1]) == (step.0, before.1 + step.1);
        if item.fromDevice in sessions {
          var next, result := DecryptWithSession(crypto, sessions[item.fromDevice], item.wire);
          assert result.Err? ==> sessions[item.fromDevice := next] == sessions;
          sessions := sessions[item.fromDevice := next];
          if result.Ok? {
            ackIds := ackIds + [item.messageId];
            out := out + [DecryptedMessage(item.messageId, item.fromDevice, result.value, item.createdAt)];
          }
        }
        assert sessions == step.0;
        assert out == before.1 + step.1;
      }
      assert pending[..|pending|] == pending;
      PersistSessions(diskOk);
    }
  }

  /** The session map after derive_peer_shared_key_inner. */
  function Derived(
      crypto: CryptoEngine, sessions: Sessions, ownPrivate: Key, bundle: Option<PrekeyBundle>, replaceExisting: bool)
    : Sessions
  {
    if bundle.None? then sessions
    else
      var key := crypto.DeriveSharedKey(ownPrivate, bundle.value.identityKey);
      if key.Some? && (replaceExisting || bundle.value.deviceUuid !in sessions)
      then sessions[bundle.value.deviceUuid := FreshSession(key.value)]
      else sessions
  }
}
