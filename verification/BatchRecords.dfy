/**
 What a batch yields, said without sessions that move: an envelope opens exactly when
 its counter is a strict left-to-right record among the authentic ones of its peer.
 */
module BatchRecords {
  import opened Wrappers
  import opened Crypto
  import opened PeerSessions

  /** A v2 envelope from `peer` whose inner text opens under the key of its counter below `root`. */
  predicate Authentic(crypto: CryptoEngine, root: Key, peer: DeviceId, item: PendingEnvelope) {
    && item.fromDevice == peer
    && item.wire.IsV2()
    && crypto.Decrypt(crypto.MessageKey(root, item.wire.envelope.counter), item.wire.envelope.inner).Some?
  }

  /** Item i is authentic, at or above the floor, and above every earlier authentic counter of its peer. */
  predicate IsRecord(
    crypto: CryptoEngine, root: Key, floor: nat, peer: DeviceId, pending: seq<PendingEnvelope>, i: nat)
    requires i < |pending|
  {
    && Authentic(crypto, root, peer, pending[i])
    && floor <= pending[i].wire.envelope.counter
    && forall j | 0 <= j < i && Authentic(crypto, root, peer, pending[j]) ::
      pending[j].wire.envelope.counter < pending[i].wire.envelope.counter
  }

  /** A legacy envelope is tried under the root itself, whatever came before it. */
  predicate LegacyOpens(crypto: CryptoEngine, root: Key, item: PendingEnvelope) {
    !item.wire.NotBase64? && !item.wire.IsV2() && crypto.Decrypt(root, item.wire.text).Some?
  }

  /** The text item i stands for: it depends on the root only. */
  function TextUnder(crypto: CryptoEngine, root: Key, item: PendingEnvelope): Option<string> {
    if item.wire.NotBase64? then None
    else if item.wire.IsV2() then crypto.Decrypt(crypto.MessageKey(root, item.wire.envelope.counter), item.wire.envelope.inner)
    else crypto.Decrypt(root, item.wire.text)
  }

  /** What item i of the batch contributes, from the starting sessions and the batch alone. */
  function Yield(crypto: CryptoEngine, sessions: Sessions, pending: seq<PendingEnvelope>, i: nat): seq<DecryptedMessage>
    requires i < |pending|
  {
    var item := pending[i];
    if item.fromDevice !in sessions then []
    else
      var s := sessions[item.fromDevice];
      if IsRecord(crypto, s.sharedKey, s.recvCounter, item.fromDevice, pending, i) || LegacyOpens(crypto, s.sharedKey, item)
      then [DecryptedMessage(item.messageId, item.fromDevice, TextUnder(crypto, s.sharedKey, item).value, item.createdAt)]
      else []
  }

  function Yields(crypto: CryptoEngine, sessions: Sessions, pending: seq<PendingEnvelope>, n: nat): seq<DecryptedMessage>
    requires n <= |pending|
  {
    if n == 0 then [] else Yields(crypto, sessions, pending, n - 1) + Yield(crypto, sessions, pending, n - 1)
  }

  /** Where the receive counter of `peer` stands: one past the largest authentic counter so far, or at the floor. */
  ghost predicate Passed(
    crypto: CryptoEngine, root: Key, floor: nat, peer: DeviceId, pending: seq<PendingEnvelope>, counter: nat)
  {
    && floor <= counter
    && (forall j | 0 <= j < |pending| && Authentic(crypto, root, peer, pending[j]) ::
          pending[j].wire.envelope.counter < counter)
    && (counter == floor ||
        exists j | 0 <= j < |pending| ::
          Authentic(crypto, root, peer, pending[j]) && pending[j].wire.envelope.counter + 1 == counter)
  }

  /** A batch moves each session's receive side only, one past the largest authentic counter it met. */
  lemma {:induction false} CountersAfterBatch(
    crypto: CryptoEngine, sessions: Sessions, pending: seq<PendingEnvelope>, peer: DeviceId)
    requires crypto.Lawful() && AllWellFormed(crypto, sessions)
    ensures var after := OpenAll(crypto, sessions, pending).0;
            && after.Keys == sessions.Keys
            && AllWellFormed(crypto, after)
            && (peer in sessions ==>
                  && after[peer].sharedKey == sessions[peer].sharedKey
                  && after[peer].sendChain == sessions[peer].sendChain
                  && after[peer].sendCounter == sessions[peer].sendCounter
                  && Passed(crypto, sessions[peer].sharedKey, sessions[peer].recvCounter, peer, pending, after[peer].recvCounter))
  {
    if pending != [] {
      var last := |pending| - 1;
      var item := pending[last];
      CountersAfterBatch(crypto, sessions, pending[..last], peer);
      var before := OpenAll(crypto, sessions, pending[..last]).0;
      if item.fromDevice in before {
        OpenedKeepsWellFormed(crypto, before[item.fromDevice], item.wire);
      }
      if peer in sessions {
        var root, floor := sessions[peer].sharedKey, sessions[peer].recvCounter;
        var after := OpenOne(crypto, before, item).0;
        if item.fromDevice == peer && item.wire.IsV2() {
          V2OpensExactly(crypto, before[peer], item.wire);
        }
        PassedExtends(crypto, root, floor, peer, pending, before[peer].recvCounter, after[peer].recvCounter);
      }
    }
  }

  lemma PassedExtends(
    crypto: CryptoEngine, root: Key, floor: nat, peer: DeviceId, pending: seq<PendingEnvelope>, before: nat, after: nat)
    requires pending != []
    requires Passed(crypto, root, floor, peer, pending[..|pending| - 1], before)
    requires var item := pending[|pending| - 1];
             after == if Authentic(crypto, root, peer, item) && before <= item.wire.envelope.counter
                      then item.wire.envelope.counter + 1 else before
    ensures Passed(crypto, root, floor, peer, pending, after)
  {
    var last := |pending| - 1;
    var init := pending[..last];
    assert forall j | 0 <= j < last :: init[j] == pending[j];
    if after == before {
      if before != floor {
        var j :| 0 <= j < last && Authentic(crypto, root, peer, init[j]) && init[j].wire.envelope.counter + 1 == before;
        assert Authentic(crypto, root, peer, pending[j]);
      }
    } else {
      assert Authentic(crypto, root, peer, pending[last]);
    }
  }

  /** One item: the moving sessions open it exactly when the records rule says so. */
  lemma OpensExactlyRecords(crypto: CryptoEngine, sessions: Sessions, pending: seq<PendingEnvelope>, i: nat)
    requires crypto.Lawful() && AllWellFormed(crypto, sessions) && i < |pending|
    ensures OpenOne(crypto, OpenAll(crypto, sessions, pending[..i]).0, pending[i]).1 == Yield(crypto, sessions, pending, i)
  {
    var item := pending[i];
    var peer := item.fromDevice;
    CountersAfterBatch(crypto, sessions, pending[..i], peer);
    if peer in sessions && item.wire.IsV2() {
      var before := OpenAll(crypto, sessions, pending[..i]).0;
      var root, floor := sessions[peer].sharedKey, sessions[peer].recvCounter;
      V2OpensExactly(crypto, before[peer], item.wire);
      assert forall j | 0 <= j < i :: pending[..i][j] == pending[j];
      var counter := before[peer].recvCounter;
      if IsRecord(crypto, root, floor, peer, pending, i) && counter != floor {
        var j :| 0 <= j < i && Authentic(crypto, root, peer, pending[..i][j]) && pending[..i][j].wire.envelope.counter + 1 == counter;
        assert Authentic(crypto, root, peer, pending[j]);
      }
    }
  }

  /** The whole batch: the output is exactly what the records rule selects, in batch order. */
  lemma {:induction false} BatchYieldsRecords(crypto: CryptoEngine, sessions: Sessions, pending: seq<PendingEnvelope>, n: nat)
    requires crypto.Lawful() && AllWellFormed(crypto, sessions) && n <= |pending|
    ensures OpenAll(crypto, sessions, pending[..n]).1 == Yields(crypto, sessions, pending, n)
  {
    if n > 0 {
      BatchYieldsRecords(crypto, sessions, pending, n - 1);
      OpensExactlyRecords(crypto, sessions, pending, n - 1);
      assert pending[..n][..n - 1] == pending[..n - 1];
    }
  }

  // ------------------------------------------------------------------
  // Peers do not affect one another

  function FromPeer(pending: seq<PendingEnvelope>, peer: DeviceId): seq<PendingEnvelope> {
    if pending == [] then []
    else
      var last := |pending| - 1;
      FromPeer(pending[..last], peer) + if pending[last].fromDevice == peer then [pending[last]] else []
  }

  function MessagesFrom(messages: seq<DecryptedMessage>, peer: DeviceId): seq<DecryptedMessage> {
    if messages == [] then []
    else
      var last := |messages| - 1;
      MessagesFrom(messages[..last], peer) + if messages[last].fromDevice == peer then [messages[last]] else []
  }

  lemma MessagesFromOne(messages: seq<DecryptedMessage>, more: seq<DecryptedMessage>, peer: DeviceId)
    requires |more| <= 1
    ensures MessagesFrom(messages + more, peer) == MessagesFrom(messages, peer) + MessagesFrom(more, peer)
  {
    if more == [] {
      assert messages + more == messages;
    } else {
      assert (messages + more)[..|messages|] == messages;
      assert more[..0] == [];
    }
  }

  /** Dropping every other peer's envelopes changes neither a peer's session nor its messages. */
  lemma {:induction false} PeersAreIsolated(
    crypto: CryptoEngine, sessions: Sessions, pending: seq<PendingEnvelope>, peer: DeviceId)
    requires peer in sessions
    ensures var (all, out) := OpenAll(crypto, sessions, pending);
            var (alone, own) := OpenAll(crypto, sessions, FromPeer(pending, peer));
            peer in all && peer in alone && all[peer] == alone[peer] && MessagesFrom(out, peer) == own
  {
    if pending != [] {
      var last := |pending| - 1;
      var item := pending[last];
      PeersAreIsolated(crypto, sessions, pending[..last], peer);
      var (before, out) := OpenAll(crypto, sessions, pending[..last]);
      var more := OpenOne(crypto, before, item).1;
      MessagesFromOne(out, more, peer);
      assert more != [] ==> more[..0] == [];
      if item.fromDevice == peer {
        var own := FromPeer(pending[..last], peer);
        assert (own + [item])[..|own|] == own;
      } else {
        assert FromPeer(pending, peer) == FromPeer(pending[..last], peer);
        assert MessagesFrom(more, peer) == [];
      }
    }
  }

  // ------------------------------------------------------------------
  // After a refresh

  /** Whatever the peer sealed from a session with the same root is authentic under that root. */
  lemma SealedIsAuthentic(
    crypto: CryptoEngine, sender: PeerSession, peer: DeviceId, id: MessageId,
    text: string, nonce: string, json: string, createdAt: int)
    requires crypto.Lawful() && WellFormed(crypto, sender)
    ensures var sent := Sealed(crypto, sender, text, nonce, json);
            && sent.Some?
            && var item := PendingEnvelope(id, peer, sent.value.1, createdAt);
            && Authentic(crypto, sender.sharedKey, peer, item)
            && TextUnder(crypto, sender.sharedKey, item) == Some(text)
  {
    SealedUsesCounterKey(crypto, sender, text, nonce, json);
    var key := crypto.MessageKey(sender.sharedKey, sender.sendCounter);
    assert crypto.decodes(key);
    assert crypto.open(key, crypto.seal(key, nonce, text)) == Some(text);
  }

  /** With a fresh session the first authentic envelope of the batch is always a record, so it opens. */
  lemma FreshSessionOpensFirstAuthentic(
    crypto: CryptoEngine, sessions: Sessions, pending: seq<PendingEnvelope>, peer: DeviceId, root: Key, i: nat)
    requires crypto.Lawful() && AllWellFormed(crypto, sessions)
    requires peer in sessions && sessions[peer] == FreshSession(root)
    requires i < |pending| && Authentic(crypto, root, peer, pending[i])
    requires forall j | 0 <= j < i :: !Authentic(crypto, root, peer, pending[j])
    ensures DecryptedMessage(pending[i].messageId, peer, TextUnder(crypto, root, pending[i]).value, pending[i].createdAt)
            in OpenAll(crypto, sessions, pending).1
  {
    BatchYieldsRecords(crypto, sessions, pending, |pending|);
    assert pending[..|pending|] == pending;
    YieldIsKept(crypto, sessions, pending, i, |pending|);
    assert IsRecord(crypto, root, 0, peer, pending, i);
  }

  lemma {:induction false} YieldIsKept(
    crypto: CryptoEngine, sessions: Sessions, pending: seq<PendingEnvelope>, i: nat, n: nat)
    requires i < n <= |pending|
    ensures forall m | m in Yield(crypto, sessions, pending, i) :: m in Yields(crypto, sessions, pending, n)
  {
    if i < n - 1 {
      YieldIsKept(crypto, sessions, pending, i, n - 1);
    }
  }
}
