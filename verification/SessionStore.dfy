/** Saving and loading the session map (crates/client-core/src/session_store.rs). */
module SessionStore {
  import opened Wrappers
  import opened Crypto
  import opened PeerSessions

  /** A stored session; files written by older clients lack the chain keys. */
  datatype StoredPeerSession = StoredPeerSession(
    peer: DeviceId, sharedKey: Key, sendChain: Option<Key>, recvChain: Option<Key>, sendCounter: nat, recvCounter: nat)

  function OrShared(chain: Option<Key>, sharedKey: Key): Key {
    if chain.Some? then chain.value else sharedKey
  }

  function LoadedSession(item: StoredPeerSession): PeerSession {
    PeerSession(item.sharedKey, OrShared(item.sendChain, item.sharedKey), OrShared(item.recvChain, item.sharedKey),
                item.sendCounter, item.recvCounter)
  }

  function StoredSession(peer: DeviceId, s: PeerSession): StoredPeerSession {
    StoredPeerSession(peer, s.sharedKey, Some(s.sendChain), Some(s.recvChain), s.sendCounter, s.recvCounter)
  }

  /** Collecting into a map: a later item for the same peer wins. */
  function Loaded(items: seq<StoredPeerSession>): Sessions {
    if items == [] then map[]
    else Loaded(items[..|items| - 1])[items[|items| - 1].peer := LoadedSession(items[|items| - 1])]
  }

  predicate HasPeer(items: seq<StoredPeerSession>, peer: DeviceId) {
    exists i | 0 <= i < |items| :: items[i].peer == peer
  }

  /** The items list every session once, in some order. */
  ghost predicate Lists(items: seq<StoredPeerSession>, sessions: Sessions) {
    && (forall i | 0 <= i < |items| :: items[i].peer in sessions && items[i] == StoredSession(items[i].peer, sessions[items[i].peer]))
    && (forall i, j | 0 <= i < j < |items| :: items[i].peer != items[j].peer)
    && (forall peer | peer in sessions :: HasPeer(items, peer))
  }

  /** Lexicographic order, as the file is sorted by. */
  predicate Before(a: string, b: string) {
    b != "" && (a == "" || a[0] < b[0] || (a[0] == b[0] && Before(a[1..], b[1..])))
  }

  lemma {:induction false} BeforeIsTotal(a: string, b: string)
    ensures a == b || Before(a, b) || Before(b, a)
  {
    if a != "" && b != "" && a[0] == b[0] {
      BeforeIsTotal(a[1..], b[1..]);
      assert a == [a[0]] + a[1..] && b == [b[0]] + b[1..];
    }
  }

  lemma {:induction false} BeforeIsTransitive(a: string, b: string, c: string)
    requires Before(a, b) && Before(b, c)
    ensures Before(a, c)
  {
    if a != "" && a[0] == b[0] == c[0] {
      BeforeIsTransitive(a[1..], b[1..], c[1..]);
    }
  }

  lemma {:induction false} BeforeIsStrict(a: string)
    ensures !Before(a, a)
  {
    if a != "" {
      BeforeIsStrict(a[1..]);
    }
  }

  ghost predicate InOrder(items: seq<StoredPeerSession>) {
    forall i, j | 0 <= i < j < |items| :: Before(items[i].peer, items[j].peer)
  }

  method FirstPeer(peers: set<DeviceId>) returns (first: DeviceId)
    requires peers != {}
    ensures first in peers && forall peer | peer in peers && peer != first :: Before(first, peer)
  {
    first :| first in peers;
    var rest := peers - {first};
    while rest != {}
      invariant rest <= peers && first in peers
      invariant forall peer | peer in peers && peer !in rest && peer != first :: Before(first, peer)
      decreases rest
    {
      var peer :| peer in rest;
      rest := rest - {peer};
      if Before(peer, first) {
        forall other | other in peers && other !in rest && other != peer ensures Before(peer, other) {
          if other != first {
            BeforeIsTransitive(peer, first, other);
          }
        }
        first := peer;
      } else {
        BeforeIsTotal(peer, first);
      }
    }
  }

  /** The file lists every session once, sorted by peer. */
  method Save(sessions: Sessions) returns (items: seq<StoredPeerSession>)
    ensures Lists(items, sessions) && InOrder(items)
    ensures forall peer | peer in sessions ::
              var s := sessions[peer];
              StoredPeerSession(peer, s.sharedKey, Some(s.sendChain), Some(s.recvChain), s.sendCounter, s.recvCounter) in items
  {
    items := [];
    var rest := sessions.Keys;
    while rest != {}
      invariant rest <= sessions.Keys
      invariant Lists(items, map peer | peer in sessions && peer !in rest :: sessions[peer])
      invariant InOrder(items)
      invariant forall i, peer | 0 <= i < |items| && peer in rest :: Before(items[i].peer, peer)
      decreases rest
    {
      ghost var done := map peer | peer in sessions && peer !in rest :: sessions[peer];
      var peer := FirstPeer(rest);
      rest := rest - {peer};
      ghost var more := map other | other in sessions && other !in rest :: sessions[other];
      assert more == done[peer := sessions[peer]];
      ListsOneMore(items, done, peer, sessions[peer]);
      items := items + [StoredSession(peer, sessions[peer])];
    }
    assert sessions == map peer | peer in sessions && peer !in rest :: sessions[peer];
    forall peer | peer in sessions ensures StoredSession(peer, sessions[peer]) in items {
      assert HasPeer(items, peer);
    }
  }

  lemma ListsOneMore(items: seq<StoredPeerSession>, done: Sessions, peer: DeviceId, session: PeerSession)
    requires Lists(items, done) && peer !in done
    ensures Lists(items + [StoredSession(peer, session)], done[peer := session])
  {
    var after := items + [StoredSession(peer, session)];
    forall other | other in done[peer := session] ensures HasPeer(after, other) {
      if other in done {
        var i :| 0 <= i < |items| && items[i].peer == other;
        assert after[i].peer == other;
      } else {
        assert after[|items|].peer == other;
      }
    }
  }

  /** Both listings start with the same k items. */
  predicate Share(xs: seq<StoredPeerSession>, ys: seq<StoredPeerSession>, k: nat) {
    k <= |xs| && k <= |ys| && forall m | 0 <= m < k :: xs[m] == ys[m]
  }

  ghost predicate SortedListing(items: seq<StoredPeerSession>, sessions: Sessions) {
    Lists(items, sessions) && InOrder(items)
  }

  /** The sorted file is determined by the sessions, in whatever order the map is read. */
  lemma SortedFileIsUnique(xs: seq<StoredPeerSession>, ys: seq<StoredPeerSession>, sessions: Sessions)
    requires SortedListing(xs, sessions) && SortedListing(ys, sessions)
    ensures xs == ys
  {
    SamePrefix(xs, ys, sessions, |xs|);
    SamePrefix(ys, xs, sessions, |ys|);
  }

  lemma {:induction false} SamePrefix(xs: seq<StoredPeerSession>, ys: seq<StoredPeerSession>, sessions: Sessions, k: nat)
    requires SortedListing(xs, sessions) && SortedListing(ys, sessions) && k <= |xs|
    ensures Share(xs, ys, k)
  {
    if k > 0 {
      SamePrefix(xs, ys, sessions, k - 1);
      OneMoreShared(xs, ys, sessions, k - 1);
    }
  }

  lemma OneMoreShared(xs: seq<StoredPeerSession>, ys: seq<StoredPeerSession>, sessions: Sessions, k: nat)
    requires SortedListing(xs, sessions) && SortedListing(ys, sessions) && Share(xs, ys, k) && k < |xs|
    ensures Share(xs, ys, k + 1)
  {
    var j := PositionOf(xs, ys, sessions, k);
    var i := PositionOf(ys, xs, sessions, k);
    SameNext(xs, ys, k, i, j);
  }

  /** If each listing holds the other's item at k no earlier than at k, both hold the same item there. */
  lemma SameNext(xs: seq<StoredPeerSession>, ys: seq<StoredPeerSession>, k: nat, i: nat, j: nat)
    requires InOrder(xs) && InOrder(ys) && k <= i < |xs| && k <= j < |ys|
    requires ys[j] == xs[k] && xs[i] == ys[k]
    ensures xs[k] == ys[k]
  {
    if j > k && i > k {
      BeforeIsTransitive(ys[k].peer, xs[k].peer, ys[k].peer);
      BeforeIsStrict(ys[k].peer);
    }
  }

  /** Where the item at k of one listing stands in the other: not among those the two share. */
  lemma PositionOf(xs: seq<StoredPeerSession>, ys: seq<StoredPeerSession>, sessions: Sessions, k: nat) returns (j: nat)
    requires Lists(xs, sessions) && Lists(ys, sessions) && Share(xs, ys, k) && k < |xs|
    ensures k <= j < |ys| && ys[j] == xs[k]
  {
    assert HasPeer(ys, xs[k].peer);
    j :| 0 <= j < |ys| && ys[j].peer == xs[k].peer;
  }

  /** Whatever order the file lists the sessions in, loading what was saved gives the same map back. */
  lemma LoadUndoesSave(items: seq<StoredPeerSession>, sessions: Sessions)
    requires Lists(items, sessions)
    ensures Loaded(items) == sessions
  {
    LoadedEntries(items, sessions, |items|);
    assert items[..|items|] == items;
    assert forall peer | peer in sessions :: peer in Loaded(items);
  }

  lemma {:induction false} LoadedEntries(items: seq<StoredPeerSession>, sessions: Sessions, n: nat)
    requires Lists(items, sessions) && n <= |items|
    ensures var loaded := Loaded(items[..n]);
            && (forall i | 0 <= i < n :: items[i].peer in loaded)
            && (forall peer | peer in loaded :: peer in sessions && loaded[peer] == sessions[peer])
  {
    if n > 0 {
      LoadedEntries(items, sessions, n - 1);
      assert items[..n][..n - 1] == items[..n - 1];
    }
  }

  /** `file` is what the vault opened, None when there is no file or it does not open. */
  method Load(file: Option<seq<StoredPeerSession>>) returns (sessions: Sessions)
    ensures file.None? ==> sessions == map[]
    ensures file.Some? ==> sessions == Loaded(file.value)
  {
    sessions := map[];
    if file.Some? {
      var items := file.value;
      for i := 0 to |items|
        invariant sessions == Loaded(items[..i])
      {
        assert items[..i + 1][..i] == items[..i];
        sessions := sessions[items[i].peer := LoadedSession(items[i])];
      }
      assert items[..|items|] == items;
    }
  }

  /**
   The sessions in memory are replaced: by those last saved when the file opens and holds them, in
   whatever order, and by none when it does not open.
   */
  method UnlockLocalStorage(core: ClientCore, file: Option<seq<StoredPeerSession>>)
    modifies core`sessions
    ensures file.None? ==> core.sessions == map[]
    ensures file.Some? && Lists(file.value, core.stored) ==> core.sessions == core.stored
    ensures file.Some? ==> core.sessions == Loaded(file.value)
  {
    core.sessions := Load(file);
    forall stored: Sessions | file.Some? && Lists(file.value, stored) ensures Loaded(file.value) == stored {
      LoadUndoesSave(file.value, stored);
    }
  }

  /** A stored session comes back field by field; a chain an older client did not store starts at the shared key. */
  lemma LoadedFieldByField(item: StoredPeerSession)
    ensures var s := LoadedSession(item);
            && s.sharedKey == item.sharedKey && s.sendCounter == item.sendCounter && s.recvCounter == item.recvCounter
            && (forall chain :: item.sendChain == Some(chain) ==> s.sendChain == chain)
            && (forall chain :: item.recvChain == Some(chain) ==> s.recvChain == chain)
            && (item.sendChain == None ==> s.sendChain == item.sharedKey)
            && (item.recvChain == None ==> s.recvChain == item.sharedKey)
  {
  }

  /** The file's order: at the first difference the smaller character, and a prefix, comes first. */
  lemma {:induction false} BeforeIsLexicographic(a: string, b: string)
    ensures Before(a, b) <==> exists k | 0 <= k <= |a| && k < |b| :: a[..k] == b[..k] && (k == |a| || a[k] < b[k])
  {
    if a != "" && b != "" && a[0] == b[0] {
      BeforeIsLexicographic(a[1..], b[1..]);
      if k :| 0 <= k <= |a| - 1 && k < |b| - 1 && a[1..][..k] == b[1..][..k] && (k == |a| - 1 || a[1..][k] < b[1..][k]) {
        assert a[..k + 1] == [a[0]] + a[1..][..k] && b[..k + 1] == [b[0]] + b[1..][..k];
      }
      if k :| 0 <= k <= |a| && k < |b| && a[..k] == b[..k] && (k == |a| || a[k] < b[k]) {
        assert k > 0;
        assert a[1..][..k - 1] == a[..k][1..] == b[..k][1..] == b[1..][..k - 1];
      }
    } else if b != "" && (a == "" || a[0] < b[0]) {
      assert a[..0] == b[..0];
    } else if a != "" && b != "" {
      assert forall k | 0 < k <= |a| && k < |b| :: a[..k][0] != b[..k][0];
    }
  }

  /** When a file lists a peer more than once, its last item wins. */
  lemma {:induction false} LastItemWins(items: seq<StoredPeerSession>, i: nat)
    requires i < |items| && forall j | i < j < |items| :: items[j].peer != items[i].peer
    ensures items[i].peer in Loaded(items) && Loaded(items)[items[i].peer] == LoadedSession(items[i])
  {
    if i < |items| - 1 {
      LastItemWins(items[..|items| - 1], i);
    }
  }
}
