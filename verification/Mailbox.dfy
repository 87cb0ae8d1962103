/**
 The server's message table (crates/server/src/repository/messages.rs), the drain
 transaction over it and the request handlers that guard it.
 */
module Mailbox {
  import opened Wrappers
  import opened PeerSessions

  type Time = nat

  datatype Row = Row(
    messageId: MessageId, fromDevice: DeviceId, toDevice: DeviceId, envelope: WireEnvelope,
    createdAt: Time, deliveredAt: Option<Time>, ackedAt: Option<Time>)

  datatype Status = Status(messageId: MessageId, delivered: bool, read: bool)

  // ------------------------------------------------------------------
  // Statements on the table as functions

  predicate Contains(rows: seq<Row>, id: MessageId) {
    exists i | 0 <= i < |rows| :: rows[i].messageId == id
  }

  /** INSERT ... ON CONFLICT (message_id) DO NOTHING. */
  function Inserted(rows: seq<Row>, id: MessageId, from: DeviceId, to: DeviceId, envelope: WireEnvelope, now: Time): seq<Row> {
    if Contains(rows, id) then rows else rows + [Row(id, from, to, envelope, now, None, None)]
  }

  /** delivered_at = COALESCE(delivered_at, NOW()) for the rows in `marked`. */
  function Delivered(rows: seq<Row>, marked: seq<nat>, now: Time): (r: seq<Row>)
    ensures |r| == |rows|
  {
    seq(|rows|, i requires 0 <= i < |rows| =>
      if i in marked && rows[i].deliveredAt.None? then rows[i].(deliveredAt := Some(now)) else rows[i])
  }

  predicate AckHits(row: Row, to: DeviceId, ids: seq<MessageId>) {
    row.toDevice == to && row.messageId in ids && row.ackedAt.None?
  }

  function Acked(rows: seq<Row>, to: DeviceId, ids: seq<MessageId>, now: Time): (r: seq<Row>)
    ensures |r| == |rows|
  {
    seq(|rows|, i requires 0 <= i < |rows| =>
      if AckHits(rows[i], to, ids) then rows[i].(ackedAt := Some(now)) else rows[i])
  }

  function AckCount(rows: seq<Row>, to: DeviceId, ids: seq<MessageId>): nat {
    if rows == [] then 0
    else AckCount(rows[..|rows| - 1], to, ids) + if AckHits(rows[|rows| - 1], to, ids) then 1 else 0
  }

  function StatusesOf(rows: seq<Row>, from: DeviceId, ids: seq<MessageId>): seq<Status> {
    if rows == [] then []
    else
      var last := rows[|rows| - 1];
      StatusesOf(rows[..|rows| - 1], from, ids) +
      if last.fromDevice == from && last.messageId in ids
      then [Status(last.messageId, last.deliveredAt.Some?, last.ackedAt.Some?)] else []
  }

  /** What the sender of a row it asks about is told: whether a drain handed it out, whether it was acknowledged. */
  ghost predicate Reports(row: Row, from: DeviceId, ids: seq<MessageId>, st: Status) {
    && row.fromDevice == from && row.messageId in ids && st.messageId == row.messageId
    && (st.delivered <==> row.deliveredAt != None) && (st.read <==> row.ackedAt != None)
  }

  lemma {:induction false} StatusesAreExact(rows: seq<Row>, from: DeviceId, ids: seq<MessageId>)
    requires forall i, j | 0 <= i < j < |rows| :: rows[i].messageId != rows[j].messageId
    ensures forall st :: st in StatusesOf(rows, from, ids) <==> exists i | 0 <= i < |rows| :: Reports(rows[i], from, ids, st)
    ensures forall i, j | 0 <= i < j < |StatusesOf(rows, from, ids)| ::
              StatusesOf(rows, from, ids)[i].messageId != StatusesOf(rows, from, ids)[j].messageId
  {
    if rows != [] {
      var last := |rows| - 1;
      StatusesAreExact(rows[..last], from, ids);
      var before := StatusesOf(rows[..last], from, ids);
      forall st ensures st in StatusesOf(rows, from, ids) <==> exists i | 0 <= i < |rows| :: Reports(rows[i], from, ids, st) {
        assert st in before <==> exists i | 0 <= i < last :: Reports(rows[..last][i], from, ids, st);
        assert (exists i | 0 <= i < last :: Reports(rows[..last][i], from, ids, st)) <==>
               exists i | 0 <= i < last :: Reports(rows[i], from, ids, st);
      }
      forall k | 0 <= k < |before| ensures before[k].messageId != rows[last].messageId {
        assert before[k] in before;
        var i :| 0 <= i < last && Reports(rows[..last][i], from, ids, before[k]);
      }
    }
  }

  predicate IsPending(rows: seq<Row>, locked: set<nat>, to: DeviceId, i: nat) {
    i < |rows| && i !in locked && rows[i].toDevice == to && rows[i].ackedAt.None?
  }

  /**
   What SELECT ... ORDER BY created_at LIMIT n FOR UPDATE SKIP LOCKED may return: distinct pending
   unlocked rows, oldest first, none older left out, and fewer than n only when there are no more.
   Rows with the same created_at may come in any order.
   */
  ghost predicate ValidPick(rows: seq<Row>, locked: set<nat>, to: DeviceId, limit: nat, picked: seq<nat>) {
    && |picked| <= limit
    && (forall k | 0 <= k < |picked| :: IsPending(rows, locked, to, picked[k]))
    && (forall j, k | 0 <= j < k < |picked| :: picked[j] != picked[k])
    && (forall j, k | 0 <= j < k < |picked| :: rows[picked[j]].createdAt <= rows[picked[k]].createdAt)
    && (forall i: nat, k | IsPending(rows, locked, to, i) && i !in picked && 0 <= k < |picked| ::
          rows[picked[k]].createdAt <= rows[i].createdAt)
    && (|picked| < limit ==> forall i: nat | IsPending(rows, locked, to, i) :: i in picked)
  }

  function ItemOf(row: Row): PendingEnvelope {
    PendingEnvelope(row.messageId, row.fromDevice, row.envelope, row.createdAt)
  }

  function ItemsOf(rows: seq<Row>, picked: seq<nat>): (items: seq<PendingEnvelope>)
    requires forall k | 0 <= k < |picked| :: picked[k] < |rows|
    ensures |items| == |picked|
    ensures forall k | 0 <= k < |items| :: items[k] == ItemOf(rows[picked[k]])
  {
    seq(|picked|, k requires 0 <= k < |picked| => ItemOf(rows[picked[k]]))
  }

  ghost predicate TableOk(rows: seq<Row>) {
    && (forall i, j | 0 <= i < j < |rows| :: rows[i].messageId != rows[j].messageId)
    && (forall i, j | 0 <= i < j < |rows| :: rows[i].createdAt <= rows[j].createdAt)
  }

  /** A pick has min(limit, number of pending unlocked rows) entries. */
  lemma PickSize(rows: seq<Row>, locked: set<nat>, to: DeviceId, limit: nat, picked: seq<nat>)
    requires ValidPick(rows, locked, to, limit, picked)
    ensures var pending := set i: nat | i < |rows| && IsPending(rows, locked, to, i);
            |picked| == if |pending| < limit then |pending| else limit
  {
    var pending := set i: nat | i < |rows| && IsPending(rows, locked, to, i);
    var chosen := set k | 0 <= k < |picked| :: picked[k];
    DistinctSize(picked);
    assert forall i | i in chosen :: i in pending;
    CardinalityOfSubset(chosen, pending);
    if |picked| < limit {
      assert forall i | i in pending :: i in picked && i in chosen;
      assert chosen == pending;
    }
  }

  lemma CardinalityOfSubset(small: set<nat>, large: set<nat>)
    requires small <= large
    ensures |small| <= |large|
  {
    assert large == small + (large - small);
  }

  lemma {:induction false} DistinctSize(s: seq<nat>)
    requires forall j, k | 0 <= j < k < |s| :: s[j] != s[k]
    ensures |set k | 0 <= k < |s| :: s[k]| == |s|
  {
    if s != [] {
      var init := s[..|s| - 1];
      DistinctSize(init);
      assert (set k | 0 <= k < |s| :: s[k]) == (set k | 0 <= k < |init| :: init[k]) + {s[|s| - 1]};
    }
  }

  /** The picks of a scan that has looked at rows 0..i. */
  ghost predicate Scanned(rows: seq<Row>, locked: set<nat>, to: DeviceId, picked: seq<nat>, i: nat) {
    && (forall k | 0 <= k < |picked| :: picked[k] < i && IsPending(rows, locked, to, picked[k]))
    && (forall j, k | 0 <= j < k < |picked| :: picked[j] < picked[k])
    && (forall p: nat | p < i && IsPending(rows, locked, to, p) :: p in picked)
  }

  lemma ScanIsValidPick(rows: seq<Row>, locked: set<nat>, to: DeviceId, limit: nat, picked: seq<nat>, i: nat)
    requires TableOk(rows) && Scanned(rows, locked, to, picked, i)
    requires i <= |rows| && |picked| <= limit && (i == |rows| || |picked| == limit)
    ensures ValidPick(rows, locked, to, limit, picked)
  {
    forall j, k | 0 <= j < k < |picked| ensures rows[picked[j]].createdAt <= rows[picked[k]].createdAt {
      assert picked[j] < picked[k];
    }
    forall p: nat, k | IsPending(rows, locked, to, p) && p !in picked && 0 <= k < |picked|
      ensures rows[picked[k]].createdAt <= rows[p].createdAt
    {
      assert picked[k] < i <= p;
    }
  }

  lemma AckedRow(rows: seq<Row>, to: DeviceId, ids: seq<MessageId>, now: Time, after: seq<Row>)
    requires |after| == |rows|
    requires forall i | 0 <= i < |rows| ::
               after[i] == if AckHits(rows[i], to, ids) then rows[i].(ackedAt := Some(now)) else rows[i]
    ensures after == Acked(rows, to, ids, now)
    ensures TableOk(rows) ==> TableOk(after)
  {
  }

  lemma {:induction false} AckCountIsHits(rows: seq<Row>, to: DeviceId, ids: seq<MessageId>)
    ensures AckCount(rows, to, ids) == |set i | 0 <= i < |rows| && AckHits(rows[i], to, ids)|
  {
    if rows != [] {
      var last := |rows| - 1;
      var init := rows[..last];
      AckCountIsHits(init, to, ids);
      assert (set i | 0 <= i < |rows| && AckHits(rows[i], to, ids)) ==
             (set i | 0 <= i < last && AckHits(init[i], to, ids)) + if AckHits(rows[last], to, ids) then {last} else {};
    }
  }

  /** The count of an acknowledgement is the number of rows it changes. */
  lemma AckCountIsChanges(rows: seq<Row>, to: DeviceId, ids: seq<MessageId>, now: Time)
    ensures AckCount(rows, to, ids) == |set i | 0 <= i < |rows| && Acked(rows, to, ids, now)[i] != rows[i]|
  {
    AckCountIsHits(rows, to, ids);
    assert (set i | 0 <= i < |rows| && Acked(rows, to, ids, now)[i] != rows[i]) ==
           (set i | 0 <= i < |rows| && AckHits(rows[i], to, ids));
  }

  lemma {:induction false} AckCountStep(rows: seq<Row>, to: DeviceId, ids: seq<MessageId>, i: nat)
    requires i < |rows|
    ensures AckCount(rows[..i + 1], to, ids) == AckCount(rows[..i], to, ids) + if AckHits(rows[i], to, ids) then 1 else 0
  {
    assert rows[..i + 1][..i] == rows[..i];
  }

  lemma DeliveredExtends(rows: seq<Row>, marked: seq<nat>, i: nat, now: Time)
    ensures Delivered(Delivered(rows, marked, now), [i], now) == Delivered(rows, marked + [i], now)
  {
  }

  lemma DeliveredKeepsTable(rows: seq<Row>, marked: seq<nat>, now: Time)
    requires TableOk(rows)
    ensures TableOk(Delivered(rows, marked, now))
    ensures forall i | 0 <= i < |rows| :: ItemOf(Delivered(rows, marked, now)[i]) == ItemOf(rows[i])
  {
  }

  lemma DeliveredKeepsItems(rows: seq<Row>, picked: seq<nat>, now: Time)
    requires forall k | 0 <= k < |picked| :: picked[k] < |rows|
    ensures ItemsOf(Delivered(rows, picked, now), picked) == ItemsOf(rows, picked)
  {
  }

  // ------------------------------------------------------------------
  // The table

  class MessageTable {
    var rows: seq<Row>

    ghost predicate Valid()
      reads this
    {
      TableOk(rows)
    }

    constructor ()
      ensures Valid() && rows == []
    {
      rows := [];
    }

    /** `now` is the database clock, which does not run backwards. */
    method InsertMessage(id: MessageId, from: DeviceId, to: DeviceId, envelope: WireEnvelope, now: Time)
      returns (affected: nat)
      requires Valid() && forall i | 0 <= i < |rows| :: rows[i].createdAt <= now
      modifies this
      ensures Valid()
      ensures rows == Inserted(old(rows), id, from, to, envelope, now)
      ensures affected == |rows| - |old(rows)| && (affected == 1 <==> !Contains(old(rows), id))
      ensures (exists i | 0 <= i < |old(rows)| :: old(rows)[i].messageId == id) ==> rows == old(rows)
      ensures (forall i | 0 <= i < |old(rows)| :: old(rows)[i].messageId != id) ==>
                rows == old(rows) + [Row(id, from, to, envelope, now, None, None)]
    {
      for i := 0 to |rows|
        invariant forall j | 0 <= j < i :: rows[j].messageId != id
        invariant rows == old(rows)
      {
        if rows[i].messageId == id {
          return 0;
        }
      }
      rows := rows + [Row(id, from, to, envelope, now, None, None)];
      affected := 1;
    }

    /** Rows are kept in created_at order, so a scan meets the oldest first; `locked` rows are skipped. */
    method FetchPendingLocked(to: DeviceId, limit: nat, locked: set<nat>) returns (picked: seq<nat>)
      requires Valid()
      ensures ValidPick(rows, locked, to, limit, picked)
    {
      picked := [];
      var i := 0;
      while i < |rows| && |picked| < limit
        invariant i <= |rows| && |picked| <= limit
        invariant Scanned(rows, locked, to, picked, i)
      {
        if i !in locked && rows[i].toDevice == to && rows[i].ackedAt.None? {
          picked := picked + [i];
        }
        i := i + 1;
      }
      ScanIsValidPick(rows, locked, to, limit, picked, i);
    }

    method MarkDelivered(i: nat, now: Time)
      requires Valid() && i < |rows|
      modifies this
      ensures Valid()
      ensures rows == Delivered(old(rows), [i], now)
      ensures rows == if old(rows)[i].deliveredAt.Some? then old(rows) else old(rows)[i := old(rows)[i].(deliveredAt := Some(now))]
    {
      if rows[i].deliveredAt.None? {
        rows := rows[i := rows[i].(deliveredAt := Some(now))];
      }
    }

    method AckMessages(to: DeviceId, ids: seq<MessageId>, now: Time) returns (affected: nat)
      requires Valid()
      modifies this
      ensures Valid()
      ensures rows == Acked(old(rows), to, ids, now)
      ensures affected == AckCount(old(rows), to, ids)
      ensures |rows| == |old(rows)| && forall i | 0 <= i < |rows| ::
                var row := old(rows)[i];
                rows[i] == if row.toDevice == to && row.messageId in ids && row.ackedAt.None? then row.(ackedAt := Some(now)) else row
      ensures affected == |set i | 0 <= i < |rows| && rows[i] != old(rows)[i]|
    {
      ghost var before := rows;
      affected := 0;
      for i := 0 to |rows|
        invariant |rows| == |before|
        invariant forall j | 0 <= j < i ::
          rows[j] == if AckHits(before[j], to, ids) then before[j].(ackedAt := Some(now)) else before[j]
        invariant forall j | i <= j < |rows| :: rows[j] == before[j]
        invariant affected == AckCount(before[..i], to, ids)
      {
        AckCountStep(before, to, ids, i);
        if rows[i].toDevice == to && rows[i].messageId in ids && rows[i].ackedAt.None? {
          rows := rows[i := rows[i].(ackedAt := Some(now))];
          affected := affected + 1;
        }
      }
      assert before[..|before|] == before;
      AckedRow(before, to, ids, now, rows);
      AckCountIsChanges(before, to, ids, now);
    }

    method FetchStatuses(from: DeviceId, ids: seq<MessageId>) returns (statuses: seq<Status>)
      requires Valid()
      ensures statuses == StatusesOf(rows, from, ids)
      ensures forall st :: st in statuses <==> exists i | 0 <= i < |rows| :: Reports(rows[i], from, ids, st)
      ensures forall i, j | 0 <= i < j < |statuses| :: statuses[i].messageId != statuses[j].messageId
    {
      statuses := [];
      for i := 0 to |rows|
        invariant statuses == StatusesOf(rows[..i], from, ids)
      {
        assert rows[..i + 1][..i] == rows[..i];
        if rows[i].fromDevice == from && rows[i].messageId in ids {
          statuses := statuses + [Status(rows[i].messageId, rows[i].deliveredAt.Some?, rows[i].ackedAt.Some?)];
        }
      }
      assert rows[..|rows|] == rows;
      StatusesAreExact(rows, from, ids);
    }

    /**
     One drain transaction: the oldest pending rows nobody else has locked are returned, and exactly
     those gain a delivery time; acknowledgement times and every other row stay as they were.
     */
    method DrainPendingMessages(to: DeviceId, limit: nat, locked: set<nat>, now: Time)
      returns (items: seq<PendingEnvelope>, ghost picked: seq<nat>)
      requires Valid()
      modifies this
      ensures Valid()
      ensures ValidPick(old(rows), locked, to, limit, picked)
      ensures items == ItemsOf(old(rows), picked)
      ensures rows == Delivered(old(rows), picked, now)
      ensures DrainedExactly(old(rows), locked, to, limit, picked, now, items, rows)
    {
      var chosen := FetchPendingLocked(to, limit, locked);
      picked := chosen;
      ghost var before := rows;
      for k := 0 to |chosen|
        invariant Valid() && |rows| == |before| && rows == Delivered(before, chosen[..k], now)
      {
        DeliveredExtends(before, chosen[..k], chosen[k], now);
        MarkDelivered(chosen[k], now);
        assert chosen[..k + 1] == chosen[..k] + [chosen[k]];
      }
      assert chosen[..|chosen|] == chosen;
      items := ItemsOf(rows, chosen);
      DeliveredKeepsItems(before, chosen, now);
      DrainIsExact(before, locked, to, limit, chosen, now);
    }
  }

  /**
   What one drain does: the rows picked are the device's, unacknowledged, unlocked and distinct, oldest
   first; there are fewer than `limit` only when no such row is left out, and no older one ever is; the
   items are what they held; exactly those without a delivery time gain one, and nothing else changes.
   */
  ghost predicate DrainedExactly(
    rows: seq<Row>, locked: set<nat>, to: DeviceId, limit: nat, picked: seq<nat>, now: Time,
    items: seq<PendingEnvelope>, after: seq<Row>)
  {
    && |picked| <= limit
    && (forall k | 0 <= k < |picked| ::
          picked[k] < |rows| && picked[k] !in locked && rows[picked[k]].toDevice == to && rows[picked[k]].ackedAt == None)
    && (forall j, k | 0 <= j < k < |picked| ::
          picked[j] != picked[k] && rows[picked[j]].createdAt <= rows[picked[k]].createdAt)
    && (forall i: nat | i < |rows| && i !in locked && rows[i].toDevice == to && rows[i].ackedAt == None && i !in picked ::
          |picked| == limit && forall k | 0 <= k < |picked| :: rows[picked[k]].createdAt <= rows[i].createdAt)
    && |items| == |picked|
    && (forall k | 0 <= k < |items| ::
          var row := rows[picked[k]];
          items[k] == PendingEnvelope(row.messageId, row.fromDevice, row.envelope, row.createdAt))
    && |after| == |rows|
    && forall i | 0 <= i < |rows| ::
      after[i] == if i in picked && rows[i].deliveredAt == None then rows[i].(deliveredAt := Some(now)) else rows[i]
  }

  /** A drain hands out min(limit, pending) rows, and DrainedExactly describes it. */
  lemma DrainIsExact(rows: seq<Row>, locked: set<nat>, to: DeviceId, limit: nat, picked: seq<nat>, now: Time)
    requires ValidPick(rows, locked, to, limit, picked)
    ensures var pending := set i: nat | i < |rows| && i !in locked && rows[i].toDevice == to && rows[i].ackedAt == None;
            |picked| == if |pending| < limit then |pending| else limit
    ensures DrainedExactly(rows, locked, to, limit, picked, now, ItemsOf(rows, picked), Delivered(rows, picked, now))
  {
    PickSize(rows, locked, to, limit, picked);
    var pending := set i: nat | i < |rows| && i !in locked && rows[i].toDevice == to && rows[i].ackedAt == None;
    assert pending == set i: nat | i < |rows| && IsPending(rows, locked, to, i);
    forall i: nat | i < |rows| && i !in locked && rows[i].toDevice == to && rows[i].ackedAt == None && i !in picked
      ensures |picked| == limit
    {
      assert IsPending(rows, locked, to, i);
    }
  }

  // ------------------------------------------------------------------
  // Request handlers (crates/server/src/domain/messaging.rs)

  datatype ApiError =
    | InvalidEnvelope | DeviceMismatch | RecipientNotFound | RecipientBlockedYou | YouBlockedRecipient

  /** Owners of the registered devices and the pairs (blocker, blocked). */
  datatype Directory = Directory(ownerOf: map<DeviceId, string>, blocks: set<(string, string)>)

  /** block_direction: who blocks whom between two users, the recipient's block first. */
  function BlockedBy(directory: Directory, sender: string, recipient: string): Option<string> {
    if (recipient, sender) in directory.blocks then Some(recipient)
    else if (sender, recipient) in directory.blocks then Some(sender)
    else None
  }

  /** The recipient device exists, its owner is found, and neither user blocks the other. */
  predicate MaySend(directory: Directory, from: DeviceId, to: DeviceId) {
    && from in directory.ownerOf && to in directory.ownerOf
    && BlockedBy(directory, directory.ownerOf[from], directory.ownerOf[to]).None?
  }

  /**
   A message gets into the table only when its sender is the authenticated device and may write
   to the recipient; the answer says whether this call inserted it.
   */
  method SendMessage(
      table: MessageTable, directory: Directory, authDevice: DeviceId,
      id: MessageId, from: DeviceId, to: DeviceId, envelope: WireEnvelope, now: Time)
    returns (result: Result<bool, ApiError>)
    requires table.Valid() && forall i | 0 <= i < |table.rows| :: table.rows[i].createdAt <= now
    modifies table
    ensures table.Valid()
    ensures result.Ok? <==> !envelope.NotBase64? && authDevice == from && MaySend(directory, from, to)
    ensures result.Ok? <==>
              && envelope != NotBase64 && authDevice == from && from in directory.ownerOf && to in directory.ownerOf
              && (directory.ownerOf[from], directory.ownerOf[to]) !in directory.blocks
              && (directory.ownerOf[to], directory.ownerOf[from]) !in directory.blocks
    ensures envelope == NotBase64 ==> result == Err(InvalidEnvelope)
    ensures envelope != NotBase64 && authDevice != from ==> result == Err(ApiError.DeviceMismatch)
    ensures envelope != NotBase64 && authDevice == from && to !in directory.ownerOf ==> result == Err(ApiError.RecipientNotFound)
    ensures envelope != NotBase64 && authDevice == from && to in directory.ownerOf && from !in directory.ownerOf ==>
              result == Err(ApiError.DeviceMismatch)
    ensures result.Ok? ==> result.value == !Contains(old(table.rows), id)
    ensures table.rows == if result.Ok? then Inserted(old(table.rows), id, from, to, envelope, now) else old(table.rows)
    ensures result.Err? && envelope != NotBase64 && authDevice == from && from in directory.ownerOf && to in directory.ownerOf ==>
              result.error == if (directory.ownerOf[to], directory.ownerOf[from]) in directory.blocks
                              then RecipientBlockedYou else YouBlockedRecipient
  {
    if envelope.NotBase64? {
      return Err(InvalidEnvelope);
    }
    if authDevice != from {
      return Err(DeviceMismatch);
    }
    if to !in directory.ownerOf {
      return Err(RecipientNotFound);
    }
    if from !in directory.ownerOf {
      return Err(DeviceMismatch);
    }
    var toUser := directory.ownerOf[to];
    var blocker := BlockedBy(directory, directory.ownerOf[from], toUser);
    if blocker.Some? {
      if blocker.value == toUser {
        return Err(RecipientBlockedYou);
      }
      return Err(YouBlockedRecipient);
    }
    var affected := table.InsertMessage(id, from, to, envelope, now);
    result := Ok(affected == 1);
  }

  function Clamp(value: int, low: nat, high: nat): (r: nat)
    requires low <= high
    ensures low <= r <= high && (low <= value <= high ==> r == value)
    ensures (value < low ==> r == low) && (value > high ==> r == high)
  {
    if value < low then low else if value > high then high else value
  }

  method FetchPending(
      table: MessageTable, authDevice: DeviceId, device: DeviceId, limit: Option<int>, locked: set<nat>, now: Time)
    returns (result: Result<seq<PendingEnvelope>, ApiError>, ghost picked: seq<nat>)
    requires table.Valid()
    modifies table
    ensures table.Valid()
    ensures result.Err? <==> authDevice != device
    ensures result.Err? ==> table.rows == old(table.rows)
    ensures result.Ok? ==>
              && ValidPick(old(table.rows), locked, device, Clamp(if limit.Some? then limit.value else 100, 1, 500), picked)
              && result.value == ItemsOf(old(table.rows), picked)
              && table.rows == Delivered(old(table.rows), picked, now)
    ensures result.Ok? ==>
              var wanted := if limit == None then 100 else limit.value;
              DrainedExactly(old(table.rows), locked, device, if wanted < 1 then 1 else if wanted > 500 then 500 else wanted,
                             picked, now, result.value, table.rows)
  {
    picked := [];
    if authDevice != device {
      return Err(DeviceMismatch), [];
    }
    var items;
    items, picked := table.DrainPendingMessages(
      device, Clamp(if limit.Some? then limit.value else 100, 1, 500), locked, now);
    result := Ok(items);
  }

  method AckMessage(
      table: MessageTable, authDevice: DeviceId, device: DeviceId, ids: seq<MessageId>, now: Time)
    returns (result: Result<nat, ApiError>)
    requires table.Valid()
    modifies table
    ensures table.Valid()
    ensures result == if authDevice != device then Err(DeviceMismatch) else Ok(AckCount(old(table.rows), device, ids))
    ensures table.rows == if authDevice != device then old(table.rows) else Acked(old(table.rows), device, ids, now)
  {
    if authDevice != device {
      return Err(DeviceMismatch);
    }
    if ids == [] {
      NothingToAck(table.rows, device, now);
      return Ok(0);
    }
    var affected := table.AckMessages(device, ids, now);
    result := Ok(affected);
  }

  lemma {:induction false} NothingToAck(rows: seq<Row>, to: DeviceId, now: Time)
    ensures AckCount(rows, to, []) == 0 && Acked(rows, to, [], now) == rows
  {
    if rows != [] {
      NothingToAck(rows[..|rows| - 1], to, now);
    }
  }
}
