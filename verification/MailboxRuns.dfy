/**
 Runs of the message table under concurrent transactions: drains lock the rows they
 select until they commit or roll back, and an acknowledgement waits for those locks.
 */
module MailboxRuns {
  import opened Wrappers
  import opened PeerSessions
  import opened Mailbox

  type TxId = nat

  /** An open drain: the rows it has selected and locked. */
  datatype Drain = Drain(to: DeviceId, picked: seq<nat>)

  /** The committed rows and the open drains. */
  datatype Database = Database(rows: seq<Row>, drains: map<TxId, Drain>)

  datatype Step =
    | Insert(id: MessageId, from: DeviceId, to: DeviceId, envelope: WireEnvelope, now: Time)
    | Select(tx: TxId, device: DeviceId, limit: nat, picked: seq<nat>)
    | Commit(tx: TxId, at: Time)
    | Rollback(tx: TxId)
    | Ack(device: DeviceId, ids: seq<MessageId>, at: Time)

  ghost predicate Locks(db: Database, i: nat) {
    exists tx | tx in db.drains :: i in db.drains[tx].picked
  }

  ghost function LockedRows(db: Database): set<nat> {
    set i: nat | i < |db.rows| && Locks(db, i)
  }

  ghost predicate Next(db: Database, step: Step, after: Database) {
    match step
    case Insert(id, from, to, envelope, now) =>
      && (forall i | 0 <= i < |db.rows| :: db.rows[i].createdAt <= now)
      && after == db.(rows := Inserted(db.rows, id, from, to, envelope, now))
    case Select(tx, device, limit, picked) =>
      && tx !in db.drains
      && ValidPick(db.rows, LockedRows(db), device, limit, picked)
      && after == db.(drains := db.drains[tx := Drain(device, picked)])
    case Commit(tx, at) =>
      && tx in db.drains
      && after == Database(Delivered(db.rows, db.drains[tx].picked, at), db.drains - {tx})
    case Rollback(tx) =>
      && tx in db.drains
      && after == db.(drains := db.drains - {tx})
    case Ack(device, ids, at) =>
      && (forall i: nat | i < |db.rows| && AckHits(db.rows[i], device, ids) :: !Locks(db, i))
      && after == db.(rows := Acked(db.rows, device, ids, at))
  }

  ghost predicate IsRun(states: seq<Database>, steps: seq<Step>) {
    && |states| == |steps| + 1
    && states[0] == Database([], map[])
    && forall k | 0 <= k < |steps| :: Next(states[k], steps[k], states[k + 1])
  }

  /** Every open drain holds distinct unacknowledged rows of its device, and no two hold the same row. */
  ghost predicate DrainsOk(db: Database) {
    && (forall tx, k | tx in db.drains && 0 <= k < |db.drains[tx].picked| ::
          var i := db.drains[tx].picked[k];
          i < |db.rows| && db.rows[i].toDevice == db.drains[tx].to && db.rows[i].ackedAt.None?)
    && (forall tx, j, k | tx in db.drains && 0 <= j < k < |db.drains[tx].picked| ::
          db.drains[tx].picked[j] != db.drains[tx].picked[k])
    && (forall a, b, i: nat | a in db.drains && b in db.drains && a != b && i in db.drains[a].picked ::
          i !in db.drains[b].picked)
  }

  ghost predicate Good(db: Database) {
    TableOk(db.rows) && DrainsOk(db)
  }

  /** The rows a drain selects are locked by nobody else. */
  lemma SelectKeepsGood(db: Database, step: Step, after: Database)
    requires Good(db) && Next(db, step, after) && step.Select?
    ensures Good(after)
  {
    forall a, i: nat | a in db.drains && i in db.drains[a].picked ensures i !in step.picked {
      assert i < |db.rows|;
      assert Locks(db, i);
      assert i in LockedRows(db);
    }
  }

  /** An acknowledgement waited for every lock, so no open drain holds a row it changes. */
  lemma AckKeepsGood(db: Database, step: Step, after: Database)
    requires Good(db) && Next(db, step, after) && step.Ack?
    ensures Good(after)
  {
    forall tx, k | tx in db.drains && 0 <= k < |db.drains[tx].picked|
      ensures after.rows[db.drains[tx].picked[k]].ackedAt.None?
    {
      assert Locks(db, db.drains[tx].picked[k]);
    }
  }

  /** Rows that keep their addressee and acknowledgement time keep every drain that stays open. */
  lemma QuietRowsKeepDrains(db: Database, after: Database)
    requires DrainsOk(db) && |db.rows| <= |after.rows|
    requires forall tx | tx in after.drains :: tx in db.drains && after.drains[tx] == db.drains[tx]
    requires forall i | 0 <= i < |db.rows| ::
               after.rows[i].toDevice == db.rows[i].toDevice && after.rows[i].ackedAt == db.rows[i].ackedAt
    ensures DrainsOk(after)
  {
  }

  lemma StepKeepsGood(db: Database, step: Step, after: Database)
    requires Good(db) && Next(db, step, after)
    ensures Good(after)
  {
    match step
    case Insert(_, _, _, _, _) => QuietRowsKeepDrains(db, after);
    case Select(_, _, _, _) => SelectKeepsGood(db, step, after);
    case Commit(tx, at) =>
      DeliveredKeepsTable(db.rows, db.drains[tx].picked, at);
      QuietRowsKeepDrains(db, after);
    case Rollback(_) => QuietRowsKeepDrains(db, after);
    case Ack(_, _, _) => AckKeepsGood(db, step, after);
  }

  lemma {:induction false} RunKeepsGood(states: seq<Database>, steps: seq<Step>, k: nat)
    requires IsRun(states, steps) && k <= |steps|
    ensures Good(states[k])
  {
    if k > 0 {
      RunKeepsGood(states, steps, k - 1);
      StepKeepsGood(states[k - 1], steps[k - 1], states[k]);
    }
  }

  // ------------------------------------------------------------------
  // One row over a run

  /** What message_status reports: 0 sent, 1 delivered, 2 read. */
  function Rank(row: Row): nat {
    if row.ackedAt.Some? then 2 else if row.deliveredAt.Some? then 1 else 0
  }

  function Identity(row: Row): (PendingEnvelope, DeviceId) {
    (ItemOf(row), row.toDevice)
  }

  /** Some step in [a, b) was the addressee of row r acknowledging its message id. */
  ghost predicate AckedBetween(states: seq<Database>, steps: seq<Step>, a: nat, b: nat, r: nat)
    requires a <= b <= |steps| && |states| == |steps| + 1
  {
    exists k | a <= k < b ::
      steps[k].Ack? && r < |states[k].rows| && AckHits(states[k].rows[r], steps[k].device, steps[k].ids)
  }

  /** What one step may do to a row; it becomes read exactly when its addressee acknowledges it. */
  lemma RowAdvances(db: Database, step: Step, after: Database, r: nat)
    requires Next(db, step, after) && r < |db.rows|
    ensures r < |after.rows| && Identity(after.rows[r]) == Identity(db.rows[r])
    ensures Rank(db.rows[r]) <= Rank(after.rows[r])
    ensures db.rows[r].deliveredAt.Some? ==> after.rows[r].deliveredAt == db.rows[r].deliveredAt
    ensures db.rows[r].ackedAt.Some? ==> after.rows[r].ackedAt == db.rows[r].ackedAt
    ensures after.rows[r].ackedAt.Some? <==>
              db.rows[r].ackedAt.Some? || (step.Ack? && AckHits(db.rows[r], step.device, step.ids))
  {
  }

  /**
   Over any stretch of a run a row keeps its first insert's id, sender, addressee and envelope; its status
   never goes back; times once set stay; and it becomes read exactly when its addressee acknowledges it.
   */
  lemma {:induction false} RowsOnlyAdvance(states: seq<Database>, steps: seq<Step>, a: nat, b: nat, r: nat)
    requires IsRun(states, steps) && a <= b <= |steps| && r < |states[a].rows|
    ensures r < |states[b].rows|
    ensures Identity(states[b].rows[r]) == Identity(states[a].rows[r])
    ensures Rank(states[a].rows[r]) <= Rank(states[b].rows[r])
    ensures states[a].rows[r].deliveredAt.Some? ==> states[b].rows[r].deliveredAt == states[a].rows[r].deliveredAt
    ensures states[a].rows[r].ackedAt.Some? ==> states[b].rows[r].ackedAt == states[a].rows[r].ackedAt
    ensures states[b].rows[r].ackedAt.Some? <==> states[a].rows[r].ackedAt.Some? || AckedBetween(states, steps, a, b, r)
    decreases b - a
  {
    if a < b {
      RowsOnlyAdvance(states, steps, a, b - 1, r);
      RowAdvances(states[b - 1], steps[b - 1], states[b], r);
      assert AckedBetween(states, steps, a, b, r) <==>
             AckedBetween(states, steps, a, b - 1, r) ||
             (steps[b - 1].Ack? && AckHits(states[b - 1].rows[r], steps[b - 1].device, steps[b - 1].ids));
    }
  }

  /** Some step in [a, b) committed a drain that had picked row r. */
  ghost predicate CommittedBetween(states: seq<Database>, steps: seq<Step>, a: nat, b: nat, r: nat)
    requires a <= b <= |steps| && |states| == |steps| + 1
  {
    exists k | a <= k < b ::
      steps[k].Commit? && steps[k].tx in states[k].drains && r in states[k].drains[steps[k].tx].picked
  }

  lemma DeliveredOnlyByCommit(db: Database, step: Step, after: Database, r: nat)
    requires Next(db, step, after) && r < |db.rows|
    ensures r < |after.rows|
    ensures after.rows[r].deliveredAt != None <==>
              db.rows[r].deliveredAt != None || (step.Commit? && step.tx in db.drains && r in db.drains[step.tx].picked)
  {
  }

  /** A row enters the table undelivered and unacknowledged, holding what was sent. */
  lemma NewRowsAreUndelivered(db: Database, step: Step, after: Database, r: nat)
    requires Next(db, step, after) && |db.rows| <= r < |after.rows|
    ensures step.Insert? && r == |db.rows|
    ensures after.rows[r] == Row(step.id, step.from, step.to, step.envelope, step.now, None, None)
  {
  }

  lemma CommittedBetweenStep(states: seq<Database>, steps: seq<Step>, a: nat, b: nat, r: nat)
    requires a < b <= |steps| && |states| == |steps| + 1
    ensures CommittedBetween(states, steps, a, b, r) <==>
            CommittedBetween(states, steps, a, b - 1, r) ||
            (steps[b - 1].Commit? && steps[b - 1].tx in states[b - 1].drains
             && r in states[b - 1].drains[steps[b - 1].tx].picked)
  {
  }

  /** Over any stretch of a run a row is delivered exactly when it was before or a drain that had picked it committed. */
  lemma {:induction false} DeliveredExactlyByDrains(states: seq<Database>, steps: seq<Step>, a: nat, b: nat, r: nat)
    requires IsRun(states, steps) && a <= b <= |steps| && r < |states[a].rows|
    ensures r < |states[b].rows|
    ensures states[b].rows[r].deliveredAt != None <==>
              states[a].rows[r].deliveredAt != None || CommittedBetween(states, steps, a, b, r)
    decreases b - a
  {
    if a < b {
      DeliveredExactlyByDrains(states, steps, a, b - 1, r);
      DeliveredOnlyByCommit(states[b - 1], steps[b - 1], states[b], r);
      CommittedBetweenStep(states, steps, a, b, r);
    }
  }

  /**
   What a committed drain hands out is still unacknowledged when it commits, was addressed to the
   draining device, and is what the rows held; a message read at an earlier state is never among it.
   */
  lemma NeverReturnedAfterRead(states: seq<Database>, steps: seq<Step>, a: nat, k: nat, r: nat)
    requires IsRun(states, steps) && a <= k < |steps| && steps[k].Commit?
    requires r < |states[a].rows| && states[a].rows[r].ackedAt.Some?
    ensures steps[k].tx in states[k].drains && r !in states[k].drains[steps[k].tx].picked
  {
    RunKeepsGood(states, steps, k);
    RowsOnlyAdvance(states, steps, a, k, r);
    assert Next(states[k], steps[k], states[k + 1]);
  }

  /** Two drains open at the same time never hand out the same row, and each serves its own device. */
  lemma OpenDrainsAreDisjoint(states: seq<Database>, steps: seq<Step>, k: nat, a: TxId, b: TxId, i: nat)
    requires IsRun(states, steps) && k <= |steps|
    requires a in states[k].drains && b in states[k].drains && i in states[k].drains[a].picked
    ensures i < |states[k].rows| && states[k].rows[i].toDevice == states[k].drains[a].to
    ensures a != b ==> i !in states[k].drains[b].picked
  {
    RunKeepsGood(states, steps, k);
  }

  /** A second insert under a known id changes nothing, so the first envelope is the one delivered. */
  lemma FirstInsertWins(states: seq<Database>, steps: seq<Step>, a: nat, k: nat, r: nat)
    requires IsRun(states, steps) && a <= k < |steps| && r < |states[a].rows|
    requires steps[k].Insert? && steps[k].id == states[a].rows[r].messageId
    ensures states[k + 1] == states[k]
    ensures forall q | 0 <= q < |states[k].rows| && q != r :: states[k].rows[q].messageId != steps[k].id
  {
    RunKeepsGood(states, steps, k);
    RowsOnlyAdvance(states, steps, a, k, r);
    assert Next(states[k], steps[k], states[k + 1]);
    assert states[k].rows[r].messageId == steps[k].id;
  }
}
