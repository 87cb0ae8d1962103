/**
 Runs of prekey transactions: fetches and uploads interleave statement by statement, holding
 their row locks and uncommitted rows until they commit or roll back.
 */
module PrekeyRuns {
  import opened Wrappers
  import opened Prekeys

  type TxId = nat

  /** An open transaction: the key a fetch has consumed and locked, or the rows an upload has inserted. */
  datatype Tx = FetchTx(device: Uuid, picked: Option<KeyRef>) | UploadTx(device: Uuid, added: Keys)

  /** A committed fetch handed out this key. */
  datatype Grant = Grant(key: KeyRef, pubkey: string)

  datatype Database = Database(keys: Keys, nextId: nat, txs: map<TxId, Tx>, grants: seq<Grant>)

  datatype Step =
    | Consume(tx: TxId, device: Uuid, picked: Option<KeyRef>)
    | BeginUpload(tx: TxId, device: Uuid)
    | InsertKey(tx: TxId, keyId: int, pubkey: string)
    | Commit(tx: TxId)
    | Rollback(tx: TxId)

  ghost predicate Locks(db: Database, tx: TxId, key: KeyRef) {
    tx in db.txs && db.txs[tx].FetchTx? && db.txs[tx].picked == Some(key)
  }

  ghost function LockedKeys(db: Database): set<KeyRef> {
    set key | key in db.keys && exists tx | tx in db.txs :: Locks(db, tx, key)
  }

  /** Another open upload has inserted the same key: the insert waits for it. */
  ghost predicate InsertWaits(db: Database, tx: TxId, key: KeyRef) {
    exists other | other in db.txs && other != tx :: db.txs[other].UploadTx? && key in db.txs[other].added
  }

  function Committed(db: Database, tx: TxId): Database
    requires tx in db.txs && (db.txs[tx].FetchTx? && db.txs[tx].picked.Some? ==> db.txs[tx].picked.value in db.keys)
  {
    var closed := db.(txs := db.txs - {tx});
    match db.txs[tx]
    case UploadTx(_, added) => closed.(keys := db.keys + added)
    case FetchTx(_, picked) =>
      if picked.None? then closed
      else
        var key := picked.value;
        closed.(keys := db.keys[key := db.keys[key].(consumed := true)],
                grants := db.grants + [Grant(key, db.keys[key].pubkey)])
  }

  ghost predicate Next(db: Database, step: Step, after: Database) {
    match step
    case Consume(tx, device, picked) =>
      && tx !in db.txs
      && ValidPick(db.keys, LockedKeys(db), device, picked)
      && after == db.(txs := db.txs[tx := FetchTx(device, picked)])
    case BeginUpload(tx, device) =>
      tx !in db.txs && after == db.(txs := db.txs[tx := UploadTx(device, map[])])
    case InsertKey(tx, keyId, pubkey) =>
      && tx in db.txs && db.txs[tx].UploadTx?
      && var key := KeyRef(db.txs[tx].device, keyId);
      if key in db.keys || key in db.txs[tx].added then after == db
      else
        && !InsertWaits(db, tx, key)
        && after == db.(nextId := db.nextId + 1,
                        txs := db.txs[tx := UploadTx(key.device, db.txs[tx].added[key := Prekey(db.nextId, pubkey, false)])])
    case Commit(tx) =>
      && tx in db.txs && (db.txs[tx].FetchTx? && db.txs[tx].picked.Some? ==> db.txs[tx].picked.value in db.keys)
      && after == Committed(db, tx)
    case Rollback(tx) => tx in db.txs && after == db.(txs := db.txs - {tx})
  }

  ghost predicate IsRun(states: seq<Database>, steps: seq<Step>) {
    && |states| == |steps| + 1
    && states[0] == Database(map[], 0, map[], [])
    && forall k | 0 <= k < |steps| :: Next(states[k], steps[k], states[k + 1])
  }

  // ------------------------------------------------------------------
  // The invariant

  ghost predicate FetchesOk(db: Database) {
    && (forall tx, key | Locks(db, tx, key) :: key in db.keys && !db.keys[key].consumed && key.device == db.txs[tx].device)
    && (forall a, b, key | Locks(db, a, key) && Locks(db, b, key) :: a == b)
  }

  ghost predicate Adds(db: Database, tx: TxId, key: KeyRef) {
    tx in db.txs && db.txs[tx].UploadTx? && key in db.txs[tx].added
  }

  ghost predicate UploadsOk(db: Database) {
    && (forall tx, key | Adds(db, tx, key) :: key !in db.keys && !db.txs[tx].added[key].consumed)
    && (forall a, b, key | Adds(db, a, key) && Adds(db, b, key) :: a == b)
  }

  ghost predicate Granted(db: Database, key: KeyRef) {
    exists i | 0 <= i < |db.grants| :: db.grants[i].key == key
  }

  /** Consumed keys are exactly the granted ones, each granted once and with its stored public key. */
  ghost predicate GrantsOk(db: Database) {
    && (forall i | 0 <= i < |db.grants| ::
          db.grants[i].key in db.keys && db.keys[db.grants[i].key].pubkey == db.grants[i].pubkey)
    && (forall i, j | 0 <= i < j < |db.grants| :: db.grants[i].key != db.grants[j].key)
    && (forall key | key in db.keys :: db.keys[key].consumed <==> Granted(db, key))
  }

  ghost predicate Good(db: Database) {
    FetchesOk(db) && UploadsOk(db) && GrantsOk(db)
  }

  lemma ConsumeKeepsGood(db: Database, step: Step, after: Database)
    requires Good(db) && Next(db, step, after) && step.Consume?
    ensures Good(after)
  {
    if step.picked.Some? {
      var key := step.picked.value;
      assert key !in LockedKeys(db);
      assert forall tx | tx in db.txs :: !Locks(db, tx, key);
    }
    assert forall tx, key | tx != step.tx :: Locks(after, tx, key) == Locks(db, tx, key) && Adds(after, tx, key) == Adds(db, tx, key);
    assert forall key | key in db.keys :: Granted(after, key) == Granted(db, key);
  }

  lemma UploadStepKeepsGood(db: Database, step: Step, after: Database)
    requires Good(db) && Next(db, step, after) && (step.BeginUpload? || step.InsertKey?)
    ensures Good(after)
  {
    assert forall tx, key :: Locks(after, tx, key) ==> Locks(db, tx, key);
    assert forall tx, key | tx != step.tx :: Adds(after, tx, key) ==> Adds(db, tx, key);
    assert forall key | key in db.keys :: Granted(after, key) == Granted(db, key);
    if step.InsertKey? {
      var key := KeyRef(db.txs[step.tx].device, step.keyId);
      if key !in db.keys && key !in db.txs[step.tx].added {
        assert forall tx | tx in db.txs && tx != step.tx :: !Adds(db, tx, key);
        assert forall other | other != key :: Adds(after, step.tx, other) ==> Adds(db, step.tx, other);
      }
    }
  }

  lemma CloseKeepsOthers(db: Database, after: Database, tx: TxId)
    requires after.txs == db.txs - {tx}
    ensures forall other, key :: Locks(after, other, key) ==> other != tx && Locks(db, other, key)
    ensures forall other, key :: Adds(after, other, key) ==> other != tx && Adds(db, other, key)
  {
  }

  lemma CommitFetchKeepsGood(db: Database, step: Step, after: Database)
    requires Good(db) && Next(db, step, after) && step.Commit? && db.txs[step.tx].FetchTx?
    ensures Good(after)
  {
    CloseKeepsOthers(db, after, step.tx);
    var picked := db.txs[step.tx].picked;
    if picked.None? {
      assert forall key | key in db.keys :: Granted(after, key) == Granted(db, key);
    } else {
      var granted := picked.value;
      assert Locks(db, step.tx, granted);
      assert !Granted(db, granted);
      forall key | key in after.keys ensures after.keys[key].consumed <==> Granted(after, key) {
        if Granted(db, key) {
          var i :| 0 <= i < |db.grants| && db.grants[i].key == key;
          assert after.grants[i].key == key;
        }
        if key == granted {
          assert after.grants[|db.grants|].key == key;
        }
      }
    }
  }

  lemma CommitUploadKeepsGood(db: Database, step: Step, after: Database)
    requires Good(db) && Next(db, step, after) && step.Commit? && db.txs[step.tx].UploadTx?
    ensures Good(after)
  {
    CloseKeepsOthers(db, after, step.tx);
    assert forall key | key in db.txs[step.tx].added :: Adds(db, step.tx, key);
    assert forall key :: Granted(after, key) == Granted(db, key);
    assert forall key | Granted(db, key) :: key in db.keys;
  }

  lemma RollbackKeepsGood(db: Database, step: Step, after: Database)
    requires Good(db) && Next(db, step, after) && step.Rollback?
    ensures Good(after)
  {
    CloseKeepsOthers(db, after, step.tx);
    assert forall key :: Granted(after, key) == Granted(db, key);
  }

  lemma {:induction false} RunKeepsGood(states: seq<Database>, steps: seq<Step>, k: nat)
    requires IsRun(states, steps) && k <= |steps|
    ensures Good(states[k])
  {
    if k > 0 {
      RunKeepsGood(states, steps, k - 1);
      var db, step, after := states[k - 1], steps[k - 1], states[k];
      match step
      case Consume(_, _, _) => ConsumeKeepsGood(db, step, after);
      case BeginUpload(_, _) => UploadStepKeepsGood(db, step, after);
      case InsertKey(_, _, _) => UploadStepKeepsGood(db, step, after);
      case Commit(tx) =>
        if db.txs[tx].FetchTx? {
          CommitFetchKeepsGood(db, step, after);
        } else {
          CommitUploadKeepsGood(db, step, after);
        }
      case Rollback(_) => RollbackKeepsGood(db, step, after);
    }
  }

  // ------------------------------------------------------------------
  // What every run gives

  /** No two committed fetches hand out the same key; what is consumed is exactly what was handed out. */
  lemma NoKeyIsGrantedTwice(states: seq<Database>, steps: seq<Step>, k: nat, i: nat, j: nat, key: KeyRef)
    requires IsRun(states, steps) && k <= |steps|
    ensures i < j < |states[k].grants| ==> states[k].grants[i].key != states[k].grants[j].key
    ensures key in states[k].keys ==> (states[k].keys[key].consumed <==> Granted(states[k], key))
  {
    RunKeepsGood(states, steps, k);
  }

  /** Two fetches open at the same time never hold the same key, and a held key is not yet consumed. */
  lemma OpenFetchesHoldDistinctKeys(states: seq<Database>, steps: seq<Step>, k: nat, a: TxId, b: TxId, key: KeyRef)
    requires IsRun(states, steps) && k <= |steps| && Locks(states[k], a, key)
    ensures key in states[k].keys && !states[k].keys[key].consumed
    ensures Locks(states[k], b, key) ==> a == b
  {
    RunKeepsGood(states, steps, k);
  }

  /** Rolling back a fetch makes its key available again to any other fetch. */
  lemma RollbackFreesTheKey(states: seq<Database>, steps: seq<Step>, k: nat, key: KeyRef)
    requires IsRun(states, steps) && k < |steps| && steps[k].Rollback? && Locks(states[k], steps[k].tx, key)
    ensures Available(states[k + 1].keys, LockedKeys(states[k + 1]), key.device, key)
  {
    RunKeepsGood(states, steps, k);
    assert Next(states[k], steps[k], states[k + 1]);
    CloseKeepsOthers(states[k], states[k + 1], steps[k].tx);
  }

  /** A stored key keeps its row and public key for ever, and once consumed it stays consumed, whatever is uploaded. */
  lemma {:induction false} KeysAreNeverRevived(states: seq<Database>, steps: seq<Step>, a: nat, b: nat, key: KeyRef)
    requires IsRun(states, steps) && a <= b <= |steps| && key in states[a].keys
    ensures key in states[b].keys
    ensures states[b].keys[key] == states[a].keys[key].(consumed := states[b].keys[key].consumed)
    ensures states[a].keys[key].consumed ==> states[b].keys[key].consumed
    decreases b - a
  {
    if a < b {
      KeysAreNeverRevived(states, steps, a, b - 1, key);
      RunKeepsGood(states, steps, b - 1);
      var db, step := states[b - 1], steps[b - 1];
      assert Next(db, step, states[b]);
      if step.Commit? && db.txs[step.tx].UploadTx? && key in db.txs[step.tx].added {
        assert Adds(db, step.tx, key);
        assert false;
      }
    }
  }

  /** A committed upload stores exactly its keys, unconsumed and with the rows it inserted, and grants nothing. */
  lemma CommittedUploadIsStored(db: Database, step: Step, after: Database, added: Keys)
    requires Good(db) && Next(db, step, after) && step.Commit? && db.txs[step.tx] == UploadTx(db.txs[step.tx].device, added)
    ensures forall key :: key in after.keys <==> key in db.keys || key in added
    ensures forall key | key in db.keys :: after.keys[key] == db.keys[key]
    ensures forall key | key in added :: after.keys[key] == added[key] && !added[key].consumed
    ensures after.grants == db.grants && step.tx !in after.txs
  {
    forall key | key in added ensures key !in db.keys && !added[key].consumed {
      assert Adds(db, step.tx, key);
    }
  }

  /** A committed fetch grants the key it picked with its stored public key and consumes it, and touches no other key. */
  lemma CommittedFetchIsGranted(db: Database, step: Step, after: Database, key: KeyRef)
    requires Next(db, step, after) && step.Commit? && db.txs[step.tx].FetchTx? && db.txs[step.tx].picked == Some(key)
    ensures key in db.keys && after.grants == db.grants + [Grant(key, db.keys[key].pubkey)]
    ensures after.keys.Keys == db.keys.Keys && after.keys[key].consumed && after.keys[key].pubkey == db.keys[key].pubkey
    ensures forall other | other in db.keys && other != key :: after.keys[other] == db.keys[other]
    ensures step.tx !in after.txs
  {
  }

  /** A run in which a key is uploaded, fetched and granted: the safety results are not about runs that do nothing. */
  lemma KeysCanBeGranted(device: Uuid, keyId: int, pubkey: string)
    returns (states: seq<Database>, steps: seq<Step>)
    ensures IsRun(states, steps)
    ensures states[|steps|].grants == [Grant(KeyRef(device, keyId), pubkey)] && states[|steps|].txs == map[]
  {
    var key := KeyRef(device, keyId);
    var free, used := Prekey(0, pubkey, false), Prekey(0, pubkey, true);
    steps := [BeginUpload(1, device), InsertKey(1, keyId, pubkey), Commit(1), Consume(2, device, Some(key)), Commit(2)];
    states := [
      Database(map[], 0, map[], []),
      Database(map[], 0, map[1 := UploadTx(device, map[])], []),
      Database(map[], 1, map[1 := UploadTx(device, map[key := free])], []),
      Database(map[key := free], 1, map[], []),
      Database(map[key := free], 1, map[2 := FetchTx(device, Some(key))], []),
      Database(map[key := used], 1, map[], [Grant(key, pubkey)])];
    assert Next(states[0], steps[0], states[1]);
    assert Next(states[1], steps[1], states[2]);
    assert map[] + map[key := free] == map[key := free];
    assert Next(states[2], steps[2], states[3]);
    assert ValidPick(map[key := free], LockedKeys(states[3]), device, Some(key));
    assert Next(states[3], steps[3], states[4]);
    assert Next(states[4], steps[4], states[5]);
  }
}
