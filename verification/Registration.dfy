/**
 Registration by invite (crates/server/src/domain/user.rs, repository/registration_invites.rs):
 one transaction locks the invite, creates the user and marks the invite used.
 */
module Registration {
  import opened Wrappers

  type InviteId = string
  type UserId = nat
  type TxId = nat

  datatype Invite = Invite(secretHash: string, expiresAt: int, usedBy: Option<UserId>)

  datatype RegisterError =
    | InvalidCredentials | InvalidInviteCode | InviteAlreadyUsed | NicknameExists

  datatype InviteCode = InviteCode(id: InviteId, secret: string)

  /** The password-hash check (Argon2) is a parameter. */
  type Verifier = (string, string) -> bool

  /** Why a locked invite is refused, in the order the handler checks. */
  function InviteError(verify: Verifier, invites: map<InviteId, Invite>, code: InviteCode, now: int): Option<RegisterError> {
    if code.id !in invites then Some(InvalidInviteCode)
    else
      var invite := invites[code.id];
      if invite.usedBy.Some? then Some(InviteAlreadyUsed)
      else if invite.expiresAt <= now then Some(InvalidInviteCode)
      else if !verify(code.secret, invite.secretHash) then Some(InvalidInviteCode)
      else None
  }

  class AccountTables {
    var users: map<string, UserId>
    var invites: map<InviteId, Invite>
    var nextUser: UserId

    ghost predicate Valid()
      reads this
    {
      forall name | name in users :: users[name] < nextUser
    }

    constructor ()
      ensures Valid() && users == map[] && invites == map[]
    {
      users, invites, nextUser := map[], map[], 0;
    }

    /** `code` is the parsed invite code, None when it does not parse; `nameBlank` is user_id.trim().is_empty(). */
    method Register(
        verify: Verifier, name: string, nameBlank: bool, passwordLength: nat, code: Option<InviteCode>, now: int)
      returns (result: Result<UserId, RegisterError>)
      requires Valid()
      modifies this
      ensures Valid()
      ensures result.Ok? <==>
              && !nameBlank && passwordLength >= 6 && code.Some?
              && InviteError(verify, old(invites), code.value, now).None? && name !in old(users)
      ensures result.Ok? <==>
                && !nameBlank && passwordLength >= 6 && code != None && code.value.id in old(invites)
                && var invite := old(invites)[code.value.id];
                && invite.usedBy == None && now < invite.expiresAt && verify(code.value.secret, invite.secretHash)
                && name !in old(users)
      ensures !nameBlank && passwordLength >= 6 && code != None && code.value.id in old(invites) ==>
                old(invites)[code.value.id].usedBy != None ==> result == Err(InviteAlreadyUsed)
      ensures result.Err? ==> users == old(users) && invites == old(invites)
      ensures result.Ok? ==>
                && (forall other | other in old(users) :: old(users)[other] != result.value)
                && users == old(users)[name := result.value]
                && invites == old(invites)[code.value.id := old(invites)[code.value.id].(usedBy := Some(result.value))]
      ensures nameBlank || passwordLength < 6 ==> result == Err(InvalidCredentials)
      ensures !nameBlank && passwordLength >= 6 && code.None? ==> result == Err(InvalidInviteCode)
      ensures name in old(users) && !nameBlank && passwordLength >= 6 && code.Some? ==>
                InviteError(verify, old(invites), code.value, now).None? ==> result == Err(NicknameExists)
      ensures !nameBlank && passwordLength >= 6 && code.Some? && InviteError(verify, old(invites), code.value, now).Some? ==>
                result == Err(InviteError(verify, old(invites), code.value, now).value)
    {
      if nameBlank || passwordLength < 6 {
        return Err(InvalidCredentials);
      }
      if code.None? {
        return Err(InvalidInviteCode);
      }
      var id := code.value.id;
      if id !in invites {
        return Err(InvalidInviteCode);
      }
      if invites[id].usedBy.Some? {
        return Err(InviteAlreadyUsed);
      }
      if invites[id].expiresAt <= now {
        return Err(InvalidInviteCode);
      }
      if !verify(code.value.secret, invites[id].secretHash) {
        return Err(InvalidInviteCode);
      }
      if name in users {
        return Err(NicknameExists);
      }
      var user := nextUser;
      nextUser := nextUser + 1;
      users := users[name := user];
      if invites[id].usedBy.None? {
        invites := invites[id := invites[id].(usedBy := Some(user))];
      }
      result := Ok(user);
    }
  }

  // ------------------------------------------------------------------
  // Concurrent registrations

  /** How far an open registration has come; its writes are private until it commits. */
  datatype Tx =
    | Checked(invite: InviteId, name: string)
    | Created(invite: InviteId, name: string, user: UserId)
    | Marked(invite: InviteId, name: string, user: UserId)

  /** `registered` are the users committed registrations have created. */
  datatype Database = Database(
    users: map<string, UserId>, invites: map<InviteId, Invite>, nextUser: UserId, txs: map<TxId, Tx>,
    registered: set<UserId>)

  datatype Step =
    | AddInvite(id: InviteId, secretHash: string, expiresAt: int)
    | FindInvite(tx: TxId, name: string, code: InviteCode, now: int)
    | CreateUser(tx: TxId)
    | MarkUsed(tx: TxId)
    | Commit(tx: TxId)
    | Rollback(tx: TxId)

  /** FOR UPDATE: another open registration holds this invite. */
  ghost predicate InviteHeld(db: Database, id: InviteId) {
    exists tx | tx in db.txs :: db.txs[tx].invite == id
  }

  /** Another open registration has inserted this name: the insert waits for it. */
  ghost predicate NamePending(db: Database, tx: TxId, name: string) {
    exists other | other in db.txs && other != tx :: !db.txs[other].Checked? && db.txs[other].name == name
  }

  ghost predicate Next(verify: Verifier, db: Database, step: Step, after: Database) {
    match step
    case AddInvite(id, secretHash, expiresAt) =>
      id !in db.invites && after == db.(invites := db.invites[id := Invite(secretHash, expiresAt, None)])
    case FindInvite(tx, name, code, now) =>
      && tx !in db.txs && !InviteHeld(db, code.id)
      && after == (if InviteError(verify, db.invites, code, now).Some? then db
                   else db.(txs := db.txs[tx := Checked(code.id, name)]))
    case CreateUser(tx) =>
      && tx in db.txs && db.txs[tx].Checked?
      && var name := db.txs[tx].name;
      if name in db.users then after == db.(txs := db.txs - {tx})
      else
        && !NamePending(db, tx, name)
        && after == db.(nextUser := db.nextUser + 1, txs := db.txs[tx := Created(db.txs[tx].invite, name, db.nextUser)])
    case MarkUsed(tx) =>
      && tx in db.txs && db.txs[tx].Created?
      && after == db.(txs := db.txs[tx := Marked(db.txs[tx].invite, db.txs[tx].name, db.txs[tx].user)])
    case Commit(tx) =>
      && tx in db.txs && db.txs[tx].Marked?
      && var t := db.txs[tx];
      after == db.(
        users := db.users[t.name := t.user],
        invites := if t.invite in db.invites && db.invites[t.invite].usedBy.None?
                   then db.invites[t.invite := db.invites[t.invite].(usedBy := Some(t.user))] else db.invites,
        txs := db.txs - {tx},
        registered := db.registered + {t.user})
    case Rollback(tx) => tx in db.txs && after == db.(txs := db.txs - {tx})
  }

  /** The table starts with users who did not come through an invite, and with no invite. */
  ghost predicate IsRun(verify: Verifier, states: seq<Database>, steps: seq<Step>) {
    && |states| == |steps| + 1
    && states[0].invites == map[] && states[0].txs == map[] && states[0].registered == {}
    && (forall name | name in states[0].users :: states[0].users[name] < states[0].nextUser)
    && forall k | 0 <= k < |steps| :: Next(verify, states[k], steps[k], states[k + 1])
  }

  // ------------------------------------------------------------------
  // The invariant

  ghost predicate UsedBy(db: Database, id: InviteId, user: UserId) {
    id in db.invites && db.invites[id].usedBy == Some(user)
  }

  /** Every used invite belongs to a registered user, and every registered user has exactly one. */
  ghost predicate Bijection(db: Database) {
    && (forall id, user | UsedBy(db, id, user) :: user in db.registered)
    && (forall a, b, user | UsedBy(db, a, user) && UsedBy(db, b, user) :: a == b)
    && (forall user | user in db.registered :: exists id :: UsedBy(db, id, user))
  }

  ghost predicate Owns(db: Database, name: string, user: UserId) {
    name in db.users && db.users[name] == user
  }

  ghost predicate TxsOk(db: Database) {
    && (forall tx | tx in db.txs ::
          db.txs[tx].invite in db.invites && db.invites[db.txs[tx].invite].usedBy.None?)
    && (forall a, b | a in db.txs && b in db.txs && db.txs[a].invite == db.txs[b].invite :: a == b)
    && (forall tx | tx in db.txs && !db.txs[tx].Checked? ::
          db.txs[tx].user < db.nextUser && db.txs[tx].user !in db.registered)
    && (forall tx, name | tx in db.txs && !db.txs[tx].Checked? && name in db.users :: db.users[name] != db.txs[tx].user)
    && (forall a, b | a in db.txs && b in db.txs && a != b && !db.txs[a].Checked? && !db.txs[b].Checked? ::
          db.txs[a].user != db.txs[b].user && db.txs[a].name != db.txs[b].name)
  }

  ghost predicate UsersOk(db: Database) {
    && (forall name | name in db.users :: db.users[name] < db.nextUser)
    && (forall user | user in db.registered :: user < db.nextUser)
    && (forall user | user in db.registered :: exists name :: Owns(db, name, user))
  }

  ghost predicate NewNames(db: Database) {
    forall tx | tx in db.txs && !db.txs[tx].Checked? :: db.txs[tx].name !in db.users
  }

  ghost predicate Good(db: Database) {
    Bijection(db) && TxsOk(db) && UsersOk(db) && NewNames(db)
  }

  /** Steps that leave both tables' used marks alone keep the correspondence. */
  lemma SameUsesKeepBijection(db: Database, after: Database)
    requires Bijection(db) && after.registered == db.registered
    requires forall id, user :: UsedBy(after, id, user) == UsedBy(db, id, user)
    ensures Bijection(after)
  {
    forall user | user in db.registered ensures exists id :: UsedBy(after, id, user) {
      var id :| UsedBy(db, id, user);
      assert UsedBy(after, id, user);
    }
  }

  lemma SameUsersStayOk(db: Database, after: Database)
    requires UsersOk(db) && after.registered == db.registered && after.users == db.users && db.nextUser <= after.nextUser
    ensures UsersOk(after)
  {
    forall user | user in db.registered ensures exists name :: Owns(after, name, user) {
      var name :| Owns(db, name, user);
      assert Owns(after, name, user);
    }
  }

  lemma FindInviteKeepsTxs(verify: Verifier, db: Database, step: Step, after: Database)
    requires Good(db) && Next(verify, db, step, after) && step.FindInvite?
    ensures TxsOk(after) && NewNames(after)
  {
  }

  lemma CreateUserKeepsTxs(verify: Verifier, db: Database, step: Step, after: Database)
    requires Good(db) && Next(verify, db, step, after) && step.CreateUser?
    ensures TxsOk(after) && NewNames(after)
  {
  }

  lemma QuietStepKeepsGood(verify: Verifier, db: Database, step: Step, after: Database)
    requires Good(db) && Next(verify, db, step, after) && !step.Commit?
    ensures Good(after)
  {
    SameUsesKeepBijection(db, after);
    SameUsersStayOk(db, after);
    match step
    case FindInvite(_, _, _, _) => FindInviteKeepsTxs(verify, db, step, after);
    case CreateUser(_) => CreateUserKeepsTxs(verify, db, step, after);
    case _ =>
  }

  lemma CommitKeepsBijection(verify: Verifier, db: Database, step: Step, after: Database)
    requires Good(db) && Next(verify, db, step, after) && step.Commit?
    ensures Bijection(after)
  {
    var t := db.txs[step.tx];
    assert UsedBy(after, t.invite, t.user);
    assert forall id, user | id != t.invite :: UsedBy(after, id, user) == UsedBy(db, id, user);
    forall user | user in db.registered ensures exists id :: UsedBy(after, id, user) {
      var id :| UsedBy(db, id, user);
      assert UsedBy(after, id, user);
    }
  }

  lemma CommitKeepsRest(verify: Verifier, db: Database, step: Step, after: Database)
    requires Good(db) && Next(verify, db, step, after) && step.Commit?
    ensures TxsOk(after) && UsersOk(after) && NewNames(after)
  {
    var t := db.txs[step.tx];
    assert Owns(after, t.name, t.user);
    forall user | user in db.registered ensures exists name :: Owns(after, name, user) {
      var name :| Owns(db, name, user);
      assert Owns(after, name, user);
    }
  }

  lemma {:induction false} RunKeepsGood(verify: Verifier, states: seq<Database>, steps: seq<Step>, k: nat)
    requires IsRun(verify, states, steps) && k <= |steps|
    ensures Good(states[k])
  {
    if k > 0 {
      RunKeepsGood(verify, states, steps, k - 1);
      assert Next(verify, states[k - 1], steps[k - 1], states[k]);
      if steps[k - 1].Commit? {
        CommitKeepsBijection(verify, states[k - 1], steps[k - 1], states[k]);
        CommitKeepsRest(verify, states[k - 1], steps[k - 1], states[k]);
      } else {
        QuietStepKeepsGood(verify, states[k - 1], steps[k - 1], states[k]);
      }
    }
  }

  // ------------------------------------------------------------------
  // What every run gives

  /**
   Under any interleaving, used invites and users created through registration correspond one to one:
   a used invite names one registered user that is in the table, and each registered user used one invite.
   */
  lemma InvitesMatchUsers(verify: Verifier, states: seq<Database>, steps: seq<Step>, k: nat)
    requires IsRun(verify, states, steps) && k <= |steps|
    ensures Bijection(states[k])
    ensures forall user | user in states[k].registered :: exists name :: Owns(states[k], name, user)
  {
    RunKeepsGood(verify, states, steps, k);
  }

  /** The tables change only when a registration commits, and then by exactly one new user and one invite now used. */
  lemma OnlyCommitsChangeTables(verify: Verifier, states: seq<Database>, steps: seq<Step>, k: nat)
    requires IsRun(verify, states, steps) && k < |steps| && !steps[k].AddInvite?
    ensures !steps[k].Commit? ==> states[k + 1].users == states[k].users && states[k + 1].invites == states[k].invites
    ensures steps[k].Commit? ==>
              && steps[k].tx in states[k].txs && states[k].txs[steps[k].tx].Marked?
              && var t := states[k].txs[steps[k].tx];
              && t.name !in states[k].users && states[k + 1].users == states[k].users[t.name := t.user]
              && (forall name | name in states[k].users :: states[k].users[name] != t.user)
              && t.invite in states[k].invites && states[k].invites[t.invite].usedBy.None?
              && states[k + 1].invites == states[k].invites[t.invite := states[k].invites[t.invite].(usedBy := Some(t.user))]
  {
    RunKeepsGood(verify, states, steps, k);
    assert Next(verify, states[k], steps[k], states[k + 1]);
  }

  /** A used invite stays with its user, and a user keeps its id. */
  lemma {:induction false} UseIsFinal(verify: Verifier, states: seq<Database>, steps: seq<Step>, a: nat, b: nat, id: InviteId, name: string)
    requires IsRun(verify, states, steps) && a <= b <= |steps|
    ensures id in states[a].invites && states[a].invites[id].usedBy.Some? ==>
              id in states[b].invites && states[b].invites[id] == states[a].invites[id]
    ensures name in states[a].users ==> name in states[b].users && states[b].users[name] == states[a].users[name]
    decreases b - a
  {
    if a < b {
      UseIsFinal(verify, states, steps, a, b - 1, id, name);
      if !steps[b - 1].AddInvite? {
        OnlyCommitsChangeTables(verify, states, steps, b - 1);
      }
      assert Next(verify, states[b - 1], steps[b - 1], states[b]);
    }
  }

  /** A run in which a valid invite brings in a user: the safety results are not about runs that do nothing. */
  lemma InvitesCanBeUsed(verify: Verifier, code: InviteCode, secretHash: string, name: string, now: int)
    returns (states: seq<Database>, steps: seq<Step>)
    requires verify(code.secret, secretHash)
    ensures IsRun(verify, states, steps)
    ensures var db := states[|steps|];
            db.users == map[name := 0] && db.registered == {0} && db.invites == map[code.id := Invite(secretHash, now + 1, Some(0))]
  {
    var unused, used := Invite(secretHash, now + 1, None), Invite(secretHash, now + 1, Some(0));
    steps := [AddInvite(code.id, secretHash, now + 1), FindInvite(1, name, code, now), CreateUser(1), MarkUsed(1), Commit(1)];
    states := [
      Database(map[], map[], 0, map[], {}),
      Database(map[], map[code.id := unused], 0, map[], {}),
      Database(map[], map[code.id := unused], 0, map[1 := Checked(code.id, name)], {}),
      Database(map[], map[code.id := unused], 1, map[1 := Created(code.id, name, 0)], {}),
      Database(map[], map[code.id := unused], 1, map[1 := Marked(code.id, name, 0)], {}),
      Database(map[name := 0], map[code.id := used], 1, map[], {0})];
    assert Next(verify, states[0], steps[0], states[1]);
    assert Next(verify, states[1], steps[1], states[2]);
    assert Next(verify, states[2], steps[2], states[3]);
    assert Next(verify, states[3], steps[3], states[4]);
    assert Next(verify, states[4], steps[4], states[5]);
  }
}
