/**
 The two tables behind authentication, `users.token_version` and
 `refresh_tokens`, and the transactions that change them.
 */
module AuthTables {
  import opened FiniteSets
  import opened Options

  /** A refresh-token row, stored under its (UNIQUE) token hash. */
  datatype Record = Record(user: nat, expiresAt: int)

  type Rows = map<nat, Record>

  /** user id -> token_version */
  type Versions = map<nat, int>

  datatype Db = Db(versions: Versions, rows: Rows)

  function WithoutUser(rows: Rows, user: nat): Rows {
    map h | h in rows && rows[h].user != user :: rows[h]
  }

  function WithoutHash(rows: Rows, hash: nat): Rows {
    map h | h in rows && h != hash :: rows[h]
  }

  function Unexpired(rows: Rows, now: int): Rows {
    map h | h in rows && rows[h].expiresAt > now :: rows[h]
  }

  function Bumped(versions: Versions, user: nat): Versions {
    if user in versions then versions[user := versions[user] + 1] else versions
  }

  /** The refresh rotation: None when the token is unknown, expired or ownerless. */
  function Rotated(db: Db, oldHash: nat, newHash: nat, newExpiresAt: int, now: int): (Db, Option<nat>) {
    if oldHash in db.rows && db.rows[oldHash].expiresAt > now && db.rows[oldHash].user in db.versions then
      var user := db.rows[oldHash].user;
      (db.(rows := WithoutHash(db.rows, oldHash)[newHash := Record(user, newExpiresAt)]), Some(user))
    else
      (db, None)
  }

  /** A remembered login replaces whatever refresh rows the user had. */
  function Remembered(db: Db, user: nat, hash: nat, expiresAt: int): Db {
    db.(rows := WithoutUser(db.rows, user)[hash := Record(user, expiresAt)])
  }

  /** Version bump and refresh revocation in one transaction. */
  function Revoked(db: Db, user: nat): Db {
    Db(Bumped(db.versions, user), WithoutUser(db.rows, user))
  }

  /** From `before` to `after` exactly the rows under the hashes in `gone` and `added` differ: those are gone, these are new. */
  ghost predicate Changed(before: Rows, after: Rows, gone: iset<nat>, added: Rows) {
    forall h: nat ::
      && (h in after <==> h in added || (h in before && h !in gone))
      && (h in after ==> after[h] == if h in added then added[h] else before[h])
  }

  /** The hashes of a user's rows. */
  ghost function HashesOf(rows: Rows, user: nat): iset<nat> {
    iset h | h in rows && rows[h].user == user
  }

  /** The service object: its methods are the bodies of the transactions. */
  class AuthService {
    var versions: Versions
    var rows: Rows

    constructor ()
      ensures Value() == Db(map[], map[])
    {
      versions, rows := map[], map[];
    }

    ghost function Value(): Db
      reads this
    {
      Db(versions, rows)
    }

    method DeleteAllRefreshTokens(user: nat)
      modifies this`rows
      ensures rows == WithoutUser(old(rows), user)
      ensures Changed(old(rows), rows, HashesOf(old(rows), user), map[])
    {
      rows := map h | h in rows && rows[h].user != user :: rows[h];
    }

    method DeleteRefreshToken(hash: nat)
      modifies this`rows
      ensures rows == WithoutHash(old(rows), hash)
      ensures Changed(old(rows), rows, iset{hash}, map[])
    {
      rows := map h | h in rows && h != hash :: rows[h];
    }

    /** INSERT under UNIQUE(token_hash). */
    method StoreRefreshToken(user: nat, hash: nat, expiresAt: int) returns (stored: bool)
      modifies this`rows
      ensures stored == (hash !in old(rows))
      ensures rows == if stored then old(rows)[hash := Record(user, expiresAt)] else old(rows)
    {
      stored := hash !in rows;
      if stored { rows := rows[hash := Record(user, expiresAt)]; }
    }

    method IncrementTokenVersion(user: nat)
      modifies this`versions
      ensures versions == Bumped(old(versions), user)
      ensures versions == if user in old(versions) then old(versions)[user := old(versions)[user] + 1] else old(versions)
    {
      if user in versions { versions := versions[user := versions[user] + 1]; }
    }

    /** The part of `login` after the password check, which yields the version to sign. */
    method Login(user: nat, remember: bool, hash: nat, expiresAt: int) returns (version: Option<int>)
      modifies this
      ensures user !in old(versions) ==> version.None? && Value() == old(Value())
      ensures user in old(versions) && !remember ==>
                version == Some(old(versions)[user]) && Value() == old(Value())
      ensures user in old(versions) && remember && hash !in WithoutUser(old(rows), user) ==>
                version == Some(old(versions)[user]) && Value() == Remembered(old(Value()), user, hash, expiresAt)
      ensures user in old(versions) && remember && hash in WithoutUser(old(rows), user) ==>
                version.None? && Value() == old(Value())
      // a remembered login leaves one row of the user, with its own expiry, and every other user's rows
      ensures version.Some? && remember ==>
                Changed(old(rows), rows, HashesOf(old(rows), user), map[hash := Record(user, expiresAt)])
      ensures versions == old(versions)
      ensures user in old(versions) && (remember ==> hash !in old(rows)) ==> version == Some(old(versions)[user])
    {
      if user !in versions { return None; }
      if remember {
        var before := rows;
        DeleteAllRefreshTokens(user);
        var stored := StoreRefreshToken(user, hash, expiresAt);
        if !stored {
          rows := before; // rollback
          return None;
        }
      }
      version := Some(versions[user]);
    }

    method RotateRefreshToken(oldHash: nat, newHash: nat, newExpiresAt: int, now: int)
      returns (signed: Option<(nat, int)>)
      modifies this
      ensures newHash !in WithoutHash(old(rows), oldHash) ==>
                var (db, user) := Rotated(old(Value()), oldHash, newHash, newExpiresAt, now);
                && Value() == db
                && signed == (if user.Some? then Some((user.value, old(versions)[user.value])) else None)
      ensures newHash in WithoutHash(old(rows), oldHash) ==> signed.None? && Value() == old(Value())
      // it succeeds exactly for an unexpired row whose user exists, and then the new row replaces the old one
      ensures signed.Some? <==>
                && oldHash in old(rows) && now < old(rows)[oldHash].expiresAt && old(rows)[oldHash].user in old(versions)
                && (newHash in old(rows) ==> newHash == oldHash)
      ensures signed.Some? ==>
                var user := old(rows)[oldHash].user;
                && signed.value == (user, old(versions)[user])
                && Changed(old(rows), rows, iset{oldHash}, map[newHash := Record(user, newExpiresAt)])
      ensures versions == old(versions) && (signed.None? ==> rows == old(rows))
    {
      if oldHash !in rows || rows[oldHash].expiresAt <= now { return None; }
      var user := rows[oldHash].user;
      if user !in versions { return None; }
      var before := rows;
      DeleteRefreshToken(oldHash);
      var stored := StoreRefreshToken(user, newHash, newExpiresAt);
      if !stored {
        rows := before; // rollback
        return None;
      }
      signed := Some((user, versions[user]));
    }

    method RevokeAllSessions(user: nat)
      modifies this
      ensures Value() == Revoked(old(Value()), user)
      ensures Changed(old(rows), rows, HashesOf(old(rows), user), map[])
      ensures user in old(versions) ==> versions == old(versions)[user := old(versions)[user] + 1]
      ensures user !in old(versions) ==> versions == old(versions)
    {
      DeleteAllRefreshTokens(user);
      IncrementTokenVersion(user);
    }

    /** `change_password` and the last transaction of `reset_password`, once the caller is authorised. */
    method ReplacePassword(user: nat) returns (version: Option<int>)
      modifies this
      ensures user in old(versions) ==>
                version == Some(old(versions)[user] + 1) && Value() == Revoked(old(Value()), user)
      ensures user !in old(versions) ==> version.None? && Value() == old(Value())
      ensures user in old(versions) ==>
                && Changed(old(rows), rows, HashesOf(old(rows), user), map[])
                && versions == old(versions)[user := old(versions)[user] + 1]
    {
      if user !in versions { return None; }
      IncrementTokenVersion(user);
      DeleteAllRefreshTokens(user);
      version := Some(versions[user]);
    }

    method CleanupExpiredRefreshTokens(now: int) returns (deleted: nat)
      modifies this`rows
      ensures rows == Unexpired(old(rows), now)
      ensures Changed(old(rows), rows, iset h | h in old(rows) && old(rows)[h].expiresAt <= now, map[])
      ensures deleted + |rows| == |old(rows)|
    {
      var kept := map h | h in rows && !(rows[h].expiresAt <= now) :: rows[h];
      assert kept.Keys <= rows.Keys;
      SubsetIsNoLarger(kept.Keys, rows.Keys);
      deleted := |rows| - |kept|;
      rows := kept;
    }
  }
}

/** Whole runs of logins, refreshes and revocations over many users. */
module Sessions {
  import opened Options
  import opened AuthTables

  /** A signed token, tagged with the session (login, reset, ...) it descends from. */
  datatype Jwt = Jwt(user: nat, version: int, session: nat)

  /**
   The tables plus history: every JWT ever signed, the session each refresh hash
   descends from, how many sessions were opened, which of them asked to be
   remembered, which hashes were exchanged, and which user ids were ever used.
   */
  datatype World = World(
    db: Db,
    jwts: set<Jwt>,
    lineage: map<nat, nat>,
    sessionCount: nat,
    remembered: set<nat>,
    exchanged: seq<nat>,
    everUsers: set<nat>)

  /** Each service call is one step.  `ok` is the outcome of the password or code check. */
  datatype Call =
    | CreateUser(user: nat)
    | Login(user: nat, ok: bool, remember: bool, hash: nat, expiresAt: int)
    | WechatLogin(user: nat)
    | Refresh(oldHash: nat, newHash: nat, expiresAt: int, now: int)
    | RevokeAll(user: nat)
    | ChangePassword(user: nat, ok: bool)
    | ResetPassword(user: nat, ok: bool)
    | ChangeRole(user: nat)
    | Logout(hash: nat)
    | Cleanup(now: int)
    | DeleteUser(user: nat)

  /** Random tokens and generated user ids are never repeated. */
  predicate Fresh(w: World, c: Call) {
    && (c.Login? ==> c.hash !in w.lineage)
    && (c.Refresh? ==> c.newHash !in w.lineage)
    && (c.CreateUser? ==> c.user !in w.everUsers)
  }

  function Open(w: World, db: Db, user: nat): World
    requires user in db.versions
  {
    w.(db := db, jwts := w.jwts + {Jwt(user, db.versions[user], w.sessionCount)}, sessionCount := w.sessionCount + 1)
  }

  function Step(w: World, c: Call): World {
    var db := w.db;
    match c
    case CreateUser(user) =>
      w.(db := db.(versions := db.versions[user := 1]), everUsers := w.everUsers + {user})
    case Login(user, ok, remember, hash, expiresAt) =>
      if !ok || user !in db.versions then w
      else if !remember then Open(w, db, user)
      else
        Open(w, Remembered(db, user, hash, expiresAt), user)
          .(lineage := w.lineage[hash := w.sessionCount], remembered := w.remembered + {w.sessionCount})
    case WechatLogin(user) =>
      if user in db.versions then Open(w, db, user) else w
    case Refresh(oldHash, newHash, expiresAt, now) =>
      var (db', user) := Rotated(db, oldHash, newHash, expiresAt, now);
      if user.None? || oldHash !in w.lineage then w
      else
        w.(db := db',
           jwts := w.jwts + {Jwt(user.value, db.versions[user.value], w.lineage[oldHash])},
           lineage := w.lineage[newHash := w.lineage[oldHash]],
           exchanged := w.exchanged + [oldHash])
    case RevokeAll(user) => w.(db := Revoked(db, user))
    case ChangePassword(user, ok) => Replace(w, user, ok)
    case ResetPassword(user, ok) => Replace(w, user, ok)
    case ChangeRole(user) => w.(db := db.(versions := Bumped(db.versions, user)))
    case Logout(hash) => w.(db := db.(rows := WithoutHash(db.rows, hash)))
    case Cleanup(now) => w.(db := db.(rows := Unexpired(db.rows, now)))
    case DeleteUser(user) =>
      w.(db := Db(map u | u in db.versions && u != user :: db.versions[u], WithoutUser(db.rows, user)))
  }

  /** Password replacement signs a JWT at the new version, which opens a new session. */
  function Replace(w: World, user: nat, ok: bool): World {
    if ok && user in w.db.versions then Open(w, Revoked(w.db, user), user) else w
  }

  function Run(w: World, calls: seq<Call>): World
    decreases |calls|
  {
    if calls == [] then w else Run(Step(w, calls[0]), calls[1..])
  }

  ghost predicate AllFresh(w: World, calls: seq<Call>)
    decreases |calls|
  {
    calls == [] || (Fresh(w, calls[0]) && AllFresh(Step(w, calls[0]), calls[1..]))
  }

  const EMPTY := World(Db(map[], map[]), {}, map[], 0, {}, [], {})

  // --------------------------------------------------------------- invariants

  ghost predicate OneRowPerUser(rows: Rows) {
    forall h, k :: h in rows && k in rows && rows[h].user == rows[k].user ==> h == k
  }

  ghost predicate RowsKnown(w: World) {
    forall h :: h in w.db.rows ==>
      h in w.lineage && w.db.rows[h].user in w.db.versions && w.lineage[h] in w.remembered
  }

  ghost predicate SessionsKnown(w: World) {
    && (forall h :: h in w.lineage ==> w.lineage[h] < w.sessionCount)
    && (forall j :: j in w.jwts ==> j.session < w.sessionCount && j.user in w.everUsers)
    && (forall j :: j in w.jwts && j.user in w.db.versions ==> j.version <= w.db.versions[j.user])
    && (forall u :: u in w.db.versions ==> u in w.everUsers)
  }

  ghost predicate ExchangedOnce(w: World) {
    && (forall i, j :: 0 <= i < j < |w.exchanged| ==> w.exchanged[i] != w.exchanged[j])
    && (forall h :: h in w.exchanged ==> h in w.lineage && h !in w.db.rows)
  }

  ghost predicate Inv(w: World) {
    OneRowPerUser(w.db.rows) && RowsKnown(w) && SessionsKnown(w) && ExchangedOnce(w)
  }

  /**
   No usable credential of `user` descends from a session opened before `cut`: no
   JWT at the user's current version and no refresh row.
   */
  ghost predicate NothingOlder(w: World, user: nat, cut: nat) {
    && (forall j :: j in w.jwts && j.user == user && user in w.db.versions && j.version == w.db.versions[user] ==>
          j.session >= cut)
    && (forall h :: h in w.db.rows && h in w.lineage && w.db.rows[h].user == user ==> w.lineage[h] >= cut)
  }

  /** The calls that end every session of a user. */
  predicate EndsSessions(w: World, c: Call, user: nat) {
    || (c.RevokeAll? && c.user == user)
    || (c.ChangePassword? && c.user == user && c.ok && user in w.db.versions)
    || (c.ResetPassword? && c.user == user && c.ok && user in w.db.versions)
  }
}

module SessionTheorems {
  import opened AuthTables
  import opened Sessions

  lemma StepKeepsRows(w: World, c: Call)
    requires OneRowPerUser(w.db.rows) && RowsKnown(w) && Fresh(w, c)
    ensures OneRowPerUser(Step(w, c).db.rows) && RowsKnown(Step(w, c))
  {
  }

  lemma StepKeepsSessions(w: World, c: Call)
    requires SessionsKnown(w) && RowsKnown(w) && Fresh(w, c)
    ensures SessionsKnown(Step(w, c))
  {
  }

  lemma StepKeepsExchanged(w: World, c: Call)
    requires ExchangedOnce(w) && RowsKnown(w) && Fresh(w, c)
    ensures ExchangedOnce(Step(w, c))
  {
  }

  lemma {:induction false} RunKeepsInv(w: World, calls: seq<Call>)
    requires Inv(w) && AllFresh(w, calls)
    ensures Inv(Run(w, calls))
    decreases |calls|
  {
    if calls != [] {
      StepKeepsRows(w, calls[0]);
      StepKeepsSessions(w, calls[0]);
      StepKeepsExchanged(w, calls[0]);
      hide Step;
      RunKeepsInv(Step(w, calls[0]), calls[1..]);
    }
  }

  lemma StepKeepsNothingOlder(w: World, c: Call, user: nat, cut: nat)
    requires Inv(w) && Fresh(w, c)
    requires user in w.everUsers && cut <= w.sessionCount && NothingOlder(w, user, cut)
    ensures var w' := Step(w, c);
            user in w'.everUsers && cut <= w'.sessionCount && NothingOlder(w', user, cut)
  {
  }

  lemma {:induction false} RunKeepsNothingOlder(w: World, calls: seq<Call>, user: nat, cut: nat)
    requires Inv(w) && AllFresh(w, calls)
    requires user in w.everUsers && cut <= w.sessionCount && NothingOlder(w, user, cut)
    ensures NothingOlder(Run(w, calls), user, cut)
    decreases |calls|
  {
    if calls != [] {
      var w' := Step(w, calls[0]);
      StepKeepsNothingOlder(w, calls[0], user, cut);
      StepKeepsRows(w, calls[0]);
      StepKeepsSessions(w, calls[0]);
      StepKeepsExchanged(w, calls[0]);
      hide Step;
      hide NothingOlder;
      RunKeepsNothingOlder(w', calls[1..], user, cut);
    }
  }

  /**
   Revocation is final.  After a password change, a password reset or a
   revocation, and after any further calls, neither a JWT at the user's current
   version nor a refresh row descends from a session opened before it.
   */
  lemma RevocationIsFinal(before: seq<Call>, c: Call, later: seq<Call>, user: nat)
    requires AllFresh(EMPTY, before + [c] + later)
    requires var w := Run(EMPTY, before); user in w.everUsers && EndsSessions(w, c, user)
    ensures var w := Run(EMPTY, before);
            NothingOlder(Run(EMPTY, before + [c] + later), user, w.sessionCount)
  {
    var w := Run(EMPTY, before);
    assert before + [c] + later == before + ([c] + later);
    FreshInTwoParts(EMPTY, before, [c] + later);
    assert ([c] + later)[1..] == later;
    RunKeepsInv(EMPTY, before);
    RevocationCutsOff(w, c, user);
    StepKeepsRows(w, c);
    StepKeepsSessions(w, c);
    StepKeepsExchanged(w, c);
    RunKeepsNothingOlder(Step(w, c), later, user, w.sessionCount);
  }

  lemma RevocationCutsOff(w: World, c: Call, user: nat)
    requires Inv(w) && user in w.everUsers && EndsSessions(w, c, user)
    ensures NothingOlder(Step(w, c), user, w.sessionCount)
    ensures user in Step(w, c).everUsers && Step(w, c).sessionCount >= w.sessionCount
  {
  }

  lemma {:induction false} FreshInTwoParts(w: World, first: seq<Call>, second: seq<Call>)
    requires AllFresh(w, first + second)
    ensures AllFresh(w, first) && AllFresh(Run(w, first), second)
    ensures Run(w, first + second) == Run(Run(w, first), second)
    decreases |first|
  {
    if first == [] {
      assert first + second == second;
    } else {
      assert (first + second)[1..] == first[1..] + second;
      FreshInTwoParts(Step(w, first[0]), first[1..], second);
    }
  }

  /** A refresh token is exchanged successfully at most once in any run, and never while it is still stored. */
  lemma EachRefreshTokenExchangedOnce(calls: seq<Call>)
    requires AllFresh(EMPTY, calls)
    ensures ExchangedOnce(Run(EMPTY, calls))
  {
    RunKeepsInv(EMPTY, calls);
  }

  /** A user never has two refresh rows, and a row exists only for a session that asked to be remembered. */
  lemma AtMostOneRememberedRow(calls: seq<Call>)
    requires AllFresh(EMPTY, calls)
    ensures var w := Run(EMPTY, calls);
            && OneRowPerUser(w.db.rows)
            && forall h :: h in w.db.rows ==> h in w.lineage && w.lineage[h] in w.remembered
  {
    RunKeepsInv(EMPTY, calls);
  }

  // ------------------------------------------- what lasts, and what ends it

  /** The call ends the refresh row `h`. */
  predicate EndsRow(w: World, c: Call, h: nat) {
    h in w.db.rows
    && var row := w.db.rows[h];
    match c
    case Login(user, ok, remember, _, _) => user == row.user && ok && remember && user in w.db.versions
    case Refresh(oldHash, _, _, now) => oldHash == h && now < row.expiresAt && row.user in w.db.versions && h in w.lineage
    case RevokeAll(user) => user == row.user
    case ChangePassword(user, ok) => user == row.user && ok && user in w.db.versions
    case ResetPassword(user, ok) => user == row.user && ok && user in w.db.versions
    case Logout(hash) => hash == h
    case Cleanup(now) => row.expiresAt <= now
    case DeleteUser(user) => user == row.user
    case _ => false
  }

  /** The call brings in the row `h`: a remembered login, or an exchange of an unexpired row. */
  predicate BringsRow(w: World, c: Call, h: nat, row: Record) {
    match c
    case Login(user, ok, remember, hash, expiresAt) =>
      ok && remember && user in w.db.versions && h == hash && row == Record(user, expiresAt)
    case Refresh(oldHash, newHash, expiresAt, now) =>
      && oldHash in w.db.rows && now < w.db.rows[oldHash].expiresAt && w.db.rows[oldHash].user in w.db.versions
      && oldHash in w.lineage && h == newHash && row == Record(w.db.rows[oldHash].user, expiresAt)
    case _ => false
  }

  /** A stored row stays as it is until one of these calls ends it. */
  lemma RowStaysUnlessEnded(w: World, c: Call, h: nat)
    requires Inv(w) && Fresh(w, c) && h in w.db.rows
    ensures var rows := Step(w, c).db.rows;
            (h in rows <==> !EndsRow(w, c, h)) && (h in rows ==> rows[h] == w.db.rows[h])
    ensures h in w.lineage && h in Step(w, c).lineage && Step(w, c).lineage[h] == w.lineage[h]
  {
  }

  /** And a new row is there exactly after one of these. */
  lemma RowComesWithItsCall(w: World, c: Call, h: nat, row: Record)
    requires Inv(w) && Fresh(w, c) && h !in w.db.rows
    ensures h in Step(w, c).db.rows && Step(w, c).db.rows[h] == row <==> BringsRow(w, c, h, row)
  {
  }

  /** What a call does to a version: bumps it, creates it at 1, removes it, or leaves it. */
  lemma VersionMovesExactly(w: World, c: Call, user: nat)
    ensures var before, after := w.db.versions, Step(w, c).db.versions;
            && (user in after <==> (user in before && c != DeleteUser(user)) || c == CreateUser(user))
            && (c == CreateUser(user) ==> after[user] == 1)
            && (user in before && user in after && c != CreateUser(user) ==>
                  after[user] == before[user]
                    + if c == RevokeAll(user) || c == ChangePassword(user, true) || c == ResetPassword(user, true)
                         || c == ChangeRole(user) then 1 else 0)
  {
  }

  /** The call signs a token at the version then current: for a new session, or for the one an exchanged row descends from. */
  predicate Signs(w: World, c: Call, j: Jwt) {
    && j.user in w.db.versions
    && var current := w.db.versions[j.user];
       match c
       case Login(user, ok, _, _, _) => ok && j == Jwt(user, current, w.sessionCount)
       case WechatLogin(user) => j == Jwt(user, current, w.sessionCount)
       case Refresh(oldHash, _, _, now) =>
         && oldHash in w.db.rows && oldHash in w.lineage && now < w.db.rows[oldHash].expiresAt
         && j == Jwt(w.db.rows[oldHash].user, current, w.lineage[oldHash])
       case ChangePassword(user, ok) => ok && j == Jwt(user, current + 1, w.sessionCount)
       case ResetPassword(user, ok) => ok && j == Jwt(user, current + 1, w.sessionCount)
       case _ => false
  }

  /** Exactly these tokens are added, and none is forgotten. */
  lemma SignsExactly(w: World, c: Call, j: Jwt)
    ensures j in Step(w, c).jwts <==> j in w.jwts || Signs(w, c, j)
  {
  }

  /** What a call leaves in the history: an exchange, a remembered session, a session number, a user id. */
  lemma HistoryIsKept(w: World, c: Call)
    requires Inv(w) && Fresh(w, c)
    ensures var w' := Step(w, c);
            var exchanges := c.Refresh? && c.oldHash in w.db.rows && c.now < w.db.rows[c.oldHash].expiresAt;
            var opens := match c
                         case Login(user, ok, _, _, _) => ok && user in w.db.versions
                         case WechatLogin(user) => user in w.db.versions
                         case ChangePassword(user, ok) => ok && user in w.db.versions
                         case ResetPassword(user, ok) => ok && user in w.db.versions
                         case _ => false;
            && w'.exchanged == (if exchanges then w.exchanged + [c.oldHash] else w.exchanged)
            && w'.sessionCount == (if opens then w.sessionCount + 1 else w.sessionCount)
            && w'.remembered == (if opens && c.Login? && c.remember then w.remembered + {w.sessionCount} else w.remembered)
            && w'.everUsers == (if c.CreateUser? then w.everUsers + {c.user} else w.everUsers)
  {
  }

  /** None of the calls ends the row `h`. */
  predicate SparesRow(w: World, calls: seq<Call>, h: nat)
    decreases |calls|
  {
    calls == [] || (!EndsRow(w, calls[0], h) && SparesRow(Step(w, calls[0]), calls[1..], h))
  }

  lemma {:induction false} SparedRowStays(w: World, calls: seq<Call>, h: nat)
    requires Inv(w) && AllFresh(w, calls) && h in w.db.rows && SparesRow(w, calls, h)
    ensures var w' := Run(w, calls);
            && Inv(w') && h in w'.db.rows && w'.db.rows[h] == w.db.rows[h]
            && h in w.lineage && h in w'.lineage && w'.lineage[h] == w.lineage[h]
    decreases |calls|
  {
    if calls != [] {
      RowStaysUnlessEnded(w, calls[0], h);
      StepKeepsRows(w, calls[0]);
      StepKeepsSessions(w, calls[0]);
      StepKeepsExchanged(w, calls[0]);
      hide Step;
      hide EndsRow;
      SparedRowStays(Step(w, calls[0]), calls[1..], h);
    }
  }

  /**
   A session carries on.  An exchange of an unexpired row stores its successor; if none of
   the calls after it ends that row, an exchange of it before its expiry signs the version
   then current for the same session, and stores a successor in turn.
   */
  lemma SessionCarriesOn(w: World, oldHash: nat, newHash: nat, expiresAt: int, now: int, later: seq<Call>,
                         next: nat, nextExpiresAt: int, nextNow: int)
    requires Inv(w) && newHash !in w.lineage && AllFresh(Step(w, Refresh(oldHash, newHash, expiresAt, now)), later)
    requires oldHash in w.db.rows && now < w.db.rows[oldHash].expiresAt
    requires SparesRow(Step(w, Refresh(oldHash, newHash, expiresAt, now)), later, newHash)
    requires next !in Run(Step(w, Refresh(oldHash, newHash, expiresAt, now)), later).lineage && nextNow < expiresAt
    ensures var user := w.db.rows[oldHash].user;
            var w1 := Step(w, Refresh(oldHash, newHash, expiresAt, now));
            var w2 := Run(w1, later);
            var w3 := Step(w2, Refresh(newHash, next, nextExpiresAt, nextNow));
            && newHash in w1.db.rows && w1.db.rows[newHash] == Record(user, expiresAt)
            && oldHash in w.lineage && user in w2.db.versions && Jwt(user, w2.db.versions[user], w.lineage[oldHash]) in w3.jwts
            && next in w3.db.rows && w3.db.rows[next] == Record(user, nextExpiresAt) && newHash !in w3.db.rows
  {
    var c := Refresh(oldHash, newHash, expiresAt, now);
    var w1 := Step(w, c);
    RowComesWithItsCall(w, c, newHash, Record(w.db.rows[oldHash].user, expiresAt));
    StepKeepsRows(w, c);
    StepKeepsSessions(w, c);
    StepKeepsExchanged(w, c);
    assert newHash in w1.lineage && w1.lineage[newHash] == w.lineage[oldHash];
    SparedRowStays(w1, later, newHash);
  }

  // ------------------------------------------------------------- role changes

  /** No JWT of the user at the current version descends from a session opened before `cut`. */
  ghost predicate NoOldJwt(w: World, user: nat, cut: nat) {
    forall j :: j in w.jwts && j.user == user && user in w.db.versions && j.version == w.db.versions[user] ==> j.session >= cut
  }

  /** What refresh rows of older sessions are left had expired by `t`. */
  ghost predicate OldRowsExpired(w: World, user: nat, cut: nat, t: int) {
    forall h :: h in w.db.rows && h in w.lineage && w.db.rows[h].user == user && w.lineage[h] < cut ==>
      w.db.rows[h].expiresAt <= t
  }

  /** Rotations read a clock that shows at least `t`. */
  predicate NotBefore(calls: seq<Call>, t: int) {
    forall i :: 0 <= i < |calls| && calls[i].Refresh? ==> calls[i].now >= t
  }

  lemma StepKeepsOldOut(w: World, c: Call, user: nat, cut: nat, t: int)
    requires Inv(w) && Fresh(w, c) && (c.Refresh? ==> c.now >= t)
    requires user in w.everUsers && cut <= w.sessionCount && NoOldJwt(w, user, cut) && OldRowsExpired(w, user, cut, t)
    ensures var w' := Step(w, c);
            && user in w'.everUsers && cut <= w'.sessionCount && NoOldJwt(w', user, cut) && OldRowsExpired(w', user, cut, t)
  {
  }

  lemma {:induction false} RunKeepsOldOut(w: World, calls: seq<Call>, user: nat, cut: nat, t: int)
    requires Inv(w) && AllFresh(w, calls) && NotBefore(calls, t)
    requires user in w.everUsers && cut <= w.sessionCount && NoOldJwt(w, user, cut) && OldRowsExpired(w, user, cut, t)
    ensures NoOldJwt(Run(w, calls), user, cut)
    decreases |calls|
  {
    if calls != [] {
      StepKeepsOldOut(w, calls[0], user, cut, t);
      StepKeepsRows(w, calls[0]);
      StepKeepsSessions(w, calls[0]);
      StepKeepsExchanged(w, calls[0]);
      hide Step;
      hide NoOldJwt;
      hide OldRowsExpired;
      RunKeepsOldOut(Step(w, calls[0]), calls[1..], user, cut, t);
    }
  }

  lemma {:induction false} SomeNewHash(used: set<nat>) returns (hash: nat)
    ensures forall h :: h in used ==> h < hash
  {
    if h :| h in used {
      var rest := SomeNewHash(used - {h});
      assert forall x :: x in used ==> x == h || x in used - {h};
      hash := if h < rest then rest else h + 1;
    } else {
      hash := 0;
    }
  }

  /** After a role change, and any later calls with readings from `t` on, no token of an older session is current. */
  ghost predicate RoleChangeEndsSessions(w: World, user: nat, t: int) {
    forall later :: AllFresh(Step(w, ChangeRole(user)), later) && NotBefore(later, t) ==>
      NoOldJwt(Run(Step(w, ChangeRole(user)), later), user, w.sessionCount)
  }

  /**
   A role change bumps the version but leaves the refresh rows.  In every continuation
   older sessions are cut off if and only if no row of the user is unexpired.
   */
  lemma RoleChangeEndsSessionsExactly(w: World, user: nat, t: int)
    requires Inv(w) && user in w.db.versions
    ensures RoleChangeEndsSessions(w, user, t)
       <==> forall h :: h in w.db.rows && w.db.rows[h].user == user ==> w.db.rows[h].expiresAt <= t
  {
    var w' := Step(w, ChangeRole(user));
    StepKeepsRows(w, ChangeRole(user));
    StepKeepsSessions(w, ChangeRole(user));
    StepKeepsExchanged(w, ChangeRole(user));
    if h :| h in w.db.rows && w.db.rows[h].user == user && w.db.rows[h].expiresAt > t {
      var newHash := SomeNewHash(w.lineage.Keys);
      var later := [Refresh(h, newHash, 0, t)];
      RoleChangeLeavesRefreshUsable(w, user, h, newHash, 0, t);
      assert later[1..] == [];
      assert Run(w', later) == Step(w', later[0]);
      assert AllFresh(w', later) && NotBefore(later, t);
      assert !NoOldJwt(Run(w', later), user, w.sessionCount);
    } else {
      RoleChangeCutsOff(w, user, t);
      forall later | AllFresh(w', later) && NotBefore(later, t)
        ensures NoOldJwt(Run(w', later), user, w.sessionCount)
      {
        RunKeepsOldOut(w', later, user, w.sessionCount, t);
      }
    }
  }

  lemma RoleChangeCutsOff(w: World, user: nat, t: int)
    requires Inv(w) && user in w.db.versions
    requires forall h :: h in w.db.rows && w.db.rows[h].user == user ==> w.db.rows[h].expiresAt <= t
    ensures var w' := Step(w, ChangeRole(user));
            && user in w'.everUsers && w'.sessionCount == w.sessionCount
            && NoOldJwt(w', user, w.sessionCount) && OldRowsExpired(w', user, w.sessionCount, t)
  {
  }

  /** Such a surviving row signs a JWT at the new version for the old session. */
  lemma RoleChangeLeavesRefreshUsable(w: World, user: nat, hash: nat, newHash: nat, expiresAt: int, now: int)
    requires Inv(w) && user in w.db.versions && newHash !in w.lineage
    requires hash in w.db.rows && w.db.rows[hash].user == user && w.db.rows[hash].expiresAt > now
    ensures var w' := Step(Step(w, ChangeRole(user)), Refresh(hash, newHash, expiresAt, now));
            && user in w'.db.versions && Jwt(user, w'.db.versions[user], w.lineage[hash]) in w'.jwts
            && w.lineage[hash] < w.sessionCount
  {
  }
}
