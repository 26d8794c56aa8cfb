/** The session transactions as interleaved statements under row locks (READ COMMITTED): a statement
    reads what is committed when it runs, waits for the row locks it needs, and a transaction's
    writes appear when it commits. */
module SessionSteps {
  import opened Wrappers
  import opened SessionStore

  type Proc = nat

  /** Why a transaction rewrites a users row. Blast carries the token that was replayed, OwnChange
      the hash it verified. */
  datatype Cause = Blast(replayed: TokenId) | OwnChange(verified: Hash) | Reset | AccountEdit

  /** Where a request stands. */
  datatype Task =
    | Idle
    | LoginVerified(user: UserId, hash: Hash)
    | LoginClaimed(user: UserId, hash: Hash, version: nat)
    | ChangeVerified(user: UserId, hash: Hash)
    | ChangeClaimed(user: UserId, hash: Hash)
    | RefreshOpen(token: TokenId)
    | RefreshLocked(token: TokenId, owner: Option<UserId>)
    | RefreshMissed(token: TokenId, owner: Option<UserId>)
    | RefreshRedeemed(token: TokenId, user: UserId, version: nat, at: nat)
    | Refused(token: TokenId, verdict: Verdict, blast: Option<UserId>)
    | Ending(user: UserId, cause: Cause, after: User)
    | EndingRevoked(user: UserId, cause: Cause, after: User, doomed: set<TokenId>, at: nat)

  /** `seen` are the token values ever minted or presented, `hashes` the password hashes ever
      stored, `minted` every access token ever signed. */
  datatype State = State(
    db: Db,
    now: nat,
    procs: map<Proc, Task>,
    seen: set<TokenId>,
    hashes: set<Hash>,
    minted: set<Access>
  )

  function TaskOf(s: State, p: Proc): Task {
    if p in s.procs then s.procs[p] else Idle
  }

  // Row locks

  function SharedOn(task: Task): Option<UserId> {
    match task
    case RefreshLocked(_, owner) => owner
    case RefreshMissed(_, owner) => owner
    case RefreshRedeemed(_, user, _, _) => Some(user)
    case _ => None
  }

  function ExclusiveOn(task: Task): Option<UserId> {
    match task
    case LoginClaimed(user, _, _) => Some(user)
    case ChangeClaimed(user, _) => Some(user)
    case Ending(user, _, _) => Some(user)
    case EndingRevoked(user, _, _, _, _) => Some(user)
    case _ => None
  }

  /** The refresh_tokens rows a transaction has written. */
  function RowsOf(task: Task): set<TokenId> {
    match task
    case RefreshRedeemed(token, _, _, _) => {token}
    case EndingRevoked(_, _, _, doomed, _) => doomed
    case _ => {}
  }

  ghost predicate MayShare(s: State, p: Proc, u: UserId) {
    forall q :: q != p ==> ExclusiveOn(TaskOf(s, q)) != Some(u)
  }

  ghost predicate MayOwn(s: State, p: Proc, u: UserId) {
    forall q :: q != p ==> ExclusiveOn(TaskOf(s, q)) != Some(u) && SharedOn(TaskOf(s, q)) != Some(u)
  }

  ghost predicate RowsFree(s: State, p: Proc, ts: set<TokenId>) {
    forall q :: q != p ==> RowsOf(TaskOf(s, q)) !! ts
  }

  // Steps

  datatype Step =
    | Tick
    | LoginRead(p: Proc, user: UserId)
    | LoginClaim(p: Proc)
    | LoginReject(p: Proc)
    | LoginCommit(p: Proc, newToken: TokenId, expires: nat, accessExpires: nat)
    | ChangeRead(p: Proc, user: UserId)
    | ChangeClaim(p: Proc)
    | ChangeReject(p: Proc)
    | ChangeWrite(p: Proc, newHash: Hash)
    | RefreshRead(p: Proc, token: TokenId)
    | LockOwner(p: Proc)
    | Redeem(p: Proc)
    | RedeemMiss(p: Proc)
    | Lookup(p: Proc)
    | RefreshCommit(p: Proc, newToken: TokenId, expires: nat, accessExpires: nat)
    | RefreshOwnerGone(p: Proc)
    | RefusedDone(p: Proc)
    | BlastBegin(p: Proc)
    | ResetBegin(p: Proc, user: UserId, newHash: Hash)
    | EditBegin(p: Proc, user: UserId, role: nat, active: bool)
    | RevokeAll(p: Proc)
    | EndCommit(p: Proc)
    | Abort(p: Proc)
    | Logout(token: TokenId)
    | Purge(token: TokenId)

  function Bumped(u: User): User {
    u.(version := u.version + 1)
  }

  /** users.update: a role change or a deactivation bumps the version, anything else does not. */
  function Edited(u: User, role: nat, active: bool): User {
    var v := u.(role := role, active := active);
    if role != u.role || (u.active && !active) then Bumped(v) else v
  }

  function OwnerOf(db: Db, t: TokenId): Option<UserId> {
    if t in db.tokens then Some(db.tokens[t].owner) else None
  }

  function WhyRevoked(cause: Cause): Reason {
    if cause.Blast? then ReuseFound else ByAdmin
  }

  /** A users row may be committed once the tokens are revoked, or at once when no version moves. */
  predicate MayEnd(s: State, p: Proc) {
    var task := TaskOf(s, p);
    || task.EndingRevoked?
    || (task.Ending? && task.user in s.db.users && task.after.version == s.db.users[task.user].version)
  }

  ghost predicate Enabled(s: State, step: Step) {
    match step
    case Tick => true
    case LoginRead(p, u) => TaskOf(s, p) == Idle && u in s.db.users && s.db.users[u].active
    case LoginClaim(p) =>
      var task := TaskOf(s, p);
      task.LoginVerified? && MayOwn(s, p, task.user) && Claimable(s.db, task.user, task.hash)
    case LoginReject(p) =>
      var task := TaskOf(s, p);
      task.LoginVerified? && !Claimable(s.db, task.user, task.hash)
    case LoginCommit(p, newToken, _, _) => TaskOf(s, p).LoginClaimed? && newToken !in s.seen
    case ChangeRead(p, u) => TaskOf(s, p) == Idle && u in s.db.users && s.db.users[u].active
    case ChangeClaim(p) =>
      var task := TaskOf(s, p);
      task.ChangeVerified? && MayOwn(s, p, task.user) && Claimable(s.db, task.user, task.hash)
    case ChangeReject(p) =>
      var task := TaskOf(s, p);
      task.ChangeVerified? && !Claimable(s.db, task.user, task.hash)
    case ChangeWrite(p, newHash) =>
      var task := TaskOf(s, p);
      task.ChangeClaimed? && task.user in s.db.users && newHash !in s.hashes
    case RefreshRead(p, _) => TaskOf(s, p) == Idle
    case LockOwner(p) =>
      var task := TaskOf(s, p);
      task.RefreshOpen? && (match OwnerOf(s.db, task.token) case Some(u) => MayShare(s, p, u) case None => true)
    case Redeem(p) =>
      var task := TaskOf(s, p);
      task.RefreshLocked? && RowsFree(s, p, {task.token}) && Redeemable(s.db, s.now, task.token)
    case RedeemMiss(p) =>
      var task := TaskOf(s, p);
      task.RefreshLocked? && !Redeemable(s.db, s.now, task.token)
    case Lookup(p) => TaskOf(s, p).RefreshMissed?
    case RefreshCommit(p, newToken, _, _) =>
      var task := TaskOf(s, p);
      task.RefreshRedeemed? && task.token in s.db.tokens && newToken !in s.seen &&
      task.user in s.db.users && s.db.users[task.user].active
    case RefreshOwnerGone(p) =>
      var task := TaskOf(s, p);
      task.RefreshRedeemed? && task.token in s.db.tokens && !(task.user in s.db.users && s.db.users[task.user].active)
    case RefusedDone(p) => TaskOf(s, p).Refused? && TaskOf(s, p).blast.None?
    case BlastBegin(p) =>
      var task := TaskOf(s, p);
      task.Refused? && task.blast.Some? && MayOwn(s, p, task.blast.value) && task.blast.value in s.db.users
    case ResetBegin(p, u, newHash) => TaskOf(s, p) == Idle && MayOwn(s, p, u) && u in s.db.users && newHash !in s.hashes
    case EditBegin(p, u, _, _) => TaskOf(s, p) == Idle && MayOwn(s, p, u) && u in s.db.users
    case RevokeAll(p) =>
      var task := TaskOf(s, p);
      task.Ending? && task.user in s.db.users && task.after.version != s.db.users[task.user].version &&
      RowsFree(s, p, ActiveTokens(s.db, task.user))
    case EndCommit(p) => MayEnd(s, p)
    case Abort(p) => TaskOf(s, p) != Idle
    case Logout(t) => forall q :: t !in RowsOf(TaskOf(s, q))
    case Purge(t) => t in s.db.tokens && s.db.tokens[t].expires + RETENTION < s.now && forall q ::
      t !in RowsOf(TaskOf(s, q))
  }

  function Move(s: State, p: Proc, task: Task): State {
    s.(procs := s.procs[p := task])
  }

  /** A committed login or rotation: a refresh token and an access token of one version. */
  function Issue(s: State, db: Db, newToken: TokenId, token: Token, accessExpires: nat): State {
    s.(db := db.(tokens := db.tokens[newToken := token]),
       seen := s.seen + {newToken},
       minted := s.minted + {Access(token.owner, token.version, accessExpires)})
  }

  /** Commits a users row together with the revocations of its transaction. */
  function EndCommitted(s: State, p: Proc): State
    requires MayEnd(s, p)
  {
    var task := TaskOf(s, p);
    var tokens := if task.EndingRevoked? then RevokeTokens(s.db.tokens, task.doomed, task.at, WhyRevoked(task.cause))
      else s.db.tokens;
    Move(s.(db := Db(s.db.users[task.user := task.after], tokens)), p, Idle)
  }

  /** Commits a rotation: the redeemed token revoked, its successor issued. */
  function RotationCommitted(s: State, p: Proc, newToken: TokenId, expires: nat, accessExpires: nat): State
    requires TaskOf(s, p).RefreshRedeemed? && TaskOf(s, p).token in s.db.tokens
  {
    var task := TaskOf(s, p);
    var db := s.db.(tokens := RevokeTokens(s.db.tokens, {task.token}, task.at, Rotated));
    var old_ := s.db.tokens[task.token];
    var token := Token(task.user, task.version, expires, None, old_.login, Some(task.token), old_.generation + 1);
    Move(Issue(s, db, newToken, token, accessExpires), p, Idle)
  }

  ghost function Apply(s: State, step: Step): State
    requires Enabled(s, step)
  {
    match step
    case Tick => s.(now := s.now + 1)
    case LoginRead(p, u) => Move(s, p, LoginVerified(u, s.db.users[u].hash))
    case LoginClaim(p) =>
      var task := TaskOf(s, p);
      Move(s, p, LoginClaimed(task.user, task.hash, s.db.users[task.user].version))
    case LoginReject(p) => Move(s, p, Idle)
    case LoginCommit(p, newToken, expires, accessExpires) =>
      var task := TaskOf(s, p);
      var token := Token(task.user, task.version, expires, None, newToken, None, 0);
      Move(Issue(s, s.db, newToken, token, accessExpires), p, Idle)
    case ChangeRead(p, u) => Move(s, p, ChangeVerified(u, s.db.users[u].hash))
    case ChangeClaim(p) =>
      var task := TaskOf(s, p);
      Move(s, p, ChangeClaimed(task.user, task.hash))
    case ChangeReject(p) => Move(s, p, Idle)
    case ChangeWrite(p, newHash) =>
      var task := TaskOf(s, p);
      var after := Bumped(s.db.users[task.user].(hash := newHash));
      Move(s, p, Ending(task.user, OwnChange(task.hash), after)).(hashes := s.hashes + {newHash})
    case RefreshRead(p, t) => Move(s, p, RefreshOpen(t)).(seen := s.seen + {t})
    case LockOwner(p) =>
      var task := TaskOf(s, p);
      Move(s, p, RefreshLocked(task.token, OwnerOf(s.db, task.token)))
    case Redeem(p) =>
      var task := TaskOf(s, p);
      var token := s.db.tokens[task.token];
      Move(s, p, RefreshRedeemed(task.token, token.owner, s.db.users[token.owner].version, s.now))
    case RedeemMiss(p) =>
      var task := TaskOf(s, p);
      Move(s, p, RefreshMissed(task.token, task.owner))
    case Lookup(p) =>
      var (verdict, blast) := Refusal(s.db, s.now, TaskOf(s, p).token);
      Move(s, p, Refused(TaskOf(s, p).token, verdict, blast))
    case RefreshCommit(p, newToken, expires, accessExpires) => RotationCommitted(s, p, newToken, expires, accessExpires)
    case RefreshOwnerGone(p) =>
      var task := TaskOf(s, p);
      Move(s.(db := s.db.(tokens := RevokeTokens(s.db.tokens, {task.token}, task.at, Rotated))), p, Idle)
    case RefusedDone(p) => Move(s, p, Idle)
    case BlastBegin(p) =>
      var u := TaskOf(s, p).blast.value;
      Move(s, p, Ending(u, Blast(TaskOf(s, p).token), Bumped(s.db.users[u])))
    case ResetBegin(p, u, newHash) =>
      Move(s, p, Ending(u, Reset, Bumped(s.db.users[u].(hash := newHash)))).(hashes := s.hashes + {newHash})
    case EditBegin(p, u, role, active) => Move(s, p, Ending(u, AccountEdit, Edited(s.db.users[u], role, active)))
    case RevokeAll(p) =>
      var task := TaskOf(s, p);
      Move(s, p, EndingRevoked(task.user, task.cause, task.after, ActiveTokens(s.db, task.user), s.now))
    case EndCommit(p) => EndCommitted(s, p)
    case Abort(p) => Move(s, p, Idle)
    case Logout(t) => s.(db := s.db.(tokens := RevokeTokens(s.db.tokens, {t}, s.now, LoggedOut)), seen := s.seen + {t})
    case Purge(t) => s.(db := s.db.(tokens := s.db.tokens - {t}))
  }

  /** A run: every step enabled where it is taken. */
  ghost predicate Run(s: State, steps: seq<Step>, t: State)
    decreases steps
  {
    if steps == [] then t == s
    else Enabled(s, steps[0]) && Run(Apply(s, steps[0]), steps[1..], t)
  }
}
