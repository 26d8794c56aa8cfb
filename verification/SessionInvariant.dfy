/** What every reachable state of the session protocol keeps, in flight transactions included. */
module SessionInvariant {
  import opened Wrappers
  import opened SessionStore
  import opened SessionSteps

  ghost predicate Compatible(a: Task, b: Task) {
    && (ExclusiveOn(a).Some? ==> ExclusiveOn(b) != ExclusiveOn(a) && SharedOn(b) != ExclusiveOn(a))
    && (ExclusiveOn(b).Some? ==> SharedOn(a) != ExclusiveOn(b))
    && RowsOf(a) !! RowsOf(b)
  }

  /** The owner a refresh locked is the token's owner; a token unknown then stays unknown. */
  ghost predicate OwnerKnown(db: Db, t: TokenId, owner: Option<UserId>) {
    t in db.tokens ==> owner == Some(db.tokens[t].owner)
  }

  /** A pending users row. An edit moves the version by one exactly when it changes the role or closes
      an active account. Everything else moves it by one, and stores a hash never stored before
      (hashes are salted) where it is about the password. */
  ghost predicate EndingWell(before: User, cause: Cause, after: User) {
    if cause.AccountEdit? then
      && after.hash == before.hash
      && after.version ==
         before.version + if after.role != before.role || (before.active && !after.active) then 1 else 0
    else
      && after == before.(hash := after.hash, version := before.version + 1)
      && (cause.Blast? <==> after.hash == before.hash)
      && (cause.OwnChange? ==> before.hash == cause.verified)
  }

  /** A pending ending over a replayed token means that rotation retired that token of the same
      account, and that its grace window is over. */
  ghost predicate ReplayedLongAgo(s: State, x: TokenId, u: UserId) {
    x in s.seen && (x in s.db.tokens ==>
      && s.db.tokens[x].owner == u
      && s.db.tokens[x].revoked.Some? && ByRotation(s.db.tokens[x].revoked.value.reason)
      && s.db.tokens[x].revoked.value.at + REUSE_GRACE < s.now)
  }

  ghost predicate CauseWell(s: State, u: UserId, cause: Cause) {
    cause.Blast? ==> ReplayedLongAgo(s, cause.replayed, u)
  }

  /** What a transaction has read or claimed still holds of the committed rows. */
  ghost predicate TaskWell(s: State, task: Task) {
    match task
    case LoginClaimed(u, hash, version) => Claimable(s.db, u, hash) && s.db.users[u].version == version
    case ChangeClaimed(u, hash) => Claimable(s.db, u, hash)
    case RefreshOpen(t) => t in s.seen
    case RefreshLocked(t, owner) => t in s.seen && OwnerKnown(s.db, t, owner)
    case RefreshMissed(t, owner) => t in s.seen && OwnerKnown(s.db, t, owner)
    case RefreshRedeemed(t, u, version, at) =>
      && Unrevoked(s.db, t) && Current(s.db, t) && s.db.tokens[t].owner == u
      && s.db.users[u].active && s.db.users[u].version == version
      && at < s.db.tokens[t].expires && at <= s.now
    case Refused(t, _, blast) => blast.Some? ==> ReplayedLongAgo(s, t, blast.value)
    case Ending(u, cause, after) =>
      u in s.db.users && CauseWell(s, u, cause) && EndingWell(s.db.users[u], cause, after) && after.hash in s.hashes
    case EndingRevoked(u, cause, after, doomed, _) =>
      && u in s.db.users && CauseWell(s, u, cause) && EndingWell(s.db.users[u], cause, after) && after.hash in s.hashes
      && after.version == s.db.users[u].version + 1
      && ActiveTokens(s.db, u) <= doomed <= s.seen
      && forall t :: t in doomed && t in s.db.tokens ==> s.db.tokens[t].owner == u
    case _ => true
  }

  ghost predicate SeenWell(s: State) {
    && (forall t :: t in s.db.tokens ==> t in s.seen && s.db.tokens[t].login in s.seen)
    && (forall t :: t in s.db.tokens && s.db.tokens[t].parent.Some? ==> s.db.tokens[t].parent.value in s.seen)
    && (forall u :: u in s.db.users ==> s.db.users[u].hash in s.hashes)
  }

  ghost predicate MintedWell(s: State) {
    forall a :: a in s.minted ==> a.owner in s.db.users && a.version <= s.db.users[a.owner].version
  }

  ghost predicate Inv(s: State) {
    && DbInv(s.db)
    && SeenWell(s)
    && MintedWell(s)
    && (forall p: Proc {:trigger TaskOf(s, p)} :: TaskWell(s, TaskOf(s, p)))
    && (forall p: Proc, q: Proc {:trigger TaskOf(s, p), TaskOf(s, q)} :: p != q ==>
      Compatible(TaskOf(s, p), TaskOf(s, q)))
  }

  // A step that moves one process and writes nothing

  lemma MoveKeeps(s: State, p: Proc, task: Task)
    requires Inv(s) && TaskWell(s, task)
    requires forall q :: q != p ==> Compatible(task, TaskOf(s, q))
    ensures Inv(Move(s, p, task))
  {
    var t := Move(s, p, task);
    forall q: Proc
      ensures TaskWell(t, TaskOf(t, q))
      ensures q != p ==> TaskOf(t, q) == TaskOf(s, q)
    {
      assert TaskWell(s, TaskOf(s, q));
    }
    forall q: Proc, r: Proc | q != r
      ensures Compatible(TaskOf(t, q), TaskOf(t, r))
    {
      if q != p && r != p {
        assert Compatible(TaskOf(s, q), TaskOf(s, r));
      }
    }
  }

  /** A task that holds no lock is compatible with every other. */
  lemma Lockless(s: State, p: Proc, task: Task)
    requires SharedOn(task).None? && ExclusiveOn(task).None? && RowsOf(task) == {}
    ensures forall q :: q != p ==> Compatible(task, TaskOf(s, q))
  {
  }

  /** Nor does giving locks up, or keeping the ones held, disturb another. */
  lemma Narrower(s: State, p: Proc, task: Task)
    requires Inv(s)
    requires SharedOn(task) == SharedOn(TaskOf(s, p)) && ExclusiveOn(task) == ExclusiveOn(TaskOf(s, p)) &&
      RowsOf(task) <= RowsOf(TaskOf(s, p))
    ensures forall q :: q != p ==> Compatible(task, TaskOf(s, q))
  {
    forall q | q != p
      ensures Compatible(task, TaskOf(s, q))
    {
      assert Compatible(TaskOf(s, p), TaskOf(s, q));
    }
  }

  lemma MoreSeen(s: State, t: State)
    requires Inv(s) && t == s.(seen := t.seen, hashes := t.hashes, now := t.now) && s.seen <= t.seen &&
      s.hashes <= t.hashes && s.now <= t.now
    ensures Inv(t)
  {
    assert forall p :: TaskOf(t, p) == TaskOf(s, p);
    forall p: Proc
      ensures TaskWell(t, TaskOf(t, p))
    {
      assert TaskWell(s, TaskOf(s, p));
    }
    assert forall p: Proc, q: Proc :: p != q ==> Compatible(TaskOf(s, p), TaskOf(s, q));
  }

  lemma QuietStepKeeps(s: State, step: Step)
    requires Inv(s) && Enabled(s, step)
    requires step.Tick? || step.LoginRead? || step.LoginClaim? || step.LoginReject? || step.ChangeRead? ||
      step.ChangeClaim? || step.ChangeReject?
    ensures Inv(Apply(s, step))
  {
    match step
    case Tick => MoreSeen(s, Apply(s, step));
    case LoginRead(p, u) => Lockless(s, p, LoginVerified(u, s.db.users[u].hash));
      MoveKeeps(s, p, LoginVerified(u, s.db.users[u].hash));
    case ChangeRead(p, u) => Lockless(s, p, ChangeVerified(u, s.db.users[u].hash));
      MoveKeeps(s, p, ChangeVerified(u, s.db.users[u].hash));
    case LoginClaim(p) =>
      var task := TaskOf(s, p);
      MoveKeeps(s, p, LoginClaimed(task.user, task.hash, s.db.users[task.user].version));
    case ChangeClaim(p) =>
      var task := TaskOf(s, p);
      MoveKeeps(s, p, ChangeClaimed(task.user, task.hash));
    case LoginReject(p) => Lockless(s, p, Idle); MoveKeeps(s, p, Idle);
    case ChangeReject(p) => Lockless(s, p, Idle); MoveKeeps(s, p, Idle);
  }

  lemma RefreshStepKeeps(s: State, step: Step)
    requires Inv(s) && Enabled(s, step)
    requires step.RefreshRead? || step.LockOwner? || step.Redeem? || step.RedeemMiss? || step.Lookup? ||
      step.RefusedDone? || step.Abort?
    ensures Inv(Apply(s, step))
  {
    match step
    case RefreshRead(p, t) =>
      var wider := s.(seen := s.seen + {t});
      MoreSeen(s, wider);
      Lockless(wider, p, RefreshOpen(t));
      MoveKeeps(wider, p, RefreshOpen(t));
      assert Move(wider, p, RefreshOpen(t)) == Apply(s, step);
    case LockOwner(p) =>
      var task := TaskOf(s, p);
      assert TaskWell(s, task);
      MoveKeeps(s, p, RefreshLocked(task.token, OwnerOf(s.db, task.token)));
    case Redeem(p) => RedeemKeeps(s, p);
    case RedeemMiss(p) =>
      var task := TaskOf(s, p);
      assert TaskWell(s, task);
      Narrower(s, p, RefreshMissed(task.token, task.owner));
      MoveKeeps(s, p, RefreshMissed(task.token, task.owner));
    case Lookup(p) =>
      var (verdict, blast) := Refusal(s.db, s.now, TaskOf(s, p).token);
      var token := TaskOf(s, p).token;
      assert TaskWell(s, TaskOf(s, p));
      BlastOnlyOnReplay(s.db, s.now, token);
      Lockless(s, p, Refused(token, verdict, blast));
      MoveKeeps(s, p, Refused(token, verdict, blast));
    case RefusedDone(p) => Lockless(s, p, Idle); MoveKeeps(s, p, Idle);
    case Abort(p) => Lockless(s, p, Idle); MoveKeeps(s, p, Idle);
  }

  lemma RedeemKeeps(s: State, p: Proc)
    requires Inv(s) && Enabled(s, Redeem(p))
    ensures Inv(Apply(s, Redeem(p)))
  {
    var task := TaskOf(s, p);
    assert TaskWell(s, task);
    var token := s.db.tokens[task.token];
    assert OwnedWell(s.db, task.token);
    var next := RefreshRedeemed(task.token, token.owner, s.db.users[token.owner].version, s.now);
    forall q | q != p
      ensures Compatible(next, TaskOf(s, q))
    {
      assert Compatible(task, TaskOf(s, q));
    }
    MoveKeeps(s, p, next);
  }

  lemma ChangeWriteKeeps(s: State, p: Proc, newHash: Hash)
    requires Inv(s) && Enabled(s, ChangeWrite(p, newHash))
    ensures Inv(Apply(s, ChangeWrite(p, newHash)))
  {
    var task := TaskOf(s, p);
    assert TaskWell(s, task);
    var wider := s.(hashes := s.hashes + {newHash});
    var next := Ending(task.user, OwnChange(task.hash), Bumped(s.db.users[task.user].(hash := newHash)));
    MoreSeen(s, wider);
    Narrower(wider, p, next);
    MoveKeeps(wider, p, next);
    assert Move(wider, p, next) == Apply(s, ChangeWrite(p, newHash));
  }

  lemma ResetBeginKeeps(s: State, p: Proc, u: UserId, newHash: Hash)
    requires Inv(s) && Enabled(s, ResetBegin(p, u, newHash))
    ensures Inv(Apply(s, ResetBegin(p, u, newHash)))
  {
    var wider := s.(hashes := s.hashes + {newHash});
    var next := Ending(u, Reset, Bumped(s.db.users[u].(hash := newHash)));
    MoreSeen(s, wider);
    assert forall q :: TaskOf(wider, q) == TaskOf(s, q);
    MoveKeeps(wider, p, next);
    assert Move(wider, p, next) == Apply(s, ResetBegin(p, u, newHash));
  }

  lemma RevokeAllKeeps(s: State, p: Proc)
    requires Inv(s) && Enabled(s, RevokeAll(p))
    ensures Inv(Apply(s, RevokeAll(p)))
  {
    var task := TaskOf(s, p);
    assert TaskWell(s, task);
    var next := EndingRevoked(task.user, task.cause, task.after, ActiveTokens(s.db, task.user), s.now);
    forall q | q != p
      ensures Compatible(next, TaskOf(s, q))
    {
      assert Compatible(task, TaskOf(s, q));
    }
    MoveKeeps(s, p, next);
  }

  lemma BeginStepKeeps(s: State, step: Step)
    requires Inv(s) && Enabled(s, step) && (step.BlastBegin? || step.EditBegin?)
    ensures Inv(Apply(s, step))
  {
    match step
    case BlastBegin(p) =>
      var u := TaskOf(s, p).blast.value;
      assert TaskWell(s, TaskOf(s, p));
      MoveKeeps(s, p, Ending(u, Blast(TaskOf(s, p).token), Bumped(s.db.users[u])));
    case EditBegin(p, u, role, active) => MoveKeeps(s, p, Ending(u, AccountEdit, Edited(s.db.users[u], role, active)));
  }

  // Steps that write

  /** After p committed, another process's facts hold of the new rows. */
  ghost predicate OthersWell(s: State, t: State, p: Proc) {
    && TaskOf(t, p) == Idle
    && (forall q {:trigger TaskOf(t, q)} :: q != p ==> TaskOf(t, q) == TaskOf(s, q) && TaskWell(t, TaskOf(t, q)))
  }

  lemma CommitKeeps(s: State, t: State, p: Proc)
    requires Inv(s) && DbInv(t.db) && SeenWell(t) && MintedWell(t) && OthersWell(s, t, p)
    ensures Inv(t)
  {
    forall q: Proc, r: Proc | q != r
      ensures Compatible(TaskOf(t, q), TaskOf(t, r))
    {
      if q != p && r != p {
        assert Compatible(TaskOf(s, q), TaskOf(s, r));
      }
    }
    forall q: Proc
      ensures TaskWell(t, TaskOf(t, q))
    {
      assert q != p ==> TaskWell(t, TaskOf(t, q));
    }
  }

  lemma IssuedDb(db: Db, newToken: TokenId, token: Token)
    requires DbInv(db) && newToken !in db.tokens
    requires token.owner in db.users && token.revoked.None? && token.version == db.users[token.owner].version &&
      db.users[token.owner].active
    requires forall t :: t in db.tokens && db.tokens[t].login == token.login ==>
      db.tokens[t].generation < token.generation && db.tokens[t].revoked.Some?
    requires forall t :: t in db.tokens ==> db.tokens[t].parent != Some(newToken)
    requires token.parent.None? <==> token.login == newToken
    requires token.parent.None? <==> token.generation == 0
    requires token.parent.Some? ==>
      && (forall t :: t in db.tokens ==> db.tokens[t].parent != token.parent)
      && (token.parent.value in db.tokens ==> ReplacedBy(db.tokens[token.parent.value], token))
      && token.parent.value != newToken
    ensures DbInv(db.(tokens := db.tokens[newToken := token]))
  {
    var next := db.(tokens := db.tokens[newToken := token]);
    forall t | t in next.tokens
      ensures OwnedWell(next, t)
    {
      if t != newToken {
        assert OwnedWell(db, t);
      }
    }
    forall t, t' | t in next.tokens && t' in next.tokens && t != t'
      ensures InLine(next, t, t')
    {
      if t != newToken && t' != newToken {
        assert InLine(db, t, t');
      }
    }
  }

  lemma RevokedDb(db: Db, ts: set<TokenId>, at: nat, reason: Reason)
    requires DbInv(db)
    ensures DbInv(db.(tokens := RevokeTokens(db.tokens, ts, at, reason)))
  {
    var next := db.(tokens := RevokeTokens(db.tokens, ts, at, reason));
    forall t | t in next.tokens
      ensures OwnedWell(next, t)
    {
      assert OwnedWell(db, t);
    }
    forall t, t' | t in next.tokens && t' in next.tokens && t != t'
      ensures InLine(next, t, t')
    {
      assert InLine(db, t, t');
    }
  }

  /** Tokens other transactions do not hold may be revoked under them. */
  lemma RevokedTask(s: State, ts: set<TokenId>, at: nat, reason: Reason, task: Task)
    requires TaskWell(s, task) && RowsOf(task) !! ts
    ensures TaskWell(s.(db := s.db.(tokens := RevokeTokens(s.db.tokens, ts, at, reason))), task)
  {
  }

  lemma LoginCommitKeeps(s: State, step: Step)
    requires Inv(s) && step.LoginCommit? && Enabled(s, step)
    ensures Inv(Apply(s, step))
  {
    var LoginCommit(p, newToken, expires, accessExpires) := step;
    var task := TaskOf(s, p);
    assert TaskWell(s, task);
    var token := Token(task.user, task.version, expires, None, newToken, None, 0);
    var t := Apply(s, step);
    IssuedDb(s.db, newToken, token);
    forall q | q != p
      ensures TaskOf(t, q) == TaskOf(s, q) && TaskWell(t, TaskOf(t, q))
    {
      assert TaskWell(s, TaskOf(s, q)) && Compatible(task, TaskOf(s, q));
      IssuedTask(s, s.db, t, token.owner, newToken, TaskOf(s, q));
    }
    CommitKeeps(s, t, p);
  }

  /** A new token of an account nobody else holds exclusively disturbs no other transaction. */
  lemma IssuedTask(s: State, db: Db, t: State, owner: UserId, newToken: TokenId, task: Task)
    requires TaskWell(s.(db := db), task) && ExclusiveOn(task) != Some(owner)
    requires newToken !in s.seen && newToken !in db.tokens && s.seen <= t.seen && s.hashes <= t.hashes
    requires t.now == s.now
    requires newToken in t.db.tokens && t.db.tokens[newToken].owner == owner
    requires t.db == db.(tokens := db.tokens[newToken := t.db.tokens[newToken]])
    ensures TaskWell(t, task)
  {
    if task.EndingRevoked? {
      assert ActiveTokens(t.db, task.user) == ActiveTokens(db, task.user);
    }
  }

  lemma RotatedDb(s: State, task: Task, newToken: TokenId, token: Token)
    requires Inv(s) && task.RefreshRedeemed? && TaskWell(s, task) && newToken !in s.seen
    requires token.owner == task.user && token.version == task.version && token.revoked.None?
    requires token.login == s.db.tokens[task.token].login && token.parent == Some(task.token)
    requires token.generation == s.db.tokens[task.token].generation + 1
    ensures var db := s.db.(tokens := RevokeTokens(s.db.tokens, {task.token}, task.at, Rotated));
      DbInv(db.(tokens := db.tokens[newToken := token]))
  {
    var db := s.db.(tokens := RevokeTokens(s.db.tokens, {task.token}, task.at, Rotated));
    RevokedDb(s.db, {task.token}, task.at, Rotated);
    NoSuccessorYet(s.db, task.token);
    forall t | t in db.tokens && db.tokens[t].login == token.login
      ensures db.tokens[t].generation < token.generation && db.tokens[t].revoked.Some?
    {
      assert t != task.token ==> InLine(s.db, t, task.token);
    }
    IssuedDb(db, newToken, token);
  }

  lemma RefreshCommitKeeps(s: State, p: Proc, newToken: TokenId, expires: nat, accessExpires: nat)
    requires Inv(s) && TaskOf(s, p).RefreshRedeemed? && TaskOf(s, p).token in s.db.tokens && newToken !in s.seen
    ensures Inv(RotationCommitted(s, p, newToken, expires, accessExpires))
  {
    RotationRows(s, p, newToken, expires, accessExpires);
    RotatedSeen(s, p, newToken, expires, accessExpires);
    RefreshOthersWell(s, RotationCommitted(s, p, newToken, expires, accessExpires), p, newToken);
    CommitKeeps(s, RotationCommitted(s, p, newToken, expires, accessExpires), p);
  }

  lemma RotationRows(s: State, p: Proc, newToken: TokenId, expires: nat, accessExpires: nat)
    requires Inv(s) && TaskOf(s, p).RefreshRedeemed? && TaskOf(s, p).token in s.db.tokens && newToken !in s.seen
    ensures var t := RotationCommitted(s, p, newToken, expires, accessExpires);
      DbInv(t.db)
  {
    var task := TaskOf(s, p);
    assert TaskWell(s, task);
    var old_ := s.db.tokens[task.token];
    var token := Token(task.user, task.version, expires, None, old_.login, Some(task.token), old_.generation + 1);
    var db := s.db.(tokens := RevokeTokens(s.db.tokens, {task.token}, task.at, Rotated));
    RotatedDb(s, task, newToken, token);
    assert RotationCommitted(s, p, newToken, expires, accessExpires).db == db.(tokens := db.tokens[newToken := token]);
  }

  lemma RotatedSeen(s: State, p: Proc, newToken: TokenId, expires: nat, accessExpires: nat)
    requires Inv(s) && TaskOf(s, p).RefreshRedeemed? && TaskOf(s, p).token in s.db.tokens && newToken !in s.seen
    ensures var t := RotationCommitted(s, p, newToken, expires, accessExpires);
      SeenWell(t) && MintedWell(t) && Rotates(s, t, TaskOf(s, p), newToken)
  {
    assert TaskWell(s, TaskOf(s, p));
  }

  /** Token rows after a rotation: the redeemed one revoked, a new one of its owner added. */
  ghost predicate Rotates(s: State, t: State, task: Task, newToken: TokenId)
    requires task.RefreshRedeemed?
  {
    var db := s.db.(tokens := RevokeTokens(s.db.tokens, {task.token}, task.at, Rotated));
    && newToken in t.db.tokens && t.db.tokens[newToken].owner == task.user
    && t.db == db.(tokens := db.tokens[newToken := t.db.tokens[newToken]])
  }

  lemma RefreshOthersWell(s: State, t: State, p: Proc, newToken: TokenId)
    requires Inv(s) && TaskOf(s, p).RefreshRedeemed? && newToken !in s.seen && Rotates(s, t, TaskOf(s, p), newToken)
    requires t.procs == s.procs[p := Idle] && s.seen <= t.seen && s.hashes <= t.hashes && t.now == s.now
    ensures OthersWell(s, t, p)
  {
    var task := TaskOf(s, p);
    var db := s.db.(tokens := RevokeTokens(s.db.tokens, {task.token}, task.at, Rotated));
    forall q | q != p
      ensures TaskOf(t, q) == TaskOf(s, q) && TaskWell(t, TaskOf(t, q))
    {
      assert TaskWell(s, TaskOf(s, q)) && Compatible(task, TaskOf(s, q));
      RevokedTask(s, {task.token}, task.at, Rotated, TaskOf(s, q));
      IssuedTask(s, db, t, task.user, newToken, TaskOf(s, q));
    }
  }

  /** An active token has replaced nothing yet: whatever names it as its parent would have found
      it revoked. */
  lemma NoSuccessorYet(db: Db, t: TokenId)
    requires DbInv(db) && Unrevoked(db, t)
    ensures forall t' :: t' in db.tokens ==> db.tokens[t'].parent != Some(t)
  {
    forall t' | t' in db.tokens
      ensures db.tokens[t'].parent != Some(t)
    {
      assert OwnedWell(db, t');
    }
  }

  /** Redeem holds the owner's row, so the account it redeemed for is still active when the
      rotation looks it up: the branch for a vanished owner is never taken. */
  lemma OwnerNeverGone(s: State, p: Proc)
    requires Inv(s)
    ensures !Enabled(s, RefreshOwnerGone(p))
  {
    assert TaskWell(s, TaskOf(s, p));
  }

  lemma LogoutKeeps(s: State, token: TokenId)
    requires Inv(s) && Enabled(s, Logout(token))
    ensures Inv(Apply(s, Logout(token)))
  {
    var mid := s.(db := s.db.(tokens := RevokeTokens(s.db.tokens, {token}, s.now, LoggedOut)));
    RevokedDb(s.db, {token}, s.now, LoggedOut);
    forall q: Proc
      ensures TaskOf(mid, q) == TaskOf(s, q) && TaskWell(mid, TaskOf(mid, q))
    {
      assert TaskWell(s, TaskOf(s, q));
      RevokedTask(s, {token}, s.now, LoggedOut, TaskOf(s, q));
    }
    assert forall q: Proc, r: Proc :: q != r ==> Compatible(TaskOf(s, q), TaskOf(s, r));
    MoreSeen(mid, Apply(s, Logout(token)));
  }

  lemma PurgeKeeps(s: State, token: TokenId)
    requires Inv(s) && Enabled(s, Purge(token))
    ensures Inv(Apply(s, Purge(token)))
  {
    var t := Apply(s, Purge(token));
    forall x | x in t.db.tokens
      ensures OwnedWell(t.db, x)
    {
      assert OwnedWell(s.db, x);
    }
    forall x, y | x in t.db.tokens && y in t.db.tokens && x != y
      ensures InLine(t.db, x, y)
    {
      assert InLine(s.db, x, y);
    }
    forall q: Proc
      ensures TaskOf(t, q) == TaskOf(s, q) && TaskWell(t, TaskOf(t, q))
    {
      assert TaskWell(s, TaskOf(s, q));
    }
    assert forall q: Proc, r: Proc :: q != r ==> Compatible(TaskOf(s, q), TaskOf(s, r));
  }

  /** The revoke that runs after the version bump, under the same lock, leaves no active token of
      the account behind: whatever a rotation or a login in flight was going to insert is either
      already there to be revoked or not yet allowed to start. */
  lemma EndCommitRevokesAll(s: State, p: Proc, x: TokenId)
    requires Inv(s) && MayEnd(s, p) && TaskOf(s, p).EndingRevoked?
    requires x in s.db.tokens && s.db.tokens[x].owner == TaskOf(s, p).user
    ensures x in EndCommitted(s, p).db.tokens
    ensures EndCommitted(s, p).db.tokens[x].revoked.Some?
  {
    var task := TaskOf(s, p);
    assert TaskWell(s, task);
    if s.db.tokens[x].revoked.None? {
      assert x in ActiveTokens(s.db, task.user);
    }
  }

  lemma EndCommitOwned(s: State, p: Proc, x: TokenId)
    requires Inv(s) && MayEnd(s, p) && x in s.db.tokens
    ensures x in EndCommitted(s, p).db.tokens && OwnedWell(EndCommitted(s, p).db, x)
  {
    var task := TaskOf(s, p);
    assert TaskWell(s, task);
    assert OwnedWell(s.db, x);
    if task.EndingRevoked? && s.db.tokens[x].owner == task.user {
      EndCommitRevokesAll(s, p, x);
    }
  }

  lemma EndCommitDb(s: State, p: Proc)
    requires Inv(s) && MayEnd(s, p)
    ensures DbInv(EndCommitted(s, p).db)
  {
    var next := EndCommitted(s, p).db;
    forall x | x in next.tokens
      ensures OwnedWell(next, x)
    {
      EndCommitOwned(s, p, x);
    }
    forall x, y | x in next.tokens && y in next.tokens && x != y
      ensures InLine(next, x, y)
    {
      assert InLine(s.db, x, y);
    }
  }

  lemma EndCommitKeeps(s: State, p: Proc)
    requires Inv(s) && MayEnd(s, p)
    ensures Inv(EndCommitted(s, p))
  {
    var task := TaskOf(s, p);
    assert TaskWell(s, task);
    var t := EndCommitted(s, p);
    EndCommitDb(s, p);
    forall q | q != p
      ensures TaskOf(t, q) == TaskOf(s, q) && TaskWell(t, TaskOf(t, q))
    {
      assert TaskWell(s, TaskOf(s, q)) && Compatible(task, TaskOf(s, q));
      EndedTask(s, t, task, TaskOf(s, q));
    }
    CommitKeeps(s, t, p);
  }

  /** A commit on one account's row disturbs no transaction locked on another's. */
  lemma EndedTask(s: State, t: State, ended: Task, task: Task)
    requires ended.Ending? || ended.EndingRevoked?
    requires TaskWell(s, ended) && TaskWell(s, task) && Compatible(ended, task)
    requires t.seen == s.seen && t.hashes == s.hashes && t.now == s.now
    requires t.db.users == s.db.users[ended.user := ended.after]
    requires t.db.tokens ==
      if ended.EndingRevoked? then RevokeTokens(s.db.tokens, ended.doomed, ended.at, WhyRevoked(ended.cause))
      else s.db.tokens
    ensures TaskWell(t, task)
  {
    match task
    case RefreshRedeemed(x, u, _, _) => assert u != ended.user;
    case EndingRevoked(u, _, _, _, _) => assert u != ended.user;
    case _ =>
  }

  /** Every step keeps the invariant. */
  lemma StepKeeps(s: State, step: Step)
    requires Inv(s) && Enabled(s, step)
    ensures Inv(Apply(s, step))
  {
    match step
    case LoginCommit(_, _, _, _) => LoginCommitKeeps(s, step);
    case RefreshCommit(p, newToken, expires, accessExpires) => RefreshCommitKeeps(s, p, newToken, expires,
      accessExpires);
    case RefreshOwnerGone(p) => OwnerNeverGone(s, p);
    case Logout(token) => LogoutKeeps(s, token);
    case Purge(token) => PurgeKeeps(s, token);
    case EndCommit(p) => EndCommitKeeps(s, p);
    case Tick => QuietStepKeeps(s, step);
    case LoginRead(_, _) => QuietStepKeeps(s, step);
    case LoginClaim(_) => QuietStepKeeps(s, step);
    case LoginReject(_) => QuietStepKeeps(s, step);
    case ChangeRead(_, _) => QuietStepKeeps(s, step);
    case ChangeClaim(_) => QuietStepKeeps(s, step);
    case ChangeReject(_) => QuietStepKeeps(s, step);
    case ChangeWrite(p, newHash) => ChangeWriteKeeps(s, p, newHash);
    case BlastBegin(_) => BeginStepKeeps(s, step);
    case ResetBegin(p, u, newHash) => ResetBeginKeeps(s, p, u, newHash);
    case EditBegin(_, _, _, _) => BeginStepKeeps(s, step);
    case RevokeAll(p) => RevokeAllKeeps(s, p);
    case RefreshRead(_, _) => RefreshStepKeeps(s, step);
    case LockOwner(_) => RefreshStepKeeps(s, step);
    case Redeem(_) => RefreshStepKeeps(s, step);
    case RedeemMiss(_) => RefreshStepKeeps(s, step);
    case Lookup(_) => RefreshStepKeeps(s, step);
    case RefusedDone(_) => RefreshStepKeeps(s, step);
    case Abort(_) => RefreshStepKeeps(s, step);
  }

  /** Before any login: accounts, no tokens, nothing in flight. */
  ghost predicate Start(s: State) {
    && s.db.tokens == map[] && s.minted == {}
    && (forall p :: TaskOf(s, p) == Idle)
    && (forall u :: u in s.db.users ==> s.db.users[u].hash in s.hashes)
  }

  /** The invariant holds in every reachable state. */
  lemma {:induction false} RunKeeps(s: State, steps: seq<Step>, t: State)
    requires Inv(s) && Run(s, steps, t)
    ensures Inv(t)
    decreases steps
  {
    if steps != [] {
      StepKeeps(s, steps[0]);
      RunKeeps(Apply(s, steps[0]), steps[1..], t);
    }
  }

  lemma StartWell(s: State)
    requires Start(s)
    ensures Inv(s)
  {
  }
}
