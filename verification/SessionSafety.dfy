/** What the session protocol guarantees over whole runs, in every interleaving. */
module SessionSafety {
  import opened Wrappers
  import opened SessionStore
  import opened SessionSteps
  import opened SessionInvariant

  // Runs by position

  ghost predicate AllEnabled(s: State, steps: seq<Step>)
    decreases steps
  {
    steps == [] || (Enabled(s, steps[0]) && AllEnabled(Apply(s, steps[0]), steps[1..]))
  }

  /** The state in which the i-th step is taken. */
  ghost function StateAt(s: State, steps: seq<Step>, i: nat): State
    requires i <= |steps| && AllEnabled(s, steps)
    decreases i
  {
    if i == 0 then s else StateAt(Apply(s, steps[0]), steps[1..], i - 1)
  }

  lemma {:induction false} RunTo(s: State, steps: seq<Step>, j: nat)
    requires j <= |steps| && AllEnabled(s, steps)
    ensures Run(s, steps[..j], StateAt(s, steps, j))
    ensures j < |steps| ==> Enabled(StateAt(s, steps, j), steps[j])
    decreases j
  {
    if j > 0 {
      RunTo(Apply(s, steps[0]), steps[1..], j - 1);
      assert steps[..j][1..] == steps[1..][..j - 1];
    }
  }

  lemma {:induction false} RunBetween(s: State, steps: seq<Step>, i: nat, j: nat)
    requires i <= j <= |steps| && AllEnabled(s, steps)
    ensures Run(StateAt(s, steps, i), steps[i..j], StateAt(s, steps, j))
    decreases i
  {
    if i == 0 {
      RunTo(s, steps, j);
      assert steps[0..j] == steps[..j];
    } else {
      RunBetween(Apply(s, steps[0]), steps[1..], i - 1, j - 1);
      assert steps[1..][i - 1..j - 1] == steps[i..j];
    }
  }

  /** One step taken, the rest of the way lies ahead. */
  lemma RunPast(s: State, steps: seq<Step>, i: nat, j: nat)
    requires i < j <= |steps| && AllEnabled(s, steps) && Inv(s)
    ensures Inv(StateAt(s, steps, i)) && Enabled(StateAt(s, steps, i), steps[i])
    ensures Inv(StateAt(s, steps, j))
    ensures Run(Apply(StateAt(s, steps, i), steps[i]), steps[i + 1..j], StateAt(s, steps, j))
  {
    RunTo(s, steps, i);
    RunKeeps(s, steps[..i], StateAt(s, steps, i));
    RunTo(s, steps, j);
    RunKeeps(s, steps[..j], StateAt(s, steps, j));
    RunBetween(s, steps, i, j);
    assert steps[i..j][0] == steps[i] && steps[i..j][1..] == steps[i + 1..j];
  }

  // Ended sessions stay ended

  ghost predicate NoOlder(s: State, t: State) {
    forall u :: u in s.db.users ==> u in t.db.users && t.db.users[u].version >= s.db.users[u].version
  }

  lemma StepNoOlder(s: State, step: Step)
    requires Inv(s) && Enabled(s, step)
    ensures NoOlder(s, Apply(s, step))
  {
    if step.EndCommit? {
      assert TaskWell(s, TaskOf(s, step.p));
    }
  }

  lemma {:induction false} RunNoOlder(s: State, steps: seq<Step>, t: State)
    requires Inv(s) && Run(s, steps, t)
    ensures NoOlder(s, t)
    decreases steps
  {
    if steps != [] {
      StepNoOlder(s, steps[0]);
      StepKeeps(s, steps[0]);
      RunNoOlder(Apply(s, steps[0]), steps[1..], t);
    }
  }

  /** Nothing of version v or older works for the account: no access token, no refresh token, and
      no login or rotation in flight carries it. */
  ghost predicate Ended(s: State, u: UserId, v: nat) {
    && (forall a: Access :: a.owner == u && a.version <= v ==> !Authentic(s.db, s.now, a))
    && (forall x :: x in s.db.tokens && s.db.tokens[x].owner == u && s.db.tokens[x].version <= v ==>
      !Redeemable(s.db, s.now, x))
    && (forall p: Proc {:trigger TaskOf(s, p)} :: TaskOf(s, p).LoginClaimed? && TaskOf(s, p).user == u ==>
      TaskOf(s, p).version > v)
    && (forall p: Proc {:trigger TaskOf(s, p)} :: TaskOf(s, p).RefreshRedeemed? && TaskOf(s, p).user == u ==>
      TaskOf(s, p).version > v)
  }

  lemma NewerEnds(s: State, u: UserId, v: nat)
    requires Inv(s) && u in s.db.users && s.db.users[u].version > v
    ensures Ended(s, u, v)
  {
    forall p: Proc | (TaskOf(s, p).LoginClaimed? || TaskOf(s, p).RefreshRedeemed?) && TaskOf(s, p).user == u
      ensures TaskOf(s, p).version > v
    {
      assert TaskWell(s, TaskOf(s, p));
    }
  }

  lemma NewerEndsForGood(s: State, steps: seq<Step>, t: State, u: UserId, v: nat)
    requires Inv(s) && Run(s, steps, t) && u in s.db.users && s.db.users[u].version > v
    ensures Ended(t, u, v)
  {
    RunNoOlder(s, steps, t);
    RunKeeps(s, steps, t);
    NewerEnds(t, u, v);
  }

  lemma EndingMovesOn(s: State, p: Proc)
    requires Inv(s) && MayEnd(s, p) && TaskOf(s, p).EndingRevoked?
    ensures var u := TaskOf(s, p).user; var t := EndCommitted(s, p);
      Inv(t) && u in s.db.users && u in t.db.users && t.db.users[u].version == s.db.users[u].version + 1
  {
    assert TaskWell(s, TaskOf(s, p));
    EndCommitKeeps(s, p);
  }

  /** Once a session-ending transaction of an account commits at version v, everything minted
      under v or earlier is refused in every later state of every run, whatever was in flight. */
  lemma SessionsEndForGood(s: State, p: Proc, steps: seq<Step>, t: State)
    requires Inv(s) && MayEnd(s, p) && TaskOf(s, p).EndingRevoked?
    requires Run(EndCommitted(s, p), steps, t)
    ensures var u := TaskOf(s, p).user;
      u in s.db.users && Ended(t, u, s.db.users[u].version)
  {
    EndingMovesOn(s, p);
    var u := TaskOf(s, p).user;
    NewerEndsForGood(EndCommitted(s, p), steps, t, u, s.db.users[u].version);
  }

  /** The commit also leaves no active refresh token of the account, and every session that exists
      at that moment, a login that just finished included, is of the version it ends. */
  lemma NothingActiveLeft(s: State, p: Proc)
    requires Inv(s) && MayEnd(s, p) && TaskOf(s, p).EndingRevoked?
    ensures var u := TaskOf(s, p).user; var t := EndCommitted(s, p);
      && ActiveTokens(t.db, u) == {}
      && (forall a :: a in s.minted && a.owner == u ==> a.version <= s.db.users[u].version)
      && (forall q :: q != p ==> ExclusiveOn(TaskOf(t, q)) != Some(u) && SharedOn(TaskOf(t, q)) != Some(u))
  {
    var u := TaskOf(s, p).user;
    var t := EndCommitted(s, p);
    forall x | x in t.db.tokens && t.db.tokens[x].owner == u
      ensures t.db.tokens[x].revoked.Some?
    {
      EndCommitRevokesAll(s, p, x);
    }
    forall q | q != p
      ensures ExclusiveOn(TaskOf(t, q)) != Some(u) && SharedOn(TaskOf(t, q)) != Some(u)
    {
      assert Compatible(TaskOf(s, p), TaskOf(s, q));
    }
  }

  // Passwords

  /** Hash h is spent for the account: not stored, and not about to be. */
  ghost predicate Spent(s: State, u: UserId, h: Hash) {
    && u in s.db.users && s.db.users[u].hash != h && h in s.hashes
    && forall p: Proc {:trigger TaskOf(s, p)} |
         (TaskOf(s, p).Ending? || TaskOf(s, p).EndingRevoked?) && TaskOf(s, p).user == u ::
         TaskOf(s, p).after.hash != h
  }

  /** A users row about to be written carries the stored hash, the one already pending, or one
      never stored before. */
  lemma PendingHashes(s: State, step: Step, p: Proc)
    requires Enabled(s, step)
    requires TaskOf(Apply(s, step), p).Ending? || TaskOf(Apply(s, step), p).EndingRevoked?
    ensures var task := TaskOf(Apply(s, step), p);
      || ((TaskOf(s, p).Ending? || TaskOf(s, p).EndingRevoked?) && TaskOf(s, p).user == task.user &&
        TaskOf(s, p).after == task.after)
      || task.after.hash !in s.hashes
      || (task.user in s.db.users && task.after.hash == s.db.users[task.user].hash)
  {
  }

  lemma StepKeepsSpent(s: State, step: Step, u: UserId, h: Hash)
    requires Inv(s) && Enabled(s, step) && Spent(s, u, h)
    ensures Spent(Apply(s, step), u, h)
  {
    var t := Apply(s, step);
    if step.EndCommit? {
      assert TaskWell(s, TaskOf(s, step.p));
    }
    assert u in t.db.users && t.db.users[u].hash != h && h in t.hashes;
    forall p: Proc | (TaskOf(t, p).Ending? || TaskOf(t, p).EndingRevoked?) && TaskOf(t, p).user == u
      ensures TaskOf(t, p).after.hash != h
    {
      PendingHashes(s, step, p);
    }
  }

  lemma {:induction false} RunKeepsSpent(s: State, steps: seq<Step>, t: State, u: UserId, h: Hash)
    requires Inv(s) && Run(s, steps, t) && Spent(s, u, h)
    ensures Spent(t, u, h)
    decreases steps
  {
    if steps != [] {
      StepKeepsSpent(s, steps[0], u, h);
      StepKeeps(s, steps[0]);
      RunKeepsSpent(Apply(s, steps[0]), steps[1..], t, u, h);
    }
  }

  /** While a login or a change holds its claim, the stored hash is the one whose password was
      checked; a pending own change still replaces exactly that hash. */
  lemma ClaimedHashIsStored(s: State, p: Proc)
    requires Inv(s)
    ensures match TaskOf(s, p)
      case LoginClaimed(u, h, v) => Claimable(s.db, u, h) && s.db.users[u].version == v
      case ChangeClaimed(u, h) => Claimable(s.db, u, h)
      case Ending(u, OwnChange(h), _) => u in s.db.users && s.db.users[u].hash == h
      case EndingRevoked(u, OwnChange(h), _, _, _) => u in s.db.users && s.db.users[u].hash == h
      case _ => true
  {
    assert TaskWell(s, TaskOf(s, p));
  }

  /** Process p is about to replace hash h of the account, be it an own change or a reset. */
  ghost predicate Replaces(s: State, p: Proc, u: UserId, h: Hash) {
    var task := TaskOf(s, p);
    && MayEnd(s, p) && task.user == u
    && u in s.db.users && s.db.users[u].hash == h && task.after.hash != h
  }

  /** Replacing a hash always ends the sessions, and spends the hash. */
  lemma ReplacingSpends(s: State, p: Proc, u: UserId, h: Hash)
    requires Inv(s) && Replaces(s, p, u, h)
    ensures TaskOf(s, p).EndingRevoked? && Spent(EndCommitted(s, p), u, h)
  {
    var changed := EndCommitted(s, p);
    assert TaskWell(s, TaskOf(s, p));
    forall r: Proc
      ensures !((TaskOf(changed, r).Ending? || TaskOf(changed, r).EndingRevoked?) && TaskOf(changed, r).user == u)
    {
      assert r != p ==> Compatible(TaskOf(s, p), TaskOf(s, r));
    }
  }

  /** Once a hash is replaced, by whatever transaction, no request that verified a password against
      it succeeds: in every later state it is not stored, so no login and no change can claim it,
      and none holds a claim on it. */
  lemma OneChangePerHash(s: State, p: Proc, u: UserId, h: Hash, steps: seq<Step>, t: State)
    requires Inv(s) && Replaces(s, p, u, h) && Run(EndCommitted(s, p), steps, t)
    ensures !Claimable(t.db, u, h)
    ensures forall q: Proc {:trigger TaskOf(t, q)} ::
      && !(TaskOf(t, q).LoginClaimed? && TaskOf(t, q).user == u && TaskOf(t, q).hash == h)
      && !(TaskOf(t, q).ChangeClaimed? && TaskOf(t, q).user == u && TaskOf(t, q).hash == h)
    ensures forall q: Proc :: !OwnChangeFrom(t, q, u, h)
  {
    ReplacingSpends(s, p, u, h);
    EndCommitKeeps(s, p);
    RunKeepsSpent(EndCommitted(s, p), steps, t, u, h);
    RunKeeps(EndCommitted(s, p), steps, t);
    forall q: Proc
      ensures !(TaskOf(t, q).LoginClaimed? && TaskOf(t, q).user == u && TaskOf(t, q).hash == h)
      ensures !(TaskOf(t, q).ChangeClaimed? && TaskOf(t, q).user == u && TaskOf(t, q).hash == h)
      ensures !OwnChangeFrom(t, q, u, h)
    {
      ClaimedHashIsStored(t, q);
    }
  }

  /** Of all changes begun from one password at most one is committed in a run. */
  lemma AtMostOneChange(s: State, steps: seq<Step>, i: nat, k: nat, u: UserId, h: Hash)
    requires Inv(s) && AllEnabled(s, steps) && i < |steps| && k < |steps|
    requires steps[i].EndCommit? && OwnChangeFrom(StateAt(s, steps, i), steps[i].p, u, h)
    requires steps[k].EndCommit? && OwnChangeFrom(StateAt(s, steps, k), steps[k].p, u, h)
    ensures i == k
  {
    if i < k {
      NoSecondChange(s, steps, i, k, u, h);
    } else if k < i {
      NoSecondChange(s, steps, k, i, u, h);
    }
  }

  ghost predicate OwnChangeFrom(s: State, p: Proc, u: UserId, h: Hash) {
    var task := TaskOf(s, p);
    (task.Ending? || task.EndingRevoked?) && task.user == u && task.cause == OwnChange(h)
  }

  /** From an ending that commits at one position, the run goes on to any later one. */
  lemma RunPastEnd(s: State, steps: seq<Step>, i: nat, j: nat, m: State, t: State)
    requires Inv(s) && AllEnabled(s, steps) && i < j <= |steps| && steps[i].EndCommit?
    requires m == StateAt(s, steps, i) && t == StateAt(s, steps, j)
    ensures Inv(m) && MayEnd(m, steps[i].p) && Run(EndCommitted(m, steps[i].p), steps[i + 1..j], t)
  {
    RunPast(s, steps, i, j);
    assert Apply(m, steps[i]) == EndCommitted(m, steps[i].p);
  }

  lemma ChangeSpendsHash(m: State, p: Proc, u: UserId, h: Hash, steps: seq<Step>, t: State)
    requires Inv(m) && MayEnd(m, p) && OwnChangeFrom(m, p, u, h) && Run(EndCommitted(m, p), steps, t)
    ensures forall q: Proc :: !OwnChangeFrom(t, q, u, h)
  {
    assert TaskWell(m, TaskOf(m, p));
    OneChangePerHash(m, p, u, h, steps, t);
  }

  lemma NoSecondChange(s: State, steps: seq<Step>, i: nat, k: nat, u: UserId, h: Hash)
    requires Inv(s) && AllEnabled(s, steps) && i < k < |steps|
    requires steps[i].EndCommit? && OwnChangeFrom(StateAt(s, steps, i), steps[i].p, u, h)
    ensures forall q: Proc :: !OwnChangeFrom(StateAt(s, steps, k), q, u, h)
  {
    var m, t := StateAt(s, steps, i), StateAt(s, steps, k);
    RunPastEnd(s, steps, i, k, m, t);
    ChangeSpendsHash(m, steps[i].p, u, h, steps[i + 1..k], t);
  }

  /** A login races the replacement of the hash it verified. If it commits anywhere in the run, then
      before the replacement, and by the end of the run its session is over. */
  lemma LoginRacesChange(s: State, steps: seq<Step>, i: nat, k: nat, u: UserId, h: Hash)
    requires Inv(s) && AllEnabled(s, steps) && i < |steps| && k < |steps|
    requires steps[k].EndCommit? && Replaces(StateAt(s, steps, k), steps[k].p, u, h)
    requires steps[i].LoginCommit?
    requires var login := TaskOf(StateAt(s, steps, i), steps[i].p);
      login.LoginClaimed? && login.user == u && login.hash == h
    ensures i < k
    ensures Ended(StateAt(s, steps, |steps|), u, TaskOf(StateAt(s, steps, i), steps[i].p).version)
  {
    if k < i {
      NoLoginAfter(s, steps, i, k, u, h);
    } else {
      assert i != k;
      LoginBeforeEnds(s, steps, i, k, u, h);
    }
  }

  lemma NoLoginAfter(s: State, steps: seq<Step>, i: nat, k: nat, u: UserId, h: Hash)
    requires Inv(s) && AllEnabled(s, steps) && k < i < |steps|
    requires steps[k].EndCommit? && Replaces(StateAt(s, steps, k), steps[k].p, u, h)
    ensures forall q: Proc {:trigger TaskOf(StateAt(s, steps, i), q)} ::
      var login := TaskOf(StateAt(s, steps, i), q);
      !(login.LoginClaimed? && login.user == u && login.hash == h)
  {
    var a, m := StateAt(s, steps, i), StateAt(s, steps, k);
    RunPastEnd(s, steps, k, i, m, a);
    OneChangePerHash(m, steps[k].p, u, h, steps[k + 1..i], a);
  }

  lemma LoginBeforeEnds(s: State, steps: seq<Step>, i: nat, k: nat, u: UserId, h: Hash)
    requires Inv(s) && AllEnabled(s, steps) && i < k < |steps|
    requires steps[k].EndCommit? && Replaces(StateAt(s, steps, k), steps[k].p, u, h)
    requires steps[i].LoginCommit?
    requires TaskOf(StateAt(s, steps, i), steps[i].p).LoginClaimed? &&
      TaskOf(StateAt(s, steps, i), steps[i].p).user == u
    ensures Ended(StateAt(s, steps, |steps|), u, TaskOf(StateAt(s, steps, i), steps[i].p).version)
  {
    var a, m, t := StateAt(s, steps, i), StateAt(s, steps, k), StateAt(s, steps, |steps|);
    RunPastLogin(s, steps, i, k, a, m, u);
    RunPastEnd(s, steps, k, |steps|, m, t);
    ReplacedEnds(m, steps[k].p, u, h, steps[k + 1..|steps|], t, TaskOf(a, steps[i].p).version);
  }

  /** A session that commits carries no newer version than its account has later. */
  lemma RunPastLogin(s: State, steps: seq<Step>, i: nat, j: nat, a: State, t: State, u: UserId)
    requires Inv(s) && AllEnabled(s, steps) && i < j <= |steps| && steps[i].LoginCommit?
    requires a == StateAt(s, steps, i) && t == StateAt(s, steps, j)
    requires TaskOf(a, steps[i].p).LoginClaimed? && TaskOf(a, steps[i].p).user == u
    ensures u in t.db.users && TaskOf(a, steps[i].p).version <= t.db.users[u].version
  {
    RunPast(s, steps, i, j);
    LoginVersion(a, steps[i], steps[i + 1..j], t, u);
  }

  lemma LoginVersion(s: State, step: Step, steps: seq<Step>, t: State, u: UserId)
    requires Inv(s) && step.LoginCommit? && Enabled(s, step) && Run(Apply(s, step), steps, t) &&
      TaskOf(s, step.p).user == u
    ensures u in t.db.users && TaskOf(s, step.p).version <= t.db.users[u].version
  {
    assert TaskWell(s, TaskOf(s, step.p));
    StepNoOlder(s, step);
    StepKeeps(s, step);
    RunNoOlder(Apply(s, step), steps, t);
  }

  lemma ReplacedEnds(m: State, p: Proc, u: UserId, h: Hash, steps: seq<Step>, t: State, v: nat)
    requires Inv(m) && Replaces(m, p, u, h) && Run(EndCommitted(m, p), steps, t) && v <= m.db.users[u].version
    ensures Ended(t, u, v)
  {
    ReplacingSpends(m, p, u, h);
    SessionsEndForGood(m, p, steps, t);
    EndedBelow(t, u, m.db.users[u].version, v);
  }

  lemma EndedBelow(t: State, u: UserId, v: nat, w: nat)
    requires Ended(t, u, v) && w <= v
    ensures Ended(t, u, w)
  {
  }

  // Rotation chains

  /** In every reachable state the tokens of one login stand in one line by generation. No two are of
      one generation; what replaced a token is one generation on and found it rotated out; only the
      last can be redeemed; and generation 0 is the token the login started from. */
  lemma OneChainPerLogin(s: State, steps: seq<Step>, t: State, x: TokenId, y: TokenId)
    requires Start(s) && Run(s, steps, t)
    requires x in t.db.tokens && y in t.db.tokens && t.db.tokens[x].login == t.db.tokens[y].login
    ensures t.db.tokens[x].generation == t.db.tokens[y].generation ==> x == y
    ensures Redeemable(t.db, t.now, x) && x != y ==>
      t.db.tokens[y].generation < t.db.tokens[x].generation && !Redeemable(t.db, t.now, y)
    ensures t.db.tokens[x].parent == Some(y) ==>
      t.db.tokens[x].generation == t.db.tokens[y].generation + 1 && ReplacedBy(t.db.tokens[y], t.db.tokens[x])
    ensures t.db.tokens[x].generation == 0 <==> t.db.tokens[x].login == x
    ensures t.db.tokens[x].generation == 0 <==> t.db.tokens[x].parent.None?
  {
    StartWell(s);
    RunKeeps(s, steps, t);
    assert OwnedWell(t.db, x) && OwnedWell(t.db, y);
    assert x != y ==> InLine(t.db, x, y);
  }

  /** Tokens of one login, each the one that replaced the one before. */
  ghost predicate Line(db: Db, line: seq<TokenId>) {
    && line != []
    && (forall k :: 0 <= k < |line| ==> line[k] in db.tokens && db.tokens[line[k]].generation == k)
    && (forall k :: 0 < k < |line| ==> db.tokens[line[k]].parent == Some(line[k - 1]))
  }

  /** y is of x's login, and of its generation or an earlier one. */
  ghost predicate Earlier(db: Db, y: TokenId, x: TokenId)
    requires x in db.tokens
  {
    y in db.tokens && db.tokens[y].login == db.tokens[x].login && db.tokens[y].generation <= db.tokens[x].generation
  }

  ghost predicate ParentsThere(db: Db) {
    forall t :: t in db.tokens && db.tokens[t].parent.Some? ==> db.tokens[t].parent.value in db.tokens
  }

  lemma StepKeepsParents(s: State, step: Step)
    requires Enabled(s, step) && !step.Purge? && ParentsThere(s.db)
    ensures ParentsThere(Apply(s, step).db)
  {
    if step.RefreshCommit? {
      assert TaskOf(s, step.p).token in s.db.tokens;
    }
    assert forall t :: t in s.db.tokens ==> t in Apply(s, step).db.tokens;
  }

  lemma {:induction false} RunKeepsParents(s: State, steps: seq<Step>, t: State)
    requires Inv(s) && Run(s, steps, t) && ParentsThere(s.db) && forall k :: 0 <= k < |steps| ==> !steps[k].Purge?
    ensures ParentsThere(t.db)
    decreases steps
  {
    if steps != [] {
      StepKeepsParents(s, steps[0]);
      StepKeeps(s, steps[0]);
      RunKeepsParents(Apply(s, steps[0]), steps[1..], t);
    }
  }

  lemma {:induction false} LineTo(db: Db, x: TokenId) returns (line: seq<TokenId>)
    requires DbInv(db) && ParentsThere(db) && x in db.tokens
    ensures Line(db, line) && line[|line| - 1] == x && |line| == db.tokens[x].generation + 1
    ensures line[0] == db.tokens[x].login
    decreases db.tokens[x].generation
  {
    assert OwnedWell(db, x);
    if db.tokens[x].generation == 0 {
      line := [x];
    } else {
      var rest := LineTo(db, db.tokens[x].parent.value);
      line := rest + [x];
      LineGrows(db, rest, x);
    }
  }

  lemma LineGrows(db: Db, line: seq<TokenId>, x: TokenId)
    requires Line(db, line) && x in db.tokens && db.tokens[x].generation == |line| &&
      db.tokens[x].parent == Some(line[|line| - 1])
    ensures Line(db, line + [x])
  {
  }

  /** Until the purge takes old tokens out, the line is unbroken: it leads from the token the login
      started from, rotation by rotation, to the token at hand, and passes every token of the login
      up to its generation. */
  lemma LineFromLogin(s: State, steps: seq<Step>, t: State, x: TokenId) returns (line: seq<TokenId>)
    requires Start(s) && Run(s, steps, t) && forall k :: 0 <= k < |steps| ==> !steps[k].Purge?
    requires x in t.db.tokens
    ensures Line(t.db, line) && line[0] == t.db.tokens[x].login && line[|line| - 1] == x
    ensures forall y :: Earlier(t.db, y, x) ==> y in line
  {
    StartWell(s);
    RunKeeps(s, steps, t);
    RunKeepsParents(s, steps, t);
    line := LineTo(t.db, x);
    forall y | Earlier(t.db, y, x)
      ensures y in line
    {
      var z := line[t.db.tokens[y].generation];
      LineOneLogin(t.db, line, t.db.tokens[y].generation);
      assert y != z ==> InLine(t.db, y, z);
    }
  }

  lemma {:induction false} LineOneLogin(db: Db, line: seq<TokenId>, k: nat)
    requires DbInv(db) && Line(db, line) && k < |line|
    ensures db.tokens[line[k]].login == db.tokens[line[|line| - 1]].login
    decreases |line| - k
  {
    if k + 1 < |line| {
      LineOneLogin(db, line, k + 1);
      assert OwnedWell(db, line[k + 1]);
    }
  }

  /** Two rotations of one token are never both in flight, so at most one of the requests that
      present it mints a successor. */
  lemma OneRotationAtATime(s: State, p: Proc, q: Proc)
    requires Inv(s) && TaskOf(s, p).RefreshRedeemed? && TaskOf(s, q).RefreshRedeemed? &&
      TaskOf(s, p).token == TaskOf(s, q).token
    ensures p == q
  {
    assert TaskOf(s, p).token in RowsOf(TaskOf(s, p)) && TaskOf(s, q).token in RowsOf(TaskOf(s, q));
    assert p != q ==> Compatible(TaskOf(s, p), TaskOf(s, q));
  }

  /** A step that does not itself take the successor y of token x from its holder: no logout with y,
      no rotation of y, and no ending of the owner's sessions except one over a replay of x. */
  ghost predicate Spares(s: State, step: Step, x: TokenId, y: TokenId, u: UserId)
    requires Enabled(s, step)
  {
    match step
    case Logout(t) => t != y
    case RefreshCommit(p, _, _, _) => TaskOf(s, p).token != y
    case EndCommit(p) => TaskOf(s, p).EndingRevoked? && TaskOf(s, p).user == u ==> TaskOf(s, p).cause == Blast(x)
    case _ => true
  }

  ghost predicate AllSpare(s: State, steps: seq<Step>, x: TokenId, y: TokenId, u: UserId)
    decreases steps
  {
    steps == [] ||
    (Enabled(s, steps[0]) && Spares(s, steps[0], x, y, u) && AllSpare(Apply(s, steps[0]), steps[1..], x, y, u))
  }

  /** x was rotated out at the given time, and y of owner u is active. */
  ghost predicate Succeeded(s: State, x: TokenId, y: TokenId, u: UserId, at: nat, expires: nat) {
    && x in s.db.tokens && s.db.tokens[x].revoked == Some(Revocation(at, Rotated)) && at < s.db.tokens[x].expires
    && Unrevoked(s.db, y) && s.db.tokens[y].owner == u && s.db.tokens[y].expires == expires
  }

  lemma StepKeepsSuccessor(s: State, step: Step, x: TokenId, y: TokenId, u: UserId, at: nat, expires: nat)
    requires Inv(s) && Enabled(s, step) && Spares(s, step, x, y, u) && Succeeded(s, x, y, u, at, expires)
    requires s.now <= at + REUSE_GRACE && s.now < expires
    ensures Succeeded(Apply(s, step), x, y, u, at, expires)
  {
    match step
    case RefreshOwnerGone(p) => OwnerNeverGone(s, p);
    case EndCommit(p) => EndingKeepsSuccessor(s, p, x, y, u, at, expires);
    case RefreshCommit(_, _, _, _) => IssueKeepsSuccessor(s, step, x, y, u, at, expires);
    case LoginCommit(_, _, _, _) => IssueKeepsSuccessor(s, step, x, y, u, at, expires);
    case _ => OtherStepKeepsSuccessor(s, step, x, y, u, at, expires);
  }

  lemma OtherStepKeepsSuccessor(s: State, step: Step, x: TokenId, y: TokenId, u: UserId, at: nat, expires: nat)
    requires Enabled(s, step) && Spares(s, step, x, y, u) && Succeeded(s, x, y, u, at, expires)
    requires s.now <= at + REUSE_GRACE && s.now < expires
    requires !step.RefreshOwnerGone? && !step.EndCommit? && !step.RefreshCommit? && !step.LoginCommit?
    ensures Succeeded(Apply(s, step), x, y, u, at, expires)
  {
    if step.Purge? {
      assert Apply(s, step).db.tokens == s.db.tokens - {step.token};
    }
  }

  lemma IssueKeepsSuccessor(s: State, step: Step, x: TokenId, y: TokenId, u: UserId, at: nat, expires: nat)
    requires SeenWell(s) && Enabled(s, step) && Spares(s, step, x, y, u) && Succeeded(s, x, y, u, at, expires)
    requires step.RefreshCommit? || step.LoginCommit?
    ensures Succeeded(Apply(s, step), x, y, u, at, expires)
  {
    assert x in s.seen && y in s.seen;
  }

  lemma EndingKeepsSuccessor(s: State, p: Proc, x: TokenId, y: TokenId, u: UserId, at: nat, expires: nat)
    requires Inv(s) && MayEnd(s, p) && Succeeded(s, x, y, u, at, expires) && s.now <= at + REUSE_GRACE
    requires TaskOf(s, p).EndingRevoked? && TaskOf(s, p).user == u ==> TaskOf(s, p).cause == Blast(x)
    ensures Succeeded(EndCommitted(s, p), x, y, u, at, expires)
  {
    assert TaskWell(s, TaskOf(s, p));
  }

  lemma StepNotBack(s: State, step: Step)
    requires Enabled(s, step)
    ensures s.now <= Apply(s, step).now
  {
  }

  lemma {:induction false} RunNotBack(s: State, steps: seq<Step>, t: State)
    requires Run(s, steps, t)
    ensures s.now <= t.now
    decreases steps
  {
    if steps != [] {
      StepNotBack(s, steps[0]);
      RunNotBack(Apply(s, steps[0]), steps[1..], t);
    }
  }

  lemma {:induction false} RunKeepsSuccessor(s: State, steps: seq<Step>, t: State, x: TokenId, y: TokenId, u: UserId,
      at: nat, expires: nat)
    requires Inv(s) && Run(s, steps, t) && AllSpare(s, steps, x, y, u) && Succeeded(s, x, y, u, at, expires)
    requires t.now <= at + REUSE_GRACE && t.now < expires
    ensures Inv(t) && Succeeded(t, x, y, u, at, expires)
    decreases steps
  {
    if steps != [] {
      RunNotBack(s, steps, t);
      StepKeepsSuccessor(s, steps[0], x, y, u, at, expires);
      StepKeeps(s, steps[0]);
      RunKeepsSuccessor(Apply(s, steps[0]), steps[1..], t, x, y, u, at, expires);
    }
  }

  /** The losers of a race for token x end nothing. From the rotation that minted y, over any run
      inside the grace window in which nobody logs y out, rotates it or ends the owner's sessions for
      a reason of his own, every lookup of x is told that it raced and names no account, no ending
      over x is under way, and y stays redeemable. */
  lemma LoserEndsNothing(s: State, p: Proc, y: TokenId, expires: nat, accessExpires: nat, steps: seq<Step>, t: State)
    requires Inv(s) && Enabled(s, RefreshCommit(p, y, expires, accessExpires))
    requires var x := TaskOf(s, p).token; var start := Apply(s, RefreshCommit(p, y, expires, accessExpires));
      Run(start, steps, t) && AllSpare(start, steps, x, y, TaskOf(s, p).user)
    requires t.now <= TaskOf(s, p).at + REUSE_GRACE && t.now < expires
    ensures Redeemable(t.db, t.now, y)
    ensures Refusal(t.db, t.now, TaskOf(s, p).token) == (Raced, None)
    ensures forall q: Proc {:trigger TaskOf(t, q)} ::
      && (TaskOf(t, q).Refused? && TaskOf(t, q).token == TaskOf(s, p).token ==> TaskOf(t, q).blast.None?)
      && (TaskOf(t, q).Ending? || TaskOf(t, q).EndingRevoked? ==> TaskOf(t, q).cause != Blast(TaskOf(s, p).token))
  {
    var x, u, at := TaskOf(s, p).token, TaskOf(s, p).user, TaskOf(s, p).at;
    var start := Apply(s, RefreshCommit(p, y, expires, accessExpires));
    RotationSucceeds(s, p, y, expires, accessExpires);
    RunKeepsSuccessor(start, steps, t, x, y, u, at, expires);
    SuccessorIsSafe(t, x, y, u, at, expires);
  }

  lemma RotationSucceeds(s: State, p: Proc, y: TokenId, expires: nat, accessExpires: nat)
    requires Inv(s) && Enabled(s, RefreshCommit(p, y, expires, accessExpires))
    ensures var task := TaskOf(s, p); var start := Apply(s, RefreshCommit(p, y, expires, accessExpires));
      Inv(start) && Succeeded(start, task.token, y, task.user, task.at, expires)
  {
    assert TaskWell(s, TaskOf(s, p));
    StepKeeps(s, RefreshCommit(p, y, expires, accessExpires));
  }

  lemma SuccessorIsSafe(t: State, x: TokenId, y: TokenId, u: UserId, at: nat, expires: nat)
    requires Inv(t) && Succeeded(t, x, y, u, at, expires) && t.now <= at + REUSE_GRACE && t.now < expires
    ensures Redeemable(t.db, t.now, y) && Refusal(t.db, t.now, x) == (Raced, None)
    ensures forall q: Proc {:trigger TaskOf(t, q)} ::
      && (TaskOf(t, q).Refused? && TaskOf(t, q).token == x ==> TaskOf(t, q).blast.None?)
      && (TaskOf(t, q).Ending? || TaskOf(t, q).EndingRevoked? ==> TaskOf(t, q).cause != Blast(x))
  {
    assert OwnedWell(t.db, y) && OwnedWell(t.db, x);
    forall q: Proc
      ensures TaskOf(t, q).Refused? && TaskOf(t, q).token == x ==> TaskOf(t, q).blast.None?
      ensures TaskOf(t, q).Ending? || TaskOf(t, q).EndingRevoked? ==> TaskOf(t, q).cause != Blast(x)
    {
      assert TaskWell(t, TaskOf(t, q));
    }
  }

  /** A replay found after the grace window ends the account's sessions only while the session it
      came from is the current one: a token of an ended session never starts another blast. */
  lemma StaleReplayEndsNothing(s: State, p: Proc, u: UserId, v: nat)
    requires Inv(s) && TaskOf(s, p).RefreshMissed? && TaskOf(s, p).token in s.db.tokens
    requires s.db.tokens[TaskOf(s, p).token].owner == u && s.db.tokens[TaskOf(s, p).token].version <= v
    requires u in s.db.users && s.db.users[u].version > v
    ensures TaskOf(Apply(s, Lookup(p)), p).blast.None?
  {
    BlastOnlyOnReplay(s.db, s.now, TaskOf(s, p).token);
  }

  // Progress

  predicate InTransaction(task: Task) {
    task.LoginClaimed? || task.ChangeClaimed? || task.RefreshLocked? || task.RefreshMissed? || task.RefreshRedeemed? ||
    task.Ending? || task.EndingRevoked?
  }

  /** The next statement of process p's transaction. */
  predicate Advances(step: Step, p: Proc) {
    match step
    case LoginCommit(q, _, _, _) => q == p
    case ChangeWrite(q, _) => q == p
    case Redeem(q) => q == p
    case RedeemMiss(q) => q == p
    case Lookup(q) => q == p
    case RefreshCommit(q, _, _, _) => q == p
    case RevokeAll(q) => q == p
    case EndCommit(q) => q == p
    case _ => false
  }

  lemma Unused(used: set<nat>) returns (n: nat)
    ensures n !in used
  {
    if used == {} {
      n := 0;
    } else {
      var top := Largest(used);
      n := top + 1;
    }
  }

  lemma Largest(used: set<nat>) returns (n: nat)
    requires used != {}
    ensures n in used && forall m :: m in used ==> m <= n
    decreases |used|
  {
    var m :| m in used;
    if used == {m} {
      n := m;
    } else {
      assert |used - {m}| < |used| && forall k :: k in used ==> k == m || k in used - {m};
      n := Largest(used - {m});
      if n < m {
        n := m;
      }
    }
  }

  /** No deadlock: users rows are always locked before token rows, so whenever transactions are
      open, some open transaction can run its next statement without waiting. */
  lemma SomeoneAdvances(s: State)
    requires Inv(s) && exists p :: InTransaction(TaskOf(s, p))
    ensures exists p, step :: InTransaction(TaskOf(s, p)) && Advances(step, p) && Enabled(s, step)
  {
    if q :| TaskOf(s, q).RefreshRedeemed? {
      var x := Unused(s.seen);
      assert TaskWell(s, TaskOf(s, q));
      assert Advances(RefreshCommit(q, x, 0, 0), q) && Enabled(s, RefreshCommit(q, x, 0, 0));
    } else {
      var p :| InTransaction(TaskOf(s, p));
      var step := NextStatement(s, p);
      assert InTransaction(TaskOf(s, p)) && Advances(step, p) && Enabled(s, step);
    }
  }

  lemma NextStatement(s: State, p: Proc) returns (step: Step)
    requires Inv(s) && InTransaction(TaskOf(s, p)) && forall q :: !TaskOf(s, q).RefreshRedeemed?
    ensures Advances(step, p) && Enabled(s, step)
  {
    var task := TaskOf(s, p);
    assert TaskWell(s, task);
    match task
    case LoginClaimed(_, _, _) =>
      var x := Unused(s.seen);
      step := LoginCommit(p, x, 0, 0);
    case ChangeClaimed(_, _) =>
      var h := Unused(s.hashes);
      step := ChangeWrite(p, h);
    case RefreshLocked(x, _) =>
      if Redeemable(s.db, s.now, x) {
        RowNotHeld(s, p, x);
        step := Redeem(p);
      } else {
        step := RedeemMiss(p);
      }
    case RefreshMissed(_, _) => step := Lookup(p);
    case Ending(u, _, after) =>
      if after.version == s.db.users[u].version {
        step := EndCommit(p);
      } else {
        RowsNotHeld(s, p, u);
        step := RevokeAll(p);
      }
    case EndingRevoked(_, _, _, _, _) => step := EndCommit(p);
    case RefreshRedeemed(_, _, _, _) => assert false;
  }

  lemma RowNotHeld(s: State, p: Proc, x: TokenId)
    requires Inv(s) && TaskOf(s, p).RefreshLocked? && TaskOf(s, p).token == x && x in s.db.tokens
    requires forall q :: !TaskOf(s, q).RefreshRedeemed?
    ensures RowsFree(s, p, {x})
  {
    assert TaskWell(s, TaskOf(s, p));
    forall q | q != p
      ensures RowsOf(TaskOf(s, q)) !! {x}
    {
      assert Compatible(TaskOf(s, q), TaskOf(s, p)) && TaskWell(s, TaskOf(s, q));
    }
  }

  lemma RowsNotHeld(s: State, p: Proc, u: UserId)
    requires Inv(s) && TaskOf(s, p).Ending? && TaskOf(s, p).user == u
    requires forall q :: !TaskOf(s, q).RefreshRedeemed?
    ensures RowsFree(s, p, ActiveTokens(s.db, u))
  {
    forall q | q != p
      ensures RowsOf(TaskOf(s, q)) !! ActiveTokens(s.db, u)
    {
      assert Compatible(TaskOf(s, q), TaskOf(s, p)) && TaskWell(s, TaskOf(s, q));
    }
  }
}
