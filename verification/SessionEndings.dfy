/** What must end sessions does end them: a late replay, a logout, a change of the account. */
module SessionEndings {
  import opened Wrappers
  import opened SessionStore
  import opened SessionSteps
  import opened SessionInvariant
  import opened SessionSafety

  // A late replay

  /** Rotation retired token x of account u at version v, its grace window is over, and its session
      is still the account's current one. */
  ghost predicate LateReplay(s: State, x: TokenId, u: UserId, v: nat) {
    && x in s.db.tokens && s.db.tokens[x].owner == u && s.db.tokens[x].version == v
    && u in s.db.users && s.db.users[u].version == v
    && s.db.tokens[x].revoked.Some?
    && (s.db.tokens[x].revoked.value.reason == Rotated || s.db.tokens[x].revoked.value.reason == Unrecorded)
    && s.db.tokens[x].revoked.value.at + REUSE_GRACE < s.now
  }

  /** Version v of the account is over, or process p is on its way to ending it. */
  ghost predicate Pursued(s: State, p: Proc, u: UserId, v: nat) {
    && u in s.db.users && s.db.users[u].version >= v
    && (s.db.users[u].version == v ==>
          match TaskOf(s, p)
          case Refused(_, _, blast) => blast == Some(u)
          case Ending(user, _, after) => user == u && after.version == v + 1
          case EndingRevoked(user, _, after, _, _) => user == u && after.version == v + 1
          case _ => false)
  }

  lemma StepKeepsPursued(s: State, step: Step, p: Proc, u: UserId, v: nat)
    requires Inv(s) && Enabled(s, step) && step != Abort(p) && Pursued(s, p, u, v)
    ensures Pursued(Apply(s, step), p, u, v)
  {
    if step.EndCommit? {
      EndCommitKeepsPursued(s, step.p, p, u, v);
    } else {
      OtherStepKeepsPursued(s, step, p, u, v);
    }
  }

  lemma OtherStepKeepsPursued(s: State, step: Step, p: Proc, u: UserId, v: nat)
    requires Enabled(s, step) && !step.EndCommit? && step != Abort(p) && Pursued(s, p, u, v)
    ensures Pursued(Apply(s, step), p, u, v)
  {
    assert Apply(s, step).db.users == s.db.users;
  }

  lemma EndCommitKeepsPursued(s: State, q: Proc, p: Proc, u: UserId, v: nat)
    requires Inv(s) && MayEnd(s, q) && Pursued(s, p, u, v)
    ensures Pursued(EndCommitted(s, q), p, u, v)
  {
    assert TaskWell(s, TaskOf(s, q));
    if q != p {
      assert Compatible(TaskOf(s, q), TaskOf(s, p));
    }
  }

  lemma {:induction false} RunKeepsPursued(s: State, steps: seq<Step>, t: State, p: Proc, u: UserId, v: nat)
    requires Inv(s) && Run(s, steps, t) && Abort(p) !in steps && Pursued(s, p, u, v)
    ensures Pursued(t, p, u, v)
    decreases steps
  {
    if steps != [] {
      StepKeepsPursued(s, steps[0], p, u, v);
      StepKeeps(s, steps[0]);
      RunKeepsPursued(Apply(s, steps[0]), steps[1..], t, p, u, v);
    }
  }

  /** The lookup sets a request on to end sessions exactly over a late replay, and those of its owner. */
  lemma LookupBlames(s: State, p: Proc, u: UserId)
    requires TaskOf(s, p).RefreshMissed?
    ensures TaskOf(Apply(s, Lookup(p)), p).Refused?
    ensures TaskOf(Apply(s, Lookup(p)), p).blast == Some(u) <==> exists v :: LateReplay(s, TaskOf(s, p).token, u, v)
  {
    var x := TaskOf(s, p).token;
    BlastOnlyOnReplay(s.db, s.now, x);
    if x in s.db.tokens {
      assert LateReplay(s, x, u, s.db.tokens[x].version) <==>
        s.db.tokens[x].owner == u && Refusal(s.db, s.now, x).1.Some?;
    }
  }

  lemma LookupPursues(s: State, p: Proc, x: TokenId, u: UserId, v: nat)
    requires Inv(s) && TaskOf(s, p).RefreshMissed? && TaskOf(s, p).token == x && LateReplay(s, x, u, v)
    ensures Pursued(Apply(s, Lookup(p)), p, u, v)
  {
  }

  /** A refresh that presents a token rotated out longer ago than the grace window ends the account's
      sessions: whatever else runs meanwhile, by the time the request is over, unless it was broken
      off, nothing of that version works any more, the thief's successor included. */
  lemma LateReplayEndsSessions(s: State, p: Proc, x: TokenId, u: UserId, v: nat, steps: seq<Step>, t: State)
    requires Inv(s) && TaskOf(s, p).RefreshMissed? && TaskOf(s, p).token == x && LateReplay(s, x, u, v)
    requires Run(s, steps, t) && steps != [] && steps[0] == Lookup(p) && Abort(p) !in steps
    requires TaskOf(t, p) == Idle
    ensures Ended(t, u, v)
  {
    LookupPursues(s, p, x, u, v);
    StepKeeps(s, steps[0]);
    RunKeepsPursued(Apply(s, steps[0]), steps[1..], t, p, u, v);
    RunKeeps(s, steps, t);
    NewerEndsForGood(t, [], t, u, v);
  }

  // Logout

  /** Token x is dead and no reason to end a session: it is gone or revoked, not by rotation, and
      nobody is about to end sessions over it. */
  ghost predicate Dismissed(s: State, x: TokenId) {
    && x in s.seen && Discarded(s.db, x)
    && (forall q: Proc {:trigger TaskOf(s, q)} :: !Blames(TaskOf(s, q), x))
  }

  ghost predicate Discarded(db: Db, x: TokenId) {
    x in db.tokens ==> db.tokens[x].revoked.Some? && !ByRotation(db.tokens[x].revoked.value.reason)
  }

  /** Ends sessions over a replay of x, or is about to. */
  ghost predicate Blames(task: Task, x: TokenId) {
    match task
    case Refused(token, _, blast) => token == x && blast.Some?
    case Ending(_, cause, _) => cause == Blast(x)
    case EndingRevoked(_, cause, _, _, _) => cause == Blast(x)
    case _ => false
  }

  lemma StepKeepsDismissed(s: State, step: Step, x: TokenId)
    requires Inv(s) && Enabled(s, step) && Dismissed(s, x)
    ensures Dismissed(Apply(s, step), x)
  {
    var t := Apply(s, step);
    StepKeepsDiscarded(s, step, x);
    forall q: Proc
      ensures !Blames(TaskOf(t, q), x)
    {
      assert !Blames(TaskOf(s, q), x);
      StepBlamesNot(s, step, x, q);
    }
  }

  lemma StepKeepsDiscarded(s: State, step: Step, x: TokenId)
    requires Enabled(s, step) && x in s.seen && Discarded(s.db, x)
    ensures x in Apply(s, step).seen && Discarded(Apply(s, step).db, x)
  {
  }

  lemma StepBlamesNot(s: State, step: Step, x: TokenId, q: Proc)
    requires Enabled(s, step) && Discarded(s.db, x) && !Blames(TaskOf(s, q), x)
    ensures !Blames(TaskOf(Apply(s, step), q), x)
  {
  }

  lemma {:induction false} RunKeepsDismissed(s: State, steps: seq<Step>, t: State, x: TokenId)
    requires Inv(s) && Run(s, steps, t) && Dismissed(s, x)
    ensures Dismissed(t, x)
    decreases steps
  {
    if steps != [] {
      StepKeepsDismissed(s, steps[0], x);
      StepKeeps(s, steps[0]);
      RunKeepsDismissed(Apply(s, steps[0]), steps[1..], t, x);
    }
  }

  /** A token that is logged out while active is never redeemed again, and presenting it later, in
      any run, never ends a session. */
  lemma LogoutIsFinal(s: State, x: TokenId, steps: seq<Step>, t: State)
    requires Inv(s) && x in s.db.tokens && s.db.tokens[x].revoked.None?
    requires Run(s, steps, t) && steps != [] && steps[0] == Logout(x)
    ensures !Redeemable(t.db, t.now, x)
    ensures forall q: Proc {:trigger TaskOf(t, q)} ::
      && !(TaskOf(t, q).RefreshRedeemed? && TaskOf(t, q).token == x)
      && !Blames(TaskOf(t, q), x)
  {
    LogoutDismisses(s, x);
    StepKeeps(s, steps[0]);
    RunKeepsDismissed(Apply(s, steps[0]), steps[1..], t, x);
    RunKeeps(s, steps, t);
    DismissedIsDead(t, x);
  }

  lemma LogoutDismisses(s: State, x: TokenId)
    requires Inv(s) && x in s.db.tokens && s.db.tokens[x].revoked.None? && Enabled(s, Logout(x))
    ensures Dismissed(Apply(s, Logout(x)), x)
  {
    var t := Apply(s, Logout(x));
    forall q: Proc
      ensures !Blames(TaskOf(t, q), x)
    {
      assert TaskWell(s, TaskOf(s, q));
    }
  }

  lemma DismissedIsDead(t: State, x: TokenId)
    requires Inv(t) && Dismissed(t, x)
    ensures !Redeemable(t.db, t.now, x)
    ensures forall q: Proc {:trigger TaskOf(t, q)} :: !(TaskOf(t, q).RefreshRedeemed? && TaskOf(t, q).token == x)
  {
    forall q: Proc
      ensures !(TaskOf(t, q).RefreshRedeemed? && TaskOf(t, q).token == x)
    {
      assert TaskWell(t, TaskOf(t, q));
    }
  }

  // Changes of the account

  /** The account's role and password, and nobody closed it. */
  ghost predicate Unchanged(a: User, b: User) {
    b.role == a.role && b.hash == a.hash && (a.active ==> b.active)
  }

  lemma StepChangesVersion(s: State, step: Step, u: UserId)
    requires Inv(s) && Enabled(s, step) && u in s.db.users
    ensures var t := Apply(s, step);
      u in t.db.users && (t.db.users[u].version > s.db.users[u].version ||
        (t.db.users[u].version == s.db.users[u].version && Unchanged(s.db.users[u], t.db.users[u])))
  {
    if step.EndCommit? {
      assert TaskWell(s, TaskOf(s, step.p));
    }
  }

  lemma {:induction false} RunChangesVersion(s: State, steps: seq<Step>, t: State, u: UserId)
    requires Inv(s) && Run(s, steps, t) && u in s.db.users
    ensures u in t.db.users && (t.db.users[u].version > s.db.users[u].version ||
      (t.db.users[u].version == s.db.users[u].version && Unchanged(s.db.users[u], t.db.users[u])))
    decreases steps
  {
    if steps != [] {
      StepChangesVersion(s, steps[0], u);
      StepKeeps(s, steps[0]);
      RunChangesVersion(Apply(s, steps[0]), steps[1..], t, u);
    }
  }

  /** Whatever the run, an account whose role or password changed, or that was closed, has lost every
      session it had before. */
  lemma AccountChangeEndsSessions(s: State, steps: seq<Step>, t: State, u: UserId)
    requires Inv(s) && Run(s, steps, t) && u in s.db.users && u in t.db.users
    requires t.db.users[u].role != s.db.users[u].role || t.db.users[u].hash != s.db.users[u].hash ||
      (s.db.users[u].active && !t.db.users[u].active)
    ensures Ended(t, u, s.db.users[u].version)
  {
    RunChangesVersion(s, steps, t, u);
    RunKeeps(s, steps, t);
    NewerEndsForGood(t, [], t, u, s.db.users[u].version);
  }
}
