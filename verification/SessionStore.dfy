/** The users and refresh_tokens rows as the session code sees them, and its queries as functions. */
module SessionStore {
  import opened Wrappers

  type UserId = nat
  type TokenId = nat
  type Hash = nat

  datatype User = User(active: bool, role: nat, hash: Hash, version: nat)

  /** Rotation writes 'rotated'; Unrecorded is the NULL of rows older than the column. */
  datatype Reason = Rotated | Unrecorded | LoggedOut | ReuseFound | ByAdmin

  datatype Revocation = Revocation(at: nat, reason: Reason)

  /** `login`, `parent` and `generation` are history: the login a token descends from, the token it
      replaced, and how many rotations lie between the login and it. */
  datatype Token = Token(
    owner: UserId,
    version: nat,
    expires: nat,
    revoked: Option<Revocation>,
    login: TokenId,
    parent: Option<TokenId>,
    generation: nat
  )

  datatype Db = Db(users: map<UserId, User>, tokens: map<TokenId, Token>)

  /** A signed access token. */
  datatype Access = Access(owner: UserId, version: nat, expires: nat)

  const REUSE_GRACE: nat := 10
  const CLOCK_LEEWAY: nat := 60
  const RETENTION: nat := 7 * 24 * 3600

  predicate Unrevoked(db: Db, t: TokenId) {
    t in db.tokens && db.tokens[t].revoked.None?
  }

  predicate Current(db: Db, t: TokenId) {
    t in db.tokens && db.tokens[t].owner in db.users && db.tokens[t].version == db.users[db.tokens[t].owner].version
  }

  /** The WHERE clause of the redeem: active, unexpired, still bound to its owner's version. */
  predicate Redeemable(db: Db, now: nat, t: TokenId) {
    Unrevoked(db, t) && Current(db, t) && db.tokens[t].expires > now
  }

  /** The WHERE clause of the claim: an active account whose hash is the verified one. */
  predicate Claimable(db: Db, u: UserId, hash: Hash) {
    u in db.users && db.users[u].active && db.users[u].hash == hash
  }

  /** Authenticate: a live account of the same version backs the token. */
  predicate Authentic(db: Db, now: nat, a: Access) {
    now < a.expires + CLOCK_LEEWAY && a.owner in db.users && db.users[a.owner].active &&
      a.version == db.users[a.owner].version
  }

  predicate ByRotation(reason: Reason) {
    reason == Rotated || reason == Unrecorded
  }

  datatype Verdict = InvalidToken | Revoked | Raced | Reused | Expired

  /** What an unredeemable token is told, and whose sessions a replay ends. */
  function Refusal(db: Db, now: nat, t: TokenId): (Verdict, Option<UserId>) {
    if t !in db.tokens || db.tokens[t].owner !in db.users then (InvalidToken, None)
    else
      var token := db.tokens[t];
      var stale := !Current(db, t);
      if token.revoked.Some? && !ByRotation(token.revoked.value.reason) then (Revoked, None)
      else if token.revoked.Some? then
        if !(token.revoked.value.at + REUSE_GRACE < now) then (Raced, None)
        else if stale then (Revoked, None)
        else (Reused, Some(token.owner))
      else if stale then (Revoked, None)
      else (Expired, None)
  }

  /** A replay ends sessions only when rotation retired the token, the grace window is over, and
      the session the token belonged to is still the current one. */
  lemma BlastOnlyOnReplay(db: Db, now: nat, t: TokenId)
    ensures Refusal(db, now, t).1.Some? <==>
      t in db.tokens && Current(db, t) && db.tokens[t].revoked.Some? &&
      ByRotation(db.tokens[t].revoked.value.reason) && db.tokens[t].revoked.value.at + REUSE_GRACE < now
    ensures Refusal(db, now, t).1.Some? <==> Refusal(db, now, t).0 == Reused
  {
  }

  // Writes, applied when their transaction commits

  /** Revokes the listed tokens that are still active. */
  function RevokeTokens(tokens: map<TokenId, Token>, ts: set<TokenId>, at: nat, reason: Reason): map<TokenId, Token> {
    map t | t in tokens :: if t in ts && tokens[t].revoked.None? then
      tokens[t].(revoked := Some(Revocation(at, reason))) else tokens[t]
  }

  function ActiveTokens(db: Db, u: UserId): set<TokenId> {
    set t | t in db.tokens && db.tokens[t].owner == u && db.tokens[t].revoked.None?
  }

  /** What every committed state promises. */
  ghost predicate DbInv(db: Db) {
    && (forall t :: t in db.tokens ==> OwnedWell(db, t))
    && (forall t, t' {:trigger InLine(db, t, t')} :: t in db.tokens && t' in db.tokens && t != t' ==> InLine(db, t, t'))
    && (forall t, t' :: t in db.tokens && t' in db.tokens && t != t' && db.tokens[t].parent.Some? ==>
          db.tokens[t].parent != db.tokens[t'].parent)
  }

  /** Two tokens of one login are of different generations, and an active one is the last. */
  ghost predicate InLine(db: Db, t: TokenId, t': TokenId)
    requires t in db.tokens && t' in db.tokens
  {
    db.tokens[t].login == db.tokens[t'].login ==>
      && db.tokens[t].generation != db.tokens[t'].generation
      && (Unrevoked(db, t) ==> db.tokens[t'].generation < db.tokens[t].generation)
      && (Unrevoked(db, t') ==> db.tokens[t].generation < db.tokens[t'].generation)
  }

  /** A token never outruns its owner's version; an active one is of exactly that version and of
      an active account. Only the token a login started from replaced none. */
  ghost predicate OwnedWell(db: Db, t: TokenId)
    requires t in db.tokens
  {
    var token := db.tokens[t];
    && token.owner in db.users
    && token.version <= db.users[token.owner].version
    && (token.parent.None? <==> token.login == t) && (token.parent.None? <==> token.generation == 0)
    && (token.revoked.None? ==> token.version == db.users[token.owner].version && db.users[token.owner].active)
    && (token.parent.Some? && token.parent.value in db.tokens ==> ReplacedBy(db.tokens[token.parent.value], token))
  }

  /** A replaced token was revoked by rotation, one generation earlier in the same login of the same account. */
  ghost predicate ReplacedBy(old_: Token, next: Token) {
    && old_.revoked.Some? && old_.revoked.value.reason == Rotated
    && old_.login == next.login && old_.owner == next.owner && next.generation == old_.generation + 1
  }
}
