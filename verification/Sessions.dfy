/** Durable sessions: create, rotate, revoke, refresh and the two switches (packages/auth/src/session.ts, refresh.ts,
    switchOrg.ts, switchWorkspace.ts; packages/db/src/repositories/userRepository.ts). */
module Sessions {
  import opened Prelude
  import opened Memberships
  import opened Revocation
  import opened SessionLimits
  import PolicyRows

  const REUSE_GRACE_MS: int := 30_000

  datatype Token = Token(text: string)

  /** SHA-256 of a refresh token, taken to be injective. */
  datatype Hash = HashOf(token: Token)

  /** History: the login a session descends from, and when that was. */
  datatype Origin = Origin(id: Sid, at: int)

  /** A row of user_sessions; origin is history. */
  datatype Session = Session(
    id: Sid,
    user: User,
    tenant: Option<Tenant>,
    workspace: Option<Workspace>,
    hash: Hash,
    createdAt: int,
    lastSeenAt: Option<int>,
    expiresAt: int,
    revokedAt: Option<int>,
    rotatedFrom: Option<Sid>,
    origin: Origin)

  /** Token lifetimes in seconds, and the global arm of policy enforcement. */
  datatype Config = Config(refreshTtl: int, accessTtl: int, armed: bool)

  /** The sessions table, the deny-list and the directory. */
  datatype State = State(rows: seq<Session>, deny: DenyList, dir: Directory)

  /** The claims that matter here; exp in milliseconds. */
  datatype AccessToken = AccessToken(user: User, tenant: Tenant, workspace: Option<Workspace>, sid: Sid, exp: int)

  datatype Issued = Issued(access: AccessToken, refresh: Token, expiresAt: int)

  datatype SessionError = InvalidToken | ConcurrentRotation | TenantForbidden | WorkspaceForbidden

  datatype Outcome<T> = Outcome(state: State, result: Result<T, SessionError>)

  /** Freshly drawn randomness. */
  datatype Mint = Mint(sid: Sid, token: Token)

  /** Who a session is for, and the limits on it. */
  datatype Context = Context(
    user: User,
    tenant: Option<Tenant>,
    workspace: Option<Workspace>,
    maxLifetime: Option<int>,
    notLaterThan: Option<int>)

  // ---- sessionRepository -----------------------------------------------------------------------------------

  function RevokedIf(s: Session, hit: bool, now: int): Session {
    if hit then s.(revokedAt := Some(now)) else s
  }

  /** UPDATE ... SET revoked_at = now WHERE id IN ids */
  function RevokeIn(rows: seq<Session>, ids: set<Sid>, now: int): (r: seq<Session>)
    ensures |r| == |rows|
  {
    seq(|rows|, i requires 0 <= i < |rows| => RevokedIf(rows[i], rows[i].id in ids, now))
  }

  function PinWorkspace(rows: seq<Session>, id: Sid, w: Workspace): (r: seq<Session>)
    ensures |r| == |rows|
  {
    seq(|rows|, i requires 0 <= i < |rows| => if rows[i].id == id then rows[i].(workspace := Some(w)) else rows[i])
  }

  /** The first row with the hash, looking at live rows only or at all. */
  function FirstWith(rows: seq<Session>, h: Hash, liveOnly: bool): (r: Option<Session>)
    ensures r.Some? ==> r.value in rows && r.value.hash == h && (liveOnly ==> r.value.revokedAt.None?)
    ensures r.None? ==> forall s :: s in rows && s.hash == h ==> liveOnly && s.revokedAt.Some?
  {
    if rows == [] then None
    else if rows[0].hash == h && (liveOnly ==> rows[0].revokedAt.None?) then Some(rows[0])
    else FirstWith(rows[1..], h, liveOnly)
  }

  /** Live rows first, then any row: revoked ones must still be found. */
  function FindByHash(rows: seq<Session>, h: Hash): Option<Session> {
    var live := FirstWith(rows, h, true);
    if live.Some? then live else FirstWith(rows, h, false)
  }

  /** The ids a force-logout revokes and returns. */
  function UnrevokedIds(rows: seq<Session>, u: User): seq<Sid> {
    if rows == [] then []
    else
      var rest := UnrevokedIds(rows[1..], u);
      if rows[0].user == u && rows[0].revokedAt.None? then [rows[0].id] + rest else rest
  }

  function ListLive(rows: seq<Session>, u: User, now: int): seq<LiveSession> {
    if rows == [] then []
    else
      var s := rows[0];
      (if s.user == u && s.revokedAt.None? && s.expiresAt > now
       then [LiveSession(s.id, s.createdAt, s.expiresAt, s.revokedAt)] else [])
      + ListLive(rows[1..], u, now)
  }

  // ---- what each operation does ------------------------------------------------------------------------------

  /** Revoke some sessions and deny-list their access tokens. */
  function Cut(w: State, ids: set<Sid>, now: int, cfg: Config): State {
    w.(rows := RevokeIn(w.rows, ids, now), deny := w.deny + Marks(ids, now + cfg.accessTtl * 1000))
  }

  function Append(w: State, s: Session): State {
    w.(rows := w.rows + [s])
  }

  function TextOf(w: Option<Workspace>): Option<string> {
    if w.Some? then Some(w.value.id) else None
  }

  /** An id that is present and not the empty string. */
  predicate Named(t: Option<Tenant>) {
    t.Some? && t.value.id != ""
  }

  /** The cap in force for a login, if any. */
  function CapFor(ctx: Context, policyRows: seq<PolicyRows.Row>): Option<int> {
    if !Named(ctx.tenant) then None
    else
      var cap := PolicyRows.TargetedCap(policyRows, TextOf(ctx.workspace));
      if cap.Some? && cap.value > 0 then cap else None
  }

  function Evicted(rows: seq<Session>, u: User, cap: Option<int>, keepId: Sid, now: int): seq<Sid> {
    if cap.None? then [] else SessionsToEvict(ListLive(rows, u, now), cap.value, keepId, now)
  }

  function LoginRow(ctx: Context, mint: Mint, now: int, cfg: Config): Session {
    Session(mint.sid, ctx.user, ctx.tenant, ctx.workspace, HashOf(mint.token), now, Some(now),
            CappedSessionExpiry(cfg.refreshTtl, ctx.maxLifetime, now), None, None, Origin(mint.sid, now))
  }

  function Created(w: State, ctx: Context, cap: Option<int>, mint: Mint, now: int, cfg: Config): State {
    var added := Append(w, LoginRow(ctx, mint, now, cfg));
    Cut(added, Elems(Evicted(added.rows, ctx.user, cap, mint.sid, now)), now, cfg)
  }

  /** The rotated session ends no later than the deadline it was given. */
  function RotatedExpiry(refreshTtl: int, maxLifetime: Option<int>, notLaterThan: Option<int>, now: int): int {
    var capped := CappedSessionExpiry(refreshTtl, maxLifetime, now);
    if notLaterThan.Some? && notLaterThan.value < capped then notLaterThan.value else capped
  }

  function RotatedRow(prior: Session, ctx: Context, mint: Mint, now: int, cfg: Config): Session {
    Session(mint.sid, ctx.user, ctx.tenant, ctx.workspace, HashOf(mint.token), now, Some(now),
            RotatedExpiry(cfg.refreshTtl, ctx.maxLifetime, ctx.notLaterThan, now), None, Some(prior.id), prior.origin)
  }

  function Rotated(w: State, prior: Session, ctx: Context, mint: Mint, now: int, cfg: Config): State {
    Append(Cut(w, {prior.id}, now, cfg), RotatedRow(prior, ctx, mint, now, cfg))
  }

  function Minted(ctx: Context, tenant: Tenant, mint: Mint, now: int, cfg: Config): Issued {
    Issued(AccessToken(ctx.user, tenant, ctx.workspace, mint.sid, now + cfg.accessTtl * 1000), mint.token,
           RotatedExpiry(cfg.refreshTtl, ctx.maxLifetime, ctx.notLaterThan, now))
  }

  /** findActiveSessionOrDetectReuse: a token of a revoked session is a race within the grace window and a replay
      after it. */
  function Presented(w: State, token: Token, now: int, cfg: Config): Outcome<Session> {
    match FindByHash(w.rows, HashOf(token))
    case None => Outcome(w, Err(InvalidToken))
    case Some(s) =>
      if s.revokedAt.Some? then
        if now - s.revokedAt.value > REUSE_GRACE_MS
        then Outcome(Cut(w, Elems(UnrevokedIds(w.rows, s.user)), now, cfg), Err(InvalidToken))
        else Outcome(w, Err(ConcurrentRotation))
      else if s.expiresAt < now then Outcome(w, Err(InvalidToken))
      else Outcome(w, Ok(s))
  }

  predicate Enforces(dir: Directory, t: Tenant, cfg: Config) {
    cfg.armed && dir.Enforced(t).enabled
  }

  /** The absolute limit in force, if any. */
  function TimeoutOf(dir: Directory, t: Tenant, cfg: Config): Option<int> {
    var limit := dir.Enforced(t).policy.timeout;
    if Enforces(dir, t, cfg) && limit.Some? && limit.value > 0 then limit else None
  }

  function IdleOf(dir: Directory, t: Tenant, cfg: Config): Option<int> {
    if Enforces(dir, t, cfg) then dir.Enforced(t).policy.idle else None
  }

  function RefreshContext(w: State, s: Session, cfg: Config): Context
    requires s.tenant.Some?
  {
    var timeout := TimeoutOf(w.dir, s.tenant.value, cfg);
    Context(s.user, s.tenant, s.workspace, timeout, if timeout.Some? then Some(s.expiresAt) else None)
  }

  function Refresh(w: State, token: Token, mint: Mint, now: int, cfg: Config): Outcome<Issued> {
    var found := Presented(w, token, now, cfg);
    match found.result
    case Err(e) => Outcome(found.state, Err(e))
    case Ok(s) =>
      if s.user !in w.dir.active || !Named(s.tenant) then Outcome(w, Err(InvalidToken))
      else if IsIdleExpired(s.lastSeenAt, IdleOf(w.dir, s.tenant.value, cfg), now)
      then Outcome(Cut(w, {s.id}, now, cfg), Err(InvalidToken))
      else
        var ctx := RefreshContext(w, s, cfg);
        Outcome(Rotated(w, s, ctx, mint, now, cfg), Ok(Minted(ctx, s.tenant.value, mint, now, cfg)))
  }

  function RememberIf(dir: Directory, t: Tenant, u: User, w: Option<Workspace>): Directory {
    if w.Some? && w.value.id != "" then dir.Remember(t, u, w.value) else dir
  }

  /** Landing on the target tenant's workspace, with no deadline carried over. */
  function SwitchedOrg(w: State, token: Token, target: Tenant, mint: Mint, now: int, cfg: Config): Outcome<Issued> {
    var found := Presented(w, token, now, cfg);
    match found.result
    case Err(e) => Outcome(found.state, Err(e))
    case Ok(s) =>
      if s.user !in w.dir.active then Outcome(w, Err(InvalidToken))
      else if target !in w.dir.Orgs(s.user) then Outcome(w, Err(TenantForbidden))
      else
        var landing := w.dir.Landing(target, s.user);
        var ctx := Context(s.user, Some(target), landing, None, None);
        Outcome(Rotated(w.(dir := RememberIf(w.dir, target, s.user, landing)), s, ctx, mint, now, cfg),
                Ok(Minted(ctx, target, mint, now, cfg)))
  }

  function SwitchedWorkspace(w: State, token: Token, target: Workspace, mint: Mint, now: int, cfg: Config)
    : Outcome<Issued>
  {
    var found := Presented(w, token, now, cfg);
    match found.result
    case Err(e) => Outcome(found.state, Err(e))
    case Ok(s) =>
      if s.user !in w.dir.active || !Named(s.tenant) then Outcome(w, Err(InvalidToken))
      else if !w.dir.HasRole(s.tenant.value, target, s.user) then Outcome(w, Err(WorkspaceForbidden))
      else
        var pinned := w.(rows := PinWorkspace(w.rows, s.id, target),
                         dir := w.dir.Remember(s.tenant.value, s.user, target));
        var ctx := Context(s.user, s.tenant, Some(target), None, None);
        Outcome(Rotated(pinned, s, ctx, mint, now, cfg), Ok(Minted(ctx, s.tenant.value, mint, now, cfg)))
  }

  // ---- the operations --------------------------------------------------------------------------------------

  lemma RevokeMore(rows: seq<Session>, ids: set<Sid>, id: Sid, now: int)
    ensures RevokeIn(RevokeIn(rows, ids, now), {id}, now) == RevokeIn(rows, ids + {id}, now)
  {
  }

  class AuthSessions {
    var rows: seq<Session>
    var dir: Directory
    const checker: RevocationChecker
    const cfg: Config

    constructor (dir: Directory, checker: RevocationChecker, cfg: Config)
      requires checker.accessTtlSeconds == cfg.accessTtl
      ensures Wired() && this.checker == checker && this.cfg == cfg
      ensures Current() == State([], checker.redis.keys, dir)
    {
      this.rows := [];
      this.dir := dir;
      this.checker := checker;
      this.cfg := cfg;
    }

    /** Both sides use one access-token lifetime. */
    predicate Wired() {
      checker.accessTtlSeconds == cfg.accessTtl
    }

    ghost function Current(): State
      reads this, checker.redis
    {
      State(rows, checker.redis.keys, dir)
    }

    method RevokeSession(sessionId: Sid, now: int)
      requires Wired()
      modifies this, checker, checker.redis
      ensures Current() == Cut(old(Current()), {sessionId}, now, cfg)
      ensures checker.notRevokedMemo == old(checker.notRevokedMemo) - {sessionId}
    {
      rows := RevokeIn(rows, {sessionId}, now);
      checker.MarkRevoked(sessionId, now);
      assert Current().deny == Cut(old(Current()), {sessionId}, now, cfg).deny;
    }

    method RevokeAllSessionsForUser(user: User, now: int)
      requires Wired()
      modifies this, checker, checker.redis
      ensures Current() == Cut(old(Current()), Elems(UnrevokedIds(old(rows), user)), now, cfg)
      ensures checker.notRevokedMemo == old(checker.notRevokedMemo) - Elems(UnrevokedIds(old(rows), user))
    {
      var ids := UnrevokedIds(rows, user);
      rows := RevokeIn(rows, Elems(ids), now);
      checker.MarkManyRevoked(ids, now);
    }

    method EnforceConcurrentSessionCap(ctx: Context, policyRows: seq<PolicyRows.Row>, keepId: Sid, now: int)
      requires Wired()
      modifies this, checker, checker.redis
      ensures Current()
           == Cut(old(Current()), Elems(Evicted(old(rows), ctx.user, CapFor(ctx, policyRows), keepId, now)), now, cfg)
    {
      if !Named(ctx.tenant) {
        NothingCut(Current(), now, cfg);
        return;
      }
      var cap := PolicyRows.ResolveMaxConcurrentSessions(policyRows, TextOf(ctx.workspace));
      if cap.None? || cap.value <= 0 {
        NothingCut(Current(), now, cfg);
        return;
      }
      var evict := SessionsToEvict(ListLive(rows, ctx.user, now), cap.value, keepId, now);
      if |evict| == 0 {
        NothingCut(Current(), now, cfg);
        return;
      }
      Evict(evict, now);
    }

    /** Revoke each, then deny-list them all. */
    method Evict(evict: seq<Sid>, now: int)
      requires Wired()
      modifies this, checker, checker.redis
      ensures Current() == Cut(old(Current()), Elems(evict), now, cfg)
    {
      var before := rows;
      RevokeIn0(before, now);
      for i := 0 to |evict|
        invariant dir == old(dir) && checker.redis.keys == old(checker.redis.keys)
        invariant rows == RevokeIn(before, Elems(evict[..i]), now)
      {
        RevokeMore(before, Elems(evict[..i]), evict[i], now);
        assert Elems(evict[..i + 1]) == Elems(evict[..i]) + {evict[i]};
        rows := RevokeIn(rows, {evict[i]}, now);
      }
      assert evict[..|evict|] == evict;
      checker.MarkManyRevoked(evict, now);
    }

    method CreateSession(ctx: Context, policyRows: seq<PolicyRows.Row>, mint: Mint, now: int)
      returns (refresh: Token, expiresAt: int)
      requires Wired()
      modifies this, checker, checker.redis
      ensures Current() == Created(old(Current()), ctx, CapFor(ctx, policyRows), mint, now, cfg)
      ensures refresh == mint.token && expiresAt == CappedSessionExpiry(cfg.refreshTtl, ctx.maxLifetime, now)
    {
      expiresAt := CappedSessionExpiry(cfg.refreshTtl, ctx.maxLifetime, now);
      refresh := mint.token;
      rows := rows + [Session(mint.sid, ctx.user, ctx.tenant, ctx.workspace, HashOf(refresh), now, Some(now),
                              expiresAt, None, None, Origin(mint.sid, now))];
      EnforceConcurrentSessionCap(ctx, policyRows, mint.sid, now);
    }

    method RotateSession(prior: Session, ctx: Context, mint: Mint, now: int) returns (refresh: Token, expiresAt: int)
      requires Wired()
      modifies this, checker, checker.redis
      ensures Current() == Rotated(old(Current()), prior, ctx, mint, now, cfg)
      ensures refresh == mint.token
      ensures expiresAt == RotatedExpiry(cfg.refreshTtl, ctx.maxLifetime, ctx.notLaterThan, now)
    {
      refresh := mint.token;
      expiresAt := CappedSessionExpiry(cfg.refreshTtl, ctx.maxLifetime, now);
      if ctx.notLaterThan.Some? && ctx.notLaterThan.value < expiresAt {
        expiresAt := ctx.notLaterThan.value;
      }
      rows := RevokeIn(rows, {prior.id}, now)
              + [Session(mint.sid, ctx.user, ctx.tenant, ctx.workspace, HashOf(refresh), now, Some(now), expiresAt,
                         None, Some(prior.id), prior.origin)];
      checker.MarkRevoked(prior.id, now);
      assert Current().deny == Rotated(old(Current()), prior, ctx, mint, now, cfg).deny;
    }

    method FindActiveSessionOrDetectReuse(presented: Token, now: int) returns (r: Result<Session, SessionError>)
      requires Wired()
      modifies this, checker, checker.redis
      ensures Outcome(Current(), r) == Presented(old(Current()), presented, now, cfg)
    {
      var session := FindByHash(rows, HashOf(presented));
      if session.None? {
        return Err(InvalidToken);
      }
      if session.value.revokedAt.Some? {
        if now - session.value.revokedAt.value > REUSE_GRACE_MS {
          RevokeAllSessionsForUser(session.value.user, now);
          return Err(InvalidToken);
        }
        return Err(ConcurrentRotation);
      }
      if session.value.expiresAt < now {
        return Err(InvalidToken);
      }
      r := Ok(session.value);
    }

    method RefreshAccessToken(presented: Token, mint: Mint, now: int) returns (r: Result<Issued, SessionError>)
      requires Wired()
      modifies this, checker, checker.redis
      ensures Outcome(Current(), r) == Refresh(old(Current()), presented, mint, now, cfg)
    {
      var session := FindActiveSessionOrDetectReuse(presented, now);
      if session.Err? {
        return Err(session.error);
      }
      var s := session.value;
      if s.user !in dir.active {
        return Err(InvalidToken);
      }
      if !Named(s.tenant) {
        return Err(InvalidToken);
      }
      var maxLifetime: Option<int>, notLaterThan: Option<int> := None, None;
      if cfg.armed {
        var e := dir.Enforced(s.tenant.value);
        if e.enabled {
          if e.policy.timeout.Some? && e.policy.timeout.value > 0 {
            maxLifetime := e.policy.timeout;
            notLaterThan := Some(s.expiresAt);
          }
          if IsIdleExpired(s.lastSeenAt, e.policy.idle, now) {
            RevokeSession(s.id, now);
            return Err(InvalidToken);
          }
        }
      }
      var ctx := Context(s.user, s.tenant, s.workspace, maxLifetime, notLaterThan);
      var refresh, expiresAt := RotateSession(s, ctx, mint, now);
      r := Ok(Issued(AccessToken(s.user, s.tenant.value, s.workspace, mint.sid, now + cfg.accessTtl * 1000), refresh,
                     expiresAt));
    }

    method SwitchOrg(presented: Token, target: Tenant, mint: Mint, now: int) returns (r: Result<Issued, SessionError>)
      requires Wired()
      modifies this, checker, checker.redis
      ensures Outcome(Current(), r) == SwitchedOrg(old(Current()), presented, target, mint, now, cfg)
    {
      var session := FindActiveSessionOrDetectReuse(presented, now);
      if session.Err? {
        return Err(session.error);
      }
      var s := session.value;
      if s.user !in dir.active {
        return Err(InvalidToken);
      }
      if target !in dir.Orgs(s.user) {
        return Err(TenantForbidden);
      }
      var landing := dir.Landing(target, s.user);
      if landing.Some? && landing.value.id != "" {
        dir := dir.Remember(target, s.user, landing.value);
      }
      var refresh, expiresAt := RotateSession(s, Context(s.user, Some(target), landing, None, None), mint, now);
      r := Ok(Issued(AccessToken(s.user, target, landing, mint.sid, now + cfg.accessTtl * 1000), refresh, expiresAt));
    }

    method SwitchWorkspace(presented: Token, target: Workspace, mint: Mint, now: int)
      returns (r: Result<Issued, SessionError>)
      requires Wired()
      modifies this, checker, checker.redis
      ensures Outcome(Current(), r) == SwitchedWorkspace(old(Current()), presented, target, mint, now, cfg)
    {
      var session := FindActiveSessionOrDetectReuse(presented, now);
      if session.Err? {
        return Err(session.error);
      }
      var s := session.value;
      if s.user !in dir.active {
        return Err(InvalidToken);
      }
      if !Named(s.tenant) {
        return Err(InvalidToken);
      }
      if !dir.HasRole(s.tenant.value, target, s.user) {
        return Err(WorkspaceForbidden);
      }
      rows := PinWorkspace(rows, s.id, target);
      dir := dir.Remember(s.tenant.value, s.user, target);
      var refresh, expiresAt := RotateSession(s, Context(s.user, s.tenant, Some(target), None, None), mint, now);
      r := Ok(Issued(AccessToken(s.user, s.tenant.value, Some(target), mint.sid, now + cfg.accessTtl * 1000), refresh,
                     expiresAt));
    }
  }

  lemma RevokeIn0(rows: seq<Session>, now: int)
    ensures RevokeIn(rows, Elems<Sid>([]), now) == rows
  {
  }

  lemma NothingCut(w: State, now: int, cfg: Config)
    ensures Cut(w, Elems<Sid>([]), now, cfg) == w
  {
  }
}
