/** What the session protocol promises its users: reuse detection, sticky deadlines, prompt revocation, the cap
    (packages/auth/src/session.ts, refresh.ts, switchOrg.ts, switchWorkspace.ts). */
module SessionSafety {
  import opened Prelude
  import opened Memberships
  import Revocation
  import opened SessionLimits
  import opened Sessions
  import opened SessionRuns

  // ---- nothing is ever un-revoked ----------------------------------------------------------------------------

  /** Rows stay where they are and keep their keys; revocations and deny-list entries only accumulate. */
  ghost predicate Grew(w: State, x: State) {
    && |w.rows| <= |x.rows|
    && (forall i :: 0 <= i < |w.rows| ==> SameSession(w.rows[i], x.rows[i]))
    && (forall id :: id in w.deny ==> DeniedUntil(x.deny, id, w.deny[id]))
  }

  ghost predicate SameSession(s: Session, t: Session) {
    s.id == t.id && s.user == t.user && s.tenant == t.tenant && s.hash == t.hash && s.createdAt == t.createdAt
    && s.expiresAt == t.expiresAt
    && s.origin == t.origin && s.rotatedFrom == t.rotatedFrom
    && (s.revokedAt.Some? ==> t.revokedAt.Some? && s.revokedAt.value <= t.revokedAt.value)
  }

  lemma GrewTwice(w: State, x: State, y: State)
    requires Grew(w, x) && Grew(x, y)
    ensures Grew(w, y)
  {
  }

  lemma CutGrows(w: State, ids: set<Revocation.Sid>, clock: int, now: int, cfg: Config)
    requires Inv(w, clock, cfg) && clock <= now
    ensures Grew(w, Cut(w, ids, now, cfg))
  {
  }

  lemma RotatedGrows(w: State, prior: Session, ctx: Context, mint: Mint, clock: int, now: int, cfg: Config)
    requires Inv(w, clock, cfg) && clock <= now
    ensures Grew(w, Rotated(w, prior, ctx, mint, now, cfg))
  {
  }

  lemma PresentedGrows(w: State, token: Token, clock: int, now: int, cfg: Config)
    requires Inv(w, clock, cfg) && clock <= now
    ensures Grew(w, Presented(w, token, now, cfg).state)
  {
    GrewSelf(w);
    var found := FindByHash(w.rows, HashOf(token));
    if found.Some? {
      CutGrows(w, Elems(UnrevokedIds(w.rows, found.value.user)), clock, now, cfg);
    }
  }

  lemma GrewSelf(w: State)
    ensures Grew(w, w)
  {
  }

  lemma RefreshGrows(w: State, token: Token, mint: Mint, clock: int, now: int, cfg: Config)
    requires Inv(w, clock, cfg) && clock <= now
    ensures Grew(w, Refresh(w, token, mint, now, cfg).state)
  {
    PresentedGrows(w, token, clock, now, cfg);
    var k := FoundRow(w, token, now, cfg);
    if Presented(w, token, now, cfg).result.Ok? {
      var s := w.rows[k];
      CutGrows(w, {s.id}, clock, now, cfg);
      if Named(s.tenant) {
        RotatedGrows(w, s, RefreshContext(w, s, cfg), mint, clock, now, cfg);
      }
    }
  }

  lemma SwitchOrgGrows(w: State, token: Token, target: Tenant, mint: Mint, clock: int, now: int, cfg: Config)
    requires Inv(w, clock, cfg) && clock <= now
    ensures Grew(w, SwitchedOrg(w, token, target, mint, now, cfg).state)
  {
    PresentedGrows(w, token, clock, now, cfg);
    var k := FoundRow(w, token, now, cfg);
    if Presented(w, token, now, cfg).result.Ok? {
      var s := w.rows[k];
      var landing := w.dir.Landing(target, s.user);
      var moved := w.(dir := RememberIf(w.dir, target, s.user, landing));
      RotatedGrows(moved, s, Context(s.user, Some(target), landing, None, None), mint, clock, now, cfg);
    }
  }

  lemma SwitchWorkspaceGrows(w: State, token: Token, target: Workspace, mint: Mint, clock: int, now: int, cfg: Config)
    requires Inv(w, clock, cfg) && clock <= now
    ensures Grew(w, SwitchedWorkspace(w, token, target, mint, now, cfg).state)
  {
    PresentedGrows(w, token, clock, now, cfg);
    var k := FoundRow(w, token, now, cfg);
    if Presented(w, token, now, cfg).result.Ok? {
      var s := w.rows[k];
      if Named(s.tenant) {
        var dir := w.dir.Remember(s.tenant.value, s.user, target);
        var pinned := w.(rows := PinWorkspace(w.rows, s.id, target), dir := dir);
        PinKeeps(w, s.id, target, dir, clock, cfg);
        var ctx := Context(s.user, s.tenant, Some(target), None, None);
        RotatedGrows(pinned, s, ctx, mint, clock, now, cfg);
        assert Grew(w, pinned);
        GrewTwice(w, pinned, Rotated(pinned, s, ctx, mint, now, cfg));
      }
    }
  }

  lemma StepGrows(w: State, clock: int, s: Step, cfg: Config)
    requires Inv(w, clock, cfg) && Enabled(w, clock, s)
    ensures Grew(w, Next(w, s, cfg))
  {
    match s.event {
      case Login(ctx, cap, mint) =>
        var added := Append(w, LoginRow(ctx, mint, s.time, cfg));
        CreatedGrows(w, ctx, cap, mint, clock, s.time, cfg);
      case RefreshWith(token, mint) => RefreshGrows(w, token, mint, clock, s.time, cfg);
      case OrgSwitch(token, tenant, mint) => SwitchOrgGrows(w, token, tenant, mint, clock, s.time, cfg);
      case WorkspaceSwitch(token, workspace, mint) =>
        SwitchWorkspaceGrows(w, token, workspace, mint, clock, s.time, cfg);
      case Logout(sid) => CutGrows(w, {sid}, clock, s.time, cfg);
      case ForceLogout(user) => CutGrows(w, Elems(UnrevokedIds(w.rows, user)), clock, s.time, cfg);
      case Administer(_) =>
    }
  }

  lemma CreatedGrows(w: State, ctx: Context, cap: Option<int>, mint: Mint, clock: int, now: int, cfg: Config)
    requires Inv(w, clock, cfg) && clock <= now && Fresh(w.rows, mint)
    ensures Grew(w, Created(w, ctx, cap, mint, now, cfg))
  {
  }

  lemma {:induction false} RunGrows(w: State, clock: int, steps: seq<Step>, cfg: Config)
    requires Inv(w, clock, cfg) && Run(w, clock, steps, cfg)
    ensures Grew(w, After(w, steps, cfg))
    decreases |steps|
  {
    if steps != [] {
      var x := Next(w, steps[0], cfg);
      StepKeeps(w, clock, steps[0], cfg);
      StepGrows(w, clock, steps[0], cfg);
      RunGrows(x, steps[0].time, steps[1..], cfg);
      GrewTwice(w, x, After(x, steps[1..], cfg));
    }
  }

  // ---- reuse detection -------------------------------------------------------------------------------------

  /** A token finds the one row that carries its hash. */
  lemma FindsItsRow(rows: seq<Session>, k: nat)
    requires Keys(rows) && k < |rows|
    ensures FindByHash(rows, rows[k].hash) == Some(rows[k])
  {
  }

  /** A revoked session never becomes usable again: in every continuation its token is refused, whoever presents
      it, whenever, to any of the three operations. */
  lemma RevokedForever(w: State, clock: int, steps: seq<Step>, cfg: Config, k: nat, token: Token, now: int)
    requires Inv(w, clock, cfg) && Run(w, clock, steps, cfg)
    requires k < |w.rows| && w.rows[k].revokedAt.Some? && w.rows[k].hash == HashOf(token)
    ensures Presented(After(w, steps, cfg), token, now, cfg).result.Err?
    ensures forall mint :: Refresh(After(w, steps, cfg), token, mint, now, cfg).result.Err?
    ensures forall t, mint :: SwitchedOrg(After(w, steps, cfg), token, t, mint, now, cfg).result.Err?
    ensures forall t, mint :: SwitchedWorkspace(After(w, steps, cfg), token, t, mint, now, cfg).result.Err?
  {
    var x := After(w, steps, cfg);
    RunKeeps(w, clock, steps, cfg);
    RunGrows(w, clock, steps, cfg);
    assert SameSession(w.rows[k], x.rows[k]);
    FindsItsRow(x.rows, k);
  }

  /** Within the grace window a presented token of a rotated session changes nothing at all. */
  lemma GraceChangesNothing(w: State, clock: int, cfg: Config, k: nat, token: Token, now: int, mint: Mint)
    requires Inv(w, clock, cfg) && k < |w.rows| && w.rows[k].hash == HashOf(token)
    requires w.rows[k].revokedAt.Some? && now - w.rows[k].revokedAt.value <= REUSE_GRACE_MS
    ensures Refresh(w, token, mint, now, cfg) == Outcome(w, Err(ConcurrentRotation))
    ensures forall t :: SwitchedOrg(w, token, t, mint, now, cfg) == Outcome(w, Err(ConcurrentRotation))
    ensures forall t :: SwitchedWorkspace(w, token, t, mint, now, cfg) == Outcome(w, Err(ConcurrentRotation))
  {
    FindsItsRow(w.rows, k);
  }

  /** Every unrevoked session of a user is among those a force-logout revokes, and only those. */
  lemma {:induction false} UnrevokedIdsOfUser(rows: seq<Session>, u: User)
    ensures forall i :: 0 <= i < |rows| && rows[i].user == u && rows[i].revokedAt.None? ==>
        rows[i].id in UnrevokedIds(rows, u)
    ensures forall id :: id in UnrevokedIds(rows, u) ==>
              exists i :: 0 <= i < |rows| && rows[i].id == id && rows[i].user == u && rows[i].revokedAt.None?
  {
    if rows != [] {
      UnrevokedIdsOfUser(rows[1..], u);
      forall i | 0 <= i < |rows| && rows[i].user == u && rows[i].revokedAt.None?
        ensures rows[i].id in UnrevokedIds(rows, u)
      {
        if i > 0 {
          assert rows[1..][i - 1] == rows[i];
        }
      }
      forall id | id in UnrevokedIds(rows, u)
        ensures exists i :: 0 <= i < |rows| && rows[i].id == id && rows[i].user == u && rows[i].revokedAt.None?
      {
        if id in UnrevokedIds(rows[1..], u) {
          var i :| 0 <= i < |rows[1..]| && rows[1..][i].id == id && rows[1..][i].user == u
                   && rows[1..][i].revokedAt.None?;
          assert rows[i + 1].id == id;
        }
      }
    }
  }

  /** After a force-logout of u: all of u's sessions revoked and their access tokens refused, all others as before. */
  ghost predicate LoggedOutEverywhere(w: State, x: State, u: User, now: int, cfg: Config) {
    && |x.rows| == |w.rows|
    && (forall i :: 0 <= i < |w.rows| && w.rows[i].user == u ==>
         x.rows[i].revokedAt.Some? && (w.rows[i].revokedAt.None? ==>
           DeniedUntil(x.deny, w.rows[i].id, now + cfg.accessTtl * 1000)))
    && (forall i :: 0 <= i < |w.rows| && w.rows[i].user != u ==> x.rows[i] == w.rows[i])
  }

  lemma IdsTellUsersApart(rows: seq<Session>, u: User)
    requires Keys(rows)
    ensures forall i :: 0 <= i < |rows| ==>
              (rows[i].id in UnrevokedIds(rows, u) <==> rows[i].user == u && rows[i].revokedAt.None?)
  {
    UnrevokedIdsOfUser(rows, u);
  }

  lemma ForceLogoutIsComplete(w: State, clock: int, u: User, now: int, cfg: Config)
    requires Inv(w, clock, cfg)
    ensures LoggedOutEverywhere(w, Cut(w, Elems(UnrevokedIds(w.rows, u)), now, cfg), u, now, cfg)
  {
    IdsTellUsersApart(w.rows, u);
    var ids := Elems(UnrevokedIds(w.rows, u));
    var x := Cut(w, ids, now, cfg);
    CutDenies(w, ids, now, cfg);
    forall i | 0 <= i < |w.rows|
      ensures w.rows[i].user == u ==>
                x.rows[i].revokedAt.Some? && (w.rows[i].revokedAt.None? ==>
                  DeniedUntil(x.deny, w.rows[i].id, now + cfg.accessTtl * 1000))
      ensures w.rows[i].user != u ==> x.rows[i] == w.rows[i]
    {
      assert x.rows[i] == RevokedIf(w.rows[i], w.rows[i].id in ids, now);
    }
  }

  lemma CutDenies(w: State, ids: set<Revocation.Sid>, now: int, cfg: Config)
    ensures forall id :: id in ids ==> DeniedUntil(Cut(w, ids, now, cfg).deny, id, now + cfg.accessTtl * 1000)
  {
  }

  /** Past the grace window a replay revokes and deny-lists every session of the user, and from then on no refresh
      token issued to that user before is accepted, in any continuation. */
  lemma ReplayEndsTheFamily(w: State, clock: int, cfg: Config, k: nat, token: Token, now: int)
    requires Inv(w, clock, cfg) && clock <= now && k < |w.rows| && w.rows[k].hash == HashOf(token)
    requires w.rows[k].revokedAt.Some? && now - w.rows[k].revokedAt.value > REUSE_GRACE_MS
    ensures Presented(w, token, now, cfg).result == Err(InvalidToken)
    ensures LoggedOutEverywhere(w, Presented(w, token, now, cfg).state, w.rows[k].user, now, cfg)
  {
    FindsItsRow(w.rows, k);
    ForceLogoutIsComplete(w, clock, w.rows[k].user, now, cfg);
  }

  lemma NoEarlierTokenAfterReplay(w: State, clock: int, cfg: Config, k: nat, token: Token, now: int,
                                  steps: seq<Step>, i: nat, earlier: Token, later: int)
    requires Inv(w, clock, cfg) && clock <= now && k < |w.rows| && w.rows[k].hash == HashOf(token)
    requires w.rows[k].revokedAt.Some? && now - w.rows[k].revokedAt.value > REUSE_GRACE_MS
    requires Run(Presented(w, token, now, cfg).state, now, steps, cfg)
    requires i < |w.rows| && w.rows[i].user == w.rows[k].user && w.rows[i].hash == HashOf(earlier)
    ensures Presented(After(Presented(w, token, now, cfg).state, steps, cfg), earlier, later, cfg).result.Err?
  {
    ReplayEndsTheFamily(w, clock, cfg, k, token, now);
    PresentedKeeps(w, token, clock, now, cfg);
    PresentedGrows(w, token, clock, now, cfg);
    var x := Presented(w, token, now, cfg).state;
    assert SameSession(w.rows[i], x.rows[i]);
    RevokedForever(x, now, steps, cfg, i, earlier, later);
  }

  // ---- access tokens ---------------------------------------------------------------------------------------

  /** Once a session is revoked, an access token minted for it before is expired or refused by the deny-list in
      every later state. */
  lemma AccessEndsWithSession(w: State, clock: int, steps: seq<Step>, cfg: Config, k: nat, mintedAt: int, now: int)
    requires Inv(w, clock, cfg) && Run(w, clock, steps, cfg)
    requires k < |w.rows| && w.rows[k].revokedAt.Some? && mintedAt <= w.rows[k].revokedAt.value
    ensures now < mintedAt + cfg.accessTtl * 1000 ==> Revocation.Listed(After(w, steps, cfg).deny, w.rows[k].id, now)
  {
    RunGrows(w, clock, steps, cfg);
    var x := After(w, steps, cfg);
    assert DeniedUntil(w.deny, w.rows[k].id, w.rows[k].revokedAt.value + cfg.accessTtl * 1000);
    assert DeniedUntil(x.deny, w.rows[k].id, w.deny[w.rows[k].id]);
  }

  /** A refresh or switch mints for the session it creates and revokes the one it was given. */
  lemma RotationHandsOver(w: State, token: Token, mint: Mint, clock: int, now: int, cfg: Config)
    requires Inv(w, clock, cfg) && clock <= now && Fresh(w.rows, mint)
    ensures var r := Refresh(w, token, mint, now, cfg);
            r.result.Ok? ==>
              && |r.state.rows| == |w.rows| + 1
              && var row := r.state.rows[|w.rows|];
                 && r.result.value == Issued(AccessToken(row.user, row.tenant.value, row.workspace, row.id,
                                                         now + cfg.accessTtl * 1000), mint.token, row.expiresAt)
                 && row.revokedAt.None? && row.hash == HashOf(r.result.value.refresh)
                 && exists k :: 0 <= k < |w.rows| && w.rows[k].hash == HashOf(token)
                      && row.rotatedFrom == Some(w.rows[k].id) && row.origin == w.rows[k].origin
                      && row.user == w.rows[k].user && row.tenant == w.rows[k].tenant
                      && row.workspace == w.rows[k].workspace
                      && r.state.rows[k].revokedAt == Some(now)
                      && DeniedUntil(r.state.deny, w.rows[k].id, now + cfg.accessTtl * 1000)
  {
    var k := FoundRow(w, token, now, cfg);
    var r := Refresh(w, token, mint, now, cfg);
    if r.result.Ok? {
      assert r.state.rows[k].revokedAt == Some(now);
    }
  }

  /** A switch only ever lands on an active membership: the tenant asked for and one of the user's workspaces in it,
      or the session's own tenant and the workspace asked for. */
  lemma SwitchesStayInside(w: State, token: Token, t: Tenant, ws: Workspace, mint: Mint, now: int, cfg: Config)
    ensures var r := SwitchedOrg(w, token, t, mint, now, cfg);
            r.result.Ok? ==>
              var a := r.result.value.access;
              && a.user in w.dir.active && a.tenant == t && t in w.dir.Orgs(a.user)
              && (a.workspace.Some? ==> w.dir.HasRole(t, a.workspace.value, a.user))
              && (a.workspace.None? ==> w.dir.Joined(t, a.user) == [])
    ensures var r := SwitchedWorkspace(w, token, ws, mint, now, cfg);
            r.result.Ok? ==>
              var a := r.result.value.access;
              && a.user in w.dir.active && a.workspace == Some(ws) && w.dir.HasRole(a.tenant, ws, a.user)
              && exists s :: s in w.rows && s.hash == HashOf(token) && s.user == a.user && s.tenant == Some(a.tenant)
  {
  }

  /** Where a switch lands is where the user's next login into that tenant lands. */
  lemma SwitchIsRemembered(w: State, token: Token, t: Tenant, ws: Workspace, mint: Mint, now: int, cfg: Config)
    ensures var r := SwitchedOrg(w, token, t, mint, now, cfg);
            r.result.Ok? ==> r.state.dir.Landing(t, r.result.value.access.user) == r.result.value.access.workspace
    ensures var r := SwitchedWorkspace(w, token, ws, mint, now, cfg);
            r.result.Ok? && ws.id != "" ==>
              r.state.dir.Landing(r.result.value.access.tenant, r.result.value.access.user) == Some(ws)
  {
  }

  // ---- deadlines -------------------------------------------------------------------------------------------

  /** A refresh keeps the deadline of the session exactly when a timeout is enforced, or the session had more than
      a full lifetime left anyway. */
  lemma RefreshKeepsDeadline(w: State, s: Session, now: int, cfg: Config)
    requires s.tenant.Some?
    ensures var ctx := RefreshContext(w, s, cfg);
            RotatedExpiry(cfg.refreshTtl, ctx.maxLifetime, ctx.notLaterThan, now) <= s.expiresAt
            <==> TimeoutOf(w.dir, s.tenant.value, cfg).Some? || now + cfg.refreshTtl * 1000 <= s.expiresAt
  {
  }

  /** A switch carries no deadline over: the new session gets a full lifetime, enforced timeout or not. */
  lemma SwitchResetsDeadline(w: State, token: Token, t: Tenant, mint: Mint, now: int, cfg: Config)
    ensures var r := SwitchedOrg(w, token, t, mint, now, cfg);
            r.result.Ok? ==> r.result.value.expiresAt == now + cfg.refreshTtl * 1000
    ensures forall ws :: var r := SwitchedWorkspace(w, token, ws, mint, now, cfg);
            r.result.Ok? ==> r.result.value.expiresAt == now + cfg.refreshTtl * 1000
  {
  }

  // ---- one lineage at a time ---------------------------------------------------------------------------------

  /** The presented token belongs to a session of the lineage. */
  ghost predicate OfLineage(rows: seq<Session>, token: Token, o: Origin) {
    exists i :: 0 <= i < |rows| && rows[i].hash == HashOf(token) && rows[i].origin == o
  }

  /** A row added by a rotation: its predecessor is the unrevoked session the token was for. */
  ghost predicate Succeeds(prior: Session, row: Session, token: Token, now: int) {
    prior.hash == HashOf(token) && prior.revokedAt.None? && now <= prior.expiresAt
    && row.rotatedFrom == Some(prior.id) && row.origin == prior.origin && row.createdAt == now
  }

  /** A step adds at most one row, at the end. */
  ghost predicate AddsOne(w: State, x: State) {
    Grew(w, x) && |x.rows| <= |w.rows| + 1
  }

  lemma LoginAdds(w: State, ctx: Context, cap: Option<int>, mint: Mint, clock: int, now: int, cfg: Config)
    requires Inv(w, clock, cfg) && clock <= now && Fresh(w.rows, mint)
    ensures var x := Created(w, ctx, cap, mint, now, cfg);
            AddsOne(w, x) && |x.rows| == |w.rows| + 1 && SameSession(LoginRow(ctx, mint, now, cfg), x.rows[|w.rows|])
  {
    CreatedGrows(w, ctx, cap, mint, clock, now, cfg);
  }

  lemma RefreshAdds(w: State, token: Token, mint: Mint, clock: int, now: int, cfg: Config) returns (k: int)
    requires Inv(w, clock, cfg) && clock <= now
    ensures var r := Refresh(w, token, mint, now, cfg);
            && AddsOne(w, r.state)
            && (|r.state.rows| == |w.rows| + 1 <==> r.result.Ok?)
            && (r.result.Ok? ==>
                 && 0 <= k < |w.rows| && Succeeds(w.rows[k], r.state.rows[|w.rows|], token, now)
                 && w.rows[k].tenant.Some?
                 && !IsIdleExpired(w.rows[k].lastSeenAt, IdleOf(w.dir, w.rows[k].tenant.value, cfg), now)
                 && r.state.rows[|w.rows|] == RotatedRow(w.rows[k], RefreshContext(w, w.rows[k], cfg), mint, now, cfg))
  {
    RefreshGrows(w, token, mint, clock, now, cfg);
    k := FoundRow(w, token, now, cfg);
  }

  lemma OrgSwitchAdds(w: State, token: Token, t: Tenant, mint: Mint, clock: int, now: int, cfg: Config) returns (k: int)
    requires Inv(w, clock, cfg) && clock <= now
    ensures var r := SwitchedOrg(w, token, t, mint, now, cfg);
            && AddsOne(w, r.state)
            && (|r.state.rows| == |w.rows| + 1 <==> r.result.Ok?)
            && (r.result.Ok? ==> 0 <= k < |w.rows| && Succeeds(w.rows[k], r.state.rows[|w.rows|], token, now))
  {
    SwitchOrgGrows(w, token, t, mint, clock, now, cfg);
    k := FoundRow(w, token, now, cfg);
  }

  lemma WorkspaceSwitchAdds(w: State, token: Token, ws: Workspace, mint: Mint, clock: int, now: int, cfg: Config)
    returns (k: int)
    requires Inv(w, clock, cfg) && clock <= now
    ensures var r := SwitchedWorkspace(w, token, ws, mint, now, cfg);
            && AddsOne(w, r.state)
            && (|r.state.rows| == |w.rows| + 1 <==> r.result.Ok?)
            && (r.result.Ok? ==> 0 <= k < |w.rows| && Succeeds(w.rows[k], r.state.rows[|w.rows|], token, now))
  {
    SwitchWorkspaceGrows(w, token, ws, mint, clock, now, cfg);
    k := FoundRow(w, token, now, cfg);
  }

  // ---- sticky deadlines --------------------------------------------------------------------------------------

  /** As far as lineage o is concerned: it starts under a cap of at most cap seconds, its refreshes find a timeout
      enforced, and no switch rotates it. What happens to other lineages is free. */
  ghost predicate StickyStep(w: State, s: Step, o: Origin, cap: int, cfg: Config) {
    match s.event
    case Login(ctx, _, mint) =>
      Origin(mint.sid, s.time) == o ==> ctx.maxLifetime.Some? && 0 < ctx.maxLifetime.value <= cap
    case RefreshWith(token, mint) =>
      forall i :: 0 <= i < |w.rows| && w.rows[i].hash == HashOf(token) && w.rows[i].origin == o
                  && w.rows[i].tenant.Some? && Refresh(w, token, mint, s.time, cfg).result.Ok? ==>
                    TimeoutOf(w.dir, w.rows[i].tenant.value, cfg).Some?
    case OrgSwitch(token, t, mint) =>
      OfLineage(w.rows, token, o) ==> SwitchedOrg(w, token, t, mint, s.time, cfg).result.Err?
    case WorkspaceSwitch(token, ws, mint) =>
      OfLineage(w.rows, token, o) ==> SwitchedWorkspace(w, token, ws, mint, s.time, cfg).result.Err?
    case _ => true
  }

  ghost predicate StickyRun(w: State, steps: seq<Step>, o: Origin, cap: int, cfg: Config)
    decreases |steps|
  {
    steps == [] || (StickyStep(w, steps[0], o, cap, cfg) && StickyRun(Next(w, steps[0], cfg), steps[1..], o, cap, cfg))
  }

  /** Expiry never increases along the lineage, and starts within the cap. */
  ghost predicate Capped(rows: seq<Session>, o: Origin, cap: int, cfg: Config) {
    && (forall i :: 0 <= i < |rows| && rows[i].origin == o ==>
          rows[i].expiresAt <= o.at + Min(cfg.refreshTtl, cap) * 1000)
    && (forall i, j :: 0 <= i < j < |rows| && rows[i].origin == o && rows[j].origin == o ==>
         rows[j].expiresAt <= rows[i].expiresAt)
  }

  /** A row of another lineage never matters; one of this lineage must not expire later than the others. */
  lemma CappedGrows(w: State, x: State, o: Origin, cap: int, cfg: Config)
    requires AddsOne(w, x) && Capped(w.rows, o, cap, cfg)
    requires |x.rows| == |w.rows| + 1 && x.rows[|w.rows|].origin == o ==>
               var row := x.rows[|w.rows|];
               && row.expiresAt <= o.at + Min(cfg.refreshTtl, cap) * 1000
               && forall i :: 0 <= i < |w.rows| && w.rows[i].origin == o ==> row.expiresAt <= w.rows[i].expiresAt
    ensures Capped(x.rows, o, cap, cfg)
  {
    assert forall i :: 0 <= i < |w.rows| ==> SameSession(w.rows[i], x.rows[i]);
  }

  /** The unrevoked session of the lineage is its newest, so its expiry is the least. */
  lemma LiveIsLeast(rows: seq<Session>, k: nat, o: Origin, cap: int, cfg: Config)
    requires OneLive(rows) && Capped(rows, o, cap, cfg) && k < |rows| && rows[k].revokedAt.None? && rows[k].origin == o
    ensures forall i :: 0 <= i < |rows| && rows[i].origin == o ==> rows[k].expiresAt <= rows[i].expiresAt
  {
  }

  lemma CappedLogin(w: State, clock: int, ctx: Context, sessionCap: Option<int>, mint: Mint, now: int, o: Origin,
                    cap: int, cfg: Config)
    requires Inv(w, clock, cfg) && clock <= now && Fresh(w.rows, mint) && Capped(w.rows, o, cap, cfg)
    requires StickyStep(w, At(now, Login(ctx, sessionCap, mint)), o, cap, cfg)
    ensures Capped(Created(w, ctx, sessionCap, mint, now, cfg).rows, o, cap, cfg)
  {
    LoginAdds(w, ctx, sessionCap, mint, clock, now, cfg);
    assert Origin(mint.sid, now) == o ==> forall i :: 0 <= i < |w.rows| ==> w.rows[i].origin != o;
    CappedGrows(w, Created(w, ctx, sessionCap, mint, now, cfg), o, cap, cfg);
  }

  lemma CappedRefresh(w: State, clock: int, token: Token, mint: Mint, now: int, o: Origin, cap: int, cfg: Config)
    requires Inv(w, clock, cfg) && clock <= now && Capped(w.rows, o, cap, cfg)
    requires StickyStep(w, At(now, RefreshWith(token, mint)), o, cap, cfg)
    ensures Capped(Refresh(w, token, mint, now, cfg).state.rows, o, cap, cfg)
  {
    var k := RefreshAdds(w, token, mint, clock, now, cfg);
    var r := Refresh(w, token, mint, now, cfg);
    if r.result.Ok? && w.rows[k].origin == o {
      LiveIsLeast(w.rows, k, o, cap, cfg);
      RefreshKeepsDeadline(w, w.rows[k], now, cfg);
    }
    CappedGrows(w, r.state, o, cap, cfg);
  }

  lemma CappedStep(w: State, clock: int, s: Step, o: Origin, cap: int, cfg: Config)
    requires Inv(w, clock, cfg) && Enabled(w, clock, s) && StickyStep(w, s, o, cap, cfg) && Capped(w.rows, o, cap, cfg)
    ensures Capped(Next(w, s, cfg).rows, o, cap, cfg)
  {
    match s.event {
      case Login(ctx, sessionCap, mint) => CappedLogin(w, clock, ctx, sessionCap, mint, s.time, o, cap, cfg);
      case RefreshWith(token, mint) => CappedRefresh(w, clock, token, mint, s.time, o, cap, cfg);
      case OrgSwitch(token, t, mint) =>
        var k := OrgSwitchAdds(w, token, t, mint, clock, s.time, cfg);
        CappedGrows(w, Next(w, s, cfg), o, cap, cfg);
      case WorkspaceSwitch(token, ws, mint) =>
        var k := WorkspaceSwitchAdds(w, token, ws, mint, clock, s.time, cfg);
        CappedGrows(w, Next(w, s, cfg), o, cap, cfg);
      case _ =>
        StepGrows(w, clock, s, cfg);
        CappedGrows(w, Next(w, s, cfg), o, cap, cfg);
    }
  }

  lemma {:induction false} CappedRun(w: State, clock: int, steps: seq<Step>, o: Origin, cap: int, cfg: Config)
    requires Inv(w, clock, cfg) && Run(w, clock, steps, cfg) && StickyRun(w, steps, o, cap, cfg)
    requires Capped(w.rows, o, cap, cfg)
    ensures Capped(After(w, steps, cfg).rows, o, cap, cfg)
    decreases |steps|
  {
    if steps != [] {
      StepKeeps(w, clock, steps[0], cfg);
      CappedStep(w, clock, steps[0], o, cap, cfg);
      CappedRun(Next(w, steps[0], cfg), steps[0].time, steps[1..], o, cap, cfg);
    }
  }

  /** While a lineage's timeout stays enforced and it is only rotated by refreshes, whatever everybody else does, no
      refresh of it succeeds later than its login time plus the shorter of the default lifetime and the cap. */
  lemma NoRefreshPastDeadline(dir: Directory, clock: int, steps: seq<Step>, cap: int, cfg: Config, k: nat, token: Token,
                              mint: Mint, now: int)
    requires Run(State([], map[], dir), clock, steps, cfg)
    requires k < |After(State([], map[], dir), steps, cfg).rows|
    requires var row := After(State([], map[], dir), steps, cfg).rows[k];
             row.hash == HashOf(token) && StickyRun(State([], map[], dir), steps, row.origin, cap, cfg)
    ensures var w := After(State([], map[], dir), steps, cfg);
            Refresh(w, token, mint, now, cfg).result.Ok? ==>
              now <= w.rows[k].origin.at + Min(cfg.refreshTtl, cap) * 1000
  {
    var start := State([], map[], dir);
    var w := After(start, steps, cfg);
    EmptyIsSafe(dir, clock, cfg);
    RunKeeps(start, clock, steps, cfg);
    CappedRun(start, clock, steps, w.rows[k].origin, cap, cfg);
    FindsItsRow(w.rows, k);
  }

  // ---- the idle window -------------------------------------------------------------------------------------

  /** As far as lineage o is concerned: its refreshes find an idle window of at most k seconds enforced, and no switch
      rotates it. */
  ghost predicate IdleStep(w: State, s: Step, o: Origin, k: int, cfg: Config) {
    match s.event
    case RefreshWith(token, mint) =>
      forall i :: 0 <= i < |w.rows| && w.rows[i].hash == HashOf(token) && w.rows[i].origin == o
                  && w.rows[i].tenant.Some? && Refresh(w, token, mint, s.time, cfg).result.Ok? ==>
                    WindowAtMost(IdleOf(w.dir, w.rows[i].tenant.value, cfg), k)
    case OrgSwitch(token, t, mint) =>
      OfLineage(w.rows, token, o) ==> SwitchedOrg(w, token, t, mint, s.time, cfg).result.Err?
    case WorkspaceSwitch(token, ws, mint) =>
      OfLineage(w.rows, token, o) ==> SwitchedWorkspace(w, token, ws, mint, s.time, cfg).result.Err?
    case _ => true
  }

  predicate WindowAtMost(idle: Option<int>, k: int) {
    idle.Some? && 0 < idle.value <= k
  }

  ghost predicate IdleRun(w: State, steps: seq<Step>, o: Origin, k: int, cfg: Config)
    decreases |steps|
  {
    steps == [] || (IdleStep(w, steps[0], o, k, cfg) && IdleRun(Next(w, steps[0], cfg), steps[1..], o, k, cfg))
  }

  /** Every rotation of the lineage happened within the window of the one before. */
  ghost predicate Prompt(rows: seq<Session>, o: Origin, k: int) {
    && (forall i, j :: 0 <= i < |rows| && 0 <= j < |rows| && rows[j].origin == o
                       && rows[j].rotatedFrom == Some(rows[i].id) ==>
         rows[j].createdAt - rows[i].createdAt <= k * 1000)
    && (forall i :: 0 <= i < |rows| && rows[i].rotatedFrom.Some? ==> rows[i].rotatedFrom.value in AllIds(rows))
  }

  function AllIds(rows: seq<Session>): set<Revocation.Sid> {
    set i | 0 <= i < |rows| :: rows[i].id
  }

  lemma KnownIdsGrow(w: State, x: State)
    requires Grew(w, x)
    ensures AllIds(w.rows) <= AllIds(x.rows)
  {
    forall i | 0 <= i < |w.rows| ensures w.rows[i].id in AllIds(x.rows) {
      assert SameSession(w.rows[i], x.rows[i]);
    }
  }

  lemma PromptGrows(w: State, x: State, p: int, o: Origin, k: int)
    requires AddsOne(w, x) && Prompt(w.rows, o, k) && Keys(w.rows)
    requires |x.rows| == |w.rows| + 1 ==>
               var row := x.rows[|w.rows|];
               && (forall i :: 0 <= i < |w.rows| ==> w.rows[i].id != row.id)
               && (row.rotatedFrom.Some? ==>
                    && 0 <= p < |w.rows| && row.rotatedFrom == Some(w.rows[p].id)
                    && (row.origin == o ==> row.createdAt - w.rows[p].createdAt <= k * 1000))
    ensures Prompt(x.rows, o, k)
  {
    assert forall i :: 0 <= i < |w.rows| ==> SameSession(w.rows[i], x.rows[i]);
    KnownIdsGrow(w, x);
    forall i, j | 0 <= i < |x.rows| && 0 <= j < |x.rows| && x.rows[j].origin == o
                  && x.rows[j].rotatedFrom == Some(x.rows[i].id)
      ensures x.rows[j].createdAt - x.rows[i].createdAt <= k * 1000
    {
      if j == |w.rows| {
        assert i == p;
      } else if i == |w.rows| {
        assert false;
      }
    }
  }

  lemma PromptRefresh(w: State, clock: int, token: Token, mint: Mint, now: int, o: Origin, k: int, cfg: Config)
    requires Inv(w, clock, cfg) && clock <= now && Fresh(w.rows, mint) && Prompt(w.rows, o, k)
    requires IdleStep(w, At(now, RefreshWith(token, mint)), o, k, cfg)
    ensures Prompt(Refresh(w, token, mint, now, cfg).state.rows, o, k)
  {
    var p := RefreshAdds(w, token, mint, clock, now, cfg);
    PromptGrows(w, Refresh(w, token, mint, now, cfg).state, p, o, k);
  }

  lemma PromptStep(w: State, clock: int, s: Step, o: Origin, k: int, cfg: Config)
    requires Inv(w, clock, cfg) && Enabled(w, clock, s) && IdleStep(w, s, o, k, cfg) && Prompt(w.rows, o, k)
    ensures Prompt(Next(w, s, cfg).rows, o, k)
  {
    match s.event {
      case Login(ctx, sessionCap, mint) =>
        LoginAdds(w, ctx, sessionCap, mint, clock, s.time, cfg);
        PromptGrows(w, Next(w, s, cfg), 0, o, k);
      case RefreshWith(token, mint) => PromptRefresh(w, clock, token, mint, s.time, o, k, cfg);
      case OrgSwitch(token, t, mint) =>
        var p := OrgSwitchAdds(w, token, t, mint, clock, s.time, cfg);
        PromptGrows(w, Next(w, s, cfg), p, o, k);
      case WorkspaceSwitch(token, ws, mint) =>
        var p := WorkspaceSwitchAdds(w, token, ws, mint, clock, s.time, cfg);
        PromptGrows(w, Next(w, s, cfg), p, o, k);
      case _ =>
        StepGrows(w, clock, s, cfg);
        PromptGrows(w, Next(w, s, cfg), 0, o, k);
    }
  }

  lemma {:induction false} PromptRun(w: State, clock: int, steps: seq<Step>, o: Origin, k: int, cfg: Config)
    requires Inv(w, clock, cfg) && Run(w, clock, steps, cfg) && IdleRun(w, steps, o, k, cfg) && Prompt(w.rows, o, k)
    ensures Prompt(After(w, steps, cfg).rows, o, k)
    decreases |steps|
  {
    if steps != [] {
      StepKeeps(w, clock, steps[0], cfg);
      PromptStep(w, clock, steps[0], o, k, cfg);
      PromptRun(Next(w, steps[0], cfg), steps[0].time, steps[1..], o, k, cfg);
    }
  }

  /** While an idle window of k seconds is enforced on a lineage and it is only rotated by refreshes, whatever
      everybody else does, it is only ever rotated within k seconds of the rotation before: its successive refreshes
      are never further apart than the window. */
  lemma RefreshesWithinWindow(dir: Directory, clock: int, steps: seq<Step>, k: int, cfg: Config, i: nat, j: nat)
    requires Run(State([], map[], dir), clock, steps, cfg)
    requires i < |After(State([], map[], dir), steps, cfg).rows| && j < |After(State([], map[], dir), steps, cfg).rows|
    requires IdleRun(State([], map[], dir), steps, After(State([], map[], dir), steps, cfg).rows[j].origin, k, cfg)
    ensures var rows := After(State([], map[], dir), steps, cfg).rows;
            rows[j].rotatedFrom == Some(rows[i].id) ==> rows[j].createdAt - rows[i].createdAt <= k * 1000
  {
    EmptyIsSafe(dir, clock, cfg);
    PromptRun(State([], map[], dir), clock, steps, After(State([], map[], dir), steps, cfg).rows[j].origin, k, cfg);
  }

  // ---- the concurrent-session cap ----------------------------------------------------------------------------

  /** The sessions whose id is not among those evicted. */
  function Staying(live: seq<LiveSession>, gone: set<Revocation.Sid>): seq<LiveSession> {
    if live == [] then []
    else (if live[0].id in gone then [] else [live[0]]) + Staying(live[1..], gone)
  }

  lemma {:induction false} LiveAfterCut(rows: seq<Session>, ids: set<Revocation.Sid>, u: User, now: int)
    ensures ListLive(RevokeIn(rows, ids, now), u, now) == Staying(ListLive(rows, u, now), ids)
  {
    if rows != [] {
      LiveAfterCut(rows[1..], ids, u, now);
      var cut := RevokeIn(rows, ids, now);
      assert cut[1..] == RevokeIn(rows[1..], ids, now);
      assert cut[0] == RevokedIf(rows[0], rows[0].id in ids, now);
      var rest := ListLive(rows[1..], u, now);
      var s := rows[0];
      var x := LiveSession(s.id, s.createdAt, s.expiresAt, s.revokedAt);
      StayingCons(x, rest, ids);
      if s.user == u && s.revokedAt.None? && s.expiresAt > now {
        assert ListLive(rows, u, now) == [x] + rest;
      } else {
        assert ListLive(rows, u, now) == rest;
      }
    }
  }

  lemma StayingCons(x: LiveSession, rest: seq<LiveSession>, gone: set<Revocation.Sid>)
    ensures Staying([x] + rest, gone) == (if x.id in gone then [] else [x]) + Staying(rest, gone)
  {
  }

  /** Removing distinct ids that are all there removes as many sessions. */
  lemma {:induction false} StayingCount(live: seq<LiveSession>, gone: set<Revocation.Sid>)
    requires DistinctIds(live) && forall id :: id in gone ==> Has(live, id)
    ensures |Staying(live, gone)| == |live| - |gone|
  {
    if live == [] {
      assert gone == {};
    } else {
      var rest := gone - {live[0].id};
      HasInTail(live, gone);
      StayingCount(live[1..], rest);
      StayingSame(live[1..], gone, rest, live[0].id);
      WithoutOne(gone, live[0].id);
    }
  }

  lemma HasInTail(live: seq<LiveSession>, gone: set<Revocation.Sid>)
    requires live != [] && forall id :: id in gone ==> Has(live, id)
    ensures forall id :: id in gone - {live[0].id} ==> Has(live[1..], id)
  {
  }

  lemma WithoutOne(gone: set<Revocation.Sid>, id: Revocation.Sid)
    ensures |gone - {id}| == |gone| - if id in gone then 1 else 0
  {
  }

  lemma {:induction false} StayingSame(live: seq<LiveSession>, gone: set<Revocation.Sid>, rest: set<Revocation.Sid>,
                                       id: Revocation.Sid)
    requires rest == gone - {id} && forall i :: 0 <= i < |live| ==> live[i].id != id
    ensures Staying(live, gone) == Staying(live, rest)
  {
    if live != [] {
      StayingSame(live[1..], gone, rest, id);
    }
  }

  lemma {:induction false} LiveListed(rows: seq<Session>, u: User, now: int)
    requires Keys(rows)
    ensures DistinctIds(ListLive(rows, u, now))
    ensures forall x :: x in ListLive(rows, u, now) ==>
              Active(x, now) && exists i :: 0 <= i < |rows| && rows[i].id == x.id
  {
    if rows != [] {
      LiveListed(rows[1..], u, now);
      var rest := ListLive(rows[1..], u, now);
      forall x | x in rest ensures x.id != rows[0].id && exists i :: 0 <= i < |rows| && rows[i].id == x.id {
        var i :| 0 <= i < |rows[1..]| && rows[1..][i].id == x.id;
        assert rows[i + 1].id == x.id;
      }
    }
  }

  lemma {:induction false} AllActive(live: seq<LiveSession>, now: int)
    requires forall x :: x in live ==> Active(x, now)
    ensures ActiveOnes(live, now) == live
  {
    if live != [] {
      assert live[0] in live;
      AllActive(live[1..], now);
    }
  }

  /** Right after a login under a cap the user has exactly as many live sessions as the cap allows, or fewer if there
      were fewer, and the new one is never the one to go. */
  lemma CapHolds(w: State, ctx: Context, cap: int, mint: Mint, clock: int, now: int, cfg: Config)
    requires Inv(w, clock, cfg) && clock <= now && Fresh(w.rows, mint) && cap >= 1
    ensures var before := ListLive(Append(w, LoginRow(ctx, mint, now, cfg)).rows, ctx.user, now);
            var x := Created(w, ctx, Some(cap), mint, now, cfg);
            && |ListLive(x.rows, ctx.user, now)| == Min(cap, |before|)
            && x.rows[|w.rows|] == LoginRow(ctx, mint, now, cfg)
  {
    var row := LoginRow(ctx, mint, now, cfg);
    var added := Append(w, row);
    AppendKeeps(w, row, now, cfg);
    var live := ListLive(added.rows, ctx.user, now);
    var gone := SessionsToEvict(live, cap, mint.sid, now);
    LiveListed(added.rows, ctx.user, now);
    AllActive(live, now);
    EvictsActive(live, cap, mint.sid, now);
    EvictionMeetsCap(live, cap, mint.sid, now);
    DistinctCount(gone);
    forall id | id in Elems(gone) ensures Has(live, id) {
      var s :| s in live && s.id == id;
    }
    StayingCount(live, Elems(gone));
    LiveAfterCut(added.rows, Elems(gone), ctx.user, now);
  }

  // ---- two rotations of one session --------------------------------------------------------------------------

  /** rotate() does not check that the old session is still unrevoked: two rotations of one session that both read
      it first leave two unrevoked sessions in the lineage. */
  lemma DoubleRotationForks(w: State, s: Session, c: Context, d: Context, m: Mint, n: Mint, now: int, cfg: Config)
    requires m.sid != n.sid && s.id != m.sid && s.id != n.sid
    ensures var rows := Rotated(Rotated(w, s, c, m, now, cfg), s, d, n, now, cfg).rows;
            var k := |w.rows|;
            && |rows| == k + 2 && rows[k].origin == rows[k + 1].origin
            && rows[k].revokedAt.None? && rows[k + 1].revokedAt.None?
  {
  }
}
