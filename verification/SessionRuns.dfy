/** Safety of the session protocol over whole runs: lineages, reuse detection, deadlines, deny-listing
    (packages/auth/src/session.ts, refresh.ts, switchOrg.ts, switchWorkspace.ts). */
module SessionRuns {
  import opened Prelude
  import opened Memberships
  import opened Revocation
  import opened SessionLimits
  import opened Sessions

  // ---- runs ----------------------------------------------------------------------------------------------

  /** One operation; each is taken as one step. Administer is any change to the directory. */
  datatype Event =
    | Login(ctx: Context, cap: Option<int>, mint: Mint)
    | RefreshWith(token: Token, mint: Mint)
    | OrgSwitch(token: Token, tenant: Tenant, mint: Mint)
    | WorkspaceSwitch(token: Token, workspace: Workspace, mint: Mint)
    | Logout(sid: Sid)
    | ForceLogout(user: User)
    | Administer(dir: Directory)

  datatype Step = At(time: int, event: Event)

  function Next(w: State, s: Step, cfg: Config): State {
    match s.event
    case Login(ctx, cap, mint) => Created(w, ctx, cap, mint, s.time, cfg)
    case RefreshWith(token, mint) => Refresh(w, token, mint, s.time, cfg).state
    case OrgSwitch(token, tenant, mint) => SwitchedOrg(w, token, tenant, mint, s.time, cfg).state
    case WorkspaceSwitch(token, workspace, mint) => SwitchedWorkspace(w, token, workspace, mint, s.time, cfg).state
    case Logout(sid) => Cut(w, {sid}, s.time, cfg)
    case ForceLogout(user) => Cut(w, Elems(UnrevokedIds(w.rows, user)), s.time, cfg)
    case Administer(dir) => w.(dir := dir)
  }

  /** Drawn ids and tokens never repeat: not an id in the table, not one a lineage started from. */
  ghost predicate Fresh(rows: seq<Session>, mint: Mint) {
    forall i :: 0 <= i < |rows| ==>
      rows[i].id != mint.sid && rows[i].origin.id != mint.sid && rows[i].hash != HashOf(mint.token)
  }

  ghost predicate Enabled(w: State, clock: int, s: Step) {
    clock <= s.time
    && match s.event
       case Login(_, _, mint) => Fresh(w.rows, mint)
       case RefreshWith(_, mint) => Fresh(w.rows, mint)
       case OrgSwitch(_, _, mint) => Fresh(w.rows, mint)
       case WorkspaceSwitch(_, _, mint) => Fresh(w.rows, mint)
       case _ => true
  }

  /** Steps at nondecreasing times. */
  ghost predicate Run(w: State, clock: int, steps: seq<Step>, cfg: Config)
    decreases |steps|
  {
    steps == [] || (Enabled(w, clock, steps[0]) && Run(Next(w, steps[0], cfg), steps[0].time, steps[1..], cfg))
  }

  function After(w: State, steps: seq<Step>, cfg: Config): State
    decreases |steps|
  {
    if steps == [] then w else After(Next(w, steps[0], cfg), steps[1..], cfg)
  }

  function ClockAfter(clock: int, steps: seq<Step>): int {
    if steps == [] then clock else steps[|steps| - 1].time
  }

  // ---- the invariant ---------------------------------------------------------------------------------------

  ghost predicate Keys(rows: seq<Session>) {
    forall i, j :: 0 <= i < j < |rows| ==> rows[i].id != rows[j].id && rows[i].hash != rows[j].hash
  }

  /** Of a lineage, only the newest session can be unrevoked. */
  ghost predicate OneLive(rows: seq<Session>) {
    forall i, j :: 0 <= i < j < |rows| && rows[i].origin == rows[j].origin ==> rows[i].revokedAt.Some?
  }

  ghost predicate Dated(rows: seq<Session>, clock: int) {
    forall i :: 0 <= i < |rows| ==>
      rows[i].createdAt <= clock && rows[i].lastSeenAt == Some(rows[i].createdAt)
      && (rows[i].revokedAt.Some? ==> rows[i].createdAt <= rows[i].revokedAt.value <= clock)
  }

  ghost predicate DeniedUntil(deny: DenyList, id: Sid, until: int) {
    id in deny && deny[id] >= until
  }

  /** A revoked session stays listed for an access-token lifetime after its revocation. */
  ghost predicate AllDenied(w: State, cfg: Config) {
    forall i :: 0 <= i < |w.rows| && w.rows[i].revokedAt.Some? ==>
      DeniedUntil(w.deny, w.rows[i].id, w.rows[i].revokedAt.value + cfg.accessTtl * 1000)
  }

  ghost predicate DenyBounded(deny: DenyList, clock: int, cfg: Config) {
    forall id :: id in deny ==> deny[id] <= clock + cfg.accessTtl * 1000
  }

  ghost predicate Inv(w: State, clock: int, cfg: Config) {
    Keys(w.rows) && OneLive(w.rows) && Dated(w.rows, clock) && AllDenied(w, cfg)
    && DenyBounded(w.deny, clock, cfg)
  }

  lemma EmptyIsSafe(dir: Directory, clock: int, cfg: Config)
    ensures Inv(State([], map[], dir), clock, cfg)
  {
  }

  lemma CutKeeps(w: State, ids: set<Sid>, clock: int, now: int, cfg: Config)
    requires Inv(w, clock, cfg) && clock <= now
    ensures Inv(Cut(w, ids, now, cfg), now, cfg)
  {
    var r := Cut(w, ids, now, cfg);
    assert forall i :: 0 <= i < |r.rows| ==> r.rows[i] == RevokedIf(w.rows[i], w.rows[i].id in ids, now);
  }

  /** A new row is safe if its keys are fresh and the rest of its lineage is revoked. */
  lemma AppendKeeps(w: State, s: Session, clock: int, cfg: Config)
    requires Inv(w, clock, cfg)
    requires forall i :: 0 <= i < |w.rows| ==> w.rows[i].id != s.id && w.rows[i].hash != s.hash
    requires s.revokedAt.None? && s.createdAt <= clock && s.lastSeenAt == Some(s.createdAt)
    requires forall i :: 0 <= i < |w.rows| && w.rows[i].origin == s.origin ==> w.rows[i].revokedAt.Some?
    ensures Inv(Append(w, s), clock, cfg)
  {
  }

  lemma PinKeeps(w: State, id: Sid, ws: Workspace, dir: Directory, clock: int, cfg: Config)
    requires Inv(w, clock, cfg)
    ensures Inv(w.(rows := PinWorkspace(w.rows, id, ws), dir := dir), clock, cfg)
  {
  }

  lemma CreatedKeeps(w: State, ctx: Context, cap: Option<int>, mint: Mint, clock: int, now: int, cfg: Config)
    requires Inv(w, clock, cfg) && clock <= now && Fresh(w.rows, mint)
    ensures Inv(Created(w, ctx, cap, mint, now, cfg), now, cfg)
  {
    var row := LoginRow(ctx, mint, now, cfg);
    var added := Append(w, row);
    AppendKeeps(w, row, now, cfg);
    CutKeeps(added, Elems(Evicted(added.rows, ctx.user, cap, mint.sid, now)), now, now, cfg);
  }

  lemma RotatedKeeps(w: State, k: nat, ctx: Context, mint: Mint, clock: int, now: int, cfg: Config)
    requires Inv(w, clock, cfg) && clock <= now && Fresh(w.rows, mint)
    requires k < |w.rows| && w.rows[k].revokedAt.None?
    ensures Inv(Rotated(w, w.rows[k], ctx, mint, now, cfg), now, cfg)
  {
    var s := w.rows[k];
    CutKeeps(w, {s.id}, clock, now, cfg);
    var cut := Cut(w, {s.id}, now, cfg);
    var row := RotatedRow(s, ctx, mint, now, cfg);
    assert cut.rows[k].origin == row.origin;
    forall i | 0 <= i < |cut.rows| && cut.rows[i].origin == row.origin ensures cut.rows[i].revokedAt.Some? {
      assert w.rows[i].origin == s.origin;
    }
    AppendKeeps(cut, row, now, cfg);
  }

  /** What a presented token finds. */
  lemma FoundRow(w: State, token: Token, now: int, cfg: Config) returns (k: int)
    ensures Presented(w, token, now, cfg).result.Ok? ==>
              && 0 <= k < |w.rows| && w.rows[k] == Presented(w, token, now, cfg).result.value
              && Presented(w, token, now, cfg).state == w
              && w.rows[k].revokedAt.None? && w.rows[k].hash == HashOf(token) && now <= w.rows[k].expiresAt
  {
    k := 0;
    if Presented(w, token, now, cfg).result.Ok? {
      var s := Presented(w, token, now, cfg).result.value;
      assert s in w.rows;
      k :| 0 <= k < |w.rows| && w.rows[k] == s;
    }
  }

  lemma PresentedKeeps(w: State, token: Token, clock: int, now: int, cfg: Config)
    requires Inv(w, clock, cfg) && clock <= now
    ensures Inv(Presented(w, token, now, cfg).state, now, cfg)
  {
    var found := FindByHash(w.rows, HashOf(token));
    if found.Some? {
      CutKeeps(w, Elems(UnrevokedIds(w.rows, found.value.user)), clock, now, cfg);
    }
    LaterKeeps(w, clock, now, cfg);
  }

  lemma LaterKeeps(w: State, clock: int, now: int, cfg: Config)
    requires Inv(w, clock, cfg) && clock <= now
    ensures Inv(w, now, cfg)
  {
  }

  lemma RefreshKeeps(w: State, token: Token, mint: Mint, clock: int, now: int, cfg: Config)
    requires Inv(w, clock, cfg) && clock <= now && Fresh(w.rows, mint)
    ensures Inv(Refresh(w, token, mint, now, cfg).state, now, cfg)
  {
    PresentedKeeps(w, token, clock, now, cfg);
    LaterKeeps(w, clock, now, cfg);
    var k := FoundRow(w, token, now, cfg);
    if Presented(w, token, now, cfg).result.Ok? {
      var s := w.rows[k];
      CutKeeps(w, {s.id}, clock, now, cfg);
      if Named(s.tenant) {
        RotatedKeeps(w, k, RefreshContext(w, s, cfg), mint, clock, now, cfg);
      }
    }
  }

  lemma SwitchOrgKeeps(w: State, token: Token, target: Tenant, mint: Mint, clock: int, now: int, cfg: Config)
    requires Inv(w, clock, cfg) && clock <= now && Fresh(w.rows, mint)
    ensures Inv(SwitchedOrg(w, token, target, mint, now, cfg).state, now, cfg)
  {
    PresentedKeeps(w, token, clock, now, cfg);
    LaterKeeps(w, clock, now, cfg);
    var k := FoundRow(w, token, now, cfg);
    if Presented(w, token, now, cfg).result.Ok? {
      var s := w.rows[k];
      var landing := w.dir.Landing(target, s.user);
      var moved := w.(dir := RememberIf(w.dir, target, s.user, landing));
      RotatedKeeps(moved, k, Context(s.user, Some(target), landing, None, None), mint, clock, now, cfg);
    }
  }

  lemma SwitchWorkspaceKeeps(w: State, token: Token, target: Workspace, mint: Mint, clock: int, now: int, cfg: Config)
    requires Inv(w, clock, cfg) && clock <= now && Fresh(w.rows, mint)
    ensures Inv(SwitchedWorkspace(w, token, target, mint, now, cfg).state, now, cfg)
  {
    PresentedKeeps(w, token, clock, now, cfg);
    LaterKeeps(w, clock, now, cfg);
    var k := FoundRow(w, token, now, cfg);
    if Presented(w, token, now, cfg).result.Ok? {
      var s := w.rows[k];
      if Named(s.tenant) {
        var dir := w.dir.Remember(s.tenant.value, s.user, target);
        PinKeeps(w, s.id, target, dir, clock, cfg);
        PinnedRotation(w, k, target, dir, mint, clock, now, cfg);
      }
    }
  }

  /** Pinning the workspace first changes nothing the rotation depends on. */
  lemma PinnedRotation(w: State, k: nat, target: Workspace, dir: Directory, mint: Mint, clock: int, now: int,
      cfg: Config)
    requires Inv(w, clock, cfg) && clock <= now && Fresh(w.rows, mint)
    requires k < |w.rows| && w.rows[k].revokedAt.None?
    ensures var s := w.rows[k];
            var pinned := w.(rows := PinWorkspace(w.rows, s.id, target), dir := dir);
            Inv(Rotated(pinned, s, Context(s.user, s.tenant, Some(target), None, None), mint, now, cfg), now, cfg)
  {
    var s := w.rows[k];
    var pinned := w.(rows := PinWorkspace(w.rows, s.id, target), dir := dir);
    PinKeeps(w, s.id, target, dir, clock, cfg);
    RotatedKeeps(pinned, k, Context(s.user, s.tenant, Some(target), None, None), mint, clock, now, cfg);
  }

  lemma StepKeeps(w: State, clock: int, s: Step, cfg: Config)
    requires Inv(w, clock, cfg) && Enabled(w, clock, s)
    ensures Inv(Next(w, s, cfg), s.time, cfg)
  {
    match s.event {
      case Login(ctx, cap, mint) => CreatedKeeps(w, ctx, cap, mint, clock, s.time, cfg);
      case RefreshWith(token, mint) => RefreshKeeps(w, token, mint, clock, s.time, cfg);
      case OrgSwitch(token, tenant, mint) => SwitchOrgKeeps(w, token, tenant, mint, clock, s.time, cfg);
      case WorkspaceSwitch(token, workspace, mint) => SwitchWorkspaceKeeps(w, token, workspace, mint, clock, s.time,
          cfg);
      case Logout(sid) => CutKeeps(w, {sid}, clock, s.time, cfg);
      case ForceLogout(user) => CutKeeps(w, Elems(UnrevokedIds(w.rows, user)), clock, s.time, cfg);
      case Administer(_) => LaterKeeps(w, clock, s.time, cfg);
    }
  }

  lemma {:induction false} RunKeeps(w: State, clock: int, steps: seq<Step>, cfg: Config)
    requires Inv(w, clock, cfg) && Run(w, clock, steps, cfg)
    ensures Inv(After(w, steps, cfg), ClockAfter(clock, steps), cfg)
    decreases |steps|
  {
    if steps != [] {
      StepKeeps(w, clock, steps[0], cfg);
      RunKeeps(Next(w, steps[0], cfg), steps[0].time, steps[1..], cfg);
    }
  }

  /** Every reachable state: a lineage never has two unrevoked sessions. */
  lemma LineagesHaveOneSession(dir: Directory, clock: int, steps: seq<Step>, cfg: Config, i: nat, j: nat)
    requires Run(State([], map[], dir), clock, steps, cfg)
    requires i < |After(State([], map[], dir), steps, cfg).rows| && j < |After(State([], map[], dir), steps, cfg).rows|
    ensures var rows := After(State([], map[], dir), steps, cfg).rows;
            rows[i].origin == rows[j].origin && rows[i].revokedAt.None? && rows[j].revokedAt.None? ==> i == j
  {
    EmptyIsSafe(dir, clock, cfg);
    RunKeeps(State([], map[], dir), clock, steps, cfg);
  }
}
