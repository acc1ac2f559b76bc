/** The login state machine after primary authentication (packages/auth/src/flow.ts, scopeGuard.ts,
    loginTransaction.ts). */
module LoginFlow {
  import opened Prelude
  import opened Policy
  import opened Memberships
  import opened LoginGates
  import IpMatch
  import AuthCode
  import PolicyRows
  import Sessions

  const TTL_SECONDS: int := 600

  datatype TxnId = TxnId(text: string)

  /** The pending-login record. */
  datatype Txn = Txn(
    user: User,
    appOrigin: string,
    challenge: AuthCode.Challenge,
    state: string,
    clientIp: string,
    mfaVerified: bool,
    used: Option<Method>,
    tenant: Option<Tenant>,
    workspace: Option<Workspace>,
    createdAt: int)

  /** A Redis key with its expiry. */
  datatype Stored = Stored(txn: Txn, expiresAt: int)

  type TxnStore = map<TxnId, Stored>

  /** The fields a step may set. */
  datatype Patch = Patch(mfaVerified: Option<bool>, tenant: Option<Tenant>, workspace: Option<Workspace>)

  datatype Step = MfaStep | MfaEnrollStep | OrgStep | WorkspaceStep | Complete

  datatype LoginError =
    | InvalidCredentials
    | TenantForbidden
    | MfaNeeded
    | GateClosed(refusal: Refusal)
    | WorkspaceForbidden

  // ---- loginTransaction.ts ---------------------------------------------------------------------------------

  function Lookup(txns: TxnStore, id: TxnId, now: int): Option<Txn> {
    if id in txns && now < txns[id].expiresAt then Some(txns[id].txn) else None
  }

  /** { ...cur, ...patch } */
  function Merge(t: Txn, p: Patch): Txn {
    t.(mfaVerified := if p.mfaVerified.Some? then p.mfaVerified.value else t.mfaVerified,
       tenant := if p.tenant.Some? then p.tenant else t.tenant,
       workspace := if p.workspace.Some? then p.workspace else t.workspace)
  }

  /** A missing or expired record stays missing; a patch keeps the record's remaining life. */
  function Patched(txns: TxnStore, id: TxnId, p: Patch, now: int): TxnStore {
    var cur := Lookup(txns, id, now);
    if cur.None? then txns else txns[id := Stored(Merge(cur.value, p), txns[id].expiresAt)]
  }

  class TransactionStore {
    var txns: TxnStore

    constructor ()
      ensures txns == map[]
    {
      txns := map[];
    }

    method Create(input: Txn, drawn: TxnId, now: int) returns (id: TxnId, txn: Txn)
      modifies this
      ensures id == drawn && txn == input.(mfaVerified := false, tenant := None, workspace := None, createdAt := now)
      ensures txns == old(txns)[id := Stored(txn, now + TTL_SECONDS * 1000)]
    {
      id := drawn;
      txn := input.(mfaVerified := false, tenant := None, workspace := None, createdAt := now);
      txns := txns[id := Stored(txn, now + TTL_SECONDS * 1000)];
    }

    method PatchTxn(id: TxnId, p: Patch, now: int)
      modifies this
      ensures txns == Patched(old(txns), id, p, now)
    {
      var cur := Lookup(txns, id, now);
      if cur.None? {
        return;
      }
      txns := txns[id := Stored(Merge(cur.value, p), txns[id].expiresAt)];
    }

    method Delete(id: TxnId)
      modifies this
      ensures txns == old(txns) - {id}
    {
      txns := txns - {id};
    }
  }

  // ---- the per-request read cache ----------------------------------------------------------------------------

  /** What one request has already read. */
  class ResolvedScope {
    var orgs: Option<seq<Tenant>>
    var workspacesByTenant: map<Tenant, seq<Workspace>>

    constructor ()
      ensures orgs == None && workspacesByTenant == map[]
    {
      orgs := None;
      workspacesByTenant := map[];
    }

    /** Nothing remembered has gone stale within the request. */
    ghost predicate Current(dir: Directory, u: User)
      reads this
    {
      && (orgs.Some? ==> orgs.value == dir.Orgs(u))
      && (forall t :: t in workspacesByTenant ==> workspacesByTenant[t] == dir.WorkspacesOf(t, u))
    }

    method GetOrgs(dir: Directory, u: User) returns (r: seq<Tenant>)
      requires Current(dir, u)
      modifies this
      ensures Current(dir, u) && r == dir.Orgs(u) && orgs == Some(r)
      ensures workspacesByTenant == old(workspacesByTenant)
    {
      if orgs.None? {
        orgs := Some(dir.Orgs(u));
      }
      r := orgs.value;
    }

    method GetWorkspaces(dir: Directory, u: User, t: Tenant) returns (r: seq<Workspace>)
      requires Current(dir, u)
      modifies this
      ensures Current(dir, u) && r == dir.WorkspacesOf(t, u) && orgs == old(orgs)
      ensures workspacesByTenant == old(workspacesByTenant)[t := r]
    {
      if t !in workspacesByTenant {
        workspacesByTenant := workspacesByTenant[t := dir.WorkspacesOf(t, u)];
      }
      r := workspacesByTenant[t];
    }
  }

  // ---- scopeGuard.ts ---------------------------------------------------------------------------------------

  predicate Given(t: Option<Tenant>) {
    t.Some? && t.value.id != ""
  }

  predicate Chosen(w: Option<Workspace>) {
    w.Some? && w.value.id != ""
  }

  /** A requested tenant must be a membership; without a request the first membership is taken. */
  function AuthorizeTenantSelection(memberships: seq<Tenant>, requested: Option<Tenant>): (r: Result<Tenant,
      LoginError>)
    ensures r.Ok? ==> r.value in memberships && (Given(requested) ==> requested == Some(r.value))
    ensures r == Err(TenantForbidden) <==> Given(requested) && requested.value !in memberships
  {
    if Given(requested) then
      if requested.value !in memberships then Err(TenantForbidden) else Ok(requested.value)
    else if memberships == [] || memberships[0].id == "" then Err(InvalidCredentials)
    else Ok(memberships[0])
  }

  // ---- resolveNextStep -------------------------------------------------------------------------------------

  /** The step, and what was selected automatically on the way. */
  datatype Resolution = Resolution(step: Step, tenant: Option<Tenant>, workspace: Option<Workspace>)

  predicate BothArms(dir: Directory, t: Tenant, armed: bool) {
    armed && dir.Enforced(t).enabled
  }

  predicate MfaMandated(dir: Directory, t: Tenant) {
    dir.Enforced(t).policy.mfa == MfaRequired
  }

  /** The tenant-scoped part, once the tenant is known. */
  function ScopedStep(dir: Directory, txn: Txn, t: Tenant, picked: Option<Tenant>, armed: bool): Resolution {
    if !txn.mfaVerified && BothArms(dir, t, armed) && MfaMandated(dir, t) then Resolution(MfaEnrollStep, picked, None)
    else if Chosen(txn.workspace) || |dir.WorkspacesOf(t, txn.user)| <= 1 then Resolution(Complete, picked, None)
    else
      var last := dir.Last(t, txn.user);
      if Chosen(last) && last.value in dir.WorkspacesOf(t, txn.user) then Resolution(Complete, picked, last)
      else Resolution(WorkspaceStep, picked, None)
  }

  function NextStep(dir: Directory, txn: Txn, armed: bool): Resolution {
    if !txn.mfaVerified && txn.user in dir.mfaEnrolled then Resolution(MfaStep, None, None)
    else if Given(txn.tenant) then ScopedStep(dir, txn, txn.tenant.value, None, armed)
    else
      var orgs := dir.Orgs(txn.user);
      if |orgs| > 1 then Resolution(OrgStep, None, None)
      else if orgs == [] || orgs[0].id == "" then Resolution(Complete, None, None)
      else ScopedStep(dir, txn, orgs[0], Some(orgs[0]), armed)
  }

  /** The two patches a resolution leaves behind, the tenant's first. */
  function Selections(txns: TxnStore, id: TxnId, r: Resolution, now: int): TxnStore {
    var first := if r.tenant.Some? then Patched(txns, id, Patch(None, r.tenant, None), now) else txns;
    if r.workspace.Some? then Patched(first, id, Patch(None, None, r.workspace), now) else first
  }

  method ResolveNextStep(store: TransactionStore, id: TxnId, txn: Txn, scope: ResolvedScope, dir: Directory,
      armed: bool,
                         now: int) returns (step: Step)
    requires scope.Current(dir, txn.user)
    modifies store, scope
    ensures step == NextStep(dir, txn, armed).step && scope.Current(dir, txn.user)
    ensures store.txns == Selections(old(store.txns), id, NextStep(dir, txn, armed), now)
  {
    if !txn.mfaVerified {
      var hasVerifiedMethod := txn.user in dir.mfaEnrolled;
      if hasVerifiedMethod {
        return MfaStep;
      }
    }
    var tenantId := txn.tenant;
    if !Given(tenantId) {
      var orgs := scope.GetOrgs(dir, txn.user);
      if |orgs| > 1 {
        return OrgStep;
      }
      if |orgs| == 0 || orgs[0].id == "" {
        return Complete;
      }
      tenantId := Some(orgs[0]);
      store.PatchTxn(id, Patch(None, tenantId, None), now);
      step := ResolveScoped(store, id, txn, tenantId.value, scope, dir, armed, now, tenantId);
    } else {
      step := ResolveScoped(store, id, txn, tenantId.value, scope, dir, armed, now, None);
    }
  }

  /** The rest, once the tenant is known; nobody enrolled and unverified gets here. */
  method ResolveScoped(store: TransactionStore, id: TxnId, txn: Txn, t: Tenant, scope: ResolvedScope, dir: Directory,
                       armed: bool, now: int, ghost picked: Option<Tenant>) returns (step: Step)
    requires scope.Current(dir, txn.user)
    modifies store, scope
    ensures step == ScopedStep(dir, txn, t, picked, armed).step && scope.Current(dir, txn.user)
    ensures var last := ScopedStep(dir, txn, t, picked, armed).workspace;
            store.txns == if last.Some? then Patched(old(store.txns), id, Patch(None, None, last), now)
                else old(store.txns)
  {
    if armed && !txn.mfaVerified {
      var e := dir.Enforced(t);
      if e.enabled && e.policy.mfa == MfaRequired {
        return MfaEnrollStep;
      }
    }
    if !Chosen(txn.workspace) {
      var ws := scope.GetWorkspaces(dir, txn.user, t);
      if |ws| > 1 {
        var last := dir.Last(t, txn.user);
        if Chosen(last) && last.value in ws {
          store.PatchTxn(id, Patch(None, None, last), now);
          return Complete;
        }
        return WorkspaceStep;
      }
    }
    step := Complete;
  }

  // ---- finalizeLogin ---------------------------------------------------------------------------------------

  /** What finalization settles on. */
  datatype Grant = Grant(tenant: Tenant, workspace: Option<Workspace>, maxLifetime: Option<int>)

  ghost function EnforcedRefusal(dir: Directory, txn: Txn, t: Tenant, armed: bool): Option<Refusal> {
    if BothArms(dir, t, armed) then GateRefusal(dir.Enforced(t).policy, txn.clientIp, txn.used) else None
  }

  /** An explicit choice must be a membership; otherwise the only workspace, or the landing one. */
  function WorkspaceFor(dir: Directory, txn: Txn, t: Tenant): Result<Option<Workspace>, LoginError> {
    if Chosen(txn.workspace) then
      if dir.HasRole(t, txn.workspace.value, txn.user) then Ok(txn.workspace) else Err(WorkspaceForbidden)
    else
      var ws := dir.WorkspacesOf(t, txn.user);
      Ok(if |ws| == 1 then Some(ws[0]) else if |ws| > 1 then dir.Landing(t, txn.user) else None)
  }

  /** The decision, in the order its checks are made. */
  ghost function Decide(dir: Directory, txn: Txn, cfg: Sessions.Config): Result<Grant, LoginError> {
    match AuthorizeTenantSelection(dir.Orgs(txn.user), txn.tenant)
    case Err(e) => Err(e)
    case Ok(t) =>
      if !txn.mfaVerified && MfaMandated(dir, t) then Err(MfaNeeded)
      else
        match EnforcedRefusal(dir, txn, t, cfg.armed)
        case Some(r) => Err(GateClosed(r))
        case None =>
          match WorkspaceFor(dir, txn, t)
          case Err(e) => Err(e)
          case Ok(w) => Ok(Grant(t, w, Sessions.TimeoutOf(dir, t, cfg)))
  }

  function BindingOf(dir: Directory, txn: Txn, g: Grant, mint: Sessions.Mint): AuthCode.Binding {
    AuthCode.Binding(txn.user, g.tenant, mint.sid, txn.appOrigin, txn.clientIp, txn.challenge, g.workspace,
                     txn.user in dir.platformAdmins)
  }

  function SessionContext(txn: Txn, g: Grant): Sessions.Context {
    Sessions.Context(txn.user, Some(g.tenant), g.workspace, g.maxLifetime, None)
  }

  /** The session and the remembered workspace a grant leaves. */
  function Opened(w: Sessions.State, txn: Txn, g: Grant, cap: Option<int>, mint: Sessions.Mint, now: int,
                  cfg: Sessions.Config): Sessions.State
  {
    Sessions.Created(w.(dir := Sessions.RememberIf(w.dir, g.tenant, txn.user, g.workspace)), SessionContext(txn, g),
        cap,
                     mint, now, cfg)
  }

  datatype Finalized = Finalized(code: AuthCode.Code, refresh: Sessions.Token, refreshMaxAge: int, appOrigin: string,
                                 state: string)

  function Answered(d: Result<Grant, LoginError>, txn: Txn, mint: Sessions.Mint, drawn: AuthCode.Code,
      cfg: Sessions.Config)
    : Result<Finalized, LoginError>
  {
    match d
    case Err(e) => Err(e)
    case Ok(_) => Ok(Finalized(drawn, mint.token, cfg.refreshTtl, txn.appOrigin, txn.state))
  }

  /** Everything the flow runs on. */
  class LoginServer {
    const store: TransactionStore
    const sessions: Sessions.AuthSessions
    const codes: AuthCode.CodeStore

    constructor (store: TransactionStore, sessions: Sessions.AuthSessions, codes: AuthCode.CodeStore)
      ensures this.store == store && this.sessions == sessions && this.codes == codes
    {
      this.store := store;
      this.sessions := sessions;
      this.codes := codes;
    }

    /** The checks, against untrusted selections. */
    method Authorize(txn: Txn, scope: ResolvedScope, dir: Directory) returns (r: Result<Grant, LoginError>)
      requires scope.Current(dir, txn.user)
      modifies scope
      ensures r == Decide(dir, txn, sessions.cfg)
    {
      var orgs := scope.GetOrgs(dir, txn.user);
      var authorized := AuthorizeTenantSelection(orgs, txn.tenant);
      if authorized.Err? {
        return Err(authorized.error);
      }
      var tenantId := authorized.value;
      if !txn.mfaVerified {
        var policy := dir.Enforced(tenantId).policy;
        if policy.mfa == MfaRequired {
          return Err(MfaNeeded);
        }
      }
      var maxLifetime: Option<int> := None;
      if sessions.cfg.armed {
        var e := dir.Enforced(tenantId);
        if e.enabled {
          if e.policy.timeout.Some? && e.policy.timeout.value > 0 {
            maxLifetime := e.policy.timeout;
          }
          var refusal := CheckGates(e.policy, txn.clientIp, txn.used);
          if refusal.Some? {
            return Err(GateClosed(refusal.value));
          }
        }
      }
      var workspaceId := PickWorkspace(txn, scope, dir, tenantId);
      if workspaceId.Err? {
        return Err(workspaceId.error);
      }
      r := Ok(Grant(tenantId, workspaceId.value, maxLifetime));
    }

    method PickWorkspace(txn: Txn, scope: ResolvedScope, dir: Directory, t: Tenant)
      returns (r: Result<Option<Workspace>, LoginError>)
      requires scope.Current(dir, txn.user)
      modifies scope
      ensures r == WorkspaceFor(dir, txn, t)
    {
      if Chosen(txn.workspace) {
        if !dir.HasRole(t, txn.workspace.value, txn.user) {
          return Err(WorkspaceForbidden);
        }
        return Ok(txn.workspace);
      }
      var ws := scope.GetWorkspaces(dir, txn.user, t);
      r := Ok(if |ws| == 1 then Some(ws[0]) else if |ws| > 1 then dir.Landing(t, txn.user) else None);
    }

    /** Remember the workspace, then open the durable session. */
    method OpenSession(txn: Txn, g: Grant, policyRows: seq<PolicyRows.Row>, mint: Sessions.Mint, now: int)
      returns (refresh: Sessions.Token)
      requires sessions.Wired()
      modifies sessions, sessions.checker, sessions.checker.redis
      ensures refresh == mint.token
      ensures sessions.Current() == Opened(old(sessions.Current()), txn, g,
                Sessions.CapFor(SessionContext(txn, g), policyRows), mint, now, sessions.cfg)
    {
      var dir := sessions.dir;
      if Chosen(g.workspace) {
        sessions.dir := dir.Remember(g.tenant, txn.user, g.workspace.value);
      }
      assert sessions.Current()
          == old(sessions.Current()).(dir := Sessions.RememberIf(dir, g.tenant, txn.user, g.workspace));
      var expiresAt;
      refresh, expiresAt := sessions.CreateSession(SessionContext(txn, g), policyRows, mint, now);
    }

    /** Only a grant changes anything, and it leaves one session and one code bound to it. */
    method FinalizeLogin(txn: Txn, scope: ResolvedScope, policyRows: seq<PolicyRows.Row>, mint: Sessions.Mint,
                         drawn: AuthCode.Code, now: int) returns (r: Result<Finalized, LoginError>)
      requires sessions.Wired() && scope.Current(sessions.dir, txn.user)
      modifies sessions, sessions.checker, sessions.checker.redis, codes, scope
      ensures r == Answered(Decide(old(sessions.dir), txn, sessions.cfg), txn, mint, drawn, sessions.cfg)
      ensures Decide(old(sessions.dir), txn, sessions.cfg).Err? ==>
                sessions.Current() == old(sessions.Current()) && codes.codes == old(codes.codes)
      ensures Decide(old(sessions.dir), txn, sessions.cfg).Ok? ==>
                var g := Decide(old(sessions.dir), txn, sessions.cfg).value;
                && sessions.Current() == Opened(old(sessions.Current()), txn, g,
                     Sessions.CapFor(SessionContext(txn, g), policyRows), mint, now, sessions.cfg)
                && codes.codes == old(codes.codes)[drawn :=
                     AuthCode.Pending(BindingOf(old(sessions.dir), txn, g, mint), now + codes.cfg.codeTtl * 1000)]
    {
      var dir := sessions.dir;
      var granted := Authorize(txn, scope, dir);
      if granted.Err? {
        return Err(granted.error);
      }
      var done := Issue(txn, granted.value, policyRows, mint, drawn, now);
      r := Ok(done);
    }

    /** The session, then the code bound to it. */
    method Issue(txn: Txn, g: Grant, policyRows: seq<PolicyRows.Row>, mint: Sessions.Mint, drawn: AuthCode.Code,
        now: int)
      returns (r: Finalized)
      requires sessions.Wired()
      modifies sessions, sessions.checker, sessions.checker.redis, codes
      ensures r == Finalized(drawn, mint.token, sessions.cfg.refreshTtl, txn.appOrigin, txn.state)
      ensures sessions.Current() == Opened(old(sessions.Current()), txn, g,
                Sessions.CapFor(SessionContext(txn, g), policyRows), mint, now, sessions.cfg)
      ensures codes.codes == old(codes.codes)[drawn :=
                AuthCode.Pending(BindingOf(old(sessions.dir), txn, g, mint), now + codes.cfg.codeTtl * 1000)]
    {
      var binding := BindingOf(sessions.dir, txn, g, mint);
      var refresh := OpenSession(txn, g, policyRows, mint, now);
      var code := codes.IssueCode(binding, drawn, now);
      r := Finalized(code, refresh, sessions.cfg.refreshTtl, txn.appOrigin, txn.state);
    }
  }
}
