/** What every run of login steps leaves in the code store (packages/auth/src/flow.ts, scopeGuard.ts, code.ts). */
module LoginRuns {
  import opened Prelude
  import opened Policy
  import opened Memberships
  import opened LoginGates
  import opened LoginFlow
  import AuthCode
  import Sessions
  import SessionRuns
  import SessionSafety

  // ---- one request -----------------------------------------------------------------------------------------

  /** When a step is `complete` or `workspace` for a user without verified MFA, finalization refuses for want of MFA
      exactly when the tenant it authorizes mandates it and an enforcement arm is off; whatever workspace is picked
      in between. */
  lemma MfaRefusalExactly(dir: Directory, txn: Txn, cfg: Sessions.Config, picked: Option<Workspace>)
    requires !txn.mfaVerified && NextStep(dir, txn, cfg.armed).step in {Complete, WorkspaceStep}
    ensures var later := Merge(txn, Patch(None, NextStep(dir, txn, cfg.armed).tenant, picked));
            var t := AuthorizeTenantSelection(dir.Orgs(txn.user), later.tenant);
            Decide(dir, later, cfg) == Err(MfaNeeded)
            <==> t.Ok? && MfaMandated(dir, t.value) && !BothArms(dir, t.value, cfg.armed)
  {
  }

  /** With both arms on, a `complete` or `workspace` step is never followed by that refusal. */
  lemma NoSurpriseRefusal(dir: Directory, txn: Txn, cfg: Sessions.Config, picked: Option<Workspace>)
    requires cfg.armed && forall t: Tenant :: t in dir.Orgs(txn.user) ==> dir.Enforced(t).enabled
    requires NextStep(dir, txn, cfg.armed).step in {Complete, WorkspaceStep}
    ensures Decide(dir, Merge(txn, Patch(None, NextStep(dir, txn, cfg.armed).tenant, picked)), cfg) != Err(MfaNeeded)
  {
    if !txn.mfaVerified {
      MfaRefusalExactly(dir, txn, cfg, picked);
    }
  }

  /** Selections are patched into the store only, not into the record the request holds; finalizing that record
      comes to the same. */
  lemma AutoSelectionAgrees(dir: Directory, txn: Txn, cfg: Sessions.Config)
    requires NextStep(dir, txn, cfg.armed).step == Complete
    ensures var r := NextStep(dir, txn, cfg.armed);
            Decide(dir, txn, cfg) == Decide(dir, Merge(txn, Patch(None, r.tenant, r.workspace)), cfg)
  {
    var r := NextStep(dir, txn, cfg.armed);
    var later := Merge(txn, Patch(None, r.tenant, r.workspace));
    SameTenant(dir, txn, cfg.armed);
    var t := AuthorizeTenantSelection(dir.Orgs(txn.user), txn.tenant);
    if t.Ok? {
      SameWorkspace(dir, txn, t.value, cfg.armed);
      assert EnforcedRefusal(dir, later, t.value, cfg.armed) == EnforcedRefusal(dir, txn, t.value, cfg.armed);
    }
  }

  lemma SameTenant(dir: Directory, txn: Txn, armed: bool)
    requires NextStep(dir, txn, armed).step == Complete
    ensures var r := NextStep(dir, txn, armed);
            AuthorizeTenantSelection(dir.Orgs(txn.user), Merge(txn, Patch(None, r.tenant, r.workspace)).tenant)
            == AuthorizeTenantSelection(dir.Orgs(txn.user), txn.tenant)
  {
  }

  lemma SameWorkspace(dir: Directory, txn: Txn, t: Tenant, armed: bool)
    requires NextStep(dir, txn, armed).step == Complete
    requires AuthorizeTenantSelection(dir.Orgs(txn.user), txn.tenant) == Ok(t)
    ensures var r := NextStep(dir, txn, armed);
            WorkspaceFor(dir, Merge(txn, Patch(None, r.tenant, r.workspace)), t) == WorkspaceFor(dir, txn, t)
  {
    var last := NextStep(dir, txn, armed).workspace;
    if last.Some? {
      assert dir.Landing(t, txn.user) == last;
    }
  }

  /** The workspace a login lands on is where the next login into that tenant lands. */
  lemma LoginIsRemembered(dir: Directory, txn: Txn, g: Grant, cfg: Sessions.Config)
    requires Decide(dir, txn, cfg) == Ok(g) && Chosen(g.workspace)
    ensures Sessions.RememberIf(dir, g.tenant, txn.user, g.workspace).Landing(g.tenant, txn.user) == g.workspace
  {
  }

  // ---- runs ----------------------------------------------------------------------------------------------

  function WithFactor(dir: Directory, user: User): Directory {
    dir.(mfaEnrolled := dir.mfaEnrolled + {user})
  }

  /** History of an issued code: the directory and the record it was issued under, and when. */
  datatype Issued = Issued(dir: Directory, id: TxnId, txn: Txn, at: int)

  /** verified and shown are history: the records that were ever marked MFA-verified, and those on which the user's
      second factor was checked. */
  datatype World = World(
    sess: Sessions.State,
    txns: TxnStore,
    codes: AuthCode.Store,
    issued: map<AuthCode.Code, Issued>,
    verified: set<TxnId>,
    shown: set<TxnId>)

  /** The pages that finalize a login: org selection, workspace selection, the end of an enrollment. */
  datatype Page = OrgPage(tenant: Tenant) | WorkspacePage(workspace: Workspace) | EnrollPage

  /** Select pins whatever ids it is given. VerifyMfa is a passed challenge. Enroll is the first code of a new factor,
      which shows the user's factor only if there was none before. Advance resolves the next step and finalizes if it
      is complete; Submit is a page's action. Elsewhere is anything else that happens to sessions or the directory. */
  datatype Event =
    | Begin(id: TxnId, input: Txn)
    | Select(id: TxnId, tenant: Option<Tenant>, workspace: Option<Workspace>)
    | VerifyMfa(id: TxnId)
    | Enroll(id: TxnId)
    | Advance(id: TxnId, cap: Option<int>, mint: Sessions.Mint, code: AuthCode.Code)
    | Submit(id: TxnId, page: Page, cap: Option<int>, mint: Sessions.Mint, code: AuthCode.Code)
    | Redeem(request: AuthCode.Request)
    | Elsewhere(event: SessionRuns.Event)

  datatype At = At(time: int, event: Event)

  datatype Setup = Setup(sessions: Sessions.Config, codes: AuthCode.Settings)

  function Granted(w: World, id: TxnId, txn: Txn, g: Grant, cap: Option<int>, mint: Sessions.Mint, code: AuthCode.Code,
                   now: int, cfg: Setup): World
  {
    World(Opened(w.sess, txn, g, cap, mint, now, cfg.sessions),
          w.txns - {id},
          w.codes[code := AuthCode.Pending(BindingOf(w.sess.dir, txn, g, mint), now + cfg.codes.codeTtl * 1000)],
          w.issued[code := Issued(w.sess.dir, id, txn, now)],
          w.verified,
          w.shown)
  }

  ghost function Finalize(w: World, id: TxnId, txn: Txn, cap: Option<int>, mint: Sessions.Mint, code: AuthCode.Code,
                          now: int, cfg: Setup): World
  {
    match Decide(w.sess.dir, txn, cfg.sessions)
    case Err(_) => w
    case Ok(g) => Granted(w, id, txn, g, cap, mint, code, now, cfg)
  }

  /** The check a page makes of what it is sent. */
  predicate Accepts(dir: Directory, txn: Txn, page: Page) {
    match page
    case OrgPage(t) => t.id != "" && t in dir.Orgs(txn.user)
    case WorkspacePage(ws) => ws.id != "" && Given(txn.tenant) && dir.HasRole(txn.tenant.value, ws, txn.user)
    case EnrollPage => txn.user in dir.mfaEnrolled
  }

  function PagePatch(page: Page): Patch {
    match page
    case OrgPage(t) => Patch(None, Some(t), None)
    case WorkspacePage(ws) => Patch(None, None, Some(ws))
    case EnrollPage => Patch(Some(true), None, None)
  }

  /** Only the org page resolves a next step, and of its answers it heeds two. */
  predicate Diverted(dir: Directory, updated: Txn, page: Page, armed: bool) {
    page.OrgPage? && NextStep(dir, updated, armed).step in {MfaEnrollStep, WorkspaceStep}
  }

  /** The records a page's action leaves before it finalizes. */
  function Recorded(w: World, id: TxnId, updated: Txn, page: Page, now: int, cfg: Setup): World {
    var patched := Patched(w.txns, id, PagePatch(page), now);
    w.(txns := if page.OrgPage? then Selections(patched, id, NextStep(w.sess.dir, updated, cfg.sessions.armed), now)
               else patched,
       verified := if page.EnrollPage? then w.verified + {id} else w.verified)
  }

  ghost function Submitted(w: World, id: TxnId, txn: Txn, page: Page, cap: Option<int>, mint: Sessions.Mint,
                           code: AuthCode.Code, now: int, cfg: Setup): World
  {
    if !Accepts(w.sess.dir, txn, page) then w
    else
      var updated := Merge(txn, PagePatch(page));
      var recorded := Recorded(w, id, updated, page, now, cfg);
      if Diverted(w.sess.dir, updated, page, cfg.sessions.armed) then recorded
      else Finalize(recorded, id, updated, cap, mint, code, now, cfg)
  }

  ghost function Advanced(w: World, id: TxnId, txn: Txn, cap: Option<int>, mint: Sessions.Mint, code: AuthCode.Code,
                          now: int, cfg: Setup): World
  {
    var r := NextStep(w.sess.dir, txn, cfg.sessions.armed);
    var selected := w.(txns := Selections(w.txns, id, r, now));
    if r.step == Complete then Finalize(selected, id, txn, cap, mint, code, now, cfg) else selected
  }

  ghost function Next(w: World, s: At, cfg: Setup): World {
    match s.event
    case Begin(id, input) =>
      var txn := input.(mfaVerified := false, tenant := None, workspace := None, createdAt := s.time);
      w.(txns := w.txns[id := Stored(txn, s.time + TTL_SECONDS * 1000)])
    case Select(id, tenant, workspace) => w.(txns := Patched(w.txns, id, Patch(None, tenant, workspace), s.time))
    case VerifyMfa(id) =>
      w.(txns := Patched(w.txns, id, Patch(Some(true), None, None), s.time), verified := w.verified + {id},
         shown := w.shown + {id})
    case Enroll(id) =>
      (match Lookup(w.txns, id, s.time)
       case None => w
       case Some(txn) =>
         w.(sess := w.sess.(dir := WithFactor(w.sess.dir, txn.user)),
            shown := if txn.user in w.sess.dir.mfaEnrolled then w.shown else w.shown + {id}))
    case Advance(id, cap, mint, code) =>
      (match Lookup(w.txns, id, s.time)
       case None => w
       case Some(txn) => Advanced(w, id, txn, cap, mint, code, s.time, cfg))
    case Submit(id, page, cap, mint, code) =>
      (match Lookup(w.txns, id, s.time)
       case None => w
       case Some(txn) => Submitted(w, id, txn, page, cap, mint, code, s.time, cfg))
    case Redeem(request) => w.(codes := w.codes - {request.code})
    case Elsewhere(event) => w.(sess := SessionRuns.Next(w.sess, SessionRuns.At(s.time, event), cfg.sessions))
  }

  /** Time does not run back, and what is drawn at random is new. */
  ghost predicate Enabled(w: World, clock: int, s: At) {
    clock <= s.time
    && match s.event
       case Begin(id, _) => id !in w.txns && id !in w.verified
       case Advance(_, _, mint, _) => SessionRuns.Fresh(w.sess.rows, mint)
       case Submit(_, _, _, mint, _) => SessionRuns.Fresh(w.sess.rows, mint)
       case Elsewhere(event) => SessionRuns.Enabled(w.sess, clock, SessionRuns.At(s.time, event))
       case _ => true
  }

  ghost predicate Run(w: World, clock: int, steps: seq<At>, cfg: Setup)
    decreases |steps|
  {
    steps == [] || (Enabled(w, clock, steps[0]) && Run(Next(w, steps[0], cfg), steps[0].time, steps[1..], cfg))
  }

  ghost function After(w: World, steps: seq<At>, cfg: Setup): World
    decreases |steps|
  {
    if steps == [] then w else After(Next(w, steps[0], cfg), steps[1..], cfg)
  }

  function ClockAfter(clock: int, steps: seq<At>): int {
    if steps == [] then clock else steps[|steps| - 1].time
  }

  function Start(dir: Directory): World {
    World(Sessions.State([], map[], dir), map[], map[], map[], {}, {})
  }

  // ---- the invariant ---------------------------------------------------------------------------------------

  /** The binding is one its user was entitled to when it was issued: an active membership, a workspace of that
      tenant the user belongs to (none only if there is none), a record marked MFA-verified where the tenant mandates
      it, and every enforced gate passed, within ten minutes of primary authentication. */
  ghost predicate Entitled(b: AuthCode.Binding, i: Issued, cfg: Setup) {
    && b.user == i.txn.user && b.challenge == i.txn.challenge && b.appOrigin == i.txn.appOrigin
    && b.clientIp == i.txn.clientIp
    && b.tenant in i.dir.Orgs(b.user) && (Given(i.txn.tenant) ==> i.txn.tenant == Some(b.tenant))
    && (b.workspace.Some? ==> i.dir.HasRole(b.tenant, b.workspace.value, b.user))
    && (b.workspace.None? ==> i.dir.Joined(b.tenant, b.user) == [])
    && (Chosen(i.txn.workspace) ==> b.workspace == i.txn.workspace)
    && (MfaMandated(i.dir, b.tenant) ==> i.txn.mfaVerified)
    && (BothArms(i.dir, b.tenant, cfg.sessions.armed) ==>
         GateRefusal(i.dir.Enforced(b.tenant).policy, b.clientIp, i.txn.used).None?)
    && (b.platformAdmin <==> b.user in i.dir.platformAdmins)
    && i.at < i.txn.createdAt + TTL_SECONDS * 1000
  }

  /** A session row of the same user and tenant. */
  ghost predicate HasSession(rows: seq<Sessions.Session>, b: AuthCode.Binding) {
    exists k :: 0 <= k < |rows| && rows[k].id == b.session && rows[k].user == b.user && rows[k].tenant == Some(b.tenant)
  }

  /** Entitled, with a session; a mark was set by the challenge or at the end of an enrollment. */
  ghost predicate Backed(b: AuthCode.Binding, i: Issued, rows: seq<Sessions.Session>, verified: set<TxnId>,
      cfg: Setup) {
    Entitled(b, i, cfg) && HasSession(rows, b) && (i.txn.mfaVerified ==> i.id in verified)
  }

  ghost predicate CodesEntitled(w: World, cfg: Setup) {
    forall c :: c in w.codes ==>
      c in w.issued && Backed(w.codes[c].binding, w.issued[c], w.sess.rows, w.verified, cfg)
  }

  ghost predicate MarksRecorded(w: World) {
    forall id :: id in w.txns && w.txns[id].txn.mfaVerified ==> id in w.verified
  }

  /** No patch prolongs a record. */
  ghost predicate TenMinutes(txns: TxnStore) {
    forall id :: id in txns ==> txns[id].expiresAt == txns[id].txn.createdAt + TTL_SECONDS * 1000
  }

  ghost predicate Inv(w: World, clock: int, cfg: Setup) {
    SessionRuns.Inv(w.sess, clock, cfg.sessions) && CodesEntitled(w, cfg) && MarksRecorded(w) && TenMinutes(w.txns)
  }

  /** What finalization grants is what the user is entitled to. */
  lemma GrantIsEntitled(dir: Directory, id: TxnId, txn: Txn, g: Grant, mint: Sessions.Mint, now: int, cfg: Setup)
    requires Decide(dir, txn, cfg.sessions) == Ok(g) && now < txn.createdAt + TTL_SECONDS * 1000
    ensures Entitled(BindingOf(dir, txn, g, mint), Issued(dir, id, txn, now), cfg)
  {
  }

  lemma OpenedSession(w: Sessions.State, txn: Txn, g: Grant, cap: Option<int>, mint: Sessions.Mint, clock: int,
      now: int,
                      dir: Directory, cfg: Sessions.Config)
    requires SessionRuns.Inv(w, clock, cfg) && clock <= now && SessionRuns.Fresh(w.rows, mint)
    ensures SessionRuns.Inv(Opened(w, txn, g, cap, mint, now, cfg), now, cfg)
    ensures SessionSafety.Grew(w, Opened(w, txn, g, cap, mint, now, cfg))
    ensures HasSession(Opened(w, txn, g, cap, mint, now, cfg).rows, BindingOf(dir, txn, g, mint))
  {
    var moved := w.(dir := Sessions.RememberIf(w.dir, g.tenant, txn.user, g.workspace));
    var ctx := SessionContext(txn, g);
    SessionRuns.CreatedKeeps(moved, ctx, cap, mint, clock, now, cfg);
    SessionSafety.CreatedGrows(moved, ctx, cap, mint, clock, now, cfg);
    var row := Opened(w, txn, g, cap, mint, now, cfg).rows[|w.rows|];
    assert row.id == mint.sid && row.user == txn.user && row.tenant == Some(g.tenant);
  }

  lemma PatchedLives(txns: TxnStore, id: TxnId, p: Patch, now: int)
    requires TenMinutes(txns)
    ensures TenMinutes(Patched(txns, id, p, now))
  {
  }

  lemma PatchedMarks(txns: TxnStore, id: TxnId, p: Patch, now: int, verified: set<TxnId>)
    requires forall x :: x in txns && txns[x].txn.mfaVerified ==> x in verified
    requires p.mfaVerified.Some? ==> id in verified
    ensures forall x :: x in Patched(txns, id, p, now) && Patched(txns, id, p, now)[x].txn.mfaVerified ==> x in verified
  {
  }

  lemma OthersBacked(w: World, rows: seq<Sessions.Session>, verified: set<TxnId>, cfg: Setup, c: AuthCode.Code)
    requires CodesEntitled(w, cfg) && c in w.codes && w.verified <= verified
    requires |w.sess.rows| <= |rows|
    requires forall i :: 0 <= i < |w.sess.rows| ==> SessionSafety.SameSession(w.sess.rows[i], rows[i])
    ensures Backed(w.codes[c].binding, w.issued[c], rows, verified, cfg)
  {
  }

  lemma GrantedKeeps(w: World, id: TxnId, txn: Txn, g: Grant, cap: Option<int>, mint: Sessions.Mint,
      code: AuthCode.Code,
                     clock: int, now: int, cfg: Setup)
    requires Inv(w, clock, cfg) && clock <= now && SessionRuns.Fresh(w.sess.rows, mint)
    requires txn.mfaVerified ==> id in w.verified
    requires Entitled(BindingOf(w.sess.dir, txn, g, mint), Issued(w.sess.dir, id, txn, now), cfg)
    ensures Inv(Granted(w, id, txn, g, cap, mint, code, now, cfg), now, cfg)
  {
    var x := Granted(w, id, txn, g, cap, mint, code, now, cfg);
    OpenedSession(w.sess, txn, g, cap, mint, clock, now, w.sess.dir, cfg.sessions);
    forall c | c in x.codes ensures c in x.issued
        && Backed(x.codes[c].binding, x.issued[c], x.sess.rows, x.verified, cfg) {
      if c != code {
        OthersBacked(w, x.sess.rows, w.verified, cfg, c);
      }
    }
  }

  lemma FinalizeKeeps(w: World, id: TxnId, txn: Txn, cap: Option<int>, mint: Sessions.Mint, code: AuthCode.Code,
                      clock: int, now: int, cfg: Setup)
    requires Inv(w, clock, cfg) && clock <= now && SessionRuns.Fresh(w.sess.rows, mint)
    requires (txn.mfaVerified ==> id in w.verified) && now < txn.createdAt + TTL_SECONDS * 1000
    ensures Inv(Finalize(w, id, txn, cap, mint, code, now, cfg), now, cfg)
  {
    SessionRuns.LaterKeeps(w.sess, clock, now, cfg.sessions);
    var d := Decide(w.sess.dir, txn, cfg.sessions);
    if d.Ok? {
      GrantIsEntitled(w.sess.dir, id, txn, d.value, mint, now, cfg);
      GrantedKeeps(w, id, txn, d.value, cap, mint, code, clock, now, cfg);
    }
  }

  lemma ElsewhereKeeps(w: World, clock: int, now: int, event: SessionRuns.Event, cfg: Setup)
    requires Inv(w, clock, cfg) && SessionRuns.Enabled(w.sess, clock, SessionRuns.At(now, event))
    ensures Inv(Next(w, At(now, Elsewhere(event)), cfg), now, cfg)
  {
    var s := SessionRuns.At(now, event);
    SessionRuns.StepKeeps(w.sess, clock, s, cfg.sessions);
    SessionSafety.StepGrows(w.sess, clock, s, cfg.sessions);
    var x := Next(w, At(now, Elsewhere(event)), cfg);
    forall c | c in x.codes ensures c in x.issued
        && Backed(x.codes[c].binding, x.issued[c], x.sess.rows, x.verified, cfg) {
      OthersBacked(w, x.sess.rows, x.verified, cfg, c);
    }
  }

  /** Steps that touch only pending records, the marks and nothing else, or take codes away. */
  lemma RecordsKeep(w: World, x: World, clock: int, now: int, cfg: Setup)
    requires Inv(w, clock, cfg) && clock <= now && x.sess == w.sess && x.issued == w.issued && w.verified <= x.verified
    requires forall c :: c in x.codes ==> c in w.codes && x.codes[c] == w.codes[c]
    requires MarksRecorded(x) && TenMinutes(x.txns)
    ensures Inv(x, now, cfg)
  {
  }

  lemma SelectionsMark(w: World, id: TxnId, r: Resolution, now: int)
    requires MarksRecorded(w) && TenMinutes(w.txns)
    ensures MarksRecorded(w.(txns := Selections(w.txns, id, r, now))) && TenMinutes(Selections(w.txns, id, r, now))
  {
    var first := if r.tenant.Some? then Patched(w.txns, id, Patch(None, r.tenant, None), now) else w.txns;
    PatchedLives(w.txns, id, Patch(None, r.tenant, None), now);
    PatchedLives(first, id, Patch(None, None, r.workspace), now);
  }

  lemma AdvanceKeeps(w: World, clock: int, now: int, id: TxnId, txn: Txn, cap: Option<int>, mint: Sessions.Mint,
                     code: AuthCode.Code, cfg: Setup)
    requires Inv(w, clock, cfg) && clock <= now && SessionRuns.Fresh(w.sess.rows, mint)
    requires Lookup(w.txns, id, now) == Some(txn)
    ensures Inv(Advanced(w, id, txn, cap, mint, code, now, cfg), now, cfg)
  {
    var r := NextStep(w.sess.dir, txn, cfg.sessions.armed);
    SelectionsMark(w, id, r, now);
    var selected := w.(txns := Selections(w.txns, id, r, now));
    RecordsKeep(w, selected, clock, now, cfg);
    if r.step == Complete {
      FinalizeKeeps(selected, id, txn, cap, mint, code, now, now, cfg);
    }
  }

  lemma PatchKeeps(w: World, id: TxnId, p: Patch, verified: set<TxnId>, clock: int, now: int, cfg: Setup)
    requires Inv(w, clock, cfg) && clock <= now && w.verified <= verified && (p.mfaVerified.Some? ==> id in verified)
    ensures Inv(w.(txns := Patched(w.txns, id, p, now), verified := verified), now, cfg)
  {
    PatchedMarks(w.txns, id, p, now, verified);
    PatchedLives(w.txns, id, p, now);
    RecordsKeep(w, w.(txns := Patched(w.txns, id, p, now), verified := verified), clock, now, cfg);
  }

  lemma BeginKeeps(w: World, clock: int, now: int, id: TxnId, input: Txn, cfg: Setup)
    requires Inv(w, clock, cfg) && clock <= now
    ensures Inv(Next(w, At(now, Begin(id, input)), cfg), now, cfg)
  {
    RecordsKeep(w, Next(w, At(now, Begin(id, input)), cfg), clock, now, cfg);
  }

  lemma RedeemKeeps(w: World, clock: int, now: int, request: AuthCode.Request, cfg: Setup)
    requires Inv(w, clock, cfg) && clock <= now
    ensures Inv(Next(w, At(now, Redeem(request)), cfg), now, cfg)
  {
    RecordsKeep(w, Next(w, At(now, Redeem(request)), cfg), clock, now, cfg);
  }

  lemma RecordedKeeps(w: World, id: TxnId, updated: Txn, page: Page, clock: int, now: int, cfg: Setup)
    requires Inv(w, clock, cfg) && clock <= now
    ensures Inv(Recorded(w, id, updated, page, now, cfg), now, cfg)
  {
    var patch, verified := PagePatch(page), if page.EnrollPage? then w.verified + {id} else w.verified;
    var patched := w.(txns := Patched(w.txns, id, patch, now), verified := verified);
    PatchKeeps(w, id, patch, verified, clock, now, cfg);
    if page.OrgPage? {
      SelectionsMark(patched, id, NextStep(w.sess.dir, updated, cfg.sessions.armed), now);
    }
    RecordsKeep(w, Recorded(w, id, updated, page, now, cfg), clock, now, cfg);
  }

  lemma SubmitKeeps(w: World, clock: int, now: int, id: TxnId, txn: Txn, page: Page, cap: Option<int>,
                    mint: Sessions.Mint, code: AuthCode.Code, cfg: Setup)
    requires Inv(w, clock, cfg) && clock <= now && SessionRuns.Fresh(w.sess.rows, mint)
    requires Lookup(w.txns, id, now) == Some(txn)
    ensures Inv(Submitted(w, id, txn, page, cap, mint, code, now, cfg), now, cfg)
  {
    if !Accepts(w.sess.dir, txn, page) {
      RecordsKeep(w, w, clock, now, cfg);
    } else {
      var updated := Merge(txn, PagePatch(page));
      RecordedKeeps(w, id, updated, page, clock, now, cfg);
      if !Diverted(w.sess.dir, updated, page, cfg.sessions.armed) {
        FinalizeKeeps(Recorded(w, id, updated, page, now, cfg), id, updated, cap, mint, code, now, now, cfg);
      }
    }
  }

  /** A live record is looked up; without one nothing happens. */
  lemma RecordStepKeeps(w: World, clock: int, s: At, cfg: Setup)
    requires Inv(w, clock, cfg) && Enabled(w, clock, s) && (s.event.Advance? || s.event.Submit? || s.event.Enroll?)
    ensures Inv(Next(w, s, cfg), s.time, cfg)
  {
    var found := Lookup(w.txns, s.event.id, s.time);
    if found.None? {
      RecordsKeep(w, w, clock, s.time, cfg);
    } else {
      match s.event
      case Advance(id, cap, mint, code) => AdvanceKeeps(w, clock, s.time, id, found.value, cap, mint, code, cfg);
      case Submit(id, page, cap, mint, code) =>
        SubmitKeeps(w, clock, s.time, id, found.value, page, cap, mint, code, cfg);
      case Enroll(_) =>
        ElsewhereKeeps(w, clock, s.time, SessionRuns.Administer(WithFactor(w.sess.dir, found.value.user)), cfg);
    }
  }

  lemma StepKeeps(w: World, clock: int, s: At, cfg: Setup)
    requires Inv(w, clock, cfg) && Enabled(w, clock, s)
    ensures Inv(Next(w, s, cfg), s.time, cfg)
  {
    match s.event {
      case Begin(id, input) => BeginKeeps(w, clock, s.time, id, input, cfg);
      case Select(id, tenant, workspace) =>
        PatchKeeps(w, id, Patch(None, tenant, workspace), w.verified, clock, s.time, cfg);
      case VerifyMfa(id) =>
        PatchKeeps(w, id, Patch(Some(true), None, None), w.verified + {id}, clock, s.time, cfg);
      case Enroll(_) => RecordStepKeeps(w, clock, s, cfg);
      case Advance(_, _, _, _) => RecordStepKeeps(w, clock, s, cfg);
      case Submit(_, _, _, _, _) => RecordStepKeeps(w, clock, s, cfg);
      case Redeem(request) => RedeemKeeps(w, clock, s.time, request, cfg);
      case Elsewhere(event) => ElsewhereKeeps(w, clock, s.time, event, cfg);
    }
  }

  lemma {:induction false} RunKeeps(w: World, clock: int, steps: seq<At>, cfg: Setup)
    requires Inv(w, clock, cfg) && Run(w, clock, steps, cfg)
    ensures Inv(After(w, steps, cfg), ClockAfter(clock, steps), cfg)
    decreases |steps|
  {
    if steps != [] {
      StepKeeps(w, clock, steps[0], cfg);
      RunKeeps(Next(w, steps[0], cfg), steps[0].time, steps[1..], cfg);
    }
  }

  // ---- the second factor -------------------------------------------------------------------------------------

  /** What is promised of codes: that a user with a second factor gets none before it was shown on the login, and that
      a tenant which mandates MFA is entered only after that. */
  datatype Promise = FactorPromise | MandatePromise

  ghost predicate CodeKeeps(i: Issued, tenant: Tenant, shown: set<TxnId>, p: Promise) {
    match p
    case FactorPromise =>
      (i.txn.user in i.dir.mfaEnrolled ==> i.txn.mfaVerified) && (i.txn.mfaVerified ==> i.id in shown)
    case MandatePromise => MfaMandated(i.dir, tenant) ==> i.id in shown
  }

  /** Every code keeps the promise, and no record is marked without a factor shown on it. */
  ghost predicate Kept(w: World, p: Promise) {
    && (forall c :: c in w.codes ==>
          c in w.issued && CodeKeeps(w.issued[c], w.codes[c].binding.tenant, w.shown, p))
    && (forall id :: id in w.txns && w.txns[id].txn.mfaVerified ==> id in w.shown)
  }

  /** The tenant a selection page finalizes for. */
  function Target(txn: Txn, page: Page): Option<Tenant> {
    if page.OrgPage? then Some(page.tenant) else txn.tenant
  }

  /** Everything else that finalization asks of an unmarked record: a member's tenant without an MFA mandate, its
      enforced gates, and a workspace chosen before. */
  ghost predicate OpenTo(dir: Directory, txn: Txn, page: Page, armed: bool) {
    Target(txn, page).Some? &&
      var t := Target(txn, page).value;
      && t in dir.Orgs(txn.user) && !MfaMandated(dir, t) && EnforcedRefusal(dir, txn, t, armed).None?
      && (page.OrgPage? && Chosen(txn.workspace) ==> dir.HasRole(t, txn.workspace.value, txn.user))
  }

  /** The action of a selection page on an unmarked record of a user with a factor. */
  ghost predicate SkipsChallenge(dir: Directory, txn: Txn, page: Page, armed: bool) {
    && !page.EnrollPage? && Accepts(dir, txn, page)
    && txn.user in dir.mfaEnrolled && !txn.mfaVerified && OpenTo(dir, txn, page, armed)
  }

  /** The end of an enrollment on a record on which nothing was shown: the user had a factor already. */
  ghost predicate MarksUnshown(w: World, id: TxnId, txn: Txn, page: Page) {
    page.EnrollPage? && Accepts(w.sess.dir, txn, page) && id !in w.shown
  }

  ghost predicate PageBreaks(w: World, id: TxnId, txn: Txn, page: Page, p: Promise, cfg: Setup) {
    match p
    case FactorPromise =>
      MarksUnshown(w, id, txn, page) || SkipsChallenge(w.sess.dir, txn, page, cfg.sessions.armed)
    case MandatePromise =>
      MarksUnshown(w, id, txn, page) &&
        var d := Decide(w.sess.dir, Merge(txn, PagePatch(page)), cfg.sessions);
        d.Err? || MfaMandated(w.sess.dir, d.value.tenant)
  }

  ghost predicate Breaks(w: World, s: At, p: Promise, cfg: Setup) {
    s.event.Submit? && Lookup(w.txns, s.event.id, s.time).Some?
    && PageBreaks(w, s.event.id, Lookup(w.txns, s.event.id, s.time).value, s.event.page, p, cfg)
  }

  /** An unmarked record is granted exactly when it is open. */
  lemma GrantedIfOpen(dir: Directory, txn: Txn, page: Page, cfg: Sessions.Config)
    requires !page.EnrollPage? && Accepts(dir, txn, page) && !txn.mfaVerified
    ensures Decide(dir, Merge(txn, PagePatch(page)), cfg).Ok? <==> OpenTo(dir, txn, page, cfg.armed)
  {
    var updated := Merge(txn, PagePatch(page));
    assert Given(updated.tenant) && updated.tenant == Target(txn, page);
    assert EnforcedRefusal(dir, updated, updated.tenant.value, cfg.armed)
        == EnforcedRefusal(dir, txn, updated.tenant.value, cfg.armed);
  }

  /** What a finalization adds: one code of this record, or nothing. */
  lemma FinalizeKept(w: World, id: TxnId, txn: Txn, cap: Option<int>, mint: Sessions.Mint, code: AuthCode.Code,
                     now: int, p: Promise, cfg: Setup)
    requires forall x :: x in w.txns && x != id && w.txns[x].txn.mfaVerified ==> x in w.shown
    requires forall c :: c in w.codes ==>
               c in w.issued && CodeKeeps(w.issued[c], w.codes[c].binding.tenant, w.shown, p)
    ensures var d := Decide(w.sess.dir, txn, cfg.sessions);
            Kept(Finalize(w, id, txn, cap, mint, code, now, cfg), p)
            <==> if d.Ok? then CodeKeeps(Issued(w.sess.dir, id, txn, now), d.value.tenant, w.shown, p)
                 else id in w.txns && w.txns[id].txn.mfaVerified ==> id in w.shown
  {
    var x := Finalize(w, id, txn, cap, mint, code, now, cfg);
    if Decide(w.sess.dir, txn, cfg.sessions).Ok? {
      assert code in x.codes && x.issued[code] == Issued(w.sess.dir, id, txn, now);
    }
  }

  lemma PatchKept(w: World, id: TxnId, patch: Patch, now: int, p: Promise)
    requires Kept(w, p) && (patch.mfaVerified.Some? ==> id in w.shown)
    ensures Kept(w.(txns := Patched(w.txns, id, patch, now)), p)
  {
  }

  lemma SelectionsKept(w: World, id: TxnId, r: Resolution, now: int, p: Promise)
    requires Kept(w, p)
    ensures Kept(w.(txns := Selections(w.txns, id, r, now)), p)
  {
    var first := if r.tenant.Some? then w.(txns := Patched(w.txns, id, Patch(None, r.tenant, None), now)) else w;
    PatchKept(w, id, Patch(None, r.tenant, None), now, p);
    PatchKept(first, id, Patch(None, None, r.workspace), now, p);
  }

  lemma AdvanceKept(w: World, id: TxnId, txn: Txn, cap: Option<int>, mint: Sessions.Mint, code: AuthCode.Code,
                    now: int, p: Promise, cfg: Setup)
    requires Kept(w, p) && Lookup(w.txns, id, now) == Some(txn)
    ensures Kept(Advanced(w, id, txn, cap, mint, code, now, cfg), p)
  {
    var r := NextStep(w.sess.dir, txn, cfg.sessions.armed);
    SelectionsKept(w, id, r, now, p);
    var selected := w.(txns := Selections(w.txns, id, r, now));
    if r.step == Complete {
      FinalizeKept(selected, id, txn, cap, mint, code, now, p, cfg);
    }
  }

  lemma RecordedKept(w: World, id: TxnId, updated: Txn, page: Page, now: int, p: Promise, cfg: Setup)
    requires Kept(w, p) && (page.EnrollPage? ==> id in w.shown)
    ensures Kept(Recorded(w, id, updated, page, now, cfg), p)
  {
    var patched := w.(txns := Patched(w.txns, id, PagePatch(page), now));
    PatchKept(w, id, PagePatch(page), now, p);
    SelectionsKept(patched, id, NextStep(w.sess.dir, updated, cfg.sessions.armed), now, p);
  }

  /** The pages that leave the record's mark alone. */
  lemma SelectionPageExactly(w: World, id: TxnId, txn: Txn, page: Page, cap: Option<int>, mint: Sessions.Mint,
                             code: AuthCode.Code, now: int, p: Promise, cfg: Setup)
    requires Kept(w, p) && Lookup(w.txns, id, now) == Some(txn) && Accepts(w.sess.dir, txn, page)
    requires !page.EnrollPage?
    ensures Kept(Submitted(w, id, txn, page, cap, mint, code, now, cfg), p) <==> !PageBreaks(w, id, txn, page, p, cfg)
  {
    var updated := Merge(txn, PagePatch(page));
    RecordedKept(w, id, updated, page, now, p, cfg);
    FinalizeKept(Recorded(w, id, updated, page, now, cfg), id, updated, cap, mint, code, now, p, cfg);
    if !txn.mfaVerified {
      GrantedIfOpen(w.sess.dir, txn, page, cfg.sessions);
    }
  }

  lemma EnrollPageExactly(w: World, id: TxnId, txn: Txn, cap: Option<int>, mint: Sessions.Mint, code: AuthCode.Code,
                          now: int, p: Promise, cfg: Setup)
    requires Kept(w, p) && Lookup(w.txns, id, now) == Some(txn) && Accepts(w.sess.dir, txn, EnrollPage)
    ensures Kept(Submitted(w, id, txn, EnrollPage, cap, mint, code, now, cfg), p)
            <==> !PageBreaks(w, id, txn, EnrollPage, p, cfg)
  {
    var updated := Merge(txn, PagePatch(EnrollPage));
    var recorded := Recorded(w, id, updated, EnrollPage, now, cfg);
    assert recorded.txns == w.txns[id := Stored(updated, w.txns[id].expiresAt)];
    FinalizeKept(recorded, id, updated, cap, mint, code, now, p, cfg);
  }

  /** Login steps keep both promises, all but exactly those pages. */
  lemma StepExactly(w: World, s: At, p: Promise, cfg: Setup)
    requires Kept(w, p)
    ensures Kept(Next(w, s, cfg), p) <==> !Breaks(w, s, p, cfg)
  {
    match s.event {
      case Select(id, tenant, workspace) => PatchKept(w, id, Patch(None, tenant, workspace), s.time, p);
      case VerifyMfa(id) => VerifyKept(w, id, s.time, p, cfg);
      case Advance(_, _, _, _) => AdvanceExactly(w, s, p, cfg);
      case Submit(_, _, _, _, _) => SubmitExactly(w, s, p, cfg);
      case _ =>
    }
  }

  lemma VerifyKept(w: World, id: TxnId, now: int, p: Promise, cfg: Setup)
    requires Kept(w, p)
    ensures Kept(Next(w, At(now, VerifyMfa(id)), cfg), p)
  {
    PatchKept(w.(shown := w.shown + {id}), id, Patch(Some(true), None, None), now, p);
  }

  lemma AdvanceExactly(w: World, s: At, p: Promise, cfg: Setup)
    requires Kept(w, p) && s.event.Advance?
    ensures Kept(Next(w, s, cfg), p)
  {
    var id := s.event.id;
    var found := Lookup(w.txns, id, s.time);
    if found.Some? {
      AdvanceKept(w, id, found.value, s.event.cap, s.event.mint, s.event.code, s.time, p, cfg);
    }
  }

  lemma SubmitExactly(w: World, s: At, p: Promise, cfg: Setup)
    requires Kept(w, p) && s.event.Submit?
    ensures Kept(Next(w, s, cfg), p) <==> !Breaks(w, s, p, cfg)
  {
    var id, page := s.event.id, s.event.page;
    var found := Lookup(w.txns, id, s.time);
    if found.Some? && Accepts(w.sess.dir, found.value, page) {
      if page.EnrollPage? {
        EnrollPageExactly(w, id, found.value, s.event.cap, s.event.mint, s.event.code, s.time, p, cfg);
      } else {
        SelectionPageExactly(w, id, found.value, page, s.event.cap, s.event.mint, s.event.code, s.time, p, cfg);
      }
    }
  }

  /** The promise is kept from here to the end of the run. */
  ghost predicate KeptThroughout(w: World, steps: seq<At>, p: Promise, cfg: Setup)
    decreases |steps|
  {
    Kept(w, p) && (steps == [] || KeptThroughout(Next(w, steps[0], cfg), steps[1..], p, cfg))
  }

  ghost predicate NeverBroken(w: World, steps: seq<At>, p: Promise, cfg: Setup)
    decreases |steps|
  {
    steps == [] || (!Breaks(w, steps[0], p, cfg) && NeverBroken(Next(w, steps[0], cfg), steps[1..], p, cfg))
  }

  lemma {:induction false} RunExactly(w: World, steps: seq<At>, p: Promise, cfg: Setup)
    requires Kept(w, p)
    ensures KeptThroughout(w, steps, p, cfg) <==> NeverBroken(w, steps, p, cfg)
    ensures NeverBroken(w, steps, p, cfg) ==> Kept(After(w, steps, cfg), p)
    decreases |steps|
  {
    if steps != [] {
      StepExactly(w, steps[0], p, cfg);
      if Kept(Next(w, steps[0], cfg), p) {
        RunExactly(Next(w, steps[0], cfg), steps[1..], p, cfg);
      }
    }
  }

  /** Over whole runs of logins: no user with a second factor gets a code before that factor was shown on the login,
      exactly when no selection page takes an unmarked record of such a user to an open tenant, and no enrollment ends
      on a record of a user who had a factor before it and did not show it. */
  lemma FactorShownExactly(dir: Directory, steps: seq<At>, cfg: Setup)
    ensures KeptThroughout(Start(dir), steps, FactorPromise, cfg)
            <==> NeverBroken(Start(dir), steps, FactorPromise, cfg)
  {
    RunExactly(Start(dir), steps, FactorPromise, cfg);
  }

  /** Over whole runs of logins: no tenant that mandates MFA is entered, and no record is left marked, without a factor
      shown, exactly when no enrollment ends on such a record by entering such a tenant or by being refused. */
  lemma MandateShownExactly(dir: Directory, steps: seq<At>, cfg: Setup)
    ensures KeptThroughout(Start(dir), steps, MandatePromise, cfg)
            <==> NeverBroken(Start(dir), steps, MandatePromise, cfg)
  {
    RunExactly(Start(dir), steps, MandatePromise, cfg);
  }

  function OneUser(u: User, orgs: seq<Tenant>, policies: map<Tenant, Enforcement>): Directory {
    Directory({u}, {}, {u}, map[u := orgs], map[], map[], map[], policies)
  }

  /** A user with a factor and two tenants: the next step is the challenge, and the org page issues a code without. */
  lemma OrgPageDoesNotAsk(input: Txn, a: Tenant, b: Tenant, id: TxnId, mint: Sessions.Mint, code: AuthCode.Code,
                          cfg: Setup)
    requires a.id != ""
    ensures var dir := OneUser(input.user, [a, b], map[]);
            var w := Next(Start(dir), At(0, Begin(id, input)), cfg);
            var x := Next(w, At(1, Submit(id, OrgPage(a), None, mint, code)), cfg);
            && id in w.txns && NextStep(dir, w.txns[id].txn, cfg.sessions.armed).step == MfaStep
            && code in x.codes && !Kept(x, FactorPromise)
  {
    var dir := OneUser(input.user, [a, b], map[]);
    var w := Next(Start(dir), At(0, Begin(id, input)), cfg);
    var s := At(1, Submit(id, OrgPage(a), None, mint, code));
    var txn := w.txns[id].txn;
    assert dir.Orgs(input.user)[0] == a && OpenTo(dir, txn, OrgPage(a), cfg.sessions.armed);
    GrantedIfOpen(dir, txn, OrgPage(a), cfg.sessions);
    StepExactly(w, s, FactorPromise, cfg);
  }

  /** A user with a factor whose tenant mandates MFA: the next step is the challenge, and the end of an enrollment, of
      another factor or of none, enters the tenant without. */
  lemma EnrollPageDoesNotAsk(input: Txn, t: Tenant, id: TxnId, another: bool, mint: Sessions.Mint, code: AuthCode.Code,
                             cfg: Setup)
    requires t.id != ""
    ensures var dir := OneUser(input.user, [t], map[t := Enforcement(DEFAULT_POLICY.(mfa := MfaRequired), false)]);
            var w := Next(Start(dir), At(0, Begin(id, input)), cfg);
            var v := if another then Next(w, At(0, Enroll(id)), cfg) else w;
            var x := Next(v, At(1, Submit(id, EnrollPage, None, mint, code)), cfg);
            && id in v.txns && NextStep(v.sess.dir, v.txns[id].txn, cfg.sessions.armed).step == MfaStep
            && code in x.codes && MfaMandated(dir, x.codes[code].binding.tenant)
            && !Kept(x, FactorPromise) && !Kept(x, MandatePromise)
  {
    var dir := OneUser(input.user, [t], map[t := Enforcement(DEFAULT_POLICY.(mfa := MfaRequired), false)]);
    var w := Next(Start(dir), At(0, Begin(id, input)), cfg);
    var v := if another then Next(w, At(0, Enroll(id)), cfg) else w;
    assert WithFactor(dir, input.user) == dir;
    assert v == w;
    var s := At(1, Submit(id, EnrollPage, None, mint, code));
    var merged := Merge(w.txns[id].txn, PagePatch(EnrollPage));
    assert dir.Orgs(input.user)[0] == t;
    assert Decide(dir, merged, cfg.sessions).Ok?;
    StepExactly(w, s, FactorPromise, cfg);
    StepExactly(w, s, MandatePromise, cfg);
  }

  // ---- every code ----------------------------------------------------------------------------------------------

  /** Every code in the store after any run, whatever ids clients select: its user was entitled to its binding when
      it was issued, on a record marked MFA-verified where the tenant mandates it, and has a session of that tenant.
      What an exchange hands out is such a binding, to the matching verifier; a mandating tenant's comes after a factor
      was shown, in every run in which MandateShownExactly's pages do not break that. */
  lemma EveryCodeIsEntitled(dir: Directory, clock: int, steps: seq<At>, cfg: Setup, request: AuthCode.Request, now: int)
    requires Run(Start(dir), clock, steps, cfg)
    ensures var w := After(Start(dir), steps, cfg);
            && CodesEntitled(w, cfg)
            && var r := AuthCode.Exchanged(w.codes, request, now, cfg.codes);
               r.Ok? ==>
                 && request.code in w.issued && Entitled(r.value, w.issued[request.code], cfg)
                 && HasSession(w.sess.rows, r.value)
                 && r.value.challenge == AuthCode.S256(request.verifier)
                 && (MfaMandated(w.issued[request.code].dir, r.value.tenant) ==>
                     w.issued[request.code].id in w.verified)
                 && (NeverBroken(Start(dir), steps, MandatePromise, cfg)
                     && MfaMandated(w.issued[request.code].dir, r.value.tenant) ==>
                       w.issued[request.code].id in w.shown)
  {
    SessionRuns.EmptyIsSafe(dir, clock, cfg.sessions);
    RunKeeps(Start(dir), clock, steps, cfg);
    RunExactly(Start(dir), steps, MandatePromise, cfg);
    AuthCode.SucceedsExactly(After(Start(dir), steps, cfg).codes, request, now, cfg.codes);
  }
}
