/** Single-use, bound authorization codes (packages/auth/src/code.ts; section 4.1.2 of RFC 6749, section 4.6 of
    RFC 7636). */
module AuthCode {
  import opened Prelude
  import opened Memberships
  import IpLaws
  import Revocation

  datatype Code = Code(text: string)

  /** What a client sends as its challenge: the S256 image of a verifier, taken to be injective, or any other text. */
  datatype Challenge = S256(verifier: string) | Unrelated(text: string)

  datatype Binding = Binding(
    user: User,
    tenant: Tenant,
    session: Revocation.Sid,
    appOrigin: string,
    clientIp: string,
    challenge: Challenge,
    workspace: Option<Workspace>,
    platformAdmin: bool)

  /** A key of the code store with its expiry. */
  datatype Pending = Pending(binding: Binding, expiresAt: int)

  type Store = map<Code, Pending>

  /** AUTH_CODE_TTL_SECONDS, AUTH_BIND_IP and the allowed origins. */
  datatype Settings = Settings(codeTtl: int, bindIp: IpLaws.IpBindMode, origins: set<string>)

  datatype Failure = CodeNotFound | IpMismatch | OriginMismatch | PkceMismatch

  datatype Request = Request(code: Code, verifier: string, clientIp: string, origin: string)

  /** The first failing check: address, origin, then PKCE. */
  function ValidateBinding(b: Binding, r: Request, cfg: Settings): Option<Failure> {
    if !IpLaws.ClientIpMatches(b.clientIp, r.clientIp, cfg.bindIp) then Some(IpMismatch)
    else if r.origin !in cfg.origins || b.appOrigin != r.origin then Some(OriginMismatch)
    else if S256(r.verifier) != b.challenge then Some(PkceMismatch)
    else None
  }

  predicate Present(codes: Store, code: Code, now: int) {
    code in codes && now < codes[code].expiresAt
  }

  function Exchanged(codes: Store, r: Request, now: int, cfg: Settings): Result<Binding, Failure> {
    if !Present(codes, r.code, now) then Err(CodeNotFound)
    else
      match ValidateBinding(codes[r.code].binding, r, cfg)
      case Some(f) => Err(f)
      case None => Ok(codes[r.code].binding)
  }

  class CodeStore {
    var codes: Store
    const cfg: Settings

    constructor (cfg: Settings)
      ensures this.cfg == cfg && codes == map[]
    {
      this.cfg := cfg;
      codes := map[];
    }

    method IssueCode(binding: Binding, drawn: Code, now: int) returns (code: Code)
      modifies this
      ensures code == drawn && codes == old(codes)[drawn := Pending(binding, now + cfg.codeTtl * 1000)]
    {
      code := drawn;
      codes := codes[code := Pending(binding, now + cfg.codeTtl * 1000)];
    }

    /** GETDEL: the code is gone whatever comes of the checks. */
    method ExchangeCode(r: Request, now: int) returns (res: Result<Binding, Failure>)
      modifies this
      ensures res == Exchanged(old(codes), r, now, cfg)
      ensures codes == old(codes) - {r.code}
    {
      var raw := if Present(codes, r.code, now) then Some(codes[r.code].binding) else None;
      codes := codes - {r.code};
      if raw.None? {
        return Err(CodeNotFound);
      }
      var reason := ValidateBinding(raw.value, r, cfg);
      if reason.Some? {
        return Err(reason.value);
      }
      res := Ok(raw.value);
    }
  }

  /** An exchange succeeds exactly when the code is there and unexpired, the address is bound-equivalent, the origin
      is an allowed one and the one the code was issued for, and the verifier is the challenge's. */
  lemma SucceedsExactly(codes: Store, r: Request, now: int, cfg: Settings)
    ensures Exchanged(codes, r, now, cfg).Ok? <==>
              && Present(codes, r.code, now)
              && var b := codes[r.code].binding;
                 && IpLaws.ClientIpMatches(b.clientIp, r.clientIp, cfg.bindIp)
                 && b.appOrigin == r.origin && r.origin in cfg.origins && b.challenge == S256(r.verifier)
  {
  }

  // ---- single use ------------------------------------------------------------------------------------------

  datatype Event = Issue(binding: Binding, code: Code) | Exchange(request: Request)

  datatype Step = At(time: int, event: Event)

  datatype Redemption = Redemption(request: Request, binding: Binding)

  /** The store, with the history of what was issued and what was handed out. */
  datatype World = World(codes: Store, issued: map<Code, Pending>, redeemed: seq<Redemption>)

  function Next(w: World, s: Step, cfg: Settings): World {
    match s.event
    case Issue(b, code) =>
      var p := Pending(b, s.time + cfg.codeTtl * 1000);
      World(w.codes[code := p], w.issued[code := p], w.redeemed)
    case Exchange(r) =>
      var res := Exchanged(w.codes, r, s.time, cfg);
      World(w.codes - {r.code}, w.issued, if res.Ok? then w.redeemed + [Redemption(r, res.value)] else w.redeemed)
  }

  /** Codes are drawn afresh. */
  predicate Enabled(w: World, s: Step) {
    s.event.Issue? ==> s.event.code !in w.issued
  }

  ghost predicate Run(w: World, steps: seq<Step>, cfg: Settings)
    decreases |steps|
  {
    steps == [] || (Enabled(w, steps[0]) && Run(Next(w, steps[0], cfg), steps[1..], cfg))
  }

  function After(w: World, steps: seq<Step>, cfg: Settings): World
    decreases |steps|
  {
    if steps == [] then w else After(Next(w, steps[0], cfg), steps[1..], cfg)
  }

  const START := World(map[], map[], [])

  ghost predicate Inv(w: World, cfg: Settings) {
    && (forall c :: c in w.codes ==> c in w.issued && w.codes[c] == w.issued[c])
    && (forall i :: 0 <= i < |w.redeemed| ==> Honoured(w, w.redeemed[i], cfg))
    && (forall i :: 0 <= i < |w.redeemed| ==> w.redeemed[i].request.code !in w.codes)
    && (forall i, j :: 0 <= i < j < |w.redeemed| ==> w.redeemed[i].request.code != w.redeemed[j].request.code)
  }

  /** What was handed out is what was issued, to a request that proved itself. */
  ghost predicate Honoured(w: World, r: Redemption, cfg: Settings) {
    && r.request.code in w.issued && w.issued[r.request.code].binding == r.binding
    && r.binding.challenge == S256(r.request.verifier)
    && r.binding.appOrigin == r.request.origin && r.request.origin in cfg.origins
    && IpLaws.ClientIpMatches(r.binding.clientIp, r.request.clientIp, cfg.bindIp)
  }

  lemma StepKeeps(w: World, s: Step, cfg: Settings)
    requires Inv(w, cfg) && Enabled(w, s)
    ensures Inv(Next(w, s, cfg), cfg)
  {
    var x := Next(w, s, cfg);
    if s.event.Exchange? {
      SucceedsExactly(w.codes, s.event.request, s.time, cfg);
      forall i | 0 <= i < |x.redeemed| ensures Honoured(x, x.redeemed[i], cfg) {
        assert i < |w.redeemed| ==> x.redeemed[i] == w.redeemed[i];
      }
    } else {
      assert forall i :: 0 <= i < |w.redeemed| ==> Honoured(w, w.redeemed[i], cfg);
    }
  }

  lemma {:induction false} RunKeeps(w: World, steps: seq<Step>, cfg: Settings)
    requires Inv(w, cfg) && Run(w, steps, cfg)
    ensures Inv(After(w, steps, cfg), cfg)
    decreases |steps|
  {
    if steps != [] {
      StepKeeps(w, steps[0], cfg);
      RunKeeps(Next(w, steps[0], cfg), steps[1..], cfg);
    }
  }

  /** In every run each code is redeemed at most once, for exactly the binding it was issued with, by a request with
      the matching verifier, origin and address. */
  lemma SingleUse(steps: seq<Step>, cfg: Settings, i: nat, j: nat)
    requires Run(START, steps, cfg)
    requires i < |After(START, steps, cfg).redeemed| && j < |After(START, steps, cfg).redeemed|
    ensures var w := After(START, steps, cfg);
            && Honoured(w, w.redeemed[i], cfg)
            && (w.redeemed[i].request.code == w.redeemed[j].request.code ==> i == j)
  {
    RunKeeps(START, steps, cfg);
  }

  /** Any attempt burns the code: no later request redeems it, unless it is issued anew. */
  lemma AttemptBurnsCode(w: World, r: Request, now: int, cfg: Settings, steps: seq<Step>, again: Request, later: int)
    requires Inv(w, cfg) && r.code in w.issued && again.code == r.code
    requires Run(Next(w, At(now, Exchange(r)), cfg), steps, cfg)
    ensures Exchanged(After(Next(w, At(now, Exchange(r)), cfg), steps, cfg).codes, again, later,
        cfg) == Err(CodeNotFound)
  {
    StaysGone(Next(w, At(now, Exchange(r)), cfg), steps, cfg, r.code);
  }

  lemma {:induction false} StaysGone(w: World, steps: seq<Step>, cfg: Settings, code: Code)
    requires Run(w, steps, cfg) && code in w.issued && code !in w.codes
    ensures code !in After(w, steps, cfg).codes
    decreases |steps|
  {
    if steps != [] {
      StaysGone(Next(w, steps[0], cfg), steps[1..], cfg, code);
    }
  }
}
