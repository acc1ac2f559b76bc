/** Strictest-wins resolution of authentication policies over scopes (packages/auth/src/policy.ts). */
module Policy {
  import opened Prelude

  datatype Mfa = MfaOff | MfaOptional | MfaRequired

  datatype Method = Password | OAuth | MagicLink | Sso | Passkey

  datatype AuthPolicy = AuthPolicy(
    mfa: Mfa,
    methods: seq<Method>,
    disableSocial: bool,
    requireSso: bool,
    ips: seq<string>,
    timeout: Option<int>,
    idle: Option<int>,
    cap: Option<int>)

  /** The keys one scope sets (Partial<AuthPolicy>). */
  datatype Override = Override(
    mfa: Option<Mfa>,
    methods: Option<seq<Method>>,
    disableSocial: Option<bool>,
    requireSso: Option<bool>,
    ips: Option<seq<string>>,
    timeout: Option<int>,
    idle: Option<int>,
    cap: Option<int>)

  const NOTHING_SET := Override(None, None, None, None, None, None, None, None)

  function Rank(m: Mfa): nat {
    match m
    case MfaOff => 0
    case MfaOptional => 1
    case MfaRequired => 2
  }

  /** The stricter of a level and one that may be missing. */
  function Escalate(acc: Mfa, level: Option<Mfa>): Mfa {
    if level.Some? && Rank(level.value) > Rank(acc) then level.value else acc
  }

  /** The loop over all supplied levels returns their maximum. */
  method StrictestMfa(levels: seq<Option<Mfa>>) returns (r: Mfa)
    ensures forall i :: 0 <= i < |levels| && levels[i].Some? ==> Rank(levels[i].value) <= Rank(r)
    ensures r == MfaOff || Some(r) in levels
  {
    r := MfaOff;
    for k := 0 to |levels|
      invariant forall i :: 0 <= i < k && levels[i].Some? ==> Rank(levels[i].value) <= Rank(r)
      invariant r == MfaOff || Some(r) in levels
    {
      r := Escalate(r, levels[k]);
    }
  }

  /** Resolution uses the two-level case of it. */
  method StrictestOfTwo(tenant: Mfa, workspace: Option<Mfa>) returns (r: Mfa)
    ensures r == Escalate(tenant, workspace)
  {
    var levels := [Some(tenant), workspace];
    r := StrictestMfa(levels);
    assert levels[0] == Some(tenant) && levels[1] == workspace;
  }

  /** xs.filter(x => ys.includes(x)) */
  function Keep<T(==, !new)>(xs: seq<T>, ys: seq<T>): (r: seq<T>)
    ensures forall x :: x in r <==> x in xs && x in ys
  {
    if xs == [] then []
    else if xs[0] in ys then [xs[0]] + Keep(xs[1..], ys)
    else Keep(xs[1..], ys)
  }

  /** Allowlists intersect, but an empty one stands for no restriction. */
  function Tighten<T(==, !new)>(tenant: seq<T>, workspace: Option<seq<T>>): seq<T> {
    if workspace.None? || workspace.value == [] then tenant
    else if tenant == [] then workspace.value
    else Keep(tenant, workspace.value)
  }

  function IntersectMethods(tenant: seq<Method>, workspace: Option<seq<Method>>): seq<Method> {
    if workspace.Some? then Keep(tenant, workspace.value) else tenant
  }

  function MinDefined(a: Option<int>, b: Option<int>): Option<int> {
    if a.None? then b else if b.None? then a else Some(Min(a.value, b.value))
  }

  function IsTrue(b: Option<bool>): bool {
    b == Some(true)
  }

  function Resolve(tenant: AuthPolicy, workspace: Override): AuthPolicy {
    AuthPolicy(
      Escalate(tenant.mfa, workspace.mfa),
      IntersectMethods(tenant.methods, workspace.methods),
      tenant.disableSocial || IsTrue(workspace.disableSocial),
      tenant.requireSso || IsTrue(workspace.requireSso),
      Tighten(tenant.ips, workspace.ips),
      MinDefined(tenant.timeout, workspace.timeout),
      MinDefined(tenant.idle, workspace.idle),
      MinDefined(tenant.cap, workspace.cap))
  }

  /** The left fold over the overrides that are there. */
  function Compose(platform: AuthPolicy, overrides: seq<Option<Override>>): AuthPolicy {
    if overrides == [] then platform
    else
      var n := |overrides| - 1;
      var acc := Compose(platform, overrides[..n]);
      if overrides[n].Some? then Resolve(acc, overrides[n].value) else acc
  }

  function IsMethodAllowed(policy: AuthPolicy, method_: Method): bool {
    if policy.requireSso && method_ != Sso then false
    else if policy.disableSocial && method_ == OAuth then false
    else method_ in policy.methods
  }
}
