/** The policy gates of finalizeLogin (packages/auth/src/flow.ts) over a resolved policy. */
module LoginGates {
  import opened Prelude
  import opened Policy
  import opened PolicyLaws
  import opened IpMatch

  datatype Refusal = IpNotAllowed | MethodNotAllowed

  /** The address gate comes first. A missing method and an empty method list are let through. */
  ghost function GateRefusal(policy: AuthPolicy, clientIp: string, used: Option<Method>): Option<Refusal> {
    if policy.ips != [] && !Admitted(clientIp, policy.ips) then Some(IpNotAllowed)
    else if used.Some? && policy.methods != [] && !IsMethodAllowed(policy, used.value) then Some(MethodNotAllowed)
    else None
  }

  method CheckGates(policy: AuthPolicy, clientIp: string, used: Option<Method>) returns (r: Option<Refusal>)
    ensures r == GateRefusal(policy, clientIp, used)
  {
    if |policy.ips| > 0 {
      var allowed := IsIpAllowed(clientIp, policy.ips);
      if !allowed {
        return Some(IpNotAllowed);
      }
    }
    if used.Some? && |policy.methods| > 0 && !IsMethodAllowed(policy, used.value) {
      return Some(MethodNotAllowed);
    }
    r := None;
  }

  /** The method gate enforces what the policy says exactly when its method list is not empty: an empty list allows
      no method by the policy and every method by the gate, single sign-on requirement or not. */
  lemma GateFollowsPolicy(policy: AuthPolicy, ip: string)
    requires Admitted(ip, policy.ips)
    ensures (forall m: Method :: GateRefusal(policy, ip, Some(m)).None? <==> IsMethodAllowed(policy, m))
            <==> policy.methods != []
  {
    assert policy.methods == [] ==> !IsMethodAllowed(policy, Password) && GateRefusal(policy, ip, Some(Password)).None?;
  }

  /** Two scopes with no method in common cancel the gate, although each alone refuses what the other allows. */
  lemma DisjointMethodListsOpenTheGate(p: AuthPolicy, o: Override, ip: string, m: Method)
    requires o.methods.Some? && Admitted(ip, Resolve(p, o).ips)
    requires forall x :: x in p.methods ==> x !in o.methods.value
    ensures !IsMethodAllowed(Resolve(p, o), m) && GateRefusal(Resolve(p, o), ip, Some(m)) == None
  {
    KeepEmpty(p.methods, o.methods.value);
  }

  /** If the chain's allowlists share an entry and some method survives, what passes the gates of the composed policy
      passes the gates of every scope that sets its keys. */
  lemma GatesTighten(platform: AuthPolicy, overrides: seq<Option<Override>>, ip: string, m: Method)
    requires ShareEntry(Lists(platform, overrides)) && Compose(platform, overrides).methods != []
    requires GateRefusal(Compose(platform, overrides), ip, Some(m)).None?
    ensures GateRefusal(platform, ip, Some(m)).None?
    ensures forall i :: 0 <= i < |overrides| && overrides[i].Some? ==>
              Admitted(ip, ListOf(overrides[i])) && MethodPasses(overrides[i].value, m)
  {
    AddressesTighten(platform, overrides, ip);
    MethodAllowedEverywhere(platform, overrides, m);
    var lists := Lists(platform, overrides);
    assert lists[0] == platform.ips;
    forall i | 0 <= i < |overrides| && overrides[i].Some?
      ensures Admitted(ip, ListOf(overrides[i])) && MethodPasses(overrides[i].value, m)
    {
      assert lists[i + 1] == ListOf(overrides[i]);
      assert overrides[i] in overrides;
    }
  }
}
