/** Who belongs where: the membership reads behind login, refresh and the switches
    (packages/db/src/repositories/workspaceRepository.ts). */
module Memberships {
  import opened Prelude
  import opened Policy

  datatype User = User(id: string)
  datatype Tenant = Tenant(id: string)
  datatype Workspace = Workspace(id: string)

  /** A user in a tenant. */
  datatype Seat = Seat(tenant: Tenant, user: User)

  /** A tenant's policy and its staff-set enforcement switch. */
  datatype Enforcement = Enforcement(policy: AuthPolicy, enabled: bool)

  const DEFAULT_POLICY :=
    AuthPolicy(MfaOptional, [Password, OAuth, MagicLink, Sso, Passkey], false, false, [], None, None, None)

  const LIST_SAFETY_CAP: nat := 1000

  datatype Directory = Directory(
    active: set<User>,
    platformAdmins: set<User>,
    mfaEnrolled: set<User>,
    orgs: map<User, seq<Tenant>>,
    seats: map<Seat, seq<Workspace>>,
    defaults: map<Tenant, Workspace>,
    last: map<Seat, Workspace>,
    policies: map<Tenant, Enforcement>)
  {
    /** Active tenant memberships, oldest first. */
    function Orgs(u: User): seq<Tenant> {
      if u in orgs then orgs[u] else []
    }

    /** Active workspace memberships within the tenant, oldest first. */
    function Joined(t: Tenant, u: User): seq<Workspace> {
      if Seat(t, u) in seats then seats[Seat(t, u)] else []
    }

    /** getRoleForUser(tenant, workspace, user) !== null */
    predicate HasRole(t: Tenant, w: Workspace, u: User) {
      w in Joined(t, u)
    }

    function WorkspacesOf(t: Tenant, u: User): seq<Workspace> {
      var all := Joined(t, u);
      if |all| > LIST_SAFETY_CAP then all[..LIST_SAFETY_CAP] else all
    }

    function Last(t: Tenant, u: User): Option<Workspace> {
      if Seat(t, u) in last then Some(last[Seat(t, u)]) else None
    }

    function Default(t: Tenant): Option<Workspace> {
      if t in defaults then Some(defaults[t]) else None
    }

    function Enforced(t: Tenant): Enforcement {
      if t in policies then policies[t] else Enforcement(DEFAULT_POLICY, false)
    }

    /** The remembered workspace, the tenant's default, or the first: the first of these the user belongs to. */
    function Landing(t: Tenant, u: User): (r: Option<Workspace>)
      ensures r.Some? ==> HasRole(t, r.value, u)
      ensures r.None? <==> Joined(t, u) == []
      ensures Last(t, u).Some? && Last(t, u).value.id != "" && HasRole(t, Last(t, u).value, u) ==> r == Last(t, u)
    {
      var remembered := Last(t, u);
      if remembered.Some? && remembered.value.id != "" && HasRole(t, remembered.value, u) then remembered
      else
        var default := Default(t);
        if default.Some? && HasRole(t, default.value, u) then default
        else if WorkspacesOf(t, u) != [] then Some(WorkspacesOf(t, u)[0])
        else None
    }

    /** setLastWorkspace updates an existing membership row only. */
    function Remember(t: Tenant, u: User, w: Workspace): Directory {
      this.(last := last[Seat(t, u) := w])
    }
  }
}
