/** The equivalence test that predicts whether swapping two policies would change a login
    (packages/auth/src/policyShadow.ts). */
module PolicyShadow {
  import opened Prelude
  import opened Policy
  import opened PolicyLaws
  import opened PolicyWrites
  import opened IpMatch
  import opened LoginGates
  import SessionLimits

  /** Same length, and everything in b is in a. */
  predicate SameSet<T(==, !new)>(a: seq<T>, b: seq<T>) {
    SameList(b, a)
  }

  /** The concurrent-session cap is not compared. */
  predicate PoliciesEquivalent(a: AuthPolicy, b: AuthPolicy) {
    a.mfa == b.mfa && a.disableSocial == b.disableSocial && a.requireSso == b.requireSso
    && a.timeout == b.timeout && a.idle == b.idle && SameSet(a.methods, b.methods) && SameSet(a.ips, b.ips)
  }

  /** If the second list repeats nothing, passing the test means having the same elements. */
  lemma SameSetSound<T(!new)>(a: seq<T>, b: seq<T>)
    requires Distinct(b) && SameSet(a, b)
    ensures SameElements(a, b)
  {
    assert Elems(b) <= Elems(a);
    DistinctCount(b);
    ElemsAtMost(a);
    SubsetSize(Elems(b), Elems(a));
    assert forall e :: e in a ==> e in Elems(a);
  }

  /** Exactly then: over any type with an element outside the list, the test is right about the second list for
      every first list just when the second repeats nothing. */
  lemma SameSetNeedsDistinct<T(!new)>(b: seq<T>, other: T)
    requires other !in b
    ensures (forall a: seq<T> :: SameSet(a, b) ==> SameElements(a, b)) <==> Distinct(b)
  {
    if Distinct(b) {
      forall a: seq<T> | SameSet(a, b) ensures SameElements(a, b) {
        SameSetSound(a, b);
      }
    } else {
      var i, j :| 0 <= i < j < |b| && b[i] == b[j];
      var a := b[j := other];
      forall k | 0 <= k < |b| ensures b[k] in a {
        assert a[if k == j then i else k] == b[k];
      }
      assert a[j] == other && other in a;
      assert SameSet(a, b) && !SameElements(a, b);
    }
  }

  /** On duplicate-free lists the test holds exactly when the policies say the same, the cap apart. */
  lemma EquivalentIffSame(a: AuthPolicy, b: AuthPolicy)
    requires DistinctLists(a) && DistinctLists(b)
    ensures PoliciesEquivalent(a, b) <==> SamePolicy(a.(cap := None), b.(cap := None))
  {
    if PoliciesEquivalent(a, b) {
      SameSetSound(a.methods, b.methods);
      SameSetSound(a.ips, b.ips);
    }
    if SamePolicy(a.(cap := None), b.(cap := None)) {
      SameLength(a.methods, b.methods);
      SameLength(a.ips, b.ips);
    }
  }

  lemma SameLength<T(!new)>(a: seq<T>, b: seq<T>)
    requires Distinct(a) && Distinct(b) && SameElements(a, b)
    ensures SameSet(a, b)
  {
    DistinctCount(a);
    DistinctCount(b);
    assert Elems(a) == Elems(b);
  }

  lemma SameAdmission(ip: string, l: seq<string>, m: seq<string>)
    requires SameElements(l, m)
    ensures Admitted(ip, l) <==> Admitted(ip, m)
    ensures l == [] <==> m == []
  {
    assert l != [] ==> l[0] in m;
    assert m != [] ==> m[0] in l;
    if l != [] {
      if Admitted(ip, l) {
        FewerEntries(ip, l, m);
      }
      if Admitted(ip, m) {
        FewerEntries(ip, m, l);
      }
    }
  }

  /** Policies that pass the test on duplicate-free lists give the same verdict at every gate, for every input: the
      address and method gates, the MFA requirement, the session's expiry and the idle test. */
  lemma EquivalentChangesNoGate(a: AuthPolicy, b: AuthPolicy, ip: string, used: Option<Method>, refreshTtl: int,
                                lastSeenAt: Option<int>, now: int)
    requires Distinct(b.methods) && Distinct(b.ips) && PoliciesEquivalent(a, b)
    ensures GateRefusal(a, ip, used) == GateRefusal(b, ip, used)
    ensures forall m: Method :: IsMethodAllowed(a, m) == IsMethodAllowed(b, m)
    ensures Admitted(ip, a.ips) <==> Admitted(ip, b.ips)
    ensures a.mfa == MfaRequired <==> b.mfa == MfaRequired
    ensures SessionLimits.CappedSessionExpiry(refreshTtl, a.timeout, now)
         == SessionLimits.CappedSessionExpiry(refreshTtl, b.timeout, now)
    ensures SessionLimits.IsIdleExpired(lastSeenAt, a.idle, now) == SessionLimits.IsIdleExpired(lastSeenAt, b.idle, now)
  {
    SameSetSound(a.methods, b.methods);
    SameSetSound(a.ips, b.ips);
    SameAdmission(ip, a.ips, b.ips);
  }

  /** With a repeated entry the test passes policies that disagree. */
  lemma RepeatsFoolTheTest(a: AuthPolicy, x: Method, y: Method)
    requires x != y && !a.requireSso && !a.disableSocial
    ensures PoliciesEquivalent(a.(methods := [x, y]), a.(methods := [x, x]))
    ensures IsMethodAllowed(a.(methods := [x, y]), y) && !IsMethodAllowed(a.(methods := [x, x]), y)
  {
  }
}
