/** What strictest-wins promises, over chains of any length (packages/auth/src/policy.ts). */
module PolicyLaws {
  import opened Prelude
  import opened Policy
  import opened IpMatch

  // ---- what a policy lets through ----------------------------------------------------------------------------

  /** What a login brings before the gates. */
  datatype Feature =
    | Level(mfa: Mfa)
    | Using(m: Method)
    | SocialSignIn
    | NotSso
    | Lifetime(seconds: int)
    | IdleGap(gap: int)
    | Sessions(count: int)

  predicate Within(limit: Option<int>, amount: int) {
    limit.None? || amount <= limit.value
  }

  predicate Permits(o: Override, f: Feature) {
    match f
    case Level(mfa) => o.mfa.None? || Rank(o.mfa.value) <= Rank(mfa)
    case Using(m) => o.methods.None? || m in o.methods.value
    case SocialSignIn => o.disableSocial != Some(true)
    case NotSso => o.requireSso != Some(true)
    case Lifetime(n) => Within(o.timeout, n)
    case IdleGap(n) => Within(o.idle, n)
    case Sessions(n) => Within(o.cap, n)
  }

  /** A policy as an override that sets everything it has. */
  function Everything(p: AuthPolicy): Override {
    Override(Some(p.mfa), Some(p.methods), Some(p.disableSocial), Some(p.requireSso), Some(p.ips), p.timeout, p.idle,
        p.cap)
  }

  ghost predicate AllPermit(overrides: seq<Option<Override>>, f: Feature) {
    forall o: Override :: Some(o) in overrides ==> Permits(o, f)
  }

  lemma ResolvePermits(p: AuthPolicy, o: Override, f: Feature)
    ensures Permits(Everything(Resolve(p, o)), f) <==> Permits(Everything(p), f) && Permits(o, f)
  {
  }

  lemma AllPermitSnoc(front: seq<Option<Override>>, last: Option<Override>, f: Feature)
    ensures AllPermit(front + [last], f) <==> AllPermit(front, f) && (last.Some? ==> Permits(last.value, f))
  {
  }

  /** Whatever the chain and its length, the result permits exactly what every scope permits. */
  lemma {:induction false} StrictestWins(platform: AuthPolicy, overrides: seq<Option<Override>>, f: Feature)
    ensures Permits(Everything(Compose(platform, overrides)), f) <==>
              Permits(Everything(platform), f) && AllPermit(overrides, f)
  {
    if overrides != [] {
      var n := |overrides| - 1;
      StrictestWins(platform, overrides[..n], f);
      assert overrides == overrides[..n] + [overrides[n]];
      AllPermitSnoc(overrides[..n], overrides[n], f);
      if overrides[n].Some? {
        ResolvePermits(Compose(platform, overrides[..n]), overrides[n].value, f);
      }
    }
  }

  /** The method gate, in these terms. */
  predicate MethodPasses(o: Override, m: Method) {
    Permits(o, Using(m)) && (m == OAuth ==> Permits(o, SocialSignIn)) && (m != Sso ==> Permits(o, NotSso))
  }

  /** A method is allowed under the composed policy exactly when every scope allows it. */
  lemma {:induction false} MethodAllowedEverywhere(platform: AuthPolicy, overrides: seq<Option<Override>>, m: Method)
    ensures IsMethodAllowed(Compose(platform, overrides), m) <==>
              IsMethodAllowed(platform, m) && forall o: Override :: Some(o) in overrides ==> MethodPasses(o, m)
  {
    StrictestWins(platform, overrides, Using(m));
    StrictestWins(platform, overrides, SocialSignIn);
    StrictestWins(platform, overrides, NotSso);
  }

  // ---- allowlists ----------------------------------------------------------------------------------------

  /** The list of a scope, [] when it sets none. */
  function ListOf(o: Option<Override>): seq<string> {
    if o.Some? && o.value.ips.Some? then o.value.ips.value else []
  }

  /** The platform's list and then each override's. */
  function Lists(platform: AuthPolicy, overrides: seq<Option<Override>>): (ls: seq<seq<string>>)
    ensures |ls| == |overrides| + 1
  {
    [platform.ips] + seq(|overrides|, i requires 0 <= i < |overrides| => ListOf(overrides[i]))
  }

  /** Tightening down a chain of lists. */
  function Fold<T(==, !new)>(lists: seq<seq<T>>): seq<T> {
    if lists == [] then [] else Tighten(Fold(lists[..|lists| - 1]), Some(lists[|lists| - 1]))
  }

  lemma {:induction false} ComposedList(platform: AuthPolicy, overrides: seq<Option<Override>>)
    ensures Compose(platform, overrides).ips == Fold(Lists(platform, overrides))
  {
    var ls := Lists(platform, overrides);
    if overrides == [] {
      assert ls[..0] == [];
    } else {
      var n := |overrides| - 1;
      ComposedList(platform, overrides[..n]);
      assert ls[..n + 1] == Lists(platform, overrides[..n]);
      assert ls[n + 1] == ListOf(overrides[n]);
    }
  }

  ghost predicate Common<T(!new)>(lists: seq<seq<T>>, e: T) {
    forall i :: 0 <= i < |lists| && lists[i] != [] ==> e in lists[i]
  }

  /** The non-empty lists have an entry in common. */
  ghost predicate ShareEntry<T(!new)>(lists: seq<seq<T>>) {
    exists e: T :: Common(lists, e)
  }

  ghost predicate AllEmpty<T(!new)>(lists: seq<seq<T>>) {
    forall i :: 0 <= i < |lists| ==> lists[i] == []
  }

  /** Every entry of the result is in every list that restricts. */
  ghost predicate InsideAll<T(!new)>(r: seq<T>, lists: seq<seq<T>>) {
    forall i, e :: 0 <= i < |lists| && lists[i] != [] && e in r ==> e in lists[i]
  }

  /** With a common entry the fold is the intersection of the non-empty lists. */
  lemma {:induction false} FoldIsIntersection<T(!new)>(lists: seq<seq<T>>, e: T)
    requires Common(lists, e)
    ensures Fold(lists) == [] <==> AllEmpty(lists)
    ensures forall x :: x in Fold(lists) <==> Common(lists, x) && !AllEmpty(lists)
  {
    if lists != [] {
      var n := |lists| - 1;
      assert forall i :: 0 <= i < n ==> lists[..n][i] == lists[i];
      FoldIsIntersection(lists[..n], e);
      assert forall x :: Common(lists, x) <==> Common(lists[..n], x) && (lists[n] != [] ==> x in lists[n]);
      assert AllEmpty(lists) <==> AllEmpty(lists[..n]) && lists[n] == [];
      if lists[n] != [] && Fold(lists[..n]) != [] {
        assert e in Fold(lists[..n]) && e in Fold(lists);
      }
    }
  }

  /** The fold is a real intersection exactly when the non-empty lists share an entry. */
  lemma FoldTightens<T(!new)>(lists: seq<seq<T>>)
    requires !AllEmpty(lists)
    ensures ShareEntry(lists) <==> Fold(lists) != [] && InsideAll(Fold(lists), lists)
  {
    if ShareEntry(lists) {
      var e :| Common(lists, e);
      FoldIsIntersection(lists, e);
    } else if Fold(lists) != [] && InsideAll(Fold(lists), lists) {
      var e := Fold(lists)[0];
      assert e in Fold(lists);
      assert Common(lists, e);
    }
  }

  /** A list with fewer entries admits fewer addresses, as long as it is not empty. */
  lemma FewerEntries(ip: string, l: seq<string>, m: seq<string>)
    requires l != [] && (m != [] ==> forall e :: e in l ==> e in m)
    requires Admitted(ip, l)
    ensures Admitted(ip, m)
  {
    if m != [] {
      var a := AddressOf(ip);
      var i :| 0 <= i < |l| && Contains(BlockOf(l[i]), a);
      assert l[i] in m;
      var k :| 0 <= k < |m| && m[k] == l[i];
      assert Contains(BlockOf(m[k]), a);
    }
  }

  /** If the non-empty lists of the chain share an entry, an address the result admits is admitted by every scope. */
  lemma AddressesTighten(platform: AuthPolicy, overrides: seq<Option<Override>>, ip: string)
    requires ShareEntry(Lists(platform, overrides))
    ensures Admitted(ip, Compose(platform, overrides).ips) ==>
              forall i :: 0 <= i < |Lists(platform, overrides)| ==> Admitted(ip, Lists(platform, overrides)[i])
  {
    var lists := Lists(platform, overrides);
    ComposedList(platform, overrides);
    var e :| Common(lists, e);
    FoldIsIntersection(lists, e);
    if Admitted(ip, Fold(lists)) {
      forall i | 0 <= i < |lists| ensures Admitted(ip, lists[i]) {
        if lists[i] != [] {
          FewerEntries(ip, Fold(lists), lists[i]);
        }
      }
    }
  }

  /** Two lists that both restrict and have no entry in common cancel out: nothing is restricted any more. */
  lemma DisjointListsCancel(p: AuthPolicy, o: Override, ip: string)
    requires p.ips != [] && o.ips.Some? && o.ips.value != []
    ensures Resolve(p, o).ips == [] <==> forall e :: e in p.ips ==> e !in o.ips.value
    ensures Resolve(p, o).ips == [] ==> Admitted(ip, Resolve(p, o).ips)
  {
    var r := Keep(p.ips, o.ips.value);
    if r != [] {
      assert r[0] in r;
    }
  }

  ghost predicate SameElements<T(!new)>(x: seq<T>, y: seq<T>) {
    forall e :: e in x <==> e in y
  }

  ghost predicate Meet<T(!new)>(x: seq<T>, y: seq<T>) {
    exists e :: e in x && e in y
  }

  lemma {:induction false} KeepEmpty<T(!new)>(x: seq<T>, y: seq<T>)
    ensures Keep(x, y) != [] <==> Meet(x, y)
  {
    if Keep(x, y) != [] {
      assert Keep(x, y)[0] in Keep(x, y);
    }
  }

  /** Exactly when the fold on lists is associative, contrary to the comment that calls it so: if one list is
      empty, if the middle one meets both others, or if it meets neither and those are the same set. */
  lemma TightenAssociates<T(!new)>(x: seq<T>, y: seq<T>, z: seq<T>)
    ensures SameElements(Tighten(Tighten(x, Some(y)), Some(z)), Tighten(x, Some(Tighten(y, Some(z)))))
            <==> x == [] || y == [] || z == [] || (Meet(x, y) && Meet(y, z))
                 || (!Meet(x, y) && !Meet(y, z) && SameElements(x, z))
  {
    KeepEmpty(x, y);
    KeepEmpty(y, z);
    if x != [] && y != [] && z != [] {
      assert x[0] in x && z[0] in z;
    }
  }

  // ---- order of the scopes ---------------------------------------------------------------------------------

  /** Equal but for the order and repetition of list entries. */
  ghost predicate SamePolicy(p: AuthPolicy, q: AuthPolicy) {
    && p.mfa == q.mfa && p.disableSocial == q.disableSocial && p.requireSso == q.requireSso
    && p.timeout == q.timeout && p.idle == q.idle && p.cap == q.cap
    && SameElements(p.methods, q.methods) && SameElements(p.ips, q.ips)
  }

  /** Policies that permit the same features agree, but for lists. */
  lemma SamePermits(p: AuthPolicy, q: AuthPolicy)
    requires forall f: Feature :: Permits(Everything(p), f) <==> Permits(Everything(q), f)
    requires SameElements(p.ips, q.ips)
    ensures SamePolicy(p, q)
  {
    assert Permits(Everything(p), Level(p.mfa)) && Permits(Everything(q), Level(q.mfa));
    assert Permits(Everything(p), SocialSignIn) <==> !p.disableSocial;
    assert Permits(Everything(p), NotSso) <==> !p.requireSso;
    assert p.disableSocial == q.disableSocial && p.requireSso == q.requireSso;
    forall m: Method ensures m in p.methods <==> m in q.methods {
      assert Permits(Everything(p), Using(m)) <==> Permits(Everything(q), Using(m));
    }
    SameLimits(p, q);
  }

  lemma SameLimit(a: Option<int>, b: Option<int>)
    requires forall n: int :: Within(a, n) <==> Within(b, n)
    ensures a == b
  {
    var n := if a.Some? then a.value else if b.Some? then b.value + 1 else 0;
    assert Within(a, n) <==> Within(b, n);
    assert Within(a, n + 1) <==> Within(b, n + 1);
  }

  lemma SameLimits(p: AuthPolicy, q: AuthPolicy)
    requires forall f: Feature :: Permits(Everything(p), f) <==> Permits(Everything(q), f)
    ensures p.timeout == q.timeout && p.idle == q.idle && p.cap == q.cap
  {
    forall n: int
      ensures Within(p.timeout, n) <==> Within(q.timeout, n)
      ensures Within(p.idle, n) <==> Within(q.idle, n)
      ensures Within(p.cap, n) <==> Within(q.cap, n)
    {
      assert Permits(Everything(p), Lifetime(n)) <==> Permits(Everything(q), Lifetime(n));
      assert Permits(Everything(p), IdleGap(n)) <==> Permits(Everything(q), IdleGap(n));
      assert Permits(Everything(p), Sessions(n)) <==> Permits(Everything(q), Sessions(n));
    }
    SameLimit(p.timeout, q.timeout);
    SameLimit(p.idle, q.idle);
    SameLimit(p.cap, q.cap);
  }

  lemma CommonInAll(platform: AuthPolicy, os: seq<Option<Override>>, rs: seq<Option<Override>>, e: string)
    requires SameElements(os, rs) && Common(Lists(platform, os), e)
    ensures Common(Lists(platform, rs), e)
  {
    var ls, ms := Lists(platform, os), Lists(platform, rs);
    forall i | 0 <= i < |ms| && ms[i] != [] ensures e in ms[i] {
      if i > 0 {
        assert rs[i - 1] in os;
        var k :| 0 <= k < |os| && os[k] == rs[i - 1];
        assert ls[k + 1] == ms[i];
      } else {
        assert ls[0] == ms[0];
      }
    }
  }

  lemma EmptyInAll(platform: AuthPolicy, os: seq<Option<Override>>, rs: seq<Option<Override>>)
    requires SameElements(os, rs) && AllEmpty(Lists(platform, os))
    ensures AllEmpty(Lists(platform, rs))
  {
    var ls, ms := Lists(platform, os), Lists(platform, rs);
    forall i | 0 <= i < |ms| ensures ms[i] == [] {
      if i > 0 {
        assert rs[i - 1] in os;
        var k :| 0 <= k < |os| && os[k] == rs[i - 1];
        assert ls[k + 1] == ms[i];
      } else {
        assert ls[0] == ms[0];
      }
    }
  }

  lemma SameComposedList(platform: AuthPolicy, os: seq<Option<Override>>, rs: seq<Option<Override>>)
    requires SameElements(os, rs) && ShareEntry(Lists(platform, os))
    ensures SameElements(Compose(platform, os).ips, Compose(platform, rs).ips)
  {
    ComposedList(platform, os);
    ComposedList(platform, rs);
    var e :| Common(Lists(platform, os), e);
    CommonInAll(platform, os, rs, e);
    FoldIsIntersection(Lists(platform, os), e);
    FoldIsIntersection(Lists(platform, rs), e);
    forall x ensures Common(Lists(platform, os), x) <==> Common(Lists(platform, rs), x) {
      if Common(Lists(platform, os), x) {
        CommonInAll(platform, os, rs, x);
      }
      if Common(Lists(platform, rs), x) {
        CommonInAll(platform, rs, os, x);
      }
    }
    if AllEmpty(Lists(platform, os)) {
      EmptyInAll(platform, os, rs);
    }
    if AllEmpty(Lists(platform, rs)) {
      EmptyInAll(platform, rs, os);
    }
  }

  /** Reordering or repeating the overrides gives the same policy, up to the order of list entries, if the
      non-empty allowlists share an entry. */
  lemma OrderIrrelevant(platform: AuthPolicy, os: seq<Option<Override>>, rs: seq<Option<Override>>)
    requires SameElements(os, rs) && ShareEntry(Lists(platform, os))
    ensures SamePolicy(Compose(platform, os), Compose(platform, rs))
  {
    SameComposedList(platform, os, rs);
    forall f: Feature
      ensures Permits(Everything(Compose(platform, os)), f) <==> Permits(Everything(Compose(platform, rs)), f)
    {
      StrictestWins(platform, os, f);
      StrictestWins(platform, rs, f);
    }
    SamePermits(Compose(platform, os), Compose(platform, rs));
  }

  /** When the order of two restricting lists after a third does not show: they meet it alike, and meet it or are the
      same set. */
  lemma TightenCommutes<T(!new)>(p: seq<T>, a: seq<T>, b: seq<T>)
    ensures SameElements(Tighten(Tighten(p, Some(a)), Some(b)), Tighten(Tighten(p, Some(b)), Some(a)))
            <==> p == [] || a == [] || b == [] || ((Meet(p, a) <==> Meet(p, b)) && (Meet(p, a) || SameElements(a, b)))
  {
    KeepEmpty(p, a);
    KeepEmpty(p, b);
    if a != [] && b != [] {
      assert a[0] in a && b[0] in b;
    }
  }

  /** Exactly when two overrides may change places: every other key always may, so it is a matter of the three
      allowlists. */
  lemma OrderMatters(platform: AuthPolicy, o: Override, r: Override)
    ensures var p, a, b := platform.ips, ListOf(Some(o)), ListOf(Some(r));
            SamePolicy(Compose(platform, [Some(o), Some(r)]), Compose(platform, [Some(r), Some(o)]))
            <==> p == [] || a == [] || b == [] || ((Meet(p, a) <==> Meet(p, b)) && (Meet(p, a) || SameElements(a, b)))
  {
    var left, right := Compose(platform, [Some(o), Some(r)]), Compose(platform, [Some(r), Some(o)]);
    TwoSteps(platform, o, r);
    TwoSteps(platform, r, o);
    UnsetIsEmpty(platform.ips, o.ips);
    UnsetIsEmpty(platform.ips, r.ips);
    UnsetIsEmpty(Tighten(platform.ips, o.ips), r.ips);
    UnsetIsEmpty(Tighten(platform.ips, r.ips), o.ips);
    TightenCommutes(platform.ips, ListOf(Some(o)), ListOf(Some(r)));
    if SameElements(left.ips, right.ips) {
      forall f: Feature ensures Permits(Everything(left), f) <==> Permits(Everything(right), f) {
        SwapPermits(platform, o, r, f);
      }
      SamePermits(left, right);
    }
  }

  lemma UnsetIsEmpty<T(!new)>(tenant: seq<T>, list: Option<seq<T>>)
    ensures Tighten(tenant, list) == Tighten(tenant, Some(if list.Some? then list.value else []))
  {
  }

  lemma SwapPermits(platform: AuthPolicy, o: Override, r: Override, f: Feature)
    ensures Permits(Everything(Resolve(Resolve(platform, o), r)), f)
       <==> Permits(Everything(Resolve(Resolve(platform, r), o)), f)
  {
    ResolvePermits(platform, o, f);
    ResolvePermits(platform, r, f);
    ResolvePermits(Resolve(platform, o), r, f);
    ResolvePermits(Resolve(platform, r), o, f);
  }

  lemma TwoSteps(p: AuthPolicy, o: Override, r: Override)
    ensures Compose(p, [Some(o), Some(r)]) == Resolve(Resolve(p, o), r)
  {
    var os := [Some(o), Some(r)];
    assert os[..1] == [Some(o)] && os[1] == Some(r) && [Some(o)][..0] == [];
    assert Compose(p, [Some(o)]) == Resolve(p, o);
    assert Compose(p, os) == Resolve(Compose(p, os[..1]), r);
  }
}
