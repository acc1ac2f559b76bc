/** The write-time floor guard and the (key, value) rows policies are stored in (packages/auth/src/policy.ts,
    packages/types/src/auth.ts). */
module PolicyWrites {
  import opened Prelude
  import opened Policy
  import opened PolicyLaws

  // ---- keys and values -------------------------------------------------------------------------------------

  datatype Field =
    | MfaField | MethodsField | SocialField | SsoField | IpsField | TimeoutField | IdleField | CapField

  datatype Value = MfaIs(mfa: Mfa) | MethodsAre(methods: seq<Method>) | Flag(on: bool) | IpsAre(ips: seq<string>)
    | Limit(limit: Option<int>)

  /** policy[key] */
  function Get(p: AuthPolicy, f: Field): Value {
    match f
    case MfaField => MfaIs(p.mfa)
    case MethodsField => MethodsAre(p.methods)
    case SocialField => Flag(p.disableSocial)
    case SsoField => Flag(p.requireSso)
    case IpsField => IpsAre(p.ips)
    case TimeoutField => Limit(p.timeout)
    case IdleField => Limit(p.idle)
    case CapField => Limit(p.cap)
  }

  /** What the override gives a key; None when it gives nothing, or the value undefined. */
  function Proposed(o: Override, f: Field): Option<Value> {
    match f
    case MfaField => if o.mfa.Some? then Some(MfaIs(o.mfa.value)) else None
    case MethodsField => if o.methods.Some? then Some(MethodsAre(o.methods.value)) else None
    case SocialField => if o.disableSocial.Some? then Some(Flag(o.disableSocial.value)) else None
    case SsoField => if o.requireSso.Some? then Some(Flag(o.requireSso.value)) else None
    case IpsField => if o.ips.Some? then Some(IpsAre(o.ips.value)) else None
    case TimeoutField => if o.timeout.Some? then Some(Limit(o.timeout)) else None
    case IdleField => if o.idle.Some? then Some(Limit(o.idle)) else None
    case CapField => if o.cap.Some? then Some(Limit(o.cap)) else None
  }

  /** Whether a value has the type its key calls for; Limit(None) is the limit that is undefined. */
  predicate Typed(f: Field, v: Value) {
    match f
    case MfaField => v.MfaIs?
    case MethodsField => v.MethodsAre?
    case SocialField => v.Flag?
    case SsoField => v.Flag?
    case IpsField => v.IpsAre?
    case TimeoutField => v.Limit?
    case IdleField => v.Limit?
    case CapField => v.Limit?
  }

  /** out[field] = value */
  function Put(o: Override, f: Field, v: Value): (r: Override)
    requires Typed(f, v)
    ensures Proposed(r, f) == if v == Limit(None) then None else Some(v)
    ensures forall g: Field :: g != f ==> Proposed(r, g) == Proposed(o, g)
  {
    match f
    case MfaField => o.(mfa := Some(v.mfa))
    case MethodsField => o.(methods := Some(v.methods))
    case SocialField => o.(disableSocial := Some(v.on))
    case SsoField => o.(requireSso := Some(v.on))
    case IpsField => o.(ips := Some(v.ips))
    case TimeoutField => o.(timeout := v.limit)
    case IdleField => o.(idle := v.limit)
    case CapField => o.(cap := v.limit)
  }

  // ---- the floor guard -------------------------------------------------------------------------------------

  function SameList<T(==, !new)>(a: seq<T>, b: seq<T>): bool {
    |a| == |b| && forall i :: 0 <= i < |a| ==> a[i] in b
  }

  function SamePolicyValue(a: Value, b: Value): bool {
    if a.MethodsAre? && b.MethodsAre? then SameList(a.methods, b.methods)
    else if a.IpsAre? && b.IpsAre? then SameList(a.ips, b.ips)
    else a == b
  }

  /** proposed[key], where undefined is the value of a limit that is not set and of nothing else. */
  function Asked(proposed: Override, f: Field): Option<Value> {
    if Proposed(proposed, f).Some? then Proposed(proposed, f)
    else if f in {TimeoutField, IdleField, CapField} then Some(Limit(None))
    else None
  }

  /** The clamp changed what the key asked for. */
  predicate Violates(proposed: Override, floor: AuthPolicy, f: Field) {
    Asked(proposed, f).Some? ==> !SamePolicyValue(Get(Resolve(floor, proposed), f), Asked(proposed, f).value)
  }

  /** Object.keys(proposed), each once, in some order: every key that has a value, and any that are present with
      the value undefined. */
  ghost predicate KeysOf(keys: seq<Field>, proposed: Override) {
    Distinct(keys) && forall f: Field :: Proposed(proposed, f).Some? ==> f in keys
  }

  function Violating(keys: seq<Field>, proposed: Override, floor: AuthPolicy): (r: seq<Field>)
    ensures forall f :: f in r <==> f in keys && Violates(proposed, floor, f)
  {
    if keys == [] then []
    else
      var front, last := keys[..|keys| - 1], keys[|keys| - 1];
      Violating(front, proposed, floor) + if Violates(proposed, floor, last) then [last] else []
  }

  method FindFloorViolations(keys: seq<Field>, proposed: Override, floor: AuthPolicy) returns (violations: seq<Field>)
    requires KeysOf(keys, proposed)
    ensures violations == Violating(keys, proposed, floor)
    ensures forall f: Field :: f in violations <==> f in keys && Violates(proposed, floor, f)
  {
    var clamped := Resolve(floor, proposed);
    violations := [];
    for i := 0 to |keys|
      invariant violations == Violating(keys[..i], proposed, floor)
    {
      assert keys[..i + 1][..i] == keys[..i];
      var asked := Asked(proposed, keys[i]);
      if asked.None? || !SamePolicyValue(Get(clamped, keys[i]), asked.value) {
        violations := violations + [keys[i]];
      }
    }
    assert keys[..|keys|] == keys;
  }

  ghost predicate Subset<T(!new)>(a: seq<T>, b: seq<T>) {
    forall e :: e in a ==> e in b
  }

  /** A limit no longer than the floor's; where the floor sets one, undefined is longer. */
  predicate LimitAsStrict(limit: Option<int>, floor: Option<int>) {
    floor.Some? ==> limit.Some? && limit.value <= floor.value
  }

  /** At least as strict as the floor, key by key. */
  ghost predicate AsStrict(f: Field, v: Value, floor: AuthPolicy)
    requires Typed(f, v)
  {
    match f
    case MfaField => Rank(v.mfa) >= Rank(floor.mfa)
    case MethodsField => Subset(v.methods, floor.methods)
    case SocialField => floor.disableSocial ==> v.on
    case SsoField => floor.requireSso ==> v.on
    case IpsField => floor.ips == [] || (v.ips != [] && Subset(v.ips, floor.ips))
    case TimeoutField => LimitAsStrict(v.limit, floor.timeout)
    case IdleField => LimitAsStrict(v.limit, floor.idle)
    case CapField => LimitAsStrict(v.limit, floor.cap)
  }

  /** Lists name nothing twice. */
  ghost predicate NoRepeats(v: Value) {
    (v.MethodsAre? ==> Distinct(v.methods)) && (v.IpsAre? ==> Distinct(v.ips))
  }

  ghost predicate DistinctLists(p: AuthPolicy) {
    Distinct(p.methods) && Distinct(p.ips)
  }

  lemma {:induction false} KeepDistinct<T(!new)>(xs: seq<T>, ys: seq<T>)
    requires Distinct(xs)
    ensures Distinct(Keep(xs, ys))
  {
    if xs != [] {
      KeepDistinct(xs[1..], ys);
      assert xs[0] !in xs[1..];
    }
  }

  lemma {:induction false} ElemsAtMost<T(!new)>(s: seq<T>)
    ensures |Elems(s)| <= |s| && (|Elems(s)| == |s| ==> Distinct(s))
  {
    if s != [] {
      ElemsAtMost(s[1..]);
      assert Elems(s) == Elems(s[1..]) + {s[0]};
      if |Elems(s)| == |s| {
        assert s[0] !in Elems(s[1..]);
        forall i, j | 0 <= i < j < |s| ensures s[i] != s[j] {
          assert s[j] == s[1..][j - 1] && (i > 0 ==> s[i] == s[1..][i - 1]);
        }
      }
    }
  }

  /** Against a floor list without repetitions, filtering changes nothing exactly when the proposed list is a
      subset and has no repetitions either. */
  lemma FilterKeepsList<T(!new)>(floor: seq<T>, v: seq<T>)
    requires Distinct(floor)
    ensures SameList(Keep(floor, v), v) <==> Subset(v, floor) && Distinct(v)
  {
    var k := Keep(floor, v);
    KeepDistinct(floor, v);
    DistinctCount(k);
    assert Elems(k) <= Elems(v);
    SubsetSize(Elems(k), Elems(v));
    ElemsAtMost(v);
    if Subset(v, floor) && Distinct(v) {
      DistinctCount(v);
      assert Elems(v) == Elems(k);
    }
    if SameList(k, v) {
      assert Elems(v) == Elems(k);
      assert forall e :: e in v ==> e in Elems(v);
    }
  }

  lemma SameListReflexive<T(!new)>(v: seq<T>)
    ensures SameList(v, v)
  {
  }

  lemma TightenKeepsList<T(!new)>(floor: seq<T>, v: seq<T>)
    requires Distinct(floor)
    ensures SameList(Tighten(floor, Some(v)), v)
            <==> floor == [] || (v != [] && Subset(v, floor) && Distinct(v))
  {
    FilterKeepsList(floor, v);
    SameListReflexive(v);
  }

  /** Against a floor without repeated entries, a key passes the guard exactly when it has a value of its type that
      is at least as strict as the floor and repeats nothing of a list the floor restricts. */
  lemma GuardIsStrictness(proposed: Override, floor: AuthPolicy, f: Field)
    requires DistinctLists(floor)
    ensures Asked(proposed, f).Some? ==> Typed(f, Asked(proposed, f).value)
    ensures !Violates(proposed, floor, f) <==>
              && Asked(proposed, f).Some?
              && AsStrict(f, Asked(proposed, f).value, floor)
              && ((f == IpsField && floor.ips == []) || NoRepeats(Asked(proposed, f).value))
  {
    match f {
      case MethodsField =>
        if proposed.methods.Some? {
          FilterKeepsList(floor.methods, proposed.methods.value);
        }
      case IpsField =>
        if proposed.ips.Some? {
          TightenKeepsList(floor.ips, proposed.ips.value);
        }
      case _ =>
    }
  }

  /** For duplicate-free lists the guard finds nothing exactly when every key that is present has a value at least as
      strict as the floor; undefined is one for a limit the floor leaves unset. */
  lemma NoViolationsIffStrict(keys: seq<Field>, proposed: Override, floor: AuthPolicy)
    requires KeysOf(keys, proposed) && DistinctLists(floor)
    requires forall f: Field :: Proposed(proposed, f).Some? ==> NoRepeats(Proposed(proposed, f).value)
    ensures Violating(keys, proposed, floor) == [] <==>
              forall f: Field :: f in keys ==>
                && Asked(proposed, f).Some? && Typed(f, Asked(proposed, f).value)
                && AsStrict(f, Asked(proposed, f).value, floor)
  {
    var vs := Violating(keys, proposed, floor);
    forall f: Field | f in keys
      ensures Asked(proposed, f).Some? ==> Typed(f, Asked(proposed, f).value)
      ensures f !in vs <==> Asked(proposed, f).Some? && AsStrict(f, Asked(proposed, f).value, floor)
    {
      GuardIsStrictness(proposed, floor, f);
    }
    if vs != [] {
      assert vs[0] in vs;
    }
  }

  /** A key that is present with the value undefined passes exactly when it names a limit the floor does not set. */
  lemma UndefinedPasses(proposed: Override, floor: AuthPolicy, f: Field)
    requires DistinctLists(floor) && Proposed(proposed, f).None?
    ensures !Violates(proposed, floor, f) <==> Get(floor, f) == Limit(None)
  {
    GuardIsStrictness(proposed, floor, f);
  }

  /** A floor that lists a method twice breaks the guard for some duplicate-free proposal, and only such a floor
      does: here, naming just that method is refused although it is strict enough. */
  lemma GuardNeedsDistinctFloor(floor: AuthPolicy)
    ensures (forall v: seq<Method> :: Distinct(v) ==>
              (SameList(Keep(floor.methods, v), v) <==> Subset(v, floor.methods)))
            <==> Distinct(floor.methods)
  {
    if Distinct(floor.methods) {
      forall v: seq<Method> | Distinct(v) ensures SameList(Keep(floor.methods, v), v) <==> Subset(v, floor.methods) {
        FilterKeepsList(floor.methods, v);
      }
    } else {
      var i, j :| 0 <= i < j < |floor.methods| && floor.methods[i] == floor.methods[j];
      var v := [floor.methods[i]];
      KeepTwice(floor.methods, v[0], i, j);
      assert Distinct(v) && Subset(v, floor.methods) && !SameList(Keep(floor.methods, v), v);
    }
  }

  /** The same for address lists, where an empty floor restricts nothing and an empty proposal gives the floor's
      restriction up. */
  lemma GuardNeedsDistinctAddresses(floor: AuthPolicy)
    ensures (forall v: seq<string> :: Distinct(v) ==>
              (SameList(Tighten(floor.ips, Some(v)), v) <==> floor.ips == [] || (v != [] && Subset(v, floor.ips))))
            <==> Distinct(floor.ips)
  {
    if Distinct(floor.ips) {
      forall v: seq<string> | Distinct(v)
        ensures SameList(Tighten(floor.ips, Some(v)), v) <==> floor.ips == [] || (v != [] && Subset(v, floor.ips))
      {
        TightenKeepsList(floor.ips, v);
      }
    } else {
      var i, j :| 0 <= i < j < |floor.ips| && floor.ips[i] == floor.ips[j];
      var v := [floor.ips[i]];
      KeepTwice(floor.ips, v[0], i, j);
      assert Distinct(v) && Subset(v, floor.ips) && !SameList(Tighten(floor.ips, Some(v)), v);
    }
  }

  lemma {:induction false} KeepOnce<T(!new)>(xs: seq<T>, e: T, i: nat)
    requires i < |xs| && xs[i] == e
    ensures |Keep(xs, [e])| >= 1
  {
    assert e in Keep(xs, [e]);
  }

  lemma {:induction false} KeepTwice<T(!new)>(xs: seq<T>, e: T, i: nat, j: nat)
    requires i < j < |xs| && xs[i] == e == xs[j]
    ensures |Keep(xs, [e])| >= 2
  {
    if i == 0 {
      KeepOnce(xs[1..], e, j - 1);
    } else {
      KeepTwice(xs[1..], e, i - 1, j - 1);
    }
  }

  lemma KeepCons<T(!new)>(x: T, rest: seq<T>, ys: seq<T>)
    requires x in ys
    ensures Keep([x] + rest, ys) == [x] + Keep(rest, ys)
  {
  }

  /** The other way round, a repeated floor entry lets a weaker list through. */
  lemma RepeatedFloorAcceptsWeaker(m: Method, other: Method)
    requires m != other
    ensures SameList(Keep([m, m], [m, other]), [m, other]) && !Subset([m, other], [m, m])
  {
    var v, floor := [m, other], [m, m];
    assert v[0] == m && v[1] == other;
    assert m in v && other in v && other !in floor;
    KeepCons(m, [], v);
    KeepCons(m, [m], v);
    assert [m] + [] == [m] && [m] + [m] == floor;
  }
}
