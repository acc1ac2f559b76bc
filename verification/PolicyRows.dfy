/** Policies as stored rows: parsing, assembling a scope, the write decision and the two ways of reading the rows
    (packages/auth/src/policy.ts, packages/types/src/auth.ts). */
module PolicyRows {
  import opened Prelude
  import opened Policy
  import opened PolicyLaws
  import opened PolicyWrites

  // ---- parsing -------------------------------------------------------------------------------------------

  /** A jsonb value. */
  datatype Json = JNull | JBool(b: bool) | JNumber(n: real) | JString(s: string) | JArray(items: seq<Json>)
    | JObject(members: map<string, Json>)

  function FieldOf(key: string): Option<Field> {
    if key == "mfa_enforcement" then Some(MfaField)
    else if key == "allowed_methods" then Some(MethodsField)
    else if key == "disable_social" then Some(SocialField)
    else if key == "require_sso" then Some(SsoField)
    else if key == "ip_allowlist" then Some(IpsField)
    else if key == "session_timeout_seconds" then Some(TimeoutField)
    else if key == "idle_timeout_seconds" then Some(IdleField)
    else if key == "max_concurrent_sessions" then Some(CapField)
    else None
  }

  function MfaName(m: Mfa): string {
    match m
    case MfaOff => "off"
    case MfaOptional => "optional"
    case MfaRequired => "required"
  }

  function MethodName(m: Method): string {
    match m
    case Password => "password"
    case OAuth => "oauth"
    case MagicLink => "magic_link"
    case Sso => "sso"
    case Passkey => "passkey"
  }

  function ParseMfa(j: Json): Option<Mfa> {
    if j == JString("off") then Some(MfaOff)
    else if j == JString("optional") then Some(MfaOptional)
    else if j == JString("required") then Some(MfaRequired)
    else None
  }

  function ParseMethod(j: Json): Option<Method> {
    if j == JString("password") then Some(Password)
    else if j == JString("oauth") then Some(OAuth)
    else if j == JString("magic_link") then Some(MagicLink)
    else if j == JString("sso") then Some(Sso)
    else if j == JString("passkey") then Some(Passkey)
    else None
  }

  function ParseMethods(items: seq<Json>): Option<seq<Method>> {
    if items == [] then Some([])
    else
      match (ParseMethod(items[0]), ParseMethods(items[1..]))
      case (Some(m), Some(rest)) => Some([m] + rest)
      case _ => None
  }

  function ParseStrings(items: seq<Json>): Option<seq<string>> {
    if items == [] then Some([])
    else
      match (items[0], ParseStrings(items[1..]))
      case (JString(s), Some(rest)) => Some([s] + rest)
      case _ => None
  }

  /** A positive integer. */
  function ParseLimit(j: Json): Option<Value> {
    if j.JNumber? && j.n == j.n.Floor as real && j.n > 0.0 then Some(Limit(Some(j.n.Floor))) else None
  }

  /** What a validator makes of a missing value: limits are optional, flags and the allowlist have defaults. */
  function Missing(f: Field): (r: Option<Value>)
    ensures r.Some? ==> Typed(f, r.value)
  {
    match f
    case MfaField => None
    case MethodsField => None
    case SocialField => Some(Flag(false))
    case SsoField => Some(Flag(false))
    case IpsField => Some(IpsAre([]))
    case TimeoutField => Some(Limit(None))
    case IdleField => Some(Limit(None))
    case CapField => Some(Limit(None))
  }

  /** The validator of a key, given any value: None stands for undefined, which a request body without the value has
      and a stored row never has. */
  function Validate(f: Field, j: Option<Json>): (r: Option<Value>)
    ensures r.Some? ==> Typed(f, r.value)
  {
    if j.Some? then Parse(f, j.value) else Missing(f)
  }

  /** The validator of a key on a value that is there. */
  function Parse(f: Field, j: Json): (r: Option<Value>)
    ensures r.Some? ==> Typed(f, r.value) && r.value != Limit(None)
  {
    match f
    case MfaField => if ParseMfa(j).Some? then Some(MfaIs(ParseMfa(j).value)) else None
    case MethodsField =>
      if j.JArray? && ParseMethods(j.items).Some? then Some(MethodsAre(ParseMethods(j.items).value)) else None
    case SocialField => if j.JBool? then Some(Flag(j.b)) else None
    case SsoField => if j.JBool? then Some(Flag(j.b)) else None
    case IpsField => if j.JArray? && ParseStrings(j.items).Some? then Some(IpsAre(ParseStrings(j.items).value))
        else None
    case TimeoutField => ParseLimit(j)
    case IdleField => ParseLimit(j)
    case CapField => ParseLimit(j)
  }

  /** No key takes an object, or null. */
  lemma ObjectsRejected(f: Field, members: map<string, Json>)
    ensures Parse(f, JObject(members)) == None && Parse(f, JNull) == None
  {
  }

  /** How a value is written. */
  function Written(v: Value): Json
    requires v.Limit? ==> v.limit.Some?
  {
    match v
    case MfaIs(m) => JString(MfaName(m))
    case MethodsAre(ms) => JArray(seq(|ms|, i requires 0 <= i < |ms| => JString(MethodName(ms[i]))))
    case Flag(b) => JBool(b)
    case IpsAre(ips) => JArray(seq(|ips|, i requires 0 <= i < |ips| => JString(ips[i])))
    case Limit(l) => JNumber(l.value as real)
  }

  /** The values a key takes: those of its type, limits being positive. */
  predicate Legal(f: Field, v: Value) {
    Typed(f, v) && (v.Limit? ==> v.limit.Some? && v.limit.value > 0)
  }

  lemma {:induction false} ParseMethodsInverse(items: seq<Json>, ms: seq<Method>)
    ensures ParseMethods(items) == Some(ms) <==> JArray(items) == Written(MethodsAre(ms))
  {
    var w := Written(MethodsAre(ms)).items;
    if items == [] {
    } else if ms == [] {
      assert |w| == 0;
    } else {
      ParseMethodsInverse(items[1..], ms[1..]);
      assert Written(MethodsAre(ms[1..])).items == w[1..];
      assert w[0] == JString(MethodName(ms[0]));
      assert ms == [ms[0]] + ms[1..] && items == [items[0]] + items[1..] && w == [w[0]] + w[1..];
      MethodNames(items[0], ms[0]);
    }
  }

  lemma MethodNames(j: Json, m: Method)
    ensures ParseMethod(j) == Some(m) <==> j == JString(MethodName(m))
  {
  }

  lemma {:induction false} ParseStringsInverse(items: seq<Json>, ss: seq<string>)
    ensures ParseStrings(items) == Some(ss) <==> JArray(items) == Written(IpsAre(ss))
  {
    var w := Written(IpsAre(ss)).items;
    if items == [] {
    } else if ss == [] {
      assert |w| == 0;
    } else {
      ParseStringsInverse(items[1..], ss[1..]);
      assert Written(IpsAre(ss[1..])).items == w[1..];
      assert w[0] == JString(ss[0]);
      assert ss == [ss[0]] + ss[1..] && items == [items[0]] + items[1..] && w == [w[0]] + w[1..];
    }
  }

  /** A validator accepts exactly the written forms of the legal values of its key, each as that value. */
  lemma ParseInverse(f: Field, j: Json, v: Value)
    ensures Parse(f, j) == Some(v) <==> Legal(f, v) && j == Written(v)
  {
    match f {
      case MethodsField =>
        if j.JArray? && v.MethodsAre? {
          ParseMethodsInverse(j.items, v.methods);
        }
      case IpsField =>
        if j.JArray? && v.IpsAre? {
          ParseStringsInverse(j.items, v.ips);
        }
      case _ =>
    }
  }

  // ---- one scope -----------------------------------------------------------------------------------------

  datatype Entry = Entry(key: string, value: Json)

  /** The value a row contributes: unknown keys and malformed values contribute nothing. */
  function Contribution(e: Entry, f: Field): Option<Value> {
    if FieldOf(e.key) == Some(f) then Parse(f, e.value) else None
  }

  function Add(o: Override, e: Entry): Override {
    var f := FieldOf(e.key);
    if f.Some? && Parse(f.value, e.value).Some? then Put(o, f.value, Parse(f.value, e.value).value) else o
  }

  function Assemble(rows: seq<Entry>): Override {
    if rows == [] then NOTHING_SET else Add(Assemble(rows[..|rows| - 1]), rows[|rows| - 1])
  }

  method AssembleScopePolicy(rows: seq<Entry>) returns (out: Override)
    ensures out == Assemble(rows)
  {
    out := NOTHING_SET;
    for i := 0 to |rows|
      invariant out == Assemble(rows[..i])
    {
      assert rows[..i + 1][..i] == rows[..i];
      var field := FieldOf(rows[i].key);
      if field.Some? {
        var parsed := Parse(field.value, rows[i].value);
        if parsed.Some? {
          out := Put(out, field.value, parsed.value);
        }
      }
    }
    assert rows[..|rows|] == rows;
  }

  lemma AddDecides(o: Override, e: Entry, f: Field)
    ensures Proposed(Add(o, e), f) == if Contribution(e, f).Some? then Contribution(e, f) else Proposed(o, f)
  {
  }

  /** Row i is the last one that gives the key a value, and gives it v. */
  ghost predicate LastRow(rows: seq<Entry>, f: Field, i: int, v: Value) {
    0 <= i < |rows| && Contribution(rows[i], f) == Some(v)
    && forall k :: i < k < |rows| ==> Contribution(rows[k], f).None?
  }

  ghost predicate NoRow(rows: seq<Entry>, f: Field) {
    forall i :: 0 <= i < |rows| ==> Contribution(rows[i], f).None?
  }

  lemma LastRowStays(rows: seq<Entry>, e: Entry, f: Field, i: int, v: Value)
    requires LastRow(rows, f, i, v) && Contribution(e, f).None?
    ensures LastRow(rows + [e], f, i, v)
  {
  }

  /** The last well-formed row of a key decides it; a malformed row never does. */
  lemma {:induction false} LastWellFormedRowWins(rows: seq<Entry>, f: Field)
    ensures Proposed(Assemble(rows), f).None? ==> NoRow(rows, f)
    ensures Proposed(Assemble(rows), f).Some? ==>
        exists i: int :: LastRow(rows, f, i, Proposed(Assemble(rows), f).value)
  {
    if rows != [] {
      var front, last := rows[..|rows| - 1], rows[|rows| - 1];
      LastWellFormedRowWins(front, f);
      AddDecides(Assemble(front), last, f);
      assert rows == front + [last];
      if Contribution(last, f).Some? {
        assert LastRow(rows, f, |front|, Contribution(last, f).value);
      } else if Proposed(Assemble(front), f).Some? {
        var v := Proposed(Assemble(front), f).value;
        var i: int :| LastRow(front, f, i, v);
        LastRowStays(front, last, f, i, v);
      }
    }
  }

  // ---- the write decision ----------------------------------------------------------------------------------

  datatype WriteError = UnknownKey | InvalidValue | BelowFloor(violations: seq<Field>)

  function ParsePolicyKeyValue(key: string, j: Option<Json>): (r: Result<(Field, Value), WriteError>)
    ensures r.Ok? ==> Typed(r.value.0, r.value.1)
  {
    match FieldOf(key)
    case None => Err(UnknownKey)
    case Some(f) => if Validate(f, j).Some? then Ok((f, Validate(f, j).value)) else Err(InvalidValue)
  }

  /** The value may be missing from the request, and then is undefined. */
  method ValidatePolicyWrite(key: string, j: Option<Json>, floor: AuthPolicy)
    returns (r: Result<(Field, Value), WriteError>)
    ensures r == Decision(key, j, floor)
  {
    var parsed := ParsePolicyKeyValue(key, j);
    if parsed.Err? {
      return Err(parsed.error);
    }
    var proposed := Put(NOTHING_SET, parsed.value.0, parsed.value.1);
    var violations := FindFloorViolations([parsed.value.0], proposed, floor);
    OneKey(parsed.value.0, proposed, floor);
    if |violations| > 0 {
      return Err(BelowFloor(violations));
    }
    r := Ok(parsed.value);
  }

  function Decision(key: string, j: Option<Json>, floor: AuthPolicy): Result<(Field, Value), WriteError> {
    var parsed := ParsePolicyKeyValue(key, j);
    if parsed.Err? then parsed
    else if Violates(Put(NOTHING_SET, parsed.value.0, parsed.value.1), floor, parsed.value.0)
      then Err(BelowFloor([parsed.value.0]))
    else parsed
  }

  lemma OneKey(f: Field, proposed: Override, floor: AuthPolicy)
    ensures Violating([f], proposed, floor) == if Violates(proposed, floor, f) then [f] else []
  {
  }

  /** A write is accepted exactly when it names a known key and either writes a legal value, or writes nothing where
      the key has a reading for that; the value must be at least as strict as a floor without repeated entries, and
      must repeat nothing of a list the floor restricts. */
  lemma AcceptedExactly(key: string, j: Option<Json>, floor: AuthPolicy, f: Field, v: Value)
    requires DistinctLists(floor)
    ensures Decision(key, j, floor) == Ok((f, v)) <==>
              && FieldOf(key) == Some(f)
              && ((Legal(f, v) && j == Some(Written(v))) || (j == None && Missing(f) == Some(v)))
              && AsStrict(f, v, floor)
              && ((f == IpsField && floor.ips == []) || NoRepeats(v))
  {
    if j.Some? {
      ParseInverse(f, j.value, v);
    }
    if Validate(f, j) == Some(v) {
      GuardIsStrictness(Put(NOTHING_SET, f, v), floor, f);
    }
  }

  /** A write without a value is accepted for six of the eight keys, exactly where the floor asks for nothing: its
      limit unset, its flag off, its allowlist empty. */
  lemma MissingValueAccepted(key: string, floor: AuthPolicy)
    requires DistinctLists(floor)
    ensures Decision(key, None, floor).Ok? <==>
              || (key == "session_timeout_seconds" && floor.timeout.None?)
              || (key == "idle_timeout_seconds" && floor.idle.None?)
              || (key == "max_concurrent_sessions" && floor.cap.None?)
              || (key == "disable_social" && !floor.disableSocial)
              || (key == "require_sso" && !floor.requireSso)
              || (key == "ip_allowlist" && floor.ips == [])
  {
    var f := FieldOf(key);
    if f.Some? && Missing(f.value).Some? {
      AcceptedExactly(key, None, floor, f.value, Missing(f.value).value);
    }
  }

  /** Equal values, lists being compared as sets. */
  ghost predicate SameMeaning(a: Value, b: Value) {
    match (a, b)
    case (MethodsAre(x), MethodsAre(y)) => SameElements(x, y)
    case (IpsAre(x), IpsAre(y)) => SameElements(x, y)
    case _ => a == b
  }

  lemma FilteredIsSame<T(!new)>(floor: seq<T>, v: seq<T>)
    requires Distinct(floor) && SameList(Keep(floor, v), v)
    ensures SameElements(Keep(floor, v), v)
  {
    FilterKeepsList(floor, v);
  }

  /** An accepted value survives resolution against the floor, and touches no other key. */
  lemma AcceptedSurvives(key: string, j: Option<Json>, floor: AuthPolicy, f: Field, v: Value)
    requires DistinctLists(floor) && Decision(key, j, floor) == Ok((f, v))
    ensures SameMeaning(Get(Resolve(floor, Put(NOTHING_SET, f, v)), f), v)
    ensures forall g: Field :: g != f ==> Get(Resolve(floor, Put(NOTHING_SET, f, v)), g) == Get(floor, g)
  {
    match f {
      case MethodsField => FilteredIsSame(floor.methods, v.methods);
      case IpsField =>
        TightenKeepsList(floor.ips, v.ips);
        if floor.ips != [] && v.ips != [] {
          FilteredIsSame(floor.ips, v.ips);
        }
      case _ =>
    }
  }

  // ---- reading all scopes ------------------------------------------------------------------------------------

  datatype Row = Row(scope: string, workspaceId: Option<string>, key: string, value: Json)

  function ScopeRows(rows: seq<Row>, scope: string): seq<Entry> {
    if rows == [] then []
    else (if rows[0].scope == scope then [Entry(rows[0].key, rows[0].value)] else []) + ScopeRows(rows[1..], scope)
  }

  function WorkspaceRows(rows: seq<Row>, workspaceId: string): seq<Entry> {
    if rows == [] then []
    else (if rows[0].scope == "workspace" && rows[0].workspaceId == Some(workspaceId)
          then [Entry(rows[0].key, rows[0].value)] else [])
         + WorkspaceRows(rows[1..], workspaceId)
  }

  /** No workspace, or an empty id, means no workspace rows. */
  function InScope(rows: seq<Row>, workspaceId: Option<string>): seq<Entry> {
    if workspaceId.Some? && workspaceId.value != "" then WorkspaceRows(rows, workspaceId.value) else []
  }

  /** { ...floor, ...platform } */
  function Overlay(floor: AuthPolicy, o: Override): AuthPolicy {
    AuthPolicy(
      if o.mfa.Some? then o.mfa.value else floor.mfa,
      if o.methods.Some? then o.methods.value else floor.methods,
      if o.disableSocial.Some? then o.disableSocial.value else floor.disableSocial,
      if o.requireSso.Some? then o.requireSso.value else floor.requireSso,
      if o.ips.Some? then o.ips.value else floor.ips,
      if o.timeout.Some? then o.timeout else floor.timeout,
      if o.idle.Some? then o.idle else floor.idle,
      if o.cap.Some? then o.cap else floor.cap)
  }

  function ResolveFromRows(rows: seq<Row>, workspaceId: Option<string>, floor: AuthPolicy): AuthPolicy {
    Compose(Overlay(floor, Assemble(ScopeRows(rows, "platform"))),
            [Some(Assemble(ScopeRows(rows, "org"))), Some(Assemble(InScope(rows, workspaceId)))])
  }

  /** Platform rows replace the floor; org rows and the rows of the workspace in scope can only tighten the result:
      it permits exactly what all three permit. */
  lemma RowsTighten(rows: seq<Row>, workspaceId: Option<string>, floor: AuthPolicy, f: Feature)
    ensures Permits(Everything(ResolveFromRows(rows, workspaceId, floor)), f) <==>
              && Permits(Everything(Overlay(floor, Assemble(ScopeRows(rows, "platform")))), f)
              && Permits(Assemble(ScopeRows(rows, "org")), f)
              && Permits(Assemble(InScope(rows, workspaceId)), f)
  {
    var org, ws := Assemble(ScopeRows(rows, "org")), Assemble(InScope(rows, workspaceId));
    var os := [Some(org), Some(ws)];
    StrictestWins(Overlay(floor, Assemble(ScopeRows(rows, "platform"))), os, f);
    assert os[0] == Some(org) && os[1] == Some(ws);
    assert forall o: Override :: Some(o) in os <==> o == org || o == ws;
  }

  /** The key a feature is judged by. */
  function Judge(f: Feature): Field {
    match f
    case Level(_) => MfaField
    case Using(_) => MethodsField
    case SocialSignIn => SocialField
    case NotSso => SsoField
    case Lifetime(_) => TimeoutField
    case IdleGap(_) => IdleField
    case Sessions(_) => CapField
  }

  /** The name a key is stored under. */
  function KeyName(f: Field): (k: string)
    ensures FieldOf(k) == Some(f)
  {
    match f
    case MfaField => "mfa_enforcement"
    case MethodsField => "allowed_methods"
    case SocialField => "disable_social"
    case SsoField => "require_sso"
    case IpsField => "ip_allowlist"
    case TimeoutField => "session_timeout_seconds"
    case IdleField => "idle_timeout_seconds"
    case CapField => "max_concurrent_sessions"
  }

  lemma OnlyPlatformRow(row: Row, workspaceId: Option<string>)
    requires row.scope == "platform"
    ensures ScopeRows([row], "platform") == [Entry(row.key, row.value)]
    ensures ScopeRows([row], "org") == [] && InScope([row], workspaceId) == []
  {
    assert |row.scope| == 8 && row.scope != "org" && row.scope != "workspace";
    var rows := [row];
    assert rows[1..] == [] && rows[0] == row;
    assert ScopeRows(rows, "org") == ScopeRows(rows[1..], "org");
    assert workspaceId.Some? ==> WorkspaceRows(rows, workspaceId.value) == WorkspaceRows(rows[1..], workspaceId.value);
  }

  /** A platform row can set its key to any legal value, stricter than the floor or weaker, and no other key. */
  lemma PlatformRowWins(f: Field, v: Value, workspaceId: Option<string>, floor: AuthPolicy)
    requires Legal(f, v)
    ensures var resolved := ResolveFromRows([Row("platform", None, KeyName(f), Written(v))], workspaceId, floor);
            Get(resolved, f) == v && forall g: Field :: g != f ==> Get(resolved, g) == Get(floor, g)
  {
    var row := Row("platform", None, KeyName(f), Written(v));
    var e := Entry(row.key, row.value);
    ParseInverse(f, Written(v), v);
    OnlyPlatformRow(row, workspaceId);
    assert [e][..0] == [] && Assemble([e]) == Put(NOTHING_SET, f, v);
    TwoSteps(Overlay(floor, Assemble([e])), NOTHING_SET, NOTHING_SET);
  }

  /** Nothing else loosens the floor: without a well-formed platform row for its key, what the resolved policy lets
      through the floor lets through, whatever the org and workspace rows say. */
  lemma OnlyPlatformLoosens(rows: seq<Row>, workspaceId: Option<string>, floor: AuthPolicy, f: Feature)
    requires NoRow(ScopeRows(rows, "platform"), Judge(f))
    ensures Permits(Everything(ResolveFromRows(rows, workspaceId, floor)), f) ==> Permits(Everything(floor), f)
  {
    RowsTighten(rows, workspaceId, floor, f);
    var platform := ScopeRows(rows, "platform");
    LastWellFormedRowWins(platform, Judge(f));
    OverlayKeepsUnset(floor, Assemble(platform), f);
  }

  lemma OverlayKeepsUnset(floor: AuthPolicy, o: Override, f: Feature)
    requires Proposed(o, Judge(f)).None?
    ensures Permits(Everything(Overlay(floor, o)), f) <==> Permits(Everything(floor), f)
  {
  }

  /** Rows that count for a login: the platform's, the tenant's own, and those of the workspace in scope. */
  predicate Relevant(r: Row, workspaceId: Option<string>) {
    || r.scope == "platform"
    || r.scope == "org"
    || (r.scope == "workspace" && workspaceId.Some? && workspaceId.value != "" && r.workspaceId == workspaceId)
  }

  lemma {:induction false} OtherScopeSkipped(before: seq<Row>, r: Row, after: seq<Row>, scope: string)
    requires r.scope != scope
    ensures ScopeRows(before + [r] + after, scope) == ScopeRows(before + after, scope)
  {
    var all := before + [r] + after;
    if before == [] {
      assert all[1..] == after && before + after == after;
    } else {
      OtherScopeSkipped(before[1..], r, after, scope);
      assert all[1..] == before[1..] + [r] + after && (before + after)[1..] == before[1..] + after;
    }
  }

  lemma {:induction false} OtherWorkspaceSkipped(before: seq<Row>, r: Row, after: seq<Row>, id: string)
    requires !(r.scope == "workspace" && r.workspaceId == Some(id))
    ensures WorkspaceRows(before + [r] + after, id) == WorkspaceRows(before + after, id)
  {
    var all := before + [r] + after;
    if before == [] {
      assert all[1..] == after && before + after == after;
    } else {
      OtherWorkspaceSkipped(before[1..], r, after, id);
      assert all[1..] == before[1..] + [r] + after && (before + after)[1..] == before[1..] + after;
    }
  }

  /** No other row, of another workspace in particular, changes the policy or the cap. */
  lemma IrrelevantRowIgnored(before: seq<Row>, r: Row, after: seq<Row>, workspaceId: Option<string>, floor: AuthPolicy)
    requires !Relevant(r, workspaceId)
    ensures ResolveFromRows(before + [r] + after, workspaceId, floor)
         == ResolveFromRows(before + after, workspaceId, floor)
    ensures TargetedCap(before + [r] + after, workspaceId) == TargetedCap(before + after, workspaceId)
  {
    OtherScopeSkipped(before, r, after, "platform");
    OtherScopeSkipped(before, r, after, "org");
    if workspaceId.Some? && workspaceId.value != "" {
      OtherWorkspaceSkipped(before, r, after, workspaceId.value);
    }
  }

  /** The smallest of the caps that are set: it is one of them, missing only without any, and allows a number of
      sessions exactly when every scope does. */
  method ResolveMaxConcurrentSessions(rows: seq<Row>, workspaceId: Option<string>) returns (r: Option<int>)
    ensures r == TargetedCap(rows, workspaceId)
    ensures var platform, org := Assemble(ScopeRows(rows, "platform")).cap, Assemble(ScopeRows(rows, "org")).cap;
            var workspace := Assemble(InScope(rows, workspaceId)).cap;
            && (r == platform || r == org || r == workspace)
            && (r.None? <==> platform.None? && org.None? && workspace.None?)
            && forall n: int :: Within(r, n) <==> Within(platform, n) && Within(org, n) && Within(workspace, n)
  {
    var platform := AssembleScopePolicy(ScopeRows(rows, "platform"));
    var org := AssembleScopePolicy(ScopeRows(rows, "org"));
    var workspace := AssembleScopePolicy(InScope(rows, workspaceId));
    r := MinDefined(MinDefined(platform.cap, org.cap), workspace.cap);
  }

  function TargetedCap(rows: seq<Row>, workspaceId: Option<string>): Option<int> {
    MinDefined(
      MinDefined(Assemble(ScopeRows(rows, "platform")).cap, Assemble(ScopeRows(rows, "org")).cap),
      Assemble(InScope(rows, workspaceId)).cap)
  }

  /** The targeted read agrees with full resolution exactly when the floor sets no cap, a platform row overrides
      it, or the org's or the workspace's rows set one that is no larger. */
  lemma TargetedReadAgrees(rows: seq<Row>, workspaceId: Option<string>, floor: AuthPolicy)
    ensures TargetedCap(rows, workspaceId) == ResolveFromRows(rows, workspaceId, floor).cap <==>
              || floor.cap.None?
              || Assemble(ScopeRows(rows, "platform")).cap.Some?
              || LimitAsStrict(Assemble(ScopeRows(rows, "org")).cap, floor.cap)
              || LimitAsStrict(Assemble(InScope(rows, workspaceId)).cap, floor.cap)
  {
    TwoSteps(Overlay(floor, Assemble(ScopeRows(rows, "platform"))),
             Assemble(ScopeRows(rows, "org")), Assemble(InScope(rows, workspaceId)));
  }

  /** A stored cap is always positive, so one that is read is always enforced. */
  lemma CapsArePositive(rows: seq<Row>, workspaceId: Option<string>)
    ensures TargetedCap(rows, workspaceId).Some? ==> TargetedCap(rows, workspaceId).value > 0
  {
    AssembledCapPositive(ScopeRows(rows, "platform"));
    AssembledCapPositive(ScopeRows(rows, "org"));
    AssembledCapPositive(InScope(rows, workspaceId));
  }

  lemma {:induction false} AssembledCapPositive(rows: seq<Entry>)
    ensures Assemble(rows).cap.Some? ==> Assemble(rows).cap.value > 0
  {
    LastWellFormedRowWins(rows, CapField);
    if Assemble(rows).cap.Some? {
      var i: int :| LastRow(rows, CapField, i, Limit(Assemble(rows).cap));
      ParseInverse(CapField, rows[i].value, Limit(Assemble(rows).cap));
    }
  }
}
