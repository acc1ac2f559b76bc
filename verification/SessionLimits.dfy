/** The arithmetic of session lifetimes and of the concurrent-session cap (packages/auth/src/session.ts). */
module SessionLimits {
  import opened Prelude
  import opened Revocation

  /** default lifetime or the policy's cap, whichever ends first; times in milliseconds, limits in seconds. */
  function CappedSessionExpiry(refreshTtl: int, maxLifetime: Option<int>, now: int): int {
    if maxLifetime.None? || maxLifetime.value <= 0 then now + refreshTtl * 1000
    else Min(now + refreshTtl * 1000, now + maxLifetime.value * 1000)
  }

  predicate IsIdleExpired(lastSeenAt: Option<int>, idleTimeout: Option<int>, now: int) {
    if idleTimeout.None? || idleTimeout.value <= 0 then false
    else if lastSeenAt.None? then false
    else now - lastSeenAt.value > idleTimeout.value * 1000
  }

  // ---- sessionsToEvict -------------------------------------------------------------------------------------

  /** What the cap looks at. */
  datatype LiveSession = LiveSession(id: Sid, createdAt: int, expiresAt: int, revokedAt: Option<int>)

  predicate Active(s: LiveSession, now: int) {
    s.revokedAt.None? && s.expiresAt > now
  }

  function ActiveOnes(sessions: seq<LiveSession>, now: int): (r: seq<LiveSession>)
    ensures forall s :: s in r <==> s in sessions && Active(s, now)
  {
    if sessions == [] then []
    else (if Active(sessions[0], now) then [sessions[0]] else []) + ActiveOnes(sessions[1..], now)
  }

  function Except(sessions: seq<LiveSession>, keepId: Sid): (r: seq<LiveSession>)
    ensures forall s :: s in r <==> s in sessions && s.id != keepId
  {
    if sessions == [] then []
    else (if sessions[0].id != keepId then [sessions[0]] else []) + Except(sessions[1..], keepId)
  }

  /** Behind everything that is not newer. */
  function InsertByAge(sorted: seq<LiveSession>, s: LiveSession): (r: seq<LiveSession>)
    ensures |r| == |sorted| + 1
    ensures forall x :: x in r <==> x in sorted || x == s
  {
    if sorted == [] || s.createdAt >= sorted[|sorted| - 1].createdAt then sorted + [s]
    else InsertByAge(sorted[..|sorted| - 1], s) + [sorted[|sorted| - 1]]
  }

  /** Oldest first; the sort is stable. */
  function ByAge(sessions: seq<LiveSession>): (r: seq<LiveSession>)
    ensures |r| == |sessions|
    ensures forall x :: x in r <==> x in sessions
  {
    if sessions == [] then [] else InsertByAge(ByAge(sessions[..|sessions| - 1]), sessions[|sessions| - 1])
  }

  function Ids(sessions: seq<LiveSession>): (r: seq<Sid>)
    ensures |r| == |sessions|
  {
    seq(|sessions|, i requires 0 <= i < |sessions| => sessions[i].id)
  }

  function SessionsToEvict(sessions: seq<LiveSession>, cap: int, keepId: Sid, now: int): seq<Sid> {
    var active := ActiveOnes(sessions, now);
    if |active| <= cap then []
    else
      var oldest := ByAge(Except(active, keepId));
      Ids(if |active| - cap > |oldest| then oldest else oldest[..|active| - cap])
  }

  ghost predicate DistinctIds(sessions: seq<LiveSession>) {
    forall i, j :: 0 <= i < j < |sessions| ==> sessions[i].id != sessions[j].id
  }

  ghost predicate Sorted(sessions: seq<LiveSession>) {
    forall i, j :: 0 <= i <= j < |sessions| ==> sessions[i].createdAt <= sessions[j].createdAt
  }

  lemma {:induction false} InsertSorted(sorted: seq<LiveSession>, s: LiveSession)
    requires Sorted(sorted)
    ensures Sorted(InsertByAge(sorted, s))
    decreases |sorted|
  {
    if sorted != [] && s.createdAt < sorted[|sorted| - 1].createdAt {
      var front, last := sorted[..|sorted| - 1], sorted[|sorted| - 1];
      InsertSorted(front, s);
      var r := InsertByAge(front, s);
      forall i | 0 <= i < |r| ensures r[i].createdAt <= last.createdAt {
        assert r[i] in r;
      }
    }
  }

  lemma {:induction false} ByAgeSorts(sessions: seq<LiveSession>)
    ensures Sorted(ByAge(sessions))
  {
    if sessions != [] {
      ByAgeSorts(sessions[..|sessions| - 1]);
      InsertSorted(ByAge(sessions[..|sessions| - 1]), sessions[|sessions| - 1]);
    }
  }

  lemma {:induction false} InsertDistinct(sorted: seq<LiveSession>, s: LiveSession)
    requires DistinctIds(sorted) && forall x :: x in sorted ==> x.id != s.id
    ensures DistinctIds(InsertByAge(sorted, s))
    decreases |sorted|
  {
    if sorted != [] && s.createdAt < sorted[|sorted| - 1].createdAt {
      var front, last := sorted[..|sorted| - 1], sorted[|sorted| - 1];
      InsertDistinct(front, s);
      var r := InsertByAge(front, s);
      forall i | 0 <= i < |r| ensures r[i].id != last.id {
        assert r[i] in r;
      }
    }
  }

  lemma {:induction false} ByAgeDistinct(sessions: seq<LiveSession>)
    requires DistinctIds(sessions)
    ensures DistinctIds(ByAge(sessions))
  {
    if sessions != [] {
      var n := |sessions| - 1;
      ByAgeDistinct(sessions[..n]);
      InsertDistinct(ByAge(sessions[..n]), sessions[n]);
    }
  }

  lemma {:induction false} ActiveDistinct(sessions: seq<LiveSession>, now: int)
    requires DistinctIds(sessions)
    ensures DistinctIds(ActiveOnes(sessions, now))
  {
    if sessions != [] {
      ActiveDistinct(sessions[1..], now);
      forall x | x in ActiveOnes(sessions[1..], now) ensures x.id != sessions[0].id {
        assert x in sessions[1..];
      }
    }
  }

  /** Dropping one id drops at most one session. */
  lemma {:induction false} ExceptOne(sessions: seq<LiveSession>, keepId: Sid)
    requires DistinctIds(sessions)
    ensures DistinctIds(Except(sessions, keepId))
    ensures |Except(sessions, keepId)| == |sessions| - if Has(sessions, keepId) then 1 else 0
  {
    if sessions != [] {
      ExceptOne(sessions[1..], keepId);
      forall x | x in Except(sessions[1..], keepId) ensures x.id != sessions[0].id {
        assert x in sessions[1..];
      }
      if Has(sessions[1..], keepId) {
        assert sessions[0].id != keepId;
        var i :| 0 <= i < |sessions[1..]| && sessions[1..][i].id == keepId;
        assert sessions[i + 1].id == keepId;
      } else if Has(sessions, keepId) {
        var i :| 0 <= i < |sessions| && sessions[i].id == keepId;
        assert i == 0;
      }
    }
  }

  ghost predicate Has(sessions: seq<LiveSession>, id: Sid) {
    exists i :: 0 <= i < |sessions| && sessions[i].id == id
  }

  /** The candidates for eviction, oldest first. */
  function Candidates(sessions: seq<LiveSession>, keepId: Sid, now: int): (r: seq<LiveSession>)
    ensures forall s :: s in r <==> s in sessions && Active(s, now) && s.id != keepId
  {
    ByAge(Except(ActiveOnes(sessions, now), keepId))
  }

  lemma CandidatesOrdered(sessions: seq<LiveSession>, keepId: Sid, now: int)
    requires DistinctIds(sessions)
    ensures Sorted(Candidates(sessions, keepId, now)) && DistinctIds(Candidates(sessions, keepId, now))
  {
    ActiveDistinct(sessions, now);
    ExceptOne(ActiveOnes(sessions, now), keepId);
    ByAgeDistinct(Except(ActiveOnes(sessions, now), keepId));
    ByAgeSorts(Except(ActiveOnes(sessions, now), keepId));
  }

  /** The ids evicted are those of a prefix of the candidates. */
  lemma EvictsPrefix(sessions: seq<LiveSession>, cap: int, keepId: Sid, now: int)
    ensures |SessionsToEvict(sessions, cap, keepId, now)| <= |Candidates(sessions, keepId, now)|
    ensures var c := Candidates(sessions, keepId, now);
            var evicted := SessionsToEvict(sessions, cap, keepId, now);
            evicted == Ids(c[..|evicted|])
  {
  }

  /** Only active sessions are evicted, each once, and never the one just minted. */
  lemma EvictsActive(sessions: seq<LiveSession>, cap: int, keepId: Sid, now: int)
    requires DistinctIds(sessions)
    ensures var evicted := SessionsToEvict(sessions, cap, keepId, now);
            && Distinct(evicted)
            && forall id :: id in evicted ==> id != keepId && exists s :: s in sessions && Active(s, now) && s.id == id
  {
    var evicted := SessionsToEvict(sessions, cap, keepId, now);
    var c := Candidates(sessions, keepId, now);
    EvictsPrefix(sessions, cap, keepId, now);
    CandidatesOrdered(sessions, keepId, now);
    forall i | 0 <= i < |evicted| ensures evicted[i] == c[i].id && c[i] in sessions && Active(c[i], now)
        && c[i].id != keepId {
      assert c[i] in c;
    }
  }

  /** What goes is no newer than what stays, the session just minted apart. */
  lemma EvictsOldest(sessions: seq<LiveSession>, cap: int, keepId: Sid, now: int, s: LiveSession, t: LiveSession)
    requires DistinctIds(sessions) && s in sessions && t in sessions && Active(s, now) && Active(t, now)
    requires s.id in SessionsToEvict(sessions, cap, keepId, now)
    requires t.id !in SessionsToEvict(sessions, cap, keepId, now) && t.id != keepId
    ensures s.createdAt <= t.createdAt
  {
    EvictsActive(sessions, cap, keepId, now);
    EvictsPrefix(sessions, cap, keepId, now);
    CandidatesOrdered(sessions, keepId, now);
    OlderFirst(Candidates(sessions, keepId, now), |SessionsToEvict(sessions, cap, keepId, now)|, s, t);
  }

  lemma OlderFirst(oldest: seq<LiveSession>, n: nat, s: LiveSession, t: LiveSession)
    requires Sorted(oldest) && DistinctIds(oldest) && n <= |oldest| && s in oldest && t in oldest
    requires s.id in Ids(oldest[..n]) && t.id !in Ids(oldest[..n])
    ensures s.createdAt <= t.createdAt
  {
    var i :| 0 <= i < |oldest| && oldest[i] == s;
    var k :| 0 <= k < |oldest| && oldest[k] == t;
    var m :| 0 <= m < |Ids(oldest[..n])| && Ids(oldest[..n])[m] == s.id;
    assert oldest[m].id == s.id && m == i;
    assert forall j :: 0 <= j < n ==> oldest[j].id == Ids(oldest[..n])[j];
    assert n <= k;
  }

  /** Exactly as many active sessions stay as the cap allows, unless the cap is below one and the kept session is
      among them (a cap the callers never pass). */
  lemma EvictionMeetsCap(sessions: seq<LiveSession>, cap: nat, keepId: Sid, now: int)
    requires DistinctIds(sessions)
    ensures var active := ActiveOnes(sessions, now);
            |active| - |SessionsToEvict(sessions, cap, keepId, now)| == Min(cap, |active|)
            <==> cap >= 1 || !Has(active, keepId)
  {
    ActiveDistinct(sessions, now);
    ExceptOne(ActiveOnes(sessions, now), keepId);
  }
}
