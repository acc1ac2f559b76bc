/** The access-token deny-list and the one-second negative memo in front of it (packages/auth/src/revocation.ts). */
module Revocation {
  import opened Prelude

  const NOT_REVOKED_MEMO_TTL_MS: int := 1_000
  const NOT_REVOKED_MEMO_MAX: int := 10_000

  datatype Sid = Sid(text: string)

  /** Redis: session id to the instant its key expires. */
  type DenyList = map<Sid, int>

  /** Session id to the instant until which "not revoked" may be repeated. */
  type Memo = map<Sid, int>

  /** EXISTS revoked-sid:{sid} */
  predicate Listed(deny: DenyList, sid: Sid, now: int) {
    sid in deny && now < deny[sid]
  }

  predicate Remembered(memo: Memo, sid: Sid, now: int) {
    sid in memo && memo[sid] > now
  }

  /** Below the ceiling nothing happens; at the ceiling expired entries go, and if that is not enough all do. */
  function Pruned(memo: Memo, now: int, max: int): Memo {
    if |memo| < max then memo
    else
      var kept := map sid | sid in memo && memo[sid] > now :: memo[sid];
      if |kept| >= max then map[] else kept
  }

  function Noted(memo: Memo, sid: Sid, now: int): Memo {
    Pruned(memo, now, NOT_REVOKED_MEMO_MAX)[sid := now + NOT_REVOKED_MEMO_TTL_MS]
  }

  /** One deny-list entry per session, all ending together. */
  function Marks(sids: set<Sid>, until: int): DenyList {
    map sid | sid in sids :: until
  }

  /** The answer of isRevoked: a live memo entry answers first, otherwise Redis does. */
  predicate Answer(memo: Memo, deny: DenyList, sid: Sid, now: int) {
    !Remembered(memo, sid, now) && Listed(deny, sid, now)
  }

  lemma OneMoreMarked(memo: Memo, keys: DenyList, done: set<Sid>, sid: Sid, until: int)
    ensures memo - done - {sid} == memo - (done + {sid})
    ensures (keys + Marks(done, until))[sid := until] == keys + Marks(done + {sid}, until)
  {
  }

  class RedisDenyList {
    var keys: DenyList
  }

  /** One process: its memo, and the Redis every process shares. */
  class RevocationChecker {
    var notRevokedMemo: Memo
    const redis: RedisDenyList
    const accessTtlSeconds: int

    constructor (redis: RedisDenyList, accessTtlSeconds: int)
      ensures this.redis == redis && this.accessTtlSeconds == accessTtlSeconds && notRevokedMemo == map[]
    {
      this.redis := redis;
      this.accessTtlSeconds := accessTtlSeconds;
      this.notRevokedMemo := map[];
    }

    method PruneNotRevokedMemo(now: int, max: int)
      modifies this
      ensures notRevokedMemo == Pruned(old(notRevokedMemo), now, max)
    {
      if |notRevokedMemo| < max {
        return;
      }
      var before := notRevokedMemo;
      var todo := before.Keys;
      while todo != {}
        invariant todo <= before.Keys
        invariant notRevokedMemo == map sid | sid in before && (sid in todo || before[sid] > now) :: before[sid]
        decreases |todo|
      {
        var sid :| sid in todo;
        if before[sid] <= now {
          notRevokedMemo := notRevokedMemo - {sid};
        }
        todo := todo - {sid};
      }
      assert notRevokedMemo == map sid | sid in before && before[sid] > now :: before[sid];
      if |notRevokedMemo| >= max {
        notRevokedMemo := map[];
      }
    }

    method MarkRevoked(sessionId: Sid, now: int)
      modifies this, redis
      ensures notRevokedMemo == old(notRevokedMemo) - {sessionId}
      ensures redis.keys == old(redis.keys)[sessionId := now + accessTtlSeconds * 1000]
    {
      notRevokedMemo := notRevokedMemo - {sessionId};
      redis.keys := redis.keys[sessionId := now + accessTtlSeconds * 1000];
    }

    method MarkManyRevoked(sessionIds: seq<Sid>, now: int)
      modifies this, redis
      ensures notRevokedMemo == old(notRevokedMemo) - Elems(sessionIds)
      ensures redis.keys == old(redis.keys) + Marks(Elems(sessionIds), now + accessTtlSeconds * 1000)
    {
      ghost var memo, keys, until := notRevokedMemo, redis.keys, now + accessTtlSeconds * 1000;
      for i := 0 to |sessionIds|
        invariant notRevokedMemo == memo - Elems(sessionIds[..i])
        invariant redis.keys == keys + Marks(Elems(sessionIds[..i]), until)
      {
        OneMoreMarked(memo, keys, Elems(sessionIds[..i]), sessionIds[i], until);
        OneMoreElement(sessionIds, i);
        MarkRevoked(sessionIds[i], now);
      }
      assert sessionIds[..|sessionIds|] == sessionIds;
    }

    method IsRevoked(sessionId: Sid, now: int) returns (revoked: bool)
      modifies this
      ensures revoked == Answer(old(notRevokedMemo), redis.keys, sessionId, now)
      ensures notRevokedMemo
           == if Remembered(old(notRevokedMemo), sessionId, now) || revoked then old(notRevokedMemo)
              else Noted(old(notRevokedMemo), sessionId, now)
    {
      if sessionId in notRevokedMemo && notRevokedMemo[sessionId] > now {
        return false;
      }
      revoked := sessionId in redis.keys && now < redis.keys[sessionId];
      if !revoked {
        PruneNotRevokedMemo(now, NOT_REVOKED_MEMO_MAX);
        notRevokedMemo := notRevokedMemo[sessionId := now + NOT_REVOKED_MEMO_TTL_MS];
      }
    }
  }

  // ---- several processes, with the Redis round-trips split open ---------------------------------------------

  /** A lookup whose reply "not revoked", read at readAt, has not reached its process yet. */
  datatype Reply = Reply(proc: nat, sid: Sid, readAt: int)

  /** A process, with the history of when each memo entry's answer was read. */
  datatype Process = Process(memo: Memo, readAt: map<Sid, int>)

  /** marked is history: the last time each session was deny-listed. */
  datatype World = World(
    ttlMs: int, deny: DenyList, marked: map<Sid, int>, procs: seq<Process>, replies: set<Reply>, clock: int)

  /** Mark and Check are the operations taken as atomic; Drop and Put are the two halves of a mark, Read and
      Settle the two halves of a check. */
  datatype Event =
    | Mark(proc: nat, sid: Sid, now: int)
    | Check(proc: nat, sid: Sid, now: int)
    | Drop(proc: nat, sid: Sid, now: int)
    | Put(sid: Sid, now: int)
    | Read(proc: nat, sid: Sid, now: int)
    | Settle(reply: Reply, now: int)

  function Dropped(w: World, p: nat, sid: Sid): World {
    if p < |w.procs| then w.(procs := w.procs[p := w.procs[p].(memo := w.procs[p].memo - {sid})]) else w
  }

  function Stored(w: World, sid: Sid, now: int): World {
    w.(deny := w.deny[sid := now + w.ttlMs], marked := w.marked[sid := now])
  }

  function Settled(w: World, r: Reply, now: int): World {
    if r.proc < |w.procs| then
      var p := w.procs[r.proc];
      w.(procs := w.procs[r.proc := Process(Noted(p.memo, r.sid, now), p.readAt[r.sid := r.readAt])],
         replies := w.replies - {r})
    else w
  }

  function Step(w: World, e: Event): World {
    var t := w.(clock := e.now);
    match e
    case Mark(p, sid, now) => Stored(Dropped(t, p, sid), sid, now)
    case Drop(p, sid, now) => Dropped(t, p, sid)
    case Put(sid, now) => Stored(t, sid, now)
    case Check(p, sid, now) =>
      if p >= |w.procs| || Remembered(w.procs[p].memo, sid, now) || Listed(w.deny, sid, now) then t
      else Settled(t, Reply(p, sid, now), now)
    case Read(p, sid, now) =>
      if p >= |w.procs| || Remembered(w.procs[p].memo, sid, now) || Listed(w.deny, sid, now) then t
      else t.(replies := t.replies + {Reply(p, sid, now)})
    case Settle(r, now) => if r in w.replies then Settled(t, r, now) else t
  }

  function Start(ttlMs: int, processes: nat): World {
    World(ttlMs, map[], map[], seq(processes, _ => Process(map[], map[])), {}, 0)
  }

  function After(w: World, events: seq<Event>): World
    decreases events
  {
    if events == [] then w else After(Step(w, events[0]), events[1..])
  }

  ghost predicate Timely(clock: int, events: seq<Event>)
    decreases events
  {
    events == [] || (clock <= events[0].now && Timely(events[0].now, events[1..]))
  }

  /** An answer "not revoked" read at `at` predates the last mark of s, or that mark had expired by then. */
  predicate ReadBefore(marked: map<Sid, int>, ttlMs: int, s: Sid, at: int) {
    s in marked ==> at <= marked[s] || marked[s] + ttlMs <= at
  }

  /** A memo within bounds, whose entry for a session marked since its answer was read carries a read time from
      before that mark. */
  ghost predicate ProcessOk(q: Process, marked: map<Sid, int>, ttlMs: int, clock: int) {
    && |q.memo| <= NOT_REVOKED_MEMO_MAX
    && (forall s :: s in q.memo ==> EntryOk(q, s, marked, ttlMs, clock))
  }

  ghost predicate EntryOk(q: Process, s: Sid, marked: map<Sid, int>, ttlMs: int, clock: int)
    requires s in q.memo
  {
    s in q.readAt && q.readAt[s] <= q.memo[s] - NOT_REVOKED_MEMO_TTL_MS <= clock
    && ReadBefore(marked, ttlMs, s, q.readAt[s])
  }

  ghost predicate ReplyOk(r: Reply, marked: map<Sid, int>, ttlMs: int, clock: int) {
    r.readAt <= clock && ReadBefore(marked, ttlMs, r.sid, r.readAt)
  }

  /** What every interleaving keeps. */
  ghost predicate Invariant(w: World) {
    && w.marked.Keys == w.deny.Keys
    && (forall s :: s in w.marked ==> w.marked[s] <= w.clock && w.deny[s] == w.marked[s] + w.ttlMs)
    && (forall p :: 0 <= p < |w.procs| ==> ProcessOk(w.procs[p], w.marked, w.ttlMs, w.clock))
    && (forall r :: r in w.replies ==> ReplyOk(r, w.marked, w.ttlMs, w.clock))
  }

  lemma NotedIsBounded(memo: Memo, sid: Sid, now: int)
    requires |memo| <= NOT_REVOKED_MEMO_MAX
    ensures |Noted(memo, sid, now)| <= NOT_REVOKED_MEMO_MAX
    ensures forall s :: s in Noted(memo, sid, now) && s != sid ==> s in memo && Noted(memo, sid, now)[s] == memo[s]
  {
  }

  lemma TickKeeps(w: World, now: int)
    requires Invariant(w) && w.clock <= now
    ensures Invariant(w.(clock := now))
  {
  }

  lemma DropKeeps(w: World, p: nat, sid: Sid)
    requires Invariant(w)
    ensures Invariant(Dropped(w, p, sid))
  {
  }

  lemma StoreKeeps(w: World, sid: Sid)
    requires Invariant(w)
    ensures Invariant(Stored(w, sid, w.clock))
  {
  }

  lemma NoteEntry(q: Process, sid: Sid, at: int, marked: map<Sid, int>, ttlMs: int, clock: int)
    requires ProcessOk(q, marked, ttlMs, clock) && at <= clock && ReadBefore(marked, ttlMs, sid, at)
    ensures ProcessOk(Process(Noted(q.memo, sid, clock), q.readAt[sid := at]), marked, ttlMs, clock)
  {
  }

  lemma SettleKeeps(w: World, r: Reply)
    requires Invariant(w) && ReplyOk(r, w.marked, w.ttlMs, w.clock)
    ensures Invariant(Settled(w, r, w.clock))
  {
    if r.proc < |w.procs| {
      NoteEntry(w.procs[r.proc], r.sid, r.readAt, w.marked, w.ttlMs, w.clock);
    }
  }

  /** A session that is not listed was never marked, or its mark has expired. */
  lemma UnlistedReply(w: World, p: nat, sid: Sid)
    requires Invariant(w) && !Listed(w.deny, sid, w.clock)
    ensures ReplyOk(Reply(p, sid, w.clock), w.marked, w.ttlMs, w.clock)
  {
  }

  lemma StepKeepsInvariant(w: World, e: Event)
    requires Invariant(w) && w.clock <= e.now
    ensures Invariant(Step(w, e))
  {
    var t := w.(clock := e.now);
    TickKeeps(w, e.now);
    match e
    case Mark(p, sid, now) => DropKeeps(t, p, sid); StoreKeeps(Dropped(t, p, sid), sid);
    case Drop(p, sid, now) => DropKeeps(t, p, sid);
    case Put(sid, now) => StoreKeeps(t, sid);
    case Check(p, sid, now) =>
      if p < |w.procs| && !Listed(w.deny, sid, now) {
        UnlistedReply(t, p, sid);
        SettleKeeps(t, Reply(p, sid, now));
      }
    case Read(p, sid, now) =>
      if p < |w.procs| && !Listed(w.deny, sid, now) { UnlistedReply(t, p, sid); }
    case Settle(r, now) => if r in w.replies { SettleKeeps(t, r); }
  }

  lemma {:induction false} RunKeepsInvariant(w: World, events: seq<Event>)
    requires Invariant(w) && Timely(w.clock, events)
    ensures Invariant(After(w, events))
    decreases events
  {
    if events != [] {
      StepKeepsInvariant(w, events[0]);
      RunKeepsInvariant(Step(w, events[0]), events[1..]);
    }
  }

  lemma StartIsInvariant(ttlMs: int, processes: nat)
    ensures Invariant(Start(ttlMs, processes))
  {
  }

  /** No process ever remembers more than the ceiling. */
  lemma MemoIsBounded(ttlMs: int, processes: nat, events: seq<Event>, p: nat)
    requires Timely(0, events) && p < |After(Start(ttlMs, processes), events).procs|
    ensures |After(Start(ttlMs, processes), events).procs[p].memo| <= NOT_REVOKED_MEMO_MAX
  {
    StartIsInvariant(ttlMs, processes);
    RunKeepsInvariant(Start(ttlMs, processes), events);
  }

  /** In every interleaving: when a process answers "not revoked" for a deny-listed session, the answer comes from a
      lookup read no later than the session's last mark and settled less than 1000 ms ago. So the answer is stale
      by less than 1000 ms plus the time that lookup took. */
  lemma FalseAnswerIsFresh(ttlMs: int, processes: nat, events: seq<Event>, p: nat, sid: Sid, now: int)
    requires ttlMs > 0 && Timely(0, events)
    requires var w := After(Start(ttlMs, processes), events);
             w.clock <= now && p < |w.procs| && Listed(w.deny, sid, now) && !Answer(w.procs[p].memo, w.deny, sid, now)
    ensures var w := After(Start(ttlMs, processes), events);
            && sid in w.procs[p].memo && sid in w.procs[p].readAt && sid in w.marked
            && w.procs[p].readAt[sid] <= w.marked[sid] <= now
            && var settledAt := w.procs[p].memo[sid] - NOT_REVOKED_MEMO_TTL_MS;
               && now - settledAt < 1000
               && now - w.marked[sid] < 1000 + (settledAt - w.procs[p].readAt[sid])
  {
    StartIsInvariant(ttlMs, processes);
    RunKeepsInvariant(Start(ttlMs, processes), events);
    var w := After(Start(ttlMs, processes), events);
    assert Remembered(w.procs[p].memo, sid, now) && ProcessOk(w.procs[p], w.marked, w.ttlMs, w.clock);
    assert EntryOk(w.procs[p], sid, w.marked, w.ttlMs, w.clock);
    assert w.deny[sid] == w.marked[sid] + w.ttlMs;
    TtlIsConstant(Start(ttlMs, processes), events);
  }

  lemma {:induction false} TtlIsConstant(w: World, events: seq<Event>)
    ensures After(w, events).ttlMs == w.ttlMs && |After(w, events).procs| == |w.procs|
    decreases events
  {
    if events != [] {
      TtlIsConstant(Step(w, events[0]), events[1..]);
    }
  }

  // ---- atomic operations ------------------------------------------------------------------------------------

  /** An atomic event; a mark of sid is made by process p, or lands while sid is listed anyway. */
  predicate OwnMarkFirst(w: World, e: Event, p: nat, sid: Sid) {
    e.Check? || (e.Mark? && (e.sid == sid ==> e.proc == p || Listed(w.deny, sid, e.now)))
  }

  ghost predicate OwnMarksFirst(w: World, events: seq<Event>, p: nat, sid: Sid)
    decreases events
  {
    events == [] || (OwnMarkFirst(w, events[0], p, sid) && OwnMarksFirst(Step(w, events[0]), events[1..], p, sid))
  }

  ghost predicate NoLiveMemoOfListed(w: World, p: nat, sid: Sid) {
    p < |w.procs|
    && (sid in w.procs[p].memo && sid in w.deny ==> w.deny[sid] <= w.procs[p].memo[sid] - NOT_REVOKED_MEMO_TTL_MS)
  }

  lemma AtomicStepKeeps(w: World, e: Event, p: nat, sid: Sid)
    requires Invariant(w) && w.clock <= e.now && NoLiveMemoOfListed(w, p, sid)
    requires OwnMarkFirst(w, e, p, sid)
    ensures NoLiveMemoOfListed(Step(w, e), p, sid)
  {
    if e.Check? && e.proc == p {
      assert ProcessOk(w.procs[p], w.marked, w.ttlMs, w.clock);
      NotedIsBounded(w.procs[p].memo, e.sid, e.now);
    }
  }

  lemma {:induction false} AtomicRunKeeps(w: World, events: seq<Event>, p: nat, sid: Sid)
    requires Invariant(w) && Timely(w.clock, events) && OwnMarksFirst(w, events, p, sid)
    requires NoLiveMemoOfListed(w, p, sid)
    ensures NoLiveMemoOfListed(After(w, events), p, sid)
    decreases events
  {
    if events != [] {
      var e := events[0];
      StepKeepsInvariant(w, e);
      AtomicStepKeeps(w, e, p, sid);
      AtomicRunKeeps(Step(w, e), events[1..], p, sid);
    }
  }

  ghost predicate Atomic(events: seq<Event>) {
    forall e :: e in events ==> e.Check? || e.Mark?
  }

  /** No reply is under way, and what is remembered was settled when it was read. */
  ghost predicate SettledAtOnce(w: World) {
    w.replies == {} &&
      forall p, s :: 0 <= p < |w.procs| && s in w.procs[p].memo ==>
        s in w.procs[p].readAt && w.procs[p].readAt[s] == w.procs[p].memo[s] - NOT_REVOKED_MEMO_TTL_MS
  }

  lemma SettledAtOnceStep(w: World, e: Event)
    requires SettledAtOnce(w) && (e.Check? || e.Mark?)
    ensures SettledAtOnce(Step(w, e))
  {
  }

  lemma {:induction false} SettledAtOnceRun(w: World, events: seq<Event>)
    requires SettledAtOnce(w) && Atomic(events)
    ensures SettledAtOnce(After(w, events))
    decreases events
  {
    if events != [] {
      assert events[0] in events && forall x :: x in events[1..] ==> x in events;
      SettledAtOnceStep(w, events[0]);
      SettledAtOnceRun(Step(w, events[0]), events[1..]);
    }
  }

  /** With operations taken as atomic, over any number of processes: no answer "not revoked" is given 1000 ms or more
      after the mark it misses. */
  lemma AtomicAnswerIsFresh(ttlMs: int, processes: nat, events: seq<Event>, p: nat, sid: Sid, now: int)
    requires ttlMs > 0 && Timely(0, events) && Atomic(events)
    requires var w := After(Start(ttlMs, processes), events);
             w.clock <= now && p < |w.procs| && Listed(w.deny, sid, now) && !Answer(w.procs[p].memo, w.deny, sid, now)
    ensures var w := After(Start(ttlMs, processes), events);
            sid in w.marked && w.marked[sid] <= now < w.marked[sid] + NOT_REVOKED_MEMO_TTL_MS
  {
    FalseAnswerIsFresh(ttlMs, processes, events, p, sid, now);
    SettledAtOnceRun(Start(ttlMs, processes), events);
  }

  /** With operations taken as atomic, a process answers exactly as a lookup without the memo would, about a session
      whose every spell on the deny-list starts with a mark of its own, whoever else marks it in between. */
  lemma SameProcessIsExact(ttlMs: int, processes: nat, events: seq<Event>, p: nat, sid: Sid, now: int)
    requires Timely(0, events) && OwnMarksFirst(Start(ttlMs, processes), events, p, sid) && p < processes
    requires After(Start(ttlMs, processes), events).clock <= now
    ensures var w := After(Start(ttlMs, processes), events);
            p < |w.procs| && (Answer(w.procs[p].memo, w.deny, sid, now) <==> Listed(w.deny, sid, now))
  {
    var s := Start(ttlMs, processes);
    StartIsInvariant(ttlMs, processes);
    AtomicRunKeeps(s, events, p, sid);
    RunKeepsInvariant(s, events);
  }

  /** Listed all along, and not in the memo of p. */
  lemma {:induction false} StaysForgotten(w: World, events: seq<Event>, p: nat, sid: Sid, now: int)
    requires Invariant(w) && Timely(w.clock, events) && Atomic(events) && p < |w.procs| && sid !in w.procs[p].memo
    requires sid in w.deny && now < w.deny[sid] && w.ttlMs > 0 && After(w, events).clock <= now
    ensures p < |After(w, events).procs| && sid !in After(w, events).procs[p].memo
    ensures Listed(After(w, events).deny, sid, now)
    decreases events
  {
    if events != [] {
      var e := events[0];
      assert e in events && forall x :: x in events[1..] ==> x in events;
      StepKeepsInvariant(w, e);
      ClockGrows(Step(w, e), events[1..]);
      if e.Check? && e.proc == p {
        NotedIsBounded(w.procs[p].memo, e.sid, e.now);
      }
      StaysForgotten(Step(w, e), events[1..], p, sid, now);
    }
  }

  lemma {:induction false} ClockGrows(w: World, events: seq<Event>)
    requires Timely(w.clock, events)
    ensures w.clock <= After(w, events).clock
    decreases events
  {
    if events != [] {
      ClockGrows(Step(w, events[0]), events[1..]);
    }
  }

  /** With operations taken as atomic, a process that marks a session answers "revoked" from then until the mark
      expires, whatever it or other processes did before or do after. */
  lemma OwnMarkIsExact(ttlMs: int, processes: nat, first: seq<Event>, at: int, more: seq<Event>, p: nat, sid: Sid,
                       now: int)
    requires ttlMs > 0 && p < processes && Atomic(more)
    requires Timely(0, first) && After(Start(ttlMs, processes), first).clock <= at && Timely(at, more)
    requires After(Step(After(Start(ttlMs, processes), first), Mark(p, sid, at)), more).clock <= now < at + ttlMs
    ensures var w := After(Step(After(Start(ttlMs, processes), first), Mark(p, sid, at)), more);
            p < |w.procs| && Listed(w.deny, sid, now) && Answer(w.procs[p].memo, w.deny, sid, now)
  {
    var w := After(Start(ttlMs, processes), first);
    StartIsInvariant(ttlMs, processes);
    RunKeepsInvariant(Start(ttlMs, processes), first);
    TtlIsConstant(Start(ttlMs, processes), first);
    StepKeepsInvariant(w, Mark(p, sid, at));
    StaysForgotten(Step(w, Mark(p, sid, at)), more, p, sid, now);
  }

  // ---- when an answer is wrong -------------------------------------------------------------------------------

  /** The session that e enters into the memo of p. */
  function NotedBy(w: World, e: Event, p: nat): Option<Sid> {
    if p >= |w.procs| then None
    else
      match e
      case Check(q, sid, now) =>
        if q == p && !Remembered(w.procs[p].memo, sid, now) && !Listed(w.deny, sid, now) then Some(sid) else None
      case Settle(r, now) => if r in w.replies && r.proc == p then Some(r.sid) else None
      case _ => None
  }

  /** When the answer was read. */
  function LookedUpAt(e: Event): int {
    if e.Settle? then e.reply.readAt else e.now
  }

  /** A memo full of live entries, which the next entry empties. */
  predicate Overfull(memo: Memo, now: int) {
    |memo| >= NOT_REVOKED_MEMO_MAX && Pruned(memo, now, NOT_REVOKED_MEMO_MAX) == map[]
  }

  /** e takes sid out of the memo of p: a mark's own memo drop, or an entry that finds the memo overfull. */
  predicate Forgets(w: World, e: Event, p: nat, sid: Sid) {
    p < |w.procs| && (((e.Mark? || e.Drop?) && e.proc == p && e.sid == sid)
                      || (NotedBy(w, e, p).Some? && Overfull(w.procs[p].memo, e.now)))
  }

  lemma NotedStep(w: World, e: Event, p: nat, sid: Sid, now: int)
    requires p < |w.procs| && NotedBy(w, e, p) == Some(sid)
    ensures p < |Step(w, e).procs|
    ensures Remembered(Step(w, e).procs[p].memo, sid, now) <==> now < e.now + NOT_REVOKED_MEMO_TTL_MS
    ensures sid in Step(w, e).procs[p].readAt && Step(w, e).procs[p].readAt[sid] == LookedUpAt(e)
  {
  }

  lemma OtherStep(w: World, e: Event, p: nat, sid: Sid, now: int)
    requires p < |w.procs| && NotedBy(w, e, p) != Some(sid) && e.now <= now
    ensures p < |Step(w, e).procs|
    ensures Remembered(Step(w, e).procs[p].memo, sid, now)
            <==> Remembered(w.procs[p].memo, sid, now) && !Forgets(w, e, p, sid)
    ensures sid in w.procs[p].readAt ==>
              sid in Step(w, e).procs[p].readAt && Step(w, e).procs[p].readAt[sid] == w.procs[p].readAt[sid]
    ensures sid !in w.procs[p].readAt ==> sid !in Step(w, e).procs[p].readAt
  {
    if NotedBy(w, e, p).Some? {
      PrunedRemembers(w.procs[p].memo, NotedBy(w, e, p).value, sid, e.now, now);
    }
  }

  lemma PrunedRemembers(memo: Memo, noted: Sid, sid: Sid, at: int, now: int)
    requires noted != sid && at <= now
    ensures Remembered(Noted(memo, noted, at), sid, now) <==> Remembered(memo, sid, now) && !Overfull(memo, at)
  {
  }

  /** The k-th event notes "not revoked" less than 1000 ms before now, and nothing later takes it out again. */
  ghost predicate NotedLast(w: World, events: seq<Event>, k: nat, p: nat, sid: Sid, now: int)
    requires k < |events|
  {
    && NotedBy(After(w, events[..k]), events[k], p) == Some(sid)
    && now < events[k].now + NOT_REVOKED_MEMO_TTL_MS
    && forall j :: k < j < |events| ==> !Forgets(After(w, events[..j]), events[j], p, sid)
  }

  lemma {:induction false} AfterSnoc(w: World, events: seq<Event>, e: Event)
    ensures After(w, events + [e]) == Step(After(w, events), e)
    decreases events
  {
    if events == [] {
      assert [e][1..] == [];
    } else {
      assert (events + [e])[1..] == events[1..] + [e];
      AfterSnoc(Step(w, events[0]), events[1..], e);
    }
  }

  lemma {:induction false} TimelySnoc(clock: int, events: seq<Event>, e: Event)
    requires Timely(clock, events + [e])
    ensures Timely(clock, events) && (events != [] ==> events[|events| - 1].now <= e.now)
    decreases events
  {
    if events != [] {
      assert (events + [e])[1..] == events[1..] + [e];
      TimelySnoc(events[0].now, events[1..], e);
    }
  }

  /** Whatever p remembers at `now` was noted by some event. */
  lemma {:induction false} NotedByAnEvent(s: World, events: seq<Event>, p: nat, sid: Sid, now: int) returns (k: nat)
    requires p < |s.procs| && s.procs[p].memo == map[]
    requires Timely(s.clock, events) && (events != [] ==> events[|events| - 1].now <= now)
    requires p < |After(s, events).procs| && Remembered(After(s, events).procs[p].memo, sid, now)
    ensures k < |events| && NotedLast(s, events, k, p, sid, now)
    ensures sid in After(s, events).procs[p].readAt && LookedUpAt(events[k]) == After(s, events).procs[p].readAt[sid]
    decreases |events|
  {
    var n := |events| - 1;
    var front, e := events[..n], events[n];
    assert events == front + [e];
    AfterSnoc(s, front, e);
    TtlIsConstant(s, front);
    TimelySnoc(s.clock, front, e);
    NotedLastSnoc(s, front, e, p, sid, now);
    if NotedBy(After(s, front), e, p) == Some(sid) {
      NotedStep(After(s, front), e, p, sid, now);
      k := n;
    } else {
      OtherStep(After(s, front), e, p, sid, now);
      k := NotedByAnEvent(s, front, p, sid, now);
    }
  }

  /** And what was noted last is remembered. */
  lemma {:induction false} NotedIsRemembered(s: World, events: seq<Event>, k: nat, p: nat, sid: Sid, now: int)
    requires p < |s.procs| && k < |events| && NotedLast(s, events, k, p, sid, now)
    requires Timely(s.clock, events) && events[|events| - 1].now <= now
    ensures p < |After(s, events).procs| && Remembered(After(s, events).procs[p].memo, sid, now)
    decreases |events|
  {
    var n := |events| - 1;
    var front, e := events[..n], events[n];
    assert events == front + [e];
    AfterSnoc(s, front, e);
    TtlIsConstant(s, front);
    TimelySnoc(s.clock, front, e);
    NotedLastSnoc(s, front, e, p, sid, now);
    if NotedBy(After(s, front), e, p) == Some(sid) {
      NotedStep(After(s, front), e, p, sid, now);
      NotesInOrder(s.clock, events, k);
    } else {
      NotedIsRemembered(s, front, k, p, sid, now);
      OtherStep(After(s, front), e, p, sid, now);
    }
  }

  lemma {:induction false} NotesInOrder(clock: int, events: seq<Event>, k: nat)
    requires Timely(clock, events) && k < |events|
    ensures events[k].now <= events[|events| - 1].now
    decreases |events|
  {
    var n := |events| - 1;
    if k < n {
      assert events == events[..n] + [events[n]];
      TimelySnoc(clock, events[..n], events[n]);
      NotesInOrder(clock, events[..n], k);
    }
  }

  lemma NotedLastSnoc(w: World, front: seq<Event>, e: Event, p: nat, sid: Sid, now: int)
    ensures var events := front + [e];
            && (NotedLast(w, events, |front|, p, sid, now) <==>
                 NotedBy(After(w, front), e, p) == Some(sid) && now < e.now + NOT_REVOKED_MEMO_TTL_MS)
            && (forall k :: 0 <= k < |front| ==> (NotedLast(w, events, k, p, sid, now)
                 <==> NotedLast(w, front, k, p, sid, now) && !Forgets(After(w, front), e, p, sid)))
  {
    var events := front + [e];
    assert events[..|front|] == front;
    assert forall j :: 0 <= j < |front| ==> events[..j] == front[..j];
  }

  /** Split open or not, over any number of processes: about a deny-listed session a process answers "not revoked"
      exactly when a lookup that read no later than the session's last mark was noted by it less than 1000 ms ago, and
      since then neither a mark of its own nor an overfull memo took the note out. */
  lemma WrongExactly(ttlMs: int, processes: nat, events: seq<Event>, p: nat, sid: Sid, now: int)
    requires ttlMs > 0 && Timely(0, events) && p < processes
    requires After(Start(ttlMs, processes), events).clock <= now
    requires Listed(After(Start(ttlMs, processes), events).deny, sid, now)
    ensures var s, w := Start(ttlMs, processes), After(Start(ttlMs, processes), events);
            && p < |w.procs| && sid in w.marked
            && (!Answer(w.procs[p].memo, w.deny, sid, now) <==>
                 exists k :: 0 <= k < |events| && NotedLast(s, events, k, p, sid, now)
                             && LookedUpAt(events[k]) <= w.marked[sid])
  {
    var w := After(Start(ttlMs, processes), events);
    StartIsInvariant(ttlMs, processes);
    RunKeepsInvariant(Start(ttlMs, processes), events);
    LastClock(Start(ttlMs, processes), events);
    TtlIsConstant(Start(ttlMs, processes), events);
    if !Answer(w.procs[p].memo, w.deny, sid, now) {
      FalseAnswerIsFresh(ttlMs, processes, events, p, sid, now);
      var k := NotedByAnEvent(Start(ttlMs, processes), events, p, sid, now);
    }
    if k :| 0 <= k < |events| && NotedLast(Start(ttlMs, processes), events, k, p, sid, now) {
      NotedIsRemembered(Start(ttlMs, processes), events, k, p, sid, now);
    }
  }

  lemma {:induction false} LastClock(w: World, events: seq<Event>)
    ensures After(w, events).clock == if events == [] then w.clock else events[|events| - 1].now
    decreases events
  {
    if events != [] {
      LastClock(Step(w, events[0]), events[1..]);
    }
  }

  /** The process that marked a session, having dropped it from its memo at the d-th event, answers wrongly exactly when
      a lookup that read no later than the mark was noted after that drop, less than 1000 ms ago, and is still there. */
  lemma SameProcessWrongExactly(ttlMs: int, processes: nat, events: seq<Event>, d: nat, p: nat, sid: Sid, now: int)
    requires ttlMs > 0 && Timely(0, events) && p < processes && d < |events|
    requires (events[d].Mark? || events[d].Drop?) && events[d].proc == p && events[d].sid == sid
    requires After(Start(ttlMs, processes), events).clock <= now
    requires Listed(After(Start(ttlMs, processes), events).deny, sid, now)
    ensures var s, w := Start(ttlMs, processes), After(Start(ttlMs, processes), events);
            && p < |w.procs| && sid in w.marked
            && (!Answer(w.procs[p].memo, w.deny, sid, now) <==>
                 exists k :: d < k < |events| && NotedLast(s, events, k, p, sid, now)
                             && LookedUpAt(events[k]) <= w.marked[sid])
  {
    var s := Start(ttlMs, processes);
    WrongExactly(ttlMs, processes, events, p, sid, now);
    TtlIsConstant(s, events[..d]);
    assert Forgets(After(s, events[..d]), events[d], p, sid);
    forall k | 0 <= k < |events| && NotedLast(s, events, k, p, sid, now) ensures d < k {
      assert k != d;
    }
  }

  /** Split open, the round-trips do lose the race: a check that read before the mark settles after it, and the
      marking process itself then answers "not revoked" for a deny-listed session. */
  lemma SameProcessRace(ttlMs: int, sid: Sid)
    requires ttlMs > 0
    ensures var w := Step(Step(Step(Start(ttlMs, 1), Read(0, sid, 0)), Mark(0, sid, 0)), Settle(Reply(0, sid, 0), 0));
            |w.procs| == 1 && Listed(w.deny, sid, 0) && !Answer(w.procs[0].memo, w.deny, sid, 0)
  {
    var w2 := Step(Step(Start(ttlMs, 1), Read(0, sid, 0)), Mark(0, sid, 0));
    assert w2.procs == [Process(map[], map[])] && w2.replies == {Reply(0, sid, 0)};
    var w3 := Step(w2, Settle(Reply(0, sid, 0), 0));
    assert w3.procs == [Process(Noted(map[], sid, 0), map[sid := 0])];
  }

  // ---- a revoked session's tokens ----------------------------------------------------------------------------

  /** From a mark on, the deny-list refuses every access token minted for the session up to then, until the
      token's own expiry: a token minted by `mint` expires no later than mint + ttl. */
  lemma {:induction false} ListedUntilTokenExpiry(w: World, events: seq<Event>, sid: Sid, mint: int, exp: int, now: int)
    requires Invariant(w) && Timely(w.clock, events) && sid in w.marked
    requires mint <= w.marked[sid] && exp <= mint + w.ttlMs
    requires After(w, events).clock <= now < exp
    ensures Listed(After(w, events).deny, sid, now)
    decreases events
  {
    if events != [] {
      StepKeepsInvariant(w, events[0]);
      ListedUntilTokenExpiry(Step(w, events[0]), events[1..], sid, mint, exp, now);
    }
  }
}
