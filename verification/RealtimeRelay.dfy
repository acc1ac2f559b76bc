/** The domain-event relay: claim, publish and mark inside one transaction
    (apps/workers/src/realtimeRelay.ts, packages/db/src/repositories/eventOutboxRepository.ts). */
module RealtimeRelay {
  import opened Prelude

  const RELAY_BATCH: nat := 200

  datatype Event = Event(workspaceId: string, eventType: string, payload: string)

  datatype Row = Row(event: Event, published: bool)

  datatype Message = Message(channel: string, id: nat, event: Event)

  /** The first `limit` pending rows nobody holds: FOR UPDATE SKIP LOCKED, in occurrence order. */
  function Unlocked(rows: seq<Row>, locked: set<nat>, i: nat, limit: nat): seq<nat>
    requires i <= |rows|
    decreases |rows| - i
  {
    if i == |rows| || limit == 0 then []
    else if rows[i].published || i in locked then Unlocked(rows, locked, i + 1, limit)
    else [i] + Unlocked(rows, locked, i + 1, limit - 1)
  }

  lemma {:induction false} UnlockedFacts(rows: seq<Row>, locked: set<nat>, i: nat, limit: nat)
    requires i <= |rows|
    ensures var ids := Unlocked(rows, locked, i, limit);
            && |ids| <= limit
            && (forall id :: id in ids ==> i <= id < |rows| && !rows[id].published && id !in locked)
            && (forall m, n :: 0 <= m < n < |ids| ==> ids[m] < ids[n])
            && (|ids| < limit ==> forall id :: i <= id < |rows| && !rows[id].published && id !in locked ==> id in ids)
    decreases |rows| - i
  {
    if i < |rows| && limit > 0 {
      var skip := rows[i].published || i in locked;
      UnlockedFacts(rows, locked, i + 1, if skip then limit else limit - 1);
      var ids, rest := Unlocked(rows, locked, i, limit),
          Unlocked(rows, locked, i + 1, if skip then limit else limit - 1);
      assert forall n :: 0 <= n < |rest| ==> rest[n] in rest;
      if !skip {
        assert ids == [i] + rest && forall n :: 0 < n < |ids| ==> ids[n] == rest[n - 1];
      }
    }
  }

  function Marked(rows: seq<Row>, ids: set<nat>): seq<Row> {
    seq(|rows|, i requires 0 <= i < |rows| => if i in ids then rows[i].(published := true) else rows[i])
  }

  function MessageOf(id: nat, e: Event): Message {
    Message("rt:ws:" + e.workspaceId, id, e)
  }

  /** The reply of the pipeline: aborted as a whole, or per command whether it failed. */
  datatype Exec = Aborted | Replies(failed: seq<bool>)

  class RelayTick {
    var rows: seq<Row>
    var sent: seq<Message>

    /** One undisturbed tick. The messages go out in one pipeline; the rows are marked only if every command
        succeeded, and otherwise the rollback leaves every row as it was. */
    method Run(exec: Exec) returns (committed: bool)
      requires exec.Replies? ==> |exec.failed| == |Unlocked(rows, {}, 0, RELAY_BATCH)|
      modifies this
      ensures var batch := Unlocked(old(rows), {}, 0, RELAY_BATCH);
              && (forall k :: 0 <= k < |batch| ==> batch[k] < |old(rows)|)
              && (committed <==> batch == [] || (exec.Replies? && true !in exec.failed))
              && rows == (if committed then Marked(old(rows), Elems(batch)) else old(rows))
              && |sent| == |old(sent)| + |batch| && sent[..|old(sent)|] == old(sent)
              && (forall k :: 0 <= k < |batch| ==>
                  sent[|old(sent)| + k] == MessageOf(batch[k], old(rows)[batch[k]].event))
    {
      var batch := Unlocked(rows, {}, 0, RELAY_BATCH);
      UnlockedFacts(rows, {}, 0, RELAY_BATCH);
      assert forall k :: 0 <= k < |batch| ==> batch[k] in batch;
      if batch == [] {
        assert Marked(rows, Elems(batch)) == rows;
        return true;
      }
      for k := 0 to |batch|
        invariant rows == old(rows)
        invariant |sent| == |old(sent)| + k && sent[..|old(sent)|] == old(sent)
        invariant forall j :: 0 <= j < k ==> sent[|old(sent)| + j] == MessageOf(batch[j], old(rows)[batch[j]].event)
      {
        sent := sent + [MessageOf(batch[k], rows[batch[k]].event)];
      }
      if exec.Aborted? || true in exec.failed {
        return false;
      }
      rows := Marked(rows, Elems(batch));
      committed := true;
    }
  }

  // ---- several instances -----------------------------------------------------------------------------------

  /** A relay instance between transactions, or inside one holding the row locks of its batch. */
  datatype Instance = Resting | Holding(batch: seq<nat>) | Published(batch: seq<nat>)

  /** delivered and aborts are history: how often each row's message reached Redis, and how often a transaction
      that held the row was rolled back. */
  datatype World = World(rows: seq<Row>, relays: seq<Instance>, delivered: seq<nat>, aborts: seq<nat>)

  /** Exec: the pipeline ran and delivered the messages of `reached`; Commit marks the rows and drops the locks;
      Abort is any rollback, a failed command or a dead process alike. */
  datatype Action =
    | Append(event: Event)
    | Claim(relay: nat)
    | ExecAll(relay: nat)
    | ExecSome(relay: nat, reached: set<nat>)
    | Commit(relay: nat)
    | Abort(relay: nat)

  function Batch(r: Instance): seq<nat> {
    if r.Resting? then [] else r.batch
  }

  function Locked(relays: seq<Instance>): set<nat> {
    set i, id | 0 <= i < |relays| && id in Batch(relays[i]) :: id
  }

  function Bump(counts: seq<nat>, ids: set<nat>): seq<nat> {
    seq(|counts|, i requires 0 <= i < |counts| => if i in ids then counts[i] + 1 else counts[i])
  }

  function Step(w: World, a: Action): World {
    match a
    case Append(e) => World(w.rows + [Row(e, false)], w.relays, w.delivered + [0], w.aborts + [0])
    case Claim(r) =>
      if r < |w.relays| && w.relays[r].Resting? then
        w.(relays := w.relays[r := Holding(Unlocked(w.rows, Locked(w.relays), 0, RELAY_BATCH))])
      else w
    case ExecAll(r) =>
      if r < |w.relays| && w.relays[r].Holding? then
        w.(relays := w.relays[r := Published(w.relays[r].batch)],
            delivered := Bump(w.delivered, Elems(w.relays[r].batch)))
      else w
    case ExecSome(r, reached) =>
      if r < |w.relays| && w.relays[r].Holding? then
        w.(relays := w.relays[r := Resting],
           delivered := Bump(w.delivered, Elems(w.relays[r].batch) * reached),
           aborts := Bump(w.aborts, Elems(w.relays[r].batch)))
      else w
    case Commit(r) =>
      if r < |w.relays| && w.relays[r].Published? then
        w.(relays := w.relays[r := Resting], rows := Marked(w.rows, Elems(w.relays[r].batch)))
      else w
    case Abort(r) =>
      if r < |w.relays| && !w.relays[r].Resting? then
        w.(relays := w.relays[r := Resting], aborts := Bump(w.aborts, Elems(w.relays[r].batch)))
      else w
  }

  function Start(instances: nat): World {
    World([], seq(instances, _ => Resting), [], [])
  }

  function After(w: World, actions: seq<Action>): World
    decreases actions
  {
    if actions == [] then w else After(Step(w, actions[0]), actions[1..])
  }

  ghost predicate LocksDisjoint(w: World) {
    forall i, j, id ::
      0 <= i < |w.relays| && 0 <= j < |w.relays| && id in Batch(w.relays[i]) && id in Batch(w.relays[j]) ==> i == j
  }

  ghost predicate LockedArePending(w: World) {
    forall i, id {:trigger id in Batch(w.relays[i])} ::
      0 <= i < |w.relays| && id in Batch(w.relays[i]) ==> id < |w.rows| && !w.rows[id].published
  }

  /** Some open transaction has already delivered the row. */
  ghost predicate Underway(w: World, id: nat) {
    exists i :: 0 <= i < |w.relays| && w.relays[i].Published? && id in w.relays[i].batch
  }

  /** Every delivery of a row beyond its own is paid for by a rollback; a marked row was delivered. */
  ghost predicate Balanced(w: World, id: nat)
    requires id < |w.rows| && |w.delivered| == |w.rows| && |w.aborts| == |w.rows|
  {
    && w.delivered[id] <= w.aborts[id] + (if w.rows[id].published || Underway(w, id) then 1 else 0)
    && (w.rows[id].published || Underway(w, id) ==> w.delivered[id] >= 1)
  }

  ghost predicate Invariant(w: World) {
    && |w.delivered| == |w.rows| && |w.aborts| == |w.rows|
    && LocksDisjoint(w) && LockedArePending(w)
    && forall id :: 0 <= id < |w.rows| ==> Balanced(w, id)
  }

  lemma AppendKeeps(w: World, e: Event)
    requires Invariant(w)
    ensures Invariant(Step(w, Append(e)))
  {
    var w' := Step(w, Append(e));
    forall id | 0 <= id < |w'.rows| ensures Balanced(w', id) {
      assert Underway(w', id) == Underway(w, id);
      if id < |w.rows| {
        assert Balanced(w, id);
      } else {
        forall i | 0 <= i < |w.relays| && w.relays[i].Published? ensures id !in w.relays[i].batch {
          assert !(id in Batch(w.relays[i]));
        }
      }
    }
  }

  lemma ClaimKeeps(w: World, r: nat)
    requires Invariant(w)
    ensures Invariant(Step(w, Claim(r)))
  {
    var w' := Step(w, Claim(r));
    if r < |w.relays| && w.relays[r].Resting? {
      UnlockedFacts(w.rows, Locked(w.relays), 0, RELAY_BATCH);
      forall j, id | 0 <= j < |w.relays| && id in Batch(w.relays[j]) ensures id in Locked(w.relays) {
      }
      forall id | 0 <= id < |w.rows| ensures Balanced(w', id) {
        assert Balanced(w, id);
        UnderwayFrame(w, w', r, id);
      }
    }
  }

  /** Underway only depends on the instances that published. */
  lemma UnderwayFrame(w: World, w': World, r: nat, id: nat)
    requires |w.relays| == |w'.relays| && r < |w.relays|
    requires forall i :: 0 <= i < |w.relays| && i != r ==> w'.relays[i] == w.relays[i]
    requires !(w.relays[r].Published? && id in w.relays[r].batch)
    requires !(w'.relays[r].Published? && id in w'.relays[r].batch)
    ensures Underway(w, id) <==> Underway(w', id)
  {
  }

  /** Only the instance holding a row can have it underway. */
  lemma UnderwayByHolder(w: World, r: nat, id: nat)
    requires LocksDisjoint(w) && r < |w.relays| && id in Batch(w.relays[r])
    ensures Underway(w, id) <==> w.relays[r].Published?
  {
  }

  lemma ExecKeeps(w: World, a: Action)
    requires Invariant(w) && (a.ExecAll? || a.ExecSome?)
    ensures Invariant(Step(w, a))
  {
    var w', r := Step(w, a), a.relay;
    assert forall i :: 0 <= i < |w.relays| ==> Batch(w'.relays[i]) == Batch(w.relays[i]) || Batch(w'.relays[i]) == [];
    if r < |w.relays| && w.relays[r].Holding? {
      forall id | 0 <= id < |w.rows| ensures Balanced(w', id) {
        assert Balanced(w, id);
        if id in w.relays[r].batch {
          UnderwayByHolder(w, r, id);
          if a.ExecAll? {
            assert w'.relays[r].Published? && id in w'.relays[r].batch;
          } else {
            UnderwayFrame(w, w', r, id);
          }
        } else {
          UnderwayFrame(w, w', r, id);
        }
      }
    }
  }

  lemma EndKeeps(w: World, a: Action)
    requires Invariant(w) && (a.Commit? || a.Abort?)
    ensures Invariant(Step(w, a))
  {
    var w', r := Step(w, a), a.relay;
    if r < |w.relays| && !w.relays[r].Resting? && (a.Commit? ==> w.relays[r].Published?) {
      assert forall i :: 0 <= i < |w.relays| ==> Batch(w'.relays[i]) == if i == r then [] else Batch(w.relays[i]);
      forall i, id | 0 <= i < |w'.relays| && id in Batch(w'.relays[i])
        ensures id < |w'.rows| && !w'.rows[id].published
      {
        assert id in Batch(w.relays[i]) && i != r;
        assert id < |w.rows| && !w.rows[id].published;
        assert id !in Elems(Batch(w.relays[r]));
      }
      forall id | 0 <= id < |w.rows| ensures Balanced(w', id) {
        assert Balanced(w, id);
        if id in w.relays[r].batch {
          UnderwayByHolder(w, r, id);
          assert !Underway(w', id);
        } else {
          UnderwayFrame(w, w', r, id);
        }
      }
    }
  }

  lemma {:induction false} RunKeepsInvariant(w: World, actions: seq<Action>)
    requires Invariant(w)
    ensures Invariant(After(w, actions))
    decreases actions
  {
    if actions != [] {
      match actions[0] {
        case Append(e) => AppendKeeps(w, e);
        case Claim(r) => ClaimKeeps(w, r);
        case ExecAll(_) => ExecKeeps(w, actions[0]);
        case ExecSome(_, _) => ExecKeeps(w, actions[0]);
        case Commit(_) => EndKeeps(w, actions[0]);
        case Abort(_) => EndKeeps(w, actions[0]);
      }
      RunKeepsInvariant(Step(w, actions[0]), actions[1..]);
    }
  }

  /** In every run no row is held by two instances. */
  lemma HeldRowsAreDisjoint(instances: nat, actions: seq<Action>, i: nat, j: nat, id: nat)
    requires var w := After(Start(instances), actions);
             i < |w.relays| && j < |w.relays| && id in Batch(w.relays[i]) && id in Batch(w.relays[j])
    ensures i == j
  {
    RunKeepsInvariant(Start(instances), actions);
    assert LocksDisjoint(After(Start(instances), actions));
  }

  /** In every run: a marked row was delivered, and every further delivery of a row follows a rolled-back batch. */
  lemma RepeatsComeFromAborts(instances: nat, actions: seq<Action>, id: nat)
    requires id < |After(Start(instances), actions).rows|
    ensures var w := After(Start(instances), actions);
            && |w.delivered| == |w.rows| && |w.aborts| == |w.rows|
            && (w.rows[id].published ==> w.delivered[id] >= 1)
            && w.delivered[id] <= w.aborts[id] + 1
            && (w.delivered[id] >= 2 ==> w.aborts[id] >= 1)
  {
    RunKeepsInvariant(Start(instances), actions);
    assert Balanced(After(Start(instances), actions), id);
  }
}
