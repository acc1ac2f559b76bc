/** The leaderless outbox relay and the table it drains
    (apps/workers/src/outboxRelay.ts, packages/db/src/repositories/outboxRepository.ts). */
module OutboxRelay {
  import opened Prelude

  const MAX_PUBLISH_ATTEMPTS: nat := 10

  datatype Topic = Topic(name: string)

  datatype Status = Pending | Published | Failed

  /** Rows stand in enqueue order; a row's id is its place in the table. */
  datatype Row = Row(topic: Topic, status: Status, attempts: nat)

  /** A claimed row: `attempt` is the attempt this claim counted. */
  datatype Claim = Claim(id: nat, attempt: nat)

  /** One locked row: poison fails out, a live row counts an attempt. */
  function ClaimedRow(r: Row): Row {
    if r.attempts >= MAX_PUBLISH_ATTEMPTS then r.(status := Failed) else r.(attempts := r.attempts + 1)
  }

  /** The rows from index i on after claiming up to `limit` of the pending ones, and the live claims. */
  function ClaimFrom(rows: seq<Row>, i: nat, limit: nat): (seq<Row>, seq<Claim>)
    requires i <= |rows|
    decreases |rows| - i
  {
    if i == |rows| then ([], [])
    else
      var take := limit > 0 && rows[i].status == Pending;
      var (rest, claims) := ClaimFrom(rows, i + 1, if take then limit - 1 else limit);
      ([if take then ClaimedRow(rows[i]) else rows[i]] + rest,
       (if take && rows[i].attempts < MAX_PUBLISH_ATTEMPTS then [Claim(i, rows[i].attempts + 1)] else []) + claims)
  }

  function ClaimPending(rows: seq<Row>, limit: nat): (seq<Row>, seq<Claim>) {
    ClaimFrom(rows, 0, limit)
  }

  /** The claims are distinct pending rows of the table before, and each row is untouched or ClaimedRow. */
  lemma {:induction false} ClaimFromFacts(rows: seq<Row>, i: nat, limit: nat)
    requires i <= |rows|
    ensures var (rest, claims) := ClaimFrom(rows, i, limit);
            && |rest| == |rows| - i
            && |claims| <= limit
            && (forall k :: i <= k < |rows| ==>
                  rest[k - i] == rows[k] || (rows[k].status == Pending && rest[k - i] == ClaimedRow(rows[k])))
            && (forall n :: 0 <= n < |claims| ==>
                  && i <= claims[n].id < |rows| && rows[claims[n].id].status == Pending
                  && rows[claims[n].id].attempts < MAX_PUBLISH_ATTEMPTS
                  && claims[n].attempt == rows[claims[n].id].attempts + 1
                  && rest[claims[n].id - i] == ClaimedRow(rows[claims[n].id]))
            && (forall m, n :: 0 <= m < n < |claims| ==> claims[m].id < claims[n].id)
    decreases |rows| - i
  {
    if i < |rows| {
      ClaimFromFacts(rows, i + 1, if limit > 0 && rows[i].status == Pending then limit - 1 else limit);
    }
  }

  /** How many rows are pending from index i up to k. */
  function PendingIn(rows: seq<Row>, i: nat, k: nat): nat
    requires i <= k <= |rows|
    decreases k - i
  {
    if i == k then 0 else (if rows[i].status == Pending then 1 else 0) + PendingIn(rows, i + 1, k)
  }

  /** Row k is among the first `limit` pending ones from index i on. */
  predicate Taken(rows: seq<Row>, i: nat, limit: nat, k: nat)
    requires i <= k < |rows|
  {
    rows[k].status == Pending && PendingIn(rows, i, k) < limit
  }

  function LimitAfter(rows: seq<Row>, i: nat, limit: nat): nat
    requires i < |rows|
  {
    if limit > 0 && rows[i].status == Pending then limit - 1 else limit
  }

  lemma TakenNext(rows: seq<Row>, i: nat, limit: nat)
    requires i < |rows|
    ensures Taken(rows, i, limit, i) <==> limit > 0 && rows[i].status == Pending
    ensures forall k :: i < k < |rows| ==>
              (Taken(rows, i, limit, k) <==> Taken(rows, i + 1, LimitAfter(rows, i, limit), k))
  {
  }

  /** A claim changes exactly those rows. */
  lemma {:induction false} ClaimedRowsExactly(rows: seq<Row>, i: nat, limit: nat)
    requires i <= |rows|
    ensures var rest := ClaimFrom(rows, i, limit).0;
            |rest| == |rows| - i && forall k :: i <= k < |rows| ==>
              rest[k - i] == if Taken(rows, i, limit, k) then ClaimedRow(rows[k]) else rows[k]
    decreases |rows| - i
  {
    if i < |rows| {
      ClaimedRowsExactly(rows, i + 1, LimitAfter(rows, i, limit));
      TakenNext(rows, i, limit);
    }
  }

  /** It hands out exactly the live ones of them. */
  lemma {:induction false} ClaimsExactly(rows: seq<Row>, i: nat, limit: nat, k: nat)
    requires i <= k < |rows|
    ensures Claim(k, rows[k].attempts + 1) in ClaimFrom(rows, i, limit).1
            <==> Taken(rows, i, limit, k) && rows[k].attempts < MAX_PUBLISH_ATTEMPTS
    decreases |rows| - i
  {
    var next := LimitAfter(rows, i, limit);
    ClaimFromFacts(rows, i + 1, next);
    TakenNext(rows, i, limit);
    if i < k {
      ClaimsExactly(rows, i + 1, next, k);
    }
  }

  /** The batch is full exactly when enough rows are pending and all that are taken are live. */
  lemma {:induction false} FullExactly(rows: seq<Row>, i: nat, limit: nat)
    requires i <= |rows|
    ensures |ClaimFrom(rows, i, limit).1| >= limit <==> FullBatch(rows, i, limit)
    decreases |rows| - i
  {
    if i < |rows| {
      var next := LimitAfter(rows, i, limit);
      FullExactly(rows, i + 1, next);
      ClaimFromFacts(rows, i + 1, next);
      TakenNext(rows, i, limit);
      assert FullBatch(rows, i, limit)
        <==> FullBatch(rows, i + 1, next) && (Taken(rows, i, limit, i) ==> rows[i].attempts < MAX_PUBLISH_ATTEMPTS);
    }
  }

  ghost predicate FullBatch(rows: seq<Row>, i: nat, limit: nat)
    requires i <= |rows|
  {
    && PendingIn(rows, i, |rows|) >= limit
    && forall k :: i <= k < |rows| && Taken(rows, i, limit, k) ==> rows[k].attempts < MAX_PUBLISH_ATTEMPTS
  }

  lemma Shift<T>(front: seq<T>, x: T, back: seq<T>)
    ensures front + ([x] + back) == front + [x] + back
  {
  }

  // ---- the drain loop terminates -----------------------------------------------------------------------

  /** How many more claims a row can absorb while pending. */
  function RowBudget(r: Row): nat {
    if r.status != Pending then 0 else if r.attempts >= MAX_PUBLISH_ATTEMPTS then 1
        else MAX_PUBLISH_ATTEMPTS + 1 - r.attempts
  }

  function Budget(rows: seq<Row>): nat {
    if rows == [] then 0 else RowBudget(rows[0]) + Budget(rows[1..])
  }

  lemma BudgetOfSuffix(rows: seq<Row>, i: nat)
    requires i < |rows|
    ensures Budget(rows[i..]) == RowBudget(rows[i]) + Budget(rows[i + 1..])
  {
  }

  /** Every claim is paid for out of the budget. */
  lemma {:induction false} ClaimsSpendBudget(rows: seq<Row>, i: nat, limit: nat)
    requires i <= |rows|
    ensures Budget(ClaimFrom(rows, i, limit).0) + |ClaimFrom(rows, i, limit).1| <= Budget(rows[i..])
    decreases |rows| - i
  {
    if i < |rows| {
      BudgetOfSuffix(rows, i);
      var take := limit > 0 && rows[i].status == Pending;
      var next := if take then limit - 1 else limit;
      ClaimsSpendBudget(rows, i + 1, next);
      var (rest, claims) := ClaimFrom(rows, i + 1, next);
      var head := if take then ClaimedRow(rows[i]) else rows[i];
      assert ([head] + rest)[1..] == rest;
    }
  }

  lemma {:induction false} BudgetUpdate(rows: seq<Row>, i: nat, r: Row)
    requires i < |rows| && RowBudget(r) <= RowBudget(rows[i])
    ensures Budget(rows[i := r]) <= Budget(rows)
  {
    if i > 0 {
      assert rows[i := r][1..] == rows[1..][i - 1 := r];
      BudgetUpdate(rows[1..], i - 1, r);
    } else {
      assert rows[0 := r][1..] == rows[1..];
    }
  }

  // ---- the table and the relay ---------------------------------------------------------------------------

  class OutboxTable {
    var rows: seq<Row>

    method ClaimPendingBatch(limit: nat) returns (claims: seq<Claim>)
      modifies this
      ensures rows == ClaimPending(old(rows), limit).0 && claims == ClaimPending(old(rows), limit).1
    {
      var left, done := limit, [];
      claims := [];
      ghost var all := ClaimPending(rows, limit);
      for i := 0 to |rows|
        invariant rows == old(rows)
        invariant done + ClaimFrom(rows, i, left).0 == all.0
        invariant claims + ClaimFrom(rows, i, left).1 == all.1
      {
        var r := rows[i];
        ghost var (rest, more) := ClaimFrom(rows, i + 1, if left > 0 && r.status == Pending then left - 1 else left);
        Shift(done, if left > 0 && r.status == Pending then ClaimedRow(r) else r, rest);
        if left > 0 && r.status == Pending {
          left := left - 1;
          done := done + [ClaimedRow(r)];
          if r.attempts < MAX_PUBLISH_ATTEMPTS {
            Shift(claims, Claim(i, r.attempts + 1), more);
            claims := claims + [Claim(i, r.attempts + 1)];
          }
        } else {
          done := done + [r];
        }
      }
      assert done + [] == done && claims + [] == claims;
      rows := done;
    }

    method MarkPublished(id: nat)
      requires id < |rows|
      modifies this
      ensures rows == old(rows)[id := old(rows)[id].(status := Published)]
    {
      rows := rows[id := rows[id].(status := Published)];
    }

    method MarkFailed(id: nat)
      requires id < |rows|
      modifies this
      ensures rows == old(rows)[id := old(rows)[id].(status := Failed)]
    {
      rows := rows[id := rows[id].(status := Failed)];
    }
  }

  /** How the world answers one claim: the publisher throws, the settling write throws, or all goes well. */
  datatype Outcome = PublishThrows | SettleThrows | AllWell

  /** What a tick may do to one row, given the answers of the world. */
  ghost predicate Explained(before: Row, after: Row, id: nat, topics: set<Topic>, world: (nat, nat) -> Outcome) {
    && after.topic == before.topic
    && before.attempts <= after.attempts
    && (before.status != Pending ==> after == before)
    && (after.status == Published && before.status == Pending ==>
          after.topic in topics && exists k :: before.attempts < k <= after.attempts && world(id, k) == AllWell)
    && (after.status == Failed && before.status == Pending ==>
          after.topic !in topics || after.attempts >= MAX_PUBLISH_ATTEMPTS)
  }

  ghost predicate AllExplained(before: seq<Row>, after: seq<Row>, topics: set<Topic>, world: (nat, nat) -> Outcome) {
    |after| == |before| && forall i :: 0 <= i < |before| ==> Explained(before[i], after[i], i, topics, world)
  }

  lemma ExplainedTrans(a: seq<Row>, b: seq<Row>, c: seq<Row>, topics: set<Topic>, world: (nat, nat) -> Outcome)
    requires AllExplained(a, b, topics, world) && AllExplained(b, c, topics, world)
    ensures AllExplained(a, c, topics, world)
  {
  }

  lemma ClaimIsExplained(rows: seq<Row>, limit: nat, topics: set<Topic>, world: (nat, nat) -> Outcome)
    ensures AllExplained(rows, ClaimPending(rows, limit).0, topics, world)
  {
    ClaimFromFacts(rows, 0, limit);
  }

  /** After a batch whose failures were contained. */
  predicate LeavesLoop(stopped: bool, got: nat, batchSize: nat) {
    stopped || got < batchSize
  }

  // ---- a drain whose publishes all fail --------------------------------------------------------------------

  ghost predicate AlwaysThrows(world: (nat, nat) -> Outcome) {
    forall id, attempt :: world(id, attempt) == PublishThrows
  }

  predicate Known(rows: seq<Row>, topics: set<Topic>) {
    forall i :: 0 <= i < |rows| ==> rows[i].topic in topics
  }

  /** The table a drain leaves when every publish throws: what was claimed stays pending and is claimed again. */
  function FailingDrain(rows: seq<Row>, batchSize: nat): (r: seq<Row>)
    requires batchSize >= 1
    ensures |r| == |rows|
    decreases Budget(rows)
  {
    ClaimFromFacts(rows, 0, batchSize);
    ClaimsSpendBudget(rows, 0, batchSize);
    assert rows[0..] == rows;
    var (after, claims) := ClaimPending(rows, batchSize);
    if |claims| < batchSize then after else FailingDrain(after, batchSize)
  }

  /** No row of the batch has been tried more often. */
  ghost predicate MostTried(rows: seq<Row>, limit: nat, i: nat)
    requires i < |rows|
  {
    forall k :: 0 <= k < |rows| && Taken(rows, 0, limit, k) ==> rows[k].attempts <= rows[i].attempts
  }

  lemma {:induction false} SamePending(rows: seq<Row>, after: seq<Row>, i: nat, k: nat)
    requires i <= k <= |rows| == |after| && forall j :: 0 <= j < |rows| ==> after[j].status == rows[j].status
    ensures PendingIn(after, i, k) == PendingIn(rows, i, k)
    decreases k - i
  {
    if i < k {
      SamePending(rows, after, i + 1, k);
    }
  }

  /** A full batch whose publishes all fail is the same batch again, tried once more. */
  lemma FullBatchAgain(rows: seq<Row>, limit: nat)
    requires |ClaimPending(rows, limit).1| >= limit
    ensures var after := ClaimPending(rows, limit).0;
            && |after| == |rows|
            && (forall k :: 0 <= k < |rows| ==> (Taken(after, 0, limit, k) <==> Taken(rows, 0, limit, k)))
            && (forall k :: 0 <= k < |rows| ==>
                  after[k] == if Taken(rows, 0, limit, k) then rows[k].(attempts := rows[k].attempts + 1) else rows[k])
            && PendingIn(after, 0, |after|) == PendingIn(rows, 0, |rows|)
  {
    ClaimedRowsExactly(rows, 0, limit);
    FullExactly(rows, 0, limit);
    var after := ClaimPending(rows, limit).0;
    forall k | 0 <= k <= |rows| ensures PendingIn(after, 0, k) == PendingIn(rows, 0, k) {
      SamePending(rows, after, 0, k);
    }
  }

  /** When every publish fails, one drain fails out a pending row exactly when it is in the first batch and has no
      attempt left, or enough rows are pending to fill the batch and it is a most tried one of the batch: the drain
      claims a full batch again at once, until its attempts are spent. */
  lemma {:induction false} DrainFailsOutExactly(rows: seq<Row>, batchSize: nat, i: nat)
    requires batchSize >= 1 && i < |rows| && rows[i].status == Pending
    ensures FailingDrain(rows, batchSize)[i].status == Failed
            <==> Taken(rows, 0, batchSize, i) && (rows[i].attempts >= MAX_PUBLISH_ATTEMPTS
                   || (PendingIn(rows, 0, |rows|) >= batchSize && MostTried(rows, batchSize, i)))
    decreases Budget(rows)
  {
    var (after, claims) := ClaimPending(rows, batchSize);
    FullExactly(rows, 0, batchSize);
    ClaimedRowsExactly(rows, 0, batchSize);
    if |claims| >= batchSize {
      FullBatchAgain(rows, batchSize);
      ClaimsSpendBudget(rows, 0, batchSize);
      assert rows[0..] == rows;
      DrainFailsOutExactly(after, batchSize, i);
      assert Taken(rows, 0, batchSize, i) ==> (MostTried(after, batchSize, i) <==> MostTried(rows, batchSize, i));
    }
  }

  lemma {:induction false} PendingGrows(rows: seq<Row>, i: nat, k: nat, n: nat)
    requires i <= k < n <= |rows| && rows[k].status == Pending
    ensures PendingIn(rows, i, k) < PendingIn(rows, i, n)
    decreases k - i
  {
    if i < k {
      PendingGrows(rows, i + 1, k, n);
    }
  }

  lemma {:induction false} FirstPending(rows: seq<Row>, i: nat) returns (k: nat)
    requires i <= |rows| && PendingIn(rows, i, |rows|) > 0
    ensures i <= k < |rows| && rows[k].status == Pending && PendingIn(rows, i, k) == 0
    decreases |rows| - i
  {
    if rows[i].status == Pending {
      k := i;
    } else {
      k := FirstPending(rows, i + 1);
    }
  }

  lemma {:induction false} MostTriedUpTo(rows: seq<Row>, limit: nat, first: nat, n: nat) returns (m: nat)
    requires first < n <= |rows| && Taken(rows, 0, limit, first)
    ensures m < n && Taken(rows, 0, limit, m)
    ensures forall k :: 0 <= k < n && Taken(rows, 0, limit, k) ==> rows[k].attempts <= rows[m].attempts
  {
    if n - 1 == first {
      m := first;
      if first > 0 && exists k :: 0 <= k < first && Taken(rows, 0, limit, k) {
        var k :| 0 <= k < first && Taken(rows, 0, limit, k);
        m := MostTriedUpTo(rows, limit, k, first);
      }
    } else {
      m := MostTriedUpTo(rows, limit, first, n - 1);
    }
    if Taken(rows, 0, limit, n - 1) && rows[n - 1].attempts > rows[m].attempts {
      m := n - 1;
    }
  }

  ghost predicate FailsOut(rows: seq<Row>, batchSize: nat, i: nat)
    requires batchSize >= 1 && i < |rows|
  {
    rows[i].status == Pending && FailingDrain(rows, batchSize)[i].status == Failed
  }

  /** When every publish fails, one drain fails some row out exactly when a full batch is pending, or a pending row has
      no attempt left. */
  lemma DrainFailsSomeOut(rows: seq<Row>, batchSize: nat)
    requires batchSize >= 1
    ensures (exists i :: 0 <= i < |rows| && FailsOut(rows, batchSize, i))
            <==> (PendingIn(rows, 0, |rows|) >= batchSize
                  || exists i :: 0 <= i < |rows| && rows[i].status == Pending
                                 && rows[i].attempts >= MAX_PUBLISH_ATTEMPTS)
  {
    forall i | 0 <= i < |rows| && rows[i].status == Pending
      ensures FailsOut(rows, batchSize, i)
              <==> (Taken(rows, 0, batchSize, i)
                    && (rows[i].attempts >= MAX_PUBLISH_ATTEMPTS
                        || (PendingIn(rows, 0, |rows|) >= batchSize && MostTried(rows, batchSize, i))))
    {
      DrainFailsOutExactly(rows, batchSize, i);
      PendingGrows(rows, 0, i, |rows|);
    }
    if PendingIn(rows, 0, |rows|) >= batchSize {
      var first := FirstPending(rows, 0);
      var m := MostTriedUpTo(rows, batchSize, first, |rows|);
      assert FailsOut(rows, batchSize, m);
    } else if i :| 0 <= i < |rows| && rows[i].status == Pending && rows[i].attempts >= MAX_PUBLISH_ATTEMPTS {
      PendingGrows(rows, 0, i, |rows|);
      assert FailsOut(rows, batchSize, i);
    }
  }

  class Relay {
    const table: OutboxTable
    const topics: set<Topic>
    const batchSize: nat

    constructor (table: OutboxTable, topics: set<Topic>, batchSize: nat)
      ensures this.table == table && this.topics == topics && this.batchSize == batchSize
    {
      this.table, this.topics, this.batchSize := table, topics, batchSize;
    }

    /** Publishes one claimed row and settles it; false when a failure escapes to the tick's own handler. */
    method Publish(c: Claim, world: (nat, nat) -> Outcome) returns (contained: bool)
      requires c.id < |table.rows| && table.rows[c.id].status == Pending && table.rows[c.id].attempts == c.attempt
      modifies table
      ensures |table.rows| == |old(table.rows)|
      ensures table.rows == old(table.rows)[c.id := table.rows[c.id]]
      ensures table.rows[c.id] == old(table.rows)[c.id].(status :=
                if old(table.rows)[c.id].topic !in topics then (if world(c.id,
                    c.attempt) == SettleThrows then Pending else Failed)
                else if world(c.id, c.attempt) == AllWell then Published else Pending)
      ensures contained <==> old(table.rows)[c.id].topic in topics || world(c.id, c.attempt) != SettleThrows
    {
      var outcome := world(c.id, c.attempt);
      if table.rows[c.id].topic !in topics {
        if outcome == SettleThrows {
          return false;
        }
        table.MarkFailed(c.id);
      } else if outcome == AllWell {
        table.MarkPublished(c.id);
      }
      contained := true;
    }

    /** The inner loop over one batch. */
    method PublishBatch(claims: seq<Claim>, world: (nat, nat) -> Outcome,
        ghost start: seq<Row>) returns (contained: bool)
      requires |start| == |table.rows| && AllExplained(start, table.rows, topics, world)
      requires forall n :: 0 <= n < |claims| ==>
        && claims[n].id < |table.rows| && table.rows[claims[n].id].status == Pending
        && table.rows[claims[n].id].attempts == claims[n].attempt
        && start[claims[n].id].attempts < claims[n].attempt
      requires forall m, n :: 0 <= m < n < |claims| ==> claims[m].id < claims[n].id
      modifies table
      ensures AllExplained(start, table.rows, topics, world)
      ensures Budget(table.rows) <= old(Budget(table.rows))
      ensures AlwaysThrows(world) && Known(start, topics) ==> contained && table.rows == old(table.rows)
    {
      for i := 0 to |claims|
        invariant |table.rows| == |start| && AllExplained(start, table.rows, topics, world)
        invariant Budget(table.rows) <= old(Budget(table.rows))
        invariant AlwaysThrows(world) && Known(start, topics) ==> table.rows == old(table.rows)
        invariant forall n :: i <= n < |claims| ==>
          && claims[n].id < |table.rows| && table.rows[claims[n].id].status == Pending
          && table.rows[claims[n].id].attempts == claims[n].attempt
      {
        ghost var now, id := table.rows, claims[i].id;
        assert Explained(start[id], now[id], id, topics, world);
        contained := Publish(claims[i], world);
        BudgetUpdate(now, id, table.rows[id]);
        forall k | 0 <= k < |start| ensures Explained(start[k], table.rows[k], k, topics, world) {
          assert Explained(start[k], now[k], k, topics, world);
        }
        if !contained {
          return;
        }
      }
      contained := true;
    }

    /** One pass of the drain: claim a batch and publish it. */
    method Pass(world: (nat, nat) -> Outcome, ghost start: seq<Row>) returns (claimed: nat, contained: bool)
      requires |start| == |table.rows| && AllExplained(start, table.rows, topics, world)
      modifies table
      ensures AllExplained(start, table.rows, topics, world)
      ensures Budget(table.rows) + claimed <= old(Budget(table.rows))
      ensures claimed == |ClaimPending(old(table.rows), batchSize).1|
      ensures AlwaysThrows(world) && Known(start, topics) ==>
                contained && table.rows == ClaimPending(old(table.rows), batchSize).0
    {
      ghost var rows := table.rows;
      var claims := table.ClaimPendingBatch(batchSize);
      claimed := |claims|;
      ClaimFromFacts(rows, 0, batchSize);
      ClaimsSpendBudget(rows, 0, batchSize);
      assert rows[0..] == rows;
      ClaimIsExplained(rows, batchSize, topics, world);
      ExplainedTrans(start, rows, table.rows, topics, world);
      contained := PublishBatch(claims, world, start);
    }

    /** One tick: drain while full batches come back. stoppedAfter says when stop() was seen, and claimThrows which
        claims fail. Batches of at least one row make the drain finite. */
    method Tick(world: (nat, nat) -> Outcome, stoppedAfter: nat -> bool,
        claimThrows: nat -> bool) returns (batches: nat)
      requires batchSize >= 1
      modifies table
      ensures AllExplained(old(table.rows), table.rows, topics, world)
      ensures batches <= old(Budget(table.rows)) + 1
      ensures AlwaysThrows(world) && Known(old(table.rows), topics)
              && (forall n :: !stoppedAfter(n)) && (forall n :: !claimThrows(n)) ==>
                table.rows == FailingDrain(old(table.rows), batchSize)
    {
      ghost var start := table.rows;
      ghost var failing := AlwaysThrows(world) && Known(start, topics)
                           && (forall n :: !stoppedAfter(n)) && (forall n :: !claimThrows(n));
      batches := 0;
      var draining := true;
      while draining
        invariant AllExplained(start, table.rows, topics, world)
        invariant batches + Budget(table.rows) <= Budget(start) + if draining then 0 else 1
        invariant failing ==>
          FailingDrain(start, batchSize) == if draining then FailingDrain(table.rows, batchSize) else table.rows
        decreases draining, Budget(table.rows)
      {
        if claimThrows(batches) {
          return;
        }
        var claimed, contained := Pass(world, start);
        batches := batches + 1;
        draining := contained && !LeavesLoop(stoppedAfter(batches), claimed, batchSize);
      }
    }
  }

  /** The table after `n` passes of a drain with batches of size 0, and whether the drain goes on. */
  function ZeroPasses(rows: seq<Row>, n: nat, stoppedAfter: nat -> bool, claimThrows: nat -> bool): (seq<Row>, bool) {
    if n == 0 then (rows, true)
    else
      var (before, draining) := ZeroPasses(rows, n - 1, stoppedAfter, claimThrows);
      if !draining || claimThrows(n - 1) then (before, false)
      else
        var (after, claims) := ClaimPending(before, 0);
        (after, !LeavesLoop(stoppedAfter(n), |claims|, 0))
  }

  /** The pass after the first k: its claim does not throw, and stop() is not seen at its end. */
  predicate Undisturbed(k: nat, stoppedAfter: nat -> bool, claimThrows: nat -> bool) {
    !claimThrows(k) && !stoppedAfter(k + 1)
  }

  /** With batchSize 0 nothing is claimed and the empty batch still counts as full: whatever is pending, the drain goes
      on for as long as no claim throws and stop() is not called, and the table stays as it is. */
  lemma {:induction false} ZeroBatchNeverDrains(rows: seq<Row>, n: nat, stoppedAfter: nat -> bool,
                                                claimThrows: nat -> bool)
    ensures ZeroPasses(rows, n, stoppedAfter, claimThrows).0 == rows
    ensures ZeroPasses(rows, n, stoppedAfter, claimThrows).1
            <==> forall k :: 0 <= k < n ==> Undisturbed(k, stoppedAfter, claimThrows)
    decreases n
  {
    if n > 0 {
      ZeroBatchNeverDrains(rows, n - 1, stoppedAfter, claimThrows);
      ZeroClaimsNothing(rows, 0);
      assert rows[0..] == rows;
      assert Undisturbed(n - 1, stoppedAfter, claimThrows) <==> !claimThrows(n - 1) && !stoppedAfter(n);
    }
  }

  lemma {:induction false} ZeroClaimsNothing(rows: seq<Row>, i: nat)
    requires i <= |rows|
    ensures ClaimFrom(rows, i, 0).0 == rows[i..] && ClaimFrom(rows, i, 0).1 == []
    decreases |rows| - i
  {
    if i < |rows| {
      ZeroClaimsNothing(rows, i + 1);
      assert rows[i..] == [rows[i]] + rows[i + 1..];
    }
  }

  // ---- many relays on one table --------------------------------------------------------------------------

  datatype Held = Held(relay: nat, claim: Claim)

  /** held: claimed, not yet handed to the publisher; sent: published, not yet marked; delivered: every successful
      publish so far, by row and attempt. */
  datatype World = World(rows: seq<Row>, topics: set<Topic>, held: set<Held>, sent: set<Held>, delivered: set<Claim>)

  datatype Event =
    | Enqueue(topic: Topic)
    | ClaimBatch(relay: nat, limit: nat)
    | Deliver(h: Held)
    | Mark(h: Held)
    | Reject(h: Held)
    | Lose(h: Held)

  function HeldBy(relay: nat, claims: seq<Claim>): set<Held> {
    set c | c in claims :: Held(relay, c)
  }

  /** Lose: the publisher threw, the settling write threw, or the process died. */
  function Step(w: World, e: Event): World {
    match e
    case Enqueue(t) => w.(rows := w.rows + [Row(t, Pending, 0)])
    case ClaimBatch(relay, limit) =>
      var (rows, claims) := ClaimPending(w.rows, limit);
      w.(rows := rows, held := w.held + HeldBy(relay, claims))
    case Deliver(h) =>
      if h in w.held && h.claim.id < |w.rows| && w.rows[h.claim.id].topic in w.topics then
        w.(held := w.held - {h}, sent := w.sent + {h}, delivered := w.delivered + {h.claim})
      else w
    case Mark(h) =>
      if h in w.sent && h.claim.id < |w.rows| then
        w.(rows := w.rows[h.claim.id := w.rows[h.claim.id].(status := Published)], sent := w.sent - {h})
      else w
    case Reject(h) =>
      if h in w.held && h.claim.id < |w.rows| && w.rows[h.claim.id].topic !in w.topics then
        w.(rows := w.rows[h.claim.id := w.rows[h.claim.id].(status := Failed)], held := w.held - {h})
      else w
    case Lose(h) => w.(held := w.held - {h}, sent := w.sent - {h})
  }

  function Start(topics: set<Topic>): World {
    World([], topics, {}, {}, {})
  }

  function After(w: World, events: seq<Event>): World
    decreases events
  {
    if events == [] then w else After(Step(w, events[0]), events[1..])
  }

  predicate Counted(rows: seq<Row>, c: Claim) {
    c.id < |rows| && 1 <= c.attempt <= rows[c.id].attempts
  }

  ghost predicate RowInvariant(w: World, i: nat)
    requires i < |w.rows|
  {
    && w.rows[i].attempts <= MAX_PUBLISH_ATTEMPTS
    && (w.rows[i].status == Published ==> w.rows[i].topic in w.topics && exists c :: c in w.delivered && c.id == i)
    && (w.rows[i].status == Failed ==> w.rows[i].topic !in w.topics || w.rows[i].attempts == MAX_PUBLISH_ATTEMPTS)
  }

  ghost predicate Invariant(w: World) {
    && (forall i :: 0 <= i < |w.rows| ==> RowInvariant(w, i))
    && (forall h :: h in w.held ==> Counted(w.rows, h.claim) && h.claim !in w.delivered)
    && (forall h :: h in w.sent ==> h.claim in w.delivered)
    && (forall c :: c in w.delivered ==> Counted(w.rows, c) && w.rows[c.id].topic in w.topics)
    && (forall g, h :: g in w.held && h in w.held && g.claim == h.claim ==> g == h)
    && (forall g, h :: g in w.sent && h in w.sent && g.claim == h.claim ==> g == h)
  }

  /** A claim counts its own attempts, which were not counted before, and keeps those that were. */
  lemma ClaimCounts(rows: seq<Row>, limit: nat)
    ensures var (after, claims) := ClaimPending(rows, limit);
            && |after| == |rows|
            && (forall c :: c in claims ==> Counted(after, c) && !Counted(rows, c))
            && (forall c :: Counted(rows, c) ==> Counted(after, c) && after[c.id].topic == rows[c.id].topic)
            && (forall c, d :: c in claims && d in claims && c.id == d.id ==> c == d)
  {
    ClaimFromFacts(rows, 0, limit);
  }

  lemma ClaimKeepsRows(w: World, relay: nat, limit: nat)
    requires Invariant(w)
    ensures var w' := Step(w, ClaimBatch(relay, limit));
            forall i :: 0 <= i < |w'.rows| ==> RowInvariant(w', i)
  {
    ClaimFromFacts(w.rows, 0, limit);
    var w' := Step(w, ClaimBatch(relay, limit));
    forall i | 0 <= i < |w'.rows| ensures RowInvariant(w', i) {
      assert RowInvariant(w, i);
    }
  }

  lemma ClaimKeepsInvariant(w: World, relay: nat, limit: nat)
    requires Invariant(w)
    ensures Invariant(Step(w, ClaimBatch(relay, limit)))
  {
    ClaimCounts(w.rows, limit);
    ClaimKeepsRows(w, relay, limit);
  }

  lemma OtherStepsKeepInvariant(w: World, e: Event)
    requires Invariant(w) && !e.ClaimBatch?
    ensures Invariant(Step(w, e))
  {
    var w' := Step(w, e);
    forall i | 0 <= i < |w'.rows| ensures RowInvariant(w', i) {
      if i < |w.rows| {
        assert RowInvariant(w, i);
      }
    }
  }

  lemma {:induction false} RunKeepsInvariant(w: World, events: seq<Event>)
    requires Invariant(w)
    ensures Invariant(After(w, events))
    decreases events
  {
    if events != [] {
      if events[0].ClaimBatch? {
        ClaimKeepsInvariant(w, events[0].relay, events[0].limit);
      } else {
        OtherStepsKeepInvariant(w, events[0]);
      }
      RunKeepsInvariant(Step(w, events[0]), events[1..]);
    }
  }

  // ---- when claims are disjoint ------------------------------------------------------------------------------

  /** Claimed and not settled yet, before or after the publish. */
  function InHand(w: World): set<Held> {
    w.held + w.sent
  }

  /** No two relays have one row in hand. */
  ghost predicate Apart(w: World) {
    forall g, h :: g in InHand(w) && h in InHand(w) && g.claim.id == h.claim.id ==> g.relay == h.relay
  }

  /** A claim takes a row, still pending and live, that an earlier claim of another relay has in hand. */
  ghost predicate Retakes(w: World, e: Event) {
    e.ClaimBatch? &&
      exists h :: h in InHand(w) && h.relay != e.relay && h.claim.id < |w.rows|
                  && Taken(w.rows, 0, e.limit, h.claim.id) && w.rows[h.claim.id].attempts < MAX_PUBLISH_ATTEMPTS
  }

  lemma StepApartExactly(w: World, e: Event)
    requires Invariant(w) && Apart(w)
    ensures Apart(Step(w, e)) <==> !Retakes(w, e)
  {
    if e.ClaimBatch? {
      ClaimApartExactly(w, e);
    } else {
      assert forall h :: h in InHand(Step(w, e)) ==> h in InHand(w);
    }
  }

  lemma ClaimApartExactly(w: World, e: Event)
    requires Invariant(w) && Apart(w) && e.ClaimBatch?
    ensures Apart(Step(w, e)) <==> !Retakes(w, e)
  {
    if Retakes(w, e) {
      var h :| h in InHand(w) && h.relay != e.relay && h.claim.id < |w.rows|
               && Taken(w.rows, 0, e.limit, h.claim.id) && w.rows[h.claim.id].attempts < MAX_PUBLISH_ATTEMPTS;
      ClaimsExactly(w.rows, 0, e.limit, h.claim.id);
      var g := Held(e.relay, Claim(h.claim.id, w.rows[h.claim.id].attempts + 1));
      assert g in InHand(Step(w, e)) && h in InHand(Step(w, e));
    } else {
      forall g, h | g in InHand(w) && h in InHand(Step(w, e)) && h !in InHand(w) && g.claim.id == h.claim.id
        ensures g.relay == e.relay
      {
        NewClaimMeets(w, e, g, h);
      }
      assert forall h :: h in InHand(Step(w, e)) && h !in InHand(w) ==> h.relay == e.relay;
    }
  }

  /** A new claim of a row that another one has in hand takes it while it is pending and live. */
  lemma NewClaimMeets(w: World, e: Event, g: Held, h: Held)
    requires Invariant(w) && e.ClaimBatch? && !Retakes(w, e)
    requires g in InHand(w) && h in InHand(Step(w, e)) && h !in InHand(w) && g.claim.id == h.claim.id
    ensures g.relay == e.relay
  {
    ClaimFromFacts(w.rows, 0, e.limit);
    assert h.claim in ClaimPending(w.rows, e.limit).1;
    ClaimsExactly(w.rows, 0, e.limit, h.claim.id);
  }

  ghost predicate ApartThroughout(w: World, events: seq<Event>)
    decreases events
  {
    Apart(w) && (events == [] || ApartThroughout(Step(w, events[0]), events[1..]))
  }

  ghost predicate NeverRetaken(w: World, events: seq<Event>)
    decreases events
  {
    events == [] || (!Retakes(w, events[0]) && NeverRetaken(Step(w, events[0]), events[1..]))
  }

  lemma {:induction false} RunApartExactly(w: World, events: seq<Event>)
    requires Invariant(w) && Apart(w)
    ensures ApartThroughout(w, events) <==> NeverRetaken(w, events)
    decreases events
  {
    if events != [] {
      StepApartExactly(w, events[0]);
      RunKeepsInvariant(w, [events[0]]);
      assert After(w, [events[0]]) == After(Step(w, events[0]), []);
      if Apart(Step(w, events[0])) {
        RunApartExactly(Step(w, events[0]), events[1..]);
      }
    }
  }

  /** In a run of any number of relays with failures no two of them ever have one row in hand, exactly when no claim
      takes a still pending row while another relay's claim of it is in hand. */
  lemma ClaimsDisjointExactly(topics: set<Topic>, events: seq<Event>)
    ensures ApartThroughout(Start(topics), events) <==> NeverRetaken(Start(topics), events)
  {
    RunApartExactly(Start(topics), events);
  }

  /** What does stay disjoint, in every run: no row and attempt is in hand twice. */
  lemma AttemptsStayDisjoint(topics: set<Topic>, events: seq<Event>, g: Held, h: Held)
    requires var w := After(Start(topics), events); g in InHand(w) && h in InHand(w) && g.claim == h.claim
    ensures g == h
  {
    RunKeepsInvariant(Start(topics), events);
  }

  /** In every run of any number of relays with failures: a published row was really published, under a known
      topic; a failed one has an unknown topic or has used up its attempts. */
  lemma SettledForCause(topics: set<Topic>, events: seq<Event>, i: nat)
    requires i < |After(Start(topics), events).rows|
    ensures var w := After(Start(topics), events);
            && (w.rows[i].status == Published ==> exists c :: c in w.delivered && c.id == i)
            && (w.rows[i].status == Failed ==>
                w.rows[i].topic !in w.topics || w.rows[i].attempts == MAX_PUBLISH_ATTEMPTS)
  {
    RunKeepsInvariant(Start(topics), events);
    assert RowInvariant(After(Start(topics), events), i);
  }

  function AttemptsDelivered(w: World, i: nat): set<nat> {
    set c | c in w.delivered && c.id == i :: c.attempt
  }

  /** At-least-once is at most ten times: deliveries of one row carry distinct attempts between 1 and the cap. */
  lemma DeliveredAtMostTenTimes(topics: set<Topic>, events: seq<Event>, i: nat)
    ensures |AttemptsDelivered(After(Start(topics), events), i)| <= MAX_PUBLISH_ATTEMPTS
  {
    var w := After(Start(topics), events);
    RunKeepsInvariant(Start(topics), events);
    var cap := UpTo(MAX_PUBLISH_ATTEMPTS);
    UpToFacts(MAX_PUBLISH_ATTEMPTS);
    forall k | k in AttemptsDelivered(w, i) ensures k in cap {
      assert Counted(w.rows, Claim(i, k));
      assert RowInvariant(w, i);
    }
    SubsetSize(AttemptsDelivered(w, i), cap);
  }

  function UpTo(n: nat): set<nat> {
    if n == 0 then {} else UpTo(n - 1) + {n}
  }

  lemma {:induction false} UpToFacts(n: nat)
    ensures |UpTo(n)| == n && forall k :: k in UpTo(n) <==> 1 <= k <= n
  {
    if n > 0 {
      UpToFacts(n - 1);
    }
  }

  /** A settled row never becomes pending again. */
  lemma {:induction false} SettledStaysSettled(w: World, events: seq<Event>, i: nat)
    requires i < |w.rows| && w.rows[i].status != Pending
    ensures i < |After(w, events).rows| && After(w, events).rows[i].status != Pending
    decreases events
  {
    if events != [] {
      if events[0].ClaimBatch? {
        ClaimFromFacts(w.rows, 0, events[0].limit);
      }
      SettledStaysSettled(Step(w, events[0]), events[1..], i);
    }
  }

  /** The row lock ends with the claim's own transaction, so two relays can hold, and both deliver, one row with no
      crash involved. What stays disjoint is the pair of row and attempt. */
  lemma TwoRelaysDeliverOneRow(t: Topic)
    ensures var w0 := Step(Start({t}), Enqueue(t));
            var w1 := Step(Step(w0, ClaimBatch(0, 25)), ClaimBatch(1, 25));
            var w2 := Step(Step(w1, Deliver(Held(0, Claim(0, 1)))), Deliver(Held(1, Claim(0, 2))));
            && Held(0, Claim(0, 1)) in w1.held && Held(1, Claim(0, 2)) in w1.held
            && AttemptsDelivered(w2, 0) == {1, 2}
  {
  }

  // ---- the schedule ------------------------------------------------------------------------------------------

  /** timer: a tick is scheduled; ticking: inFlight is unsettled; resolved: a stop() has returned. */
  datatype Schedule = Schedule(stopped: bool, timer: bool, ticking: bool, resolved: bool)

  datatype Signal = TimerFires | TickEnds | StopCalled | StopReturns

  function React(s: Schedule, x: Signal): Schedule {
    match x
    case TimerFires => if s.timer then s.(timer := false, ticking := true) else s
    case TickEnds => if s.ticking then s.(ticking := false, timer := s.timer || !s.stopped) else s
    case StopCalled => s.(stopped := true, timer := false)
    case StopReturns => if s.stopped && !s.ticking then s.(resolved := true) else s
  }

  class RelayHandle {
    var stopped: bool
    var timer: bool
    var ticking: bool
    var resolved: bool

    ghost function View(): Schedule
      reads this
    {
      Schedule(stopped, timer, ticking, resolved)
    }

    /** startOutboxRelay runs the first tick at once. */
    constructor ()
      ensures View() == Schedule(false, false, true, false)
    {
      stopped, timer, ticking, resolved := false, false, true, false;
    }

    method Run()
      modifies this
      ensures View() == React(old(View()), TimerFires)
    {
      if timer {
        timer := false;
        ticking := true;
      }
    }

    /** The tick's finally block. */
    method Finally()
      modifies this
      ensures View() == React(old(View()), TickEnds)
    {
      if ticking {
        ticking := false;
        if !stopped {
          timer := true;
        }
      }
    }

    method Stop()
      modifies this
      ensures View() == React(old(View()), StopCalled)
    {
      stopped := true;
      timer := false;
    }

    method StopAwaited()
      modifies this
      ensures View() == React(old(View()), StopReturns)
    {
      if stopped && !ticking {
        resolved := true;
      }
    }
  }

  function Reacted(s: Schedule, xs: seq<Signal>): Schedule
    decreases xs
  {
    if xs == [] then s else Reacted(React(s, xs[0]), xs[1..])
  }

  predicate Orderly(s: Schedule) {
    !(s.timer && s.ticking) && (s.stopped ==> !s.timer) && (s.resolved ==> s.stopped && !s.ticking)
  }

  /** Ticks never overlap, and once a stop() has returned none runs in any continuation. */
  lemma {:induction false} TicksAreOrderly(s: Schedule, xs: seq<Signal>)
    requires Orderly(s)
    ensures Orderly(Reacted(s, xs))
    ensures s.resolved ==> Reacted(s, xs).resolved && !Reacted(s, xs).ticking && !Reacted(s, xs).timer
    decreases xs
  {
    if xs != [] {
      TicksAreOrderly(React(s, xs[0]), xs[1..]);
    }
  }
}
