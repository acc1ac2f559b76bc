/** The per-mailbox token bucket kept in Redis (apps/workers/src/mailboxThrottle.ts), over reals. */
module MailboxThrottle {
  import opened Prelude

  datatype Config = Config(capacity: real, refillPerSec: real)

  datatype Bucket = Bucket(tokens: real, ts: int)

  /** A stored hash together with the instant at which Redis drops it. */
  datatype Entry = Entry(bucket: Bucket, expiresAt: int)

  /** Never: with no refill, the division gives infinity and no wait is long enough. */
  datatype Retry = After(ms: int) | Never

  datatype Verdict = Allowed | Denied(retry: Retry)

  function Ceil(x: real): int {
    -((-x).Floor)
  }

  /** Tokens added in ms milliseconds. */
  function Gain(refill: real, ms: int): real {
    ms as real / 1000.0 * refill
  }

  function MinReal(a: real, b: real): real {
    if a < b then a else b
  }

  /** The tokens available at `now`: a missing bucket is a full one, and time running backwards adds nothing. */
  function Refilled(cfg: Config, b: Option<Bucket>, now: int): real {
    match b
    case None => cfg.capacity
    case Some(Bucket(tokens, ts)) => MinReal(cfg.capacity, tokens + Gain(cfg.refillPerSec, Max(0, now - ts)))
  }

  /** Refill, then consume when enough is there. */
  function Step(cfg: Config, b: Option<Bucket>, now: int, cost: real): (Verdict, Bucket) {
    var tokens := Refilled(cfg, b, now);
    if tokens >= cost then (Allowed, Bucket(tokens - cost, now))
    else if cfg.refillPerSec == 0.0 then (Denied(Never), Bucket(tokens, now))
    else (Denied(After(Ceil((cost - tokens) / cfg.refillPerSec * 1000.0))), Bucket(tokens, now))
  }

  function TtlMs(cfg: Config): int {
    var refill := if cfg.refillPerSec > 0.0001 then cfg.refillPerSec else 0.0001;
    Ceil(cfg.capacity / refill * 1000.0) + 60_000
  }

  /** What a reader finds at `now`: an expired hash is gone. */
  function Visible(e: Option<Entry>, now: int): Option<Bucket> {
    if e.Some? && now < e.value.expiresAt then Some(e.value.bucket) else None
  }

  class RedisThrottle {
    const cfg: Config
    const ttlMs: int
    var buckets: map<string, Entry>

    ghost function Stored(mailboxId: string): Option<Entry>
      reads this
    {
      if mailboxId in buckets then Some(buckets[mailboxId]) else None
    }

    constructor (cfg: Config)
      ensures this.cfg == cfg && ttlMs == TtlMs(cfg) && buckets == map[]
    {
      this.cfg := cfg;
      this.ttlMs := TtlMs(cfg);
      this.buckets := map[];
    }

    /** The script, statement by statement; it runs atomically. */
    method TryConsume(mailboxId: string, now: int, cost: real) returns (v: Verdict)
      modifies this
      ensures v == Step(cfg, Visible(old(Stored(mailboxId)), now), now, cost).0
      ensures Stored(mailboxId)
           == Some(Entry(Step(cfg, Visible(old(Stored(mailboxId)), now), now, cost).1, now + ttlMs))
      ensures buckets - {mailboxId} == old(buckets) - {mailboxId}
    {
      var tokens, ts := cfg.capacity, now;
      if mailboxId in buckets && now < buckets[mailboxId].expiresAt {
        tokens, ts := buckets[mailboxId].bucket.tokens, buckets[mailboxId].bucket.ts;
      }
      var elapsed := Max(0, now - ts);
      tokens := MinReal(cfg.capacity, tokens + Gain(cfg.refillPerSec, elapsed));
      if tokens >= cost {
        tokens := tokens - cost;
        v := Allowed;
      } else if cfg.refillPerSec == 0.0 {
        v := Denied(Never);
      } else {
        var deficit := cost - tokens;
        v := Denied(After(Ceil(deficit / cfg.refillPerSec * 1000.0)));
      }
      buckets := buckets[mailboxId := Entry(Bucket(tokens, now), now + ttlMs)];
    }
  }

  // ---- arithmetic ----------------------------------------------------------------------------------------

  lemma GainAdds(refill: real, a: int, b: int)
    ensures Gain(refill, a + b) == Gain(refill, a) + Gain(refill, b)
  {
  }

  lemma GainGrows(refill: real, a: int, b: int)
    requires 0.0 <= refill && a <= b
    ensures Gain(refill, a) <= Gain(refill, b)
  {
  }

  /** Ceil(x) is the least integer not below x. */
  lemma CeilLeast(x: real, n: int)
    ensures n >= Ceil(x) <==> n as real >= x
  {
  }

  lemma DivMul(a: real, b: real, c: real)
    requires b > 0.0
    ensures a / b <= c <==> a <= c * b
  {
  }

  /** A wait of ms milliseconds gains `amount` exactly when ms reaches the rounded-up quotient. */
  lemma GainReaches(refill: real, amount: real, ms: int)
    requires refill > 0.0
    ensures Gain(refill, ms) >= amount <==> ms >= Ceil(amount / refill * 1000.0)
  {
    CeilLeast(amount / refill * 1000.0, ms);
    DivMul(amount, refill, ms as real / 1000.0);
  }

  // ---- the wait is exact --------------------------------------------------------------------------------

  /** A denied call hides nothing from the next one: the bucket refills as if the call had not happened. */
  lemma DenialIsTransparent(cfg: Config, b: Option<Bucket>, s: int, t: int, cost: real)
    requires cfg.refillPerSec >= 0.0
    requires b.Some? ==> b.value.ts <= s
    requires s <= t && Step(cfg, b, s, cost).0.Denied?
    ensures Refilled(cfg, Some(Step(cfg, b, s, cost).1), t) == Refilled(cfg, b, t)
  {
  }

  /** Calls made at nondecreasing times, not before `from`. */
  ghost predicate Ordered(times: seq<int>, from: int) {
    times == [] || (from <= times[0] && Ordered(times[1..], times[0]))
  }

  function StateAfter(cfg: Config, b: Option<Bucket>, times: seq<int>, cost: real): Option<Bucket>
    decreases times
  {
    if times == [] then b else StateAfter(cfg, Some(Step(cfg, b, times[0], cost).1), times[1..], cost)
  }

  function Verdicts(cfg: Config, b: Option<Bucket>, times: seq<int>, cost: real): seq<Verdict>
    decreases times
  {
    if times == [] then []
    else
      var (v, b') := Step(cfg, b, times[0], cost);
      [v] + Verdicts(cfg, Some(b'), times[1..], cost)
  }

  ghost predicate AllDenied(cfg: Config, b: Option<Bucket>, times: seq<int>, cost: real)
    decreases times
  {
    times == [] || (Step(cfg, b, times[0], cost).0.Denied?
                    && AllDenied(cfg, Some(Step(cfg, b, times[0], cost).1), times[1..], cost))
  }

  lemma {:induction false} DenialsAreTransparent(cfg: Config, b: Option<Bucket>, times: seq<int>, from: int, t: int,
      cost: real)
    requires cfg.refillPerSec >= 0.0
    requires b.Some? ==> b.value.ts <= from
    requires Ordered(times, from) && from <= t && (forall x :: x in times ==> x <= t)
    requires AllDenied(cfg, b, times, cost)
    ensures Refilled(cfg, StateAfter(cfg, b, times, cost), t) == Refilled(cfg, b, t)
    decreases |times|
  {
    if times != [] {
      var b' := Some(Step(cfg, b, times[0], cost).1);
      assert times[0] in times && forall x :: x in times[1..] ==> x in times;
      DenialIsTransparent(cfg, b, times[0], t, cost);
      DenialsAreTransparent(cfg, b', times[1..], times[0], t, cost);
    }
  }

  /** After a denial at `now`, whatever further denied calls happen in between, a call is admitted at t exactly
      when the announced wait is over. */
  lemma RetryIsExact(cfg: Config, b: Option<Bucket>, now: int, times: seq<int>, t: int, cost: real)
    requires cfg.refillPerSec > 0.0 && cost <= cfg.capacity
    requires b.Some? ==> b.value.ts <= now
    requires Step(cfg, b, now, cost).0.Denied?
    requires Ordered(times, now) && now <= t && (forall x :: x in times ==> x <= t)
    requires AllDenied(cfg, Some(Step(cfg, b, now, cost).1), times, cost)
    ensures Step(cfg, b, now, cost).0.retry.After?
    ensures Step(cfg, StateAfter(cfg, Some(Step(cfg, b, now, cost).1), times, cost), t, cost).0.Allowed?
       <==> t - now >= Step(cfg, b, now, cost).0.retry.ms
  {
    var b' := Step(cfg, b, now, cost).1;
    DenialsAreTransparent(cfg, Some(b'), times, now, t, cost);
    GainReaches(cfg.refillPerSec, cost - b'.tokens, t - now);
  }

  /** A cost above the capacity is never admitted, whatever the wait. */
  lemma AboveCapacityNever(cfg: Config, b: Option<Bucket>, now: int, cost: real)
    requires cost > cfg.capacity
    ensures Step(cfg, b, now, cost).0.Denied?
  {
  }

  // ---- the rate is bounded ------------------------------------------------------------------------------

  function Count(vs: seq<Verdict>): nat {
    if vs == [] then 0 else (if vs[0].Allowed? then 1 else 0) + Count(vs[1..])
  }

  /** The time that passed over the calls; steps backwards count as nothing. */
  function Drift(times: seq<int>): int {
    if |times| <= 1 then 0 else Max(0, times[1] - times[0]) + Drift(times[1..])
  }

  lemma {:induction false} DriftOfOrdered(times: seq<int>, from: int)
    requires times != [] && Ordered(times, from)
    ensures Drift(times) == times[|times| - 1] - times[0]
  {
    if |times| > 1 {
      DriftOfOrdered(times[1..], times[0]);
    }
  }

  /** The tokens at hand, plus the refill over the elapsed time, pay for every admitted call. */
  lemma {:induction false} TokensPay(cfg: Config, b: Option<Bucket>, times: seq<int>)
    requires cfg.refillPerSec >= 0.0 && times != []
    ensures Count(Verdicts(cfg, b, times, 1.0)) as real
         <= MaxReal(0.0, Refilled(cfg, b, times[0])) + Gain(cfg.refillPerSec, Drift(times))
    decreases times
  {
    var (v, b') := Step(cfg, b, times[0], 1.0);
    var rest := Verdicts(cfg, Some(b'), times[1..], 1.0);
    assert Verdicts(cfg, b, times, 1.0)[1..] == rest;
    if |times| > 1 {
      TokensPay(cfg, Some(b'), times[1..]);
      GainAdds(cfg.refillPerSec, Max(0, times[1] - times[0]), Drift(times[1..]));
      GainGrows(cfg.refillPerSec, 0, Max(0, times[1] - times[0]));
    }
  }

  function MaxReal(a: real, b: real): real {
    if a > b then a else b
  }

  lemma {:induction false} VerdictsLength(cfg: Config, b: Option<Bucket>, times: seq<int>, cost: real)
    ensures |Verdicts(cfg, b, times, cost)| == |times|
    decreases |times|
  {
    if times != [] {
      VerdictsLength(cfg, Some(Step(cfg, b, times[0], cost).1), times[1..], cost);
    }
  }

  lemma {:induction false} VerdictsSuffix(cfg: Config, b: Option<Bucket>, times: seq<int>, i: nat, cost: real)
    requires i <= |times|
    ensures |Verdicts(cfg, b, times, cost)| == |times|
    ensures Verdicts(cfg, b, times, cost)[i..] == Verdicts(cfg, StateAfter(cfg, b, times[..i], cost), times[i..], cost)
    decreases |times|
  {
    if i == 0 {
      assert times[..i] == [] && times[i..] == times;
      VerdictsLength(cfg, b, times, cost);
    } else {
      var b' := Some(Step(cfg, b, times[0], cost).1);
      VerdictsSuffix(cfg, b', times[1..], i - 1, cost);
      assert times[..i][1..] == times[1..][..i - 1] && times[1..][i - 1..] == times[i..];
      assert Verdicts(cfg, b, times, cost)[1..] == Verdicts(cfg, b', times[1..], cost);
    }
  }

  lemma {:induction false} VerdictsPrefix(cfg: Config, b: Option<Bucket>, times: seq<int>, n: nat, cost: real)
    requires n <= |times|
    ensures |Verdicts(cfg, b, times, cost)| == |times|
    ensures Verdicts(cfg, b, times, cost)[..n] == Verdicts(cfg, b, times[..n], cost)
    decreases |times|
  {
    if times != [] {
      var b' := Some(Step(cfg, b, times[0], cost).1);
      VerdictsPrefix(cfg, b', times[1..], if n == 0 then 0 else n - 1, cost);
      if n > 0 {
        assert times[..n][1..] == times[1..][..n - 1];
      }
    }
  }

  /** Between any two calls of any run, at most capacity + refill * elapsed calls are admitted, where a clock
      that steps back adds nothing to the elapsed time. */
  lemma RateBound(cfg: Config, b: Option<Bucket>, times: seq<int>, i: nat, j: nat)
    requires cfg.refillPerSec >= 0.0 && cfg.capacity >= 0.0 && i <= j < |times|
    ensures |Verdicts(cfg, b, times, 1.0)| == |times|
    ensures Count(Verdicts(cfg, b, times, 1.0)[i..j + 1]) as real
         <= cfg.capacity + Gain(cfg.refillPerSec, Drift(times[i..j + 1]))
  {
    VerdictsPrefix(cfg, b, times, j + 1, 1.0);
    VerdictsSuffix(cfg, b, times[..j + 1], i, 1.0);
    assert times[..j + 1][i..] == times[i..j + 1];
    assert Verdicts(cfg, b, times, 1.0)[i..j + 1] == Verdicts(cfg, b, times, 1.0)[..j + 1][i..];
    TokensPay(cfg, StateAfter(cfg, b, times[..j + 1][..i], 1.0), times[i..j + 1]);
  }

  /** With nondecreasing times the elapsed time is the difference of the two call times. */
  lemma RateBoundOrdered(cfg: Config, b: Option<Bucket>, times: seq<int>, i: nat, j: nat)
    requires cfg.refillPerSec >= 0.0 && cfg.capacity >= 0.0 && i <= j < |times|
    requires forall k :: 0 <= k < |times| - 1 ==> times[k] <= times[k + 1]
    ensures |Verdicts(cfg, b, times, 1.0)| == |times|
    ensures Count(Verdicts(cfg, b, times, 1.0)[i..j + 1]) as real
         <= cfg.capacity + Gain(cfg.refillPerSec, times[j] - times[i])
  {
    RateBound(cfg, b, times, i, j);
    OrderedSlice(times[i..j + 1]);
    DriftOfOrdered(times[i..j + 1], times[i]);
  }

  lemma {:induction false} OrderedSlice(times: seq<int>)
    requires times != [] && forall k :: 0 <= k < |times| - 1 ==> times[k] <= times[k + 1]
    ensures Ordered(times, times[0])
  {
    if |times| > 1 {
      forall k | 0 <= k < |times| - 2 ensures times[1..][k] <= times[1..][k + 1] {
        assert times[k + 1] <= times[k + 2];
      }
      OrderedSlice(times[1..]);
      assert times[0] <= times[1];
    }
  }

  // ---- expiry is invisible ------------------------------------------------------------------------------

  /** The answers of a store that drops a key ttl milliseconds after its last call. */
  function ExpiringVerdicts(cfg: Config, e: Option<Entry>, times: seq<int>, cost: real): seq<Verdict>
    decreases times
  {
    if times == [] then []
    else
      var (v, b') := Step(cfg, Visible(e, times[0]), times[0], cost);
      [v] + ExpiringVerdicts(cfg, Some(Entry(b', times[0] + TtlMs(cfg))), times[1..], cost)
  }

  /** The entry was written by a call of this bucket: tokens are not negative, and the TTL runs from its stamp. */
  ghost predicate Written(cfg: Config, e: Entry) {
    0.0 <= e.bucket.tokens && e.expiresAt == e.bucket.ts + TtlMs(cfg)
  }

  /** No bucket idle for the TTL can be told from a full one. */
  ghost predicate ExpiryUnseen(cfg: Config) {
    forall tokens: real, ts: int, now: int ::
      0.0 <= tokens <= cfg.capacity && now >= ts + TtlMs(cfg) ==>
          Refilled(cfg, Some(Bucket(tokens, ts)), now) == cfg.capacity
  }

  /** Expiry is unseen exactly when an empty bucket refills within the TTL. */
  lemma ExpiryUnseenIff(cfg: Config)
    requires cfg.refillPerSec >= 0.0 && cfg.capacity >= 0.0
    ensures ExpiryUnseen(cfg) <==> Gain(cfg.refillPerSec, TtlMs(cfg)) >= cfg.capacity
  {
    TtlPositive(cfg);
    if ExpiryUnseen(cfg) {
      assert Refilled(cfg, Some(Bucket(0.0, 0)), TtlMs(cfg)) == cfg.capacity;
    }
    if Gain(cfg.refillPerSec, TtlMs(cfg)) >= cfg.capacity {
      forall tokens: real, ts: int, now: int | 0.0 <= tokens <= cfg.capacity && now >= ts + TtlMs(cfg)
        ensures Refilled(cfg, Some(Bucket(tokens, ts)), now) == cfg.capacity
      {
        GainGrows(cfg.refillPerSec, TtlMs(cfg), Max(0, now - ts));
      }
    }
  }

  lemma TtlPositive(cfg: Config)
    requires cfg.capacity >= 0.0
    ensures TtlMs(cfg) >= 60_000
  {
  }

  lemma FastRefillFits(cfg: Config)
    requires cfg.refillPerSec >= 0.0001 && cfg.capacity >= 0.0
    ensures Gain(cfg.refillPerSec, TtlMs(cfg)) >= cfg.capacity
  {
  }

  /** For a refill of at least 0.0001 per second, dropping idle keys changes no answer of any run. */
  lemma {:induction false} ExpiryChangesNothing(cfg: Config, e: Option<Entry>, times: seq<int>, cost: real)
    requires cfg.refillPerSec >= 0.0001 && cfg.capacity >= 0.0 && cost >= 0.0
    requires e.Some? ==> Written(cfg, e.value) && e.value.bucket.tokens <= cfg.capacity
    ensures ExpiringVerdicts(cfg, e, times, cost)
         == Verdicts(cfg, if e.Some? then Some(e.value.bucket) else None, times, cost)
    decreases |times|
  {
    if times != [] {
      var b := if e.Some? then Some(e.value.bucket) else None;
      var now := times[0];
      FastRefillFits(cfg);
      ExpiryUnseenIff(cfg);
      assert Refilled(cfg, Visible(e, now), now) == Refilled(cfg, b, now);
      if b.Some? {
        GainGrows(cfg.refillPerSec, 0, Max(0, now - b.value.ts));
      }
      ExpiryChangesNothing(cfg, Some(Entry(Step(cfg, b, now, cost).1, now + TtlMs(cfg))), times[1..], cost);
    }
  }

  /** Without a refill the second of two calls is refused for ever by the bucket, but admitted after expiry. */
  lemma ExpirySeenWithoutRefill()
    ensures var cfg := Config(1.0, 0.0);
            var times := [0, TtlMs(cfg)];
            && Verdicts(cfg, None, times, 1.0) == [Allowed, Denied(Never)]
            && ExpiringVerdicts(cfg, None, times, 1.0) == [Allowed, Allowed]
  {
    var cfg := Config(1.0, 0.0);
    var ttl := TtlMs(cfg);
    TtlPositive(cfg);
    var b0 := Bucket(0.0, 0);
    assert Step(cfg, None, 0, 1.0) == (Allowed, b0);
    assert Step(cfg, Some(b0), ttl, 1.0) == (Denied(Never), Bucket(0.0, ttl));
    assert Visible(Some(Entry(b0, ttl)), ttl) == None && Step(cfg, None, ttl, 1.0).0 == Allowed;
    assert [0, ttl][1..] == [ttl] && [ttl][1..] == [];
    assert Verdicts(cfg, Some(b0), [ttl], 1.0) == [Denied(Never)];
    assert ExpiringVerdicts(cfg, Some(Entry(b0, ttl)), [ttl], 1.0) == [Allowed];
  }
}
