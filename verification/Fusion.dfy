/** Confidence fusion over the strongest sighting per source (cascade/db/src/fusion.ts). */
module Fusion {
  import opened Prelude

  const DAMPENING: real := 0.8

  datatype SourceId = SourceId(name: string)

  datatype Sighting = Sighting(sourceId: SourceId, confidence: real)

  /** Every confidence is a probability. */
  ghost predicate Probabilities(ss: seq<Sighting>) {
    forall s :: s in ss ==> 0.0 <= s.confidence <= 1.0
  }

  ghost function Sources(ss: seq<Sighting>): set<SourceId> {
    set s | s in ss :: s.sourceId
  }

  /** m holds, for each source of ss, the largest confidence that source reported. */
  ghost predicate StrongestPerSource(m: map<SourceId, real>, ss: seq<Sighting>) {
    && m.Keys == Sources(ss)
    && (forall s :: s in ss ==> s.confidence <= m[s.sourceId])
    && (forall k :: k in m ==> Sighting(k, m[k]) in ss)
  }

  /** Per source, the chance that it is wrong once its confidence is dampened. */
  ghost function Doubts(best: map<SourceId, real>, gamma: real): map<SourceId, real> {
    map k | k in best :: Doubt(best[k], gamma)
  }

  function Doubt(confidence: real, gamma: real): real {
    1.0 - gamma * confidence
  }

  /** The product of the doubts of the listed sources. */
  ghost function Survival(keys: seq<SourceId>, doubt: map<SourceId, real>): real
    requires forall k :: k in keys ==> k in doubt
  {
    if keys == [] then 1.0
    else
      var last := |keys| - 1;
      Survival(keys[..last], doubt) * doubt[keys[last]]
  }

  /** Math.round(x * 1000): half a thousandth rounds up. */
  function Milli(x: real): int {
    (x * 1000.0 + 0.5).Floor
  }

  function RoundMilli(x: real): real {
    Milli(x) as real / 1000.0
  }

  /** keys lists the sources of best, each once. */
  ghost predicate Enumerates(keys: seq<SourceId>, best: map<SourceId, real>) {
    Distinct(keys) && Elems(keys) == best.Keys
  }

  /** The fused value along one listing of the sources: one minus the product of the doubts. */
  ghost function FusedAlong(keys: seq<SourceId>, best: map<SourceId, real>, gamma: real): real
    requires Enumerates(keys, best)
  {
    Listed(keys, best);
    1.0 - Survival(keys, Doubts(best, gamma))
  }

  lemma Listed(keys: seq<SourceId>, best: map<SourceId, real>)
    requires Enumerates(keys, best)
    ensures forall k :: k in keys <==> k in best
  {
  }

  ghost predicate IsFusionAlong(r: real, ss: seq<Sighting>, gamma: real, keys: seq<SourceId>, best: map<SourceId,
      real>) {
    && Enumerates(keys, best)
    && StrongestPerSource(best, ss)
    && r == RoundMilli(FusedAlong(keys, best, gamma))
  }

  /** r is the rounded noisy-OR of ss. */
  ghost predicate IsFusion(r: real, ss: seq<Sighting>, gamma: real) {
    exists keys, best :: IsFusionAlong(r, ss, gamma, keys, best)
  }

  /** The source's map keeps insertion order, so its key list is kept beside it. */
  method FuseConfidence(sightings: seq<Sighting>, gamma: real) returns (r: real)
    ensures IsFusion(r, sightings, gamma)
  {
    var keys: seq<SourceId> := [];
    var strongest: map<SourceId, real> := map[];
    for i := 0 to |sightings|
      invariant Enumerates(keys, strongest)
      invariant StrongestPerSource(strongest, sightings[..i])
    {
      var s := sightings[i];
      assert sightings[..i + 1] == sightings[..i] + [s];
      StrongestStep(strongest, sightings[..i], s);
      EnumeratesStep(keys, strongest, s.sourceId, s.confidence);
      if s.sourceId !in strongest {
        keys := keys + [s.sourceId];
        strongest := strongest[s.sourceId := s.confidence];
      } else if s.confidence > strongest[s.sourceId] {
        strongest := strongest[s.sourceId := s.confidence];
      }
    }
    assert sightings[..|sightings|] == sightings;
    Listed(keys, strongest);
    var survival := Multiply(keys, strongest, gamma);
    r := RoundMilli(1.0 - survival);
    assert IsFusionAlong(r, sightings, gamma, keys, strongest);
  }

  /** Assigning to a key of the map keeps its listing, or appends to it. */
  lemma EnumeratesStep(keys: seq<SourceId>, m: map<SourceId, real>, k: SourceId, v: real)
    requires Enumerates(keys, m)
    ensures Enumerates(if k in m then keys else keys + [k], m[k := v])
  {
  }

  lemma StrongestStep(m: map<SourceId, real>, ss: seq<Sighting>, s: Sighting)
    requires StrongestPerSource(m, ss)
    ensures StrongestPerSource(
              if s.sourceId !in m || s.confidence > m[s.sourceId] then m[s.sourceId := s.confidence] else m,
              ss + [s])
  {
  }

  /** The loop over the map's values. */
  method Multiply(keys: seq<SourceId>, best: map<SourceId, real>, gamma: real) returns (survival: real)
    requires forall k :: k in keys ==> k in best
    ensures survival == Survival(keys, Doubts(best, gamma))
  {
    survival := 1.0;
    for i := 0 to |keys|
      invariant survival == Survival(keys[..i], Doubts(best, gamma))
    {
      assert keys[..i + 1][..i] == keys[..i];
      survival := survival * (1.0 - gamma * best[keys[i]]);
    }
    assert keys[..|keys|] == keys;
  }

  // ---- one value, whatever the order -----------------------------------------------------------------

  lemma StrongestIsUnique(ss: seq<Sighting>, tt: seq<Sighting>, m: map<SourceId, real>, n: map<SourceId, real>)
    requires Elems(ss) == Elems(tt)
    requires StrongestPerSource(m, ss) && StrongestPerSource(n, tt)
    ensures m == n
  {
    assert forall s :: s in ss <==> s in Elems(ss);
    assert forall s :: s in tt <==> s in Elems(tt);
    assert m.Keys == n.Keys;
    forall k | k in m ensures m[k] == n[k] {
      assert Sighting(k, m[k]) in tt && Sighting(k, n[k]) in ss;
    }
  }

  function Without(keys: seq<SourceId>, i: nat): seq<SourceId>
    requires i < |keys|
  {
    keys[..i] + keys[i + 1..]
  }

  /** Folding an operation over the factors; Survival is the case of multiplication. */
  function Folded(keys: seq<SourceId>, doubt: map<SourceId, real>, op: (real, real) -> real): real
    requires forall k :: k in keys ==> k in doubt
  {
    if keys == [] then 1.0 else op(Folded(keys[..|keys| - 1], doubt, op), doubt[keys[|keys| - 1]])
  }

  /** Two factors applied one after the other may change places. */
  ghost predicate Swaps(op: (real, real) -> real) {
    forall x, y, z :: SwapsAt(op, x, y, z)
  }

  predicate SwapsAt(op: (real, real) -> real, x: real, y: real, z: real) {
    op(op(x, y), z) == op(op(x, z), y)
  }

  ghost predicate IsTimes(op: (real, real) -> real) {
    forall x, y :: op(x, y) == x * y
  }

  lemma TimesSwaps(op: (real, real) -> real)
    requires IsTimes(op)
    ensures Swaps(op)
  {
  }

  lemma {:induction false} SurvivalIsFold(keys: seq<SourceId>, doubt: map<SourceId, real>, op: (real, real) -> real)
    requires IsTimes(op) && forall k :: k in keys ==> k in doubt
    ensures Survival(keys, doubt) == Folded(keys, doubt, op)
  {
    if keys != [] {
      SurvivalIsFold(keys[..|keys| - 1], doubt, op);
    }
  }

  lemma Append(keys: seq<SourceId>, front: seq<SourceId>, k: SourceId, doubt: map<SourceId, real>,
      op: (real, real) -> real)
    requires keys == front + [k]
    requires forall x :: x in keys ==> x in doubt
    ensures Folded(keys, doubt, op) == op(Folded(front, doubt, op), doubt[k])
  {
  }

  lemma WithoutSnoc(front: seq<SourceId>, k: SourceId, i: nat)
    requires i < |front|
    ensures Without(front + [k], i) == Without(front, i) + [k]
  {
  }

  /** A factor can be pulled out of the fold from any position. */
  lemma {:induction false} PullOut(keys: seq<SourceId>, i: nat, doubt: map<SourceId, real>, op: (real, real) -> real)
    requires Swaps(op) && i < |keys| && forall k :: k in keys ==> k in doubt
    ensures forall k :: k in Without(keys, i) ==> k in doubt
    ensures Folded(keys, doubt, op) == op(Folded(Without(keys, i), doubt, op), doubt[keys[i]])
  {
    var last := |keys| - 1;
    var front, k := keys[..last], keys[last];
    assert keys == front + [k];
    Append(keys, front, k, doubt, op);
    if i == last {
      assert Without(keys, i) == front;
    } else {
      var rest, inner := Without(keys, i), Without(front, i);
      WithoutSnoc(front, k, i);
      PullOut(front, i, doubt, op);
      Append(rest, inner, k, doubt, op);
      assert SwapsAt(op, Folded(inner, doubt, op), doubt[keys[i]], doubt[k]);
    }
  }

  lemma WithoutElems(ks: seq<SourceId>, i: nat)
    requires Distinct(ks) && i < |ks|
    ensures Distinct(Without(ks, i)) && Elems(Without(ks, i)) == Elems(ks) - {ks[i]}
  {
  }

  lemma {:induction false} FoldIgnoresOrder(ks: seq<SourceId>, ls: seq<SourceId>, doubt: map<SourceId, real>,
                                            op: (real, real) -> real)
    requires Swaps(op) && Distinct(ks) && Distinct(ls) && Elems(ks) == Elems(ls)
    requires forall k :: k in ks ==> k in doubt
    ensures forall k :: k in ls ==> k in doubt
    ensures Folded(ks, doubt, op) == Folded(ls, doubt, op)
    decreases |ks|
  {
    assert forall k :: k in ks <==> k in Elems(ks);
    assert forall k :: k in ls <==> k in Elems(ls);
    if ks == [] {
      assert Elems(ls) == {};
    } else {
      var last := |ks| - 1;
      assert ks[last] in Elems(ls);
      var i :| 0 <= i < |ls| && ls[i] == ks[last];
      PullOut(ls, i, doubt, op);
      WithoutElems(ls, i);
      WithoutElems(ks, last);
      assert Without(ks, last) == ks[..last];
      FoldIgnoresOrder(ks[..last], Without(ls, i), doubt, op);
    }
  }

  lemma SurvivalIgnoresOrder(ks: seq<SourceId>, ls: seq<SourceId>, doubt: map<SourceId, real>)
    requires Distinct(ks) && Distinct(ls) && Elems(ks) == Elems(ls)
    requires forall k :: k in ks ==> k in doubt
    ensures forall k :: k in ls ==> k in doubt
    ensures Survival(ks, doubt) == Survival(ls, doubt)
  {
    var op := (x: real, y: real) => x * y;
    TimesSwaps(op);
    FoldIgnoresOrder(ks, ls, doubt, op);
    SurvivalIsFold(ks, doubt, op);
    SurvivalIsFold(ls, doubt, op);
  }

  lemma FusedAlongAgrees(ks: seq<SourceId>, ls: seq<SourceId>, best: map<SourceId, real>, gamma: real)
    requires Enumerates(ks, best) && Enumerates(ls, best)
    ensures FusedAlong(ks, best, gamma) == FusedAlong(ls, best, gamma)
  {
    Listed(ks, best);
    SurvivalIgnoresOrder(ks, ls, Doubts(best, gamma));
  }

  /** The fused value depends only on the set of sightings: not on their order or their repetition. */
  lemma FusionDependsOnTheSet(ss: seq<Sighting>, tt: seq<Sighting>, gamma: real, r: real, q: real)
    requires Elems(ss) == Elems(tt)
    requires IsFusion(r, ss, gamma) && IsFusion(q, tt, gamma)
    ensures r == q
  {
    var ks, m :| IsFusionAlong(r, ss, gamma, ks, m);
    var ls, n :| IsFusionAlong(q, tt, gamma, ls, n);
    assert m == n by {
      StrongestIsUnique(ss, tt, m, n);
    }
    FusedAlongAgrees(ks, ls, m, gamma);
  }

  // ---- range and monotonicity ------------------------------------------------------------------------

  lemma Shrink(p: real, f: real)
    requires 0.0 <= p <= 1.0 && 0.0 <= f <= 1.0
    ensures 0.0 <= p * f <= p
  {
  }

  /** A product does not grow when both factors shrink. */
  lemma ShrinkBoth(p: real, f: real, q: real, g: real)
    requires 0.0 <= q <= p <= 1.0 && 0.0 <= g <= f <= 1.0
    ensures 0.0 <= q * g <= p * f <= 1.0
  {
    Shrink(p, f);
    Shrink(q, g);
    Scale(q, f - g);
    Scale(f, p - q);
    assert q * f - q * g == q * (f - g);
    assert p * f - q * f == f * (p - q);
  }

  lemma Scale(x: real, y: real)
    requires 0.0 <= x && 0.0 <= y
    ensures 0.0 <= x * y
  {
  }

  lemma DoubtFalls(c: real, d: real, gamma: real)
    requires 0.0 <= gamma <= 1.0 && 0.0 <= c <= d <= 1.0
    ensures 0.0 <= Doubt(d, gamma) <= Doubt(c, gamma) <= 1.0
  {
    ShrinkBoth(gamma, d, gamma, c);
  }

  lemma DoubtsFall(m: map<SourceId, real>, n: map<SourceId, real>, gamma: real)
    requires 0.0 <= gamma <= 1.0
    requires forall k :: k in m ==> k in n && 0.0 <= m[k] <= n[k] <= 1.0
    ensures forall k :: k in m ==> 0.0 <= Doubts(n, gamma)[k] <= Doubts(m, gamma)[k] <= 1.0
  {
    forall k | k in m ensures 0.0 <= Doubts(n, gamma)[k] <= Doubts(m, gamma)[k] <= 1.0 {
      DoubtFalls(m[k], n[k], gamma);
    }
  }

  lemma RoundMilliMonotone(x: real, y: real)
    requires x <= y
    ensures RoundMilli(x) <= RoundMilli(y)
  {
    assert Milli(x) <= Milli(y);
    Thousandths(Milli(x), Milli(y));
  }

  lemma Thousandths(m: int, n: int)
    requires m <= n
    ensures m as real / 1000.0 <= n as real / 1000.0
  {
  }

  /** Smaller doubts, smaller product. */
  lemma {:induction false} SurvivalFalls(keys: seq<SourceId>, d: map<SourceId, real>, e: map<SourceId, real>)
    requires forall k :: k in keys ==> k in d && k in e && 0.0 <= e[k] <= d[k] <= 1.0
    ensures 0.0 <= Survival(keys, e) <= Survival(keys, d) <= 1.0
  {
    if keys != [] {
      var last := |keys| - 1;
      SurvivalFalls(keys[..last], d, e);
      ShrinkBoth(Survival(keys[..last], d), d[keys[last]], Survival(keys[..last], e), e[keys[last]]);
    }
  }

  lemma StrongestInRange(m: map<SourceId, real>, ss: seq<Sighting>)
    requires Probabilities(ss) && StrongestPerSource(m, ss)
    ensures forall k :: k in m ==> 0.0 <= m[k] <= 1.0
  {
  }

  /** The fused confidence is itself a probability. */
  lemma FusionIsAProbability(ss: seq<Sighting>, gamma: real, r: real)
    requires 0.0 <= gamma <= 1.0 && Probabilities(ss) && IsFusion(r, ss, gamma)
    ensures 0.0 <= r <= 1.0
  {
    var ks, m :| IsFusionAlong(r, ss, gamma, ks, m);
    StrongestInRange(m, ss);
    Listed(ks, m);
    DoubtsFall(m, m, gamma);
    var p := Survival(ks, Doubts(m, gamma));
    SurvivalFalls(ks, Doubts(m, gamma), Doubts(m, gamma));
    RoundMilliMonotone(0.0, 1.0 - p);
    RoundMilliMonotone(1.0 - p, 1.0);
    assert Milli(0.0) == 0 && Milli(1.0) == 1000;
  }

  /** Adding a sighting adds its source, or raises that source's strongest value, and touches no other. */
  lemma StrongestGrows(m: map<SourceId, real>, ss: seq<Sighting>, n: map<SourceId, real>, s: Sighting)
    requires Probabilities(ss + [s])
    requires StrongestPerSource(m, ss) && StrongestPerSource(n, ss + [s])
    ensures n.Keys == m.Keys + {s.sourceId} && 0.0 <= n[s.sourceId] <= 1.0
    ensures forall k :: k in m ==> 0.0 <= m[k] <= n[k] <= 1.0
    ensures s.sourceId in m && s.confidence <= m[s.sourceId] ==> n == m
  {
    StrongestStep(m, ss, s);
    var m' := if s.sourceId !in m || s.confidence > m[s.sourceId] then m[s.sourceId := s.confidence] else m;
    StrongestIsUnique(ss + [s], ss + [s], m', n);
    StrongestInRange(n, ss + [s]);
    forall k | k in m ensures 0.0 <= m[k] {
      assert Sighting(k, m[k]) in ss + [s];
    }
  }

  lemma OneMoreSource(ks: seq<SourceId>, k: SourceId, doubt: map<SourceId, real>)
    requires forall x :: x in ks + [k] ==> x in doubt && 0.0 <= doubt[x] <= 1.0
    ensures Survival(ks + [k], doubt) <= Survival(ks, doubt)
  {
    assert k in ks + [k] && forall x :: x in ks ==> x in ks + [k];
    var p, f := Survival(ks, doubt), doubt[k];
    assert (ks + [k])[..|ks|] == ks;
    SurvivalFalls(ks, doubt, doubt);
    assert Survival(ks + [k], doubt) == p * f;
    Shrink(p, f);
    assert p * f <= p;
  }

  /** With stronger, or more, sources the fused value does not fall. */
  lemma FusedAlongRises(ks: seq<SourceId>, m: map<SourceId, real>, ls: seq<SourceId>, n: map<SourceId, real>,
      k: SourceId, gamma: real)
    requires 0.0 <= gamma <= 1.0
    requires Enumerates(ks, m) && Enumerates(ls, n) && n.Keys == m.Keys + {k} && 0.0 <= n[k] <= 1.0
    requires forall x :: x in m ==> 0.0 <= m[x] <= n[x] <= 1.0
    ensures FusedAlong(ks, m, gamma) <= FusedAlong(ls, n, gamma)
  {
    Listed(ks, m);
    Listed(ls, n);
    DoubtsFall(m, n, gamma);
    DoubtsFall(n, n, gamma);
    SurvivalFalls(ks, Doubts(m, gamma), Doubts(n, gamma));
    MoreSourcesShrink(ks, ls, k, Doubts(n, gamma));
  }

  /** A listing with one source more, or the same, has a product that is no larger. */
  lemma MoreSourcesShrink(ks: seq<SourceId>, ls: seq<SourceId>, k: SourceId, e: map<SourceId, real>)
    requires Distinct(ks) && Distinct(ls) && Elems(ls) == Elems(ks) + {k}
    requires forall x :: x in ls ==> x in e && 0.0 <= e[x] <= 1.0
    ensures forall x :: x in ks ==> x in e
    ensures Survival(ls, e) <= Survival(ks, e)
  {
    assert forall x :: x in ls <==> x in Elems(ls);
    assert forall x :: x in ks <==> x in Elems(ks);
    if k in ks {
      assert Elems(ls) == Elems(ks);
      SurvivalIgnoresOrder(ls, ks, e);
    } else {
      assert Elems(ks + [k]) == Elems(ks) + {k};
      SurvivalIgnoresOrder(ls, ks + [k], e);
      OneMoreSource(ks, k, e);
    }
  }

  /** One more sighting never lowers the fused value; a weaker repeat of a known source leaves it unchanged. */
  lemma NewEvidence(ss: seq<Sighting>, s: Sighting, gamma: real, r: real, q: real)
    requires 0.0 <= gamma <= 1.0 && Probabilities(ss + [s])
    requires IsFusion(r, ss, gamma) && IsFusion(q, ss + [s], gamma)
    ensures r <= q
    ensures (exists t :: t in ss && t.sourceId == s.sourceId && s.confidence <= t.confidence) ==> r == q
  {
    var ks, m :| IsFusionAlong(r, ss, gamma, ks, m);
    var ls, n :| IsFusionAlong(q, ss + [s], gamma, ls, n);
    assert StrongestPerSource(m, ss);
    StrongestGrows(m, ss, n, s);
    FusedAlongRises(ks, m, ls, n, s.sourceId, gamma);
    RoundMilliMonotone(FusedAlong(ks, m, gamma), FusedAlong(ls, n, gamma));
    if t :| t in ss && t.sourceId == s.sourceId && s.confidence <= t.confidence {
      FusedAlongAgrees(ks, ls, m, gamma);
    }
  }
}
