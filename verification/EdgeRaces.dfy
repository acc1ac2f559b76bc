/** Attestations of one edge as the three statements they are, in any interleaving: the insert, the select whose rows
    are fused, and the update (cascade/db/src/edges.ts). */
module EdgeRaces {
  import opened Prelude
  import opened Fusion

  /** A fused value on its way to the row; of is history: how many sightings the select returned. */
  datatype Reading = Reading(fused: real, of: nat)

  /** The log of one edge, what each caller has read, and the stored confidence. writtenFrom is history: how many
      sightings were behind the last update. */
  datatype Race = Race(log: seq<Sighting>, readings: map<nat, Reading>, stored: real, writtenFrom: Option<nat>)

  datatype Statement = Insert(sighting: Sighting) | Select(caller: nat) | Update(caller: nat)

  lemma {:induction false} StrongestExists(ss: seq<Sighting>) returns (keys: seq<SourceId>, best: map<SourceId, real>)
    ensures Enumerates(keys, best) && StrongestPerSource(best, ss)
    decreases |ss|
  {
    if ss == [] {
      keys, best := [], map[];
    } else {
      var front, s := ss[..|ss| - 1], ss[|ss| - 1];
      assert ss == front + [s];
      var ks, m := StrongestExists(front);
      StrongestStep(m, front, s);
      EnumeratesStep(ks, m, s.sourceId, s.confidence);
      keys := if s.sourceId in m then ks else ks + [s.sourceId];
      best := if s.sourceId !in m || s.confidence > m[s.sourceId] then m[s.sourceId := s.confidence] else m;
    }
  }

  lemma FusionExists(ss: seq<Sighting>)
    ensures exists r :: IsFusion(r, ss, DAMPENING)
  {
    var keys, best := StrongestExists(ss);
    var r := RoundMilli(FusedAlong(keys, best, DAMPENING));
    assert IsFusionAlong(r, ss, DAMPENING, keys, best);
    assert IsFusion(r, ss, DAMPENING);
  }

  /** The fusion of ss; there is one, and FusionDependsOnTheSet says only one. */
  ghost function Fused(ss: seq<Sighting>): real {
    FusionExists(ss);
    var r :| IsFusion(r, ss, DAMPENING);
    r
  }

  ghost function Step(s: Race, e: Statement): Race {
    match e
    case Insert(sighting) => s.(log := s.log + [sighting])
    case Select(c) => s.(readings := s.readings[c := Reading(Fused(s.log), |s.log|)])
    case Update(c) =>
      if c !in s.readings then s
      else s.(readings := s.readings - {c}, stored := s.readings[c].fused, writtenFrom := Some(s.readings[c].of))
  }

  ghost function After(s: Race, es: seq<Statement>): Race
    decreases es
  {
    if es == [] then s else After(Step(s, es[0]), es[1..])
  }

  /** A new row. */
  function Start(initial: real): Race {
    Race([], map[], initial, None)
  }

  // ---- what an interleaving keeps ----------------------------------------------------------------------------

  ghost predicate FusionOfPrefix(fused: real, log: seq<Sighting>, n: nat) {
    n <= |log| && fused == Fused(log[..n])
  }

  /** What was read, and what is stored, is the fusion of a beginning of the log. */
  ghost predicate PrefixesOnly(s: Race) {
    && (forall c :: c in s.readings ==> FusionOfPrefix(s.readings[c].fused, s.log, s.readings[c].of))
    && (s.writtenFrom.Some? ==> FusionOfPrefix(s.stored, s.log, s.writtenFrom.value))
  }

  lemma PrefixStep(s: Race, e: Statement)
    requires PrefixesOnly(s)
    ensures PrefixesOnly(Step(s, e))
  {
    if e.Insert? {
      assert forall n: nat :: n <= |s.log| ==> (s.log + [e.sighting])[..n] == s.log[..n];
    } else if e.Select? {
      assert s.log[..|s.log|] == s.log;
    }
  }

  /** In every interleaving the stored confidence is the fusion of the sightings its update had read. */
  lemma {:induction false} StoredIsAFusion(s: Race, es: seq<Statement>)
    requires PrefixesOnly(s)
    ensures PrefixesOnly(After(s, es))
    decreases es
  {
    if es != [] {
      PrefixStep(s, es[0]);
      StoredIsAFusion(Step(s, es[0]), es[1..]);
    }
  }

  // ---- when it is the fusion of the whole log ------------------------------------------------------------------

  /** The same statements, with other sightings inserted. */
  ghost predicate SameSchedule(es: seq<Statement>, fs: seq<Statement>)
    decreases es
  {
    if es == [] || fs == [] then es == fs
    else (es[0] == fs[0] || (es[0].Insert? && fs[0].Insert?)) && SameSchedule(es[1..], fs[1..])
  }

  /** The column's check constraint. */
  ghost predicate InRange(es: seq<Statement>) {
    forall e :: e in es && e.Insert? ==> 0.0 <= e.sighting.confidence <= 1.0
  }

  /** Whatever is attested along this schedule, the row ends with the fusion of its log. */
  ghost predicate AlwaysCurrent(initial: real, es: seq<Statement>) {
    forall fs: seq<Statement> :: SameSchedule(es, fs) && InRange(fs) ==>
      After(Start(initial), fs).stored == Fused(After(Start(initial), fs).log)
  }

  /** Two runs of one schedule. */
  ghost predicate Alike(s: Race, t: Race) {
    && |s.log| == |t.log| && s.writtenFrom == t.writtenFrom && s.readings.Keys == t.readings.Keys
    && (forall c :: c in s.readings ==> s.readings[c].of == t.readings[c].of)
  }

  lemma {:induction false} RunsAlike(s: Race, es: seq<Statement>, t: Race, fs: seq<Statement>)
    requires Alike(s, t) && SameSchedule(es, fs)
    ensures Alike(After(s, es), After(t, fs))
    decreases es
  {
    if es != [] {
      RunsAlike(Step(s, es[0]), es[1..], Step(t, fs[0]), fs[1..]);
    }
  }

  /** One source, worthless up to the n-th sighting and certain from there. */
  function Sample(k: nat, n: nat): Sighting {
    Sighting(SourceId("source"), if k < n then 0.0 else 1.0)
  }

  function Samples(k: nat, n: nat): seq<Sighting> {
    seq(k, i requires 0 <= i => Sample(i, n))
  }

  /** The schedule with samples for its sightings, the first being number k. */
  function Sampled(es: seq<Statement>, k: nat, n: nat): seq<Statement>
    decreases es
  {
    if es == [] then []
    else if es[0].Insert? then [Insert(Sample(k, n))] + Sampled(es[1..], k + 1, n)
    else [es[0]] + Sampled(es[1..], k, n)
  }

  lemma {:induction false} SampledRun(s: Race, es: seq<Statement>, n: nat)
    requires s.log == Samples(|s.log|, n)
    ensures SameSchedule(es, Sampled(es, |s.log|, n)) && InRange(Sampled(es, |s.log|, n))
    ensures var t := After(s, Sampled(es, |s.log|, n)); t.log == Samples(|t.log|, n)
    decreases es
  {
    if es != [] {
      var k, e := |s.log|, es[0];
      if e.Insert? {
        var x := Step(s, Insert(Sample(k, n)));
        assert x.log == Samples(k + 1, n);
        SampledRun(x, es[1..], n);
        assert Sampled(es, k, n)[1..] == Sampled(es[1..], k + 1, n);
      } else {
        SampledRun(Step(s, e), es[1..], n);
        assert Sampled(es, k, n)[1..] == Sampled(es[1..], k, n);
      }
    }
  }

  /** The fused value of the samples tells whether a certain one is among them. */
  lemma SamplesFused(k: nat, n: nat)
    ensures Fused(Samples(k, n)) == if k <= n then 0.0 else 0.8
  {
    var ss, value := Samples(k, n), if k <= n then 0.0 else 0.8;
    if k == 0 {
      assert ss == [];
      NothingFused();
    } else {
      var best := if k <= n then 0.0 else 1.0;
      assert ss[k - 1] == Sighting(SourceId("source"), best);
      OneSourceFused(ss, SourceId("source"), best, value);
    }
    assert IsFusion(value, ss, DAMPENING);
    FusionExists(ss);
    FusionDependsOnTheSet(ss, ss, DAMPENING, value, Fused(ss));
  }

  lemma NothingFused()
    ensures IsFusion(0.0, [], DAMPENING)
  {
    var keys: seq<SourceId>, best: map<SourceId, real> := [], map[];
    assert Enumerates(keys, best) && StrongestPerSource(best, []);
    assert Milli(0.0) == 0;
    assert IsFusionAlong(0.0, [], DAMPENING, keys, best);
  }

  lemma OneSourceFused(ss: seq<Sighting>, x: SourceId, best: real, value: real)
    requires ss != [] && ss[|ss| - 1] == Sighting(x, best)
    requires forall i :: 0 <= i < |ss| ==> ss[i].sourceId == x && ss[i].confidence <= best
    requires (best == 0.0 && value == 0.0) || (best == 1.0 && value == 0.8)
    ensures IsFusion(value, ss, DAMPENING)
  {
    var keys, m := [x], map[x := best];
    assert ss[|ss| - 1] in ss && Sources(ss) == {x};
    assert StrongestPerSource(m, ss);
    assert Enumerates(keys, m);
    OneFactor(x, best);
    assert Milli(0.0) == 0 && Milli(0.8) == 800;
    assert IsFusionAlong(value, ss, DAMPENING, keys, m);
  }

  lemma OneFactor(x: SourceId, best: real)
    requires Enumerates([x], map[x := best])
    ensures FusedAlong([x], map[x := best], DAMPENING) == DAMPENING * best
  {
    var doubt := Doubts(map[x := best], DAMPENING);
    assert [x][..0] == [];
    assert Survival([x], doubt) == Survival([x][..0], doubt) * doubt[x];
  }

  lemma AfterTwo(s: Race, a: Statement, b: Statement, rest: seq<Statement>)
    ensures After(s, [a, b] + rest) == After(Step(Step(s, a), b), rest)
  {
    assert ([a, b] + rest)[1..] == [b] + rest && ([b] + rest)[1..] == rest;
  }

  /** A schedule leaves the row with the fusion of its log, whatever is attested, exactly when the select behind its
      last update came after its last insert. */
  lemma CurrentExactly(initial: real, es: seq<Statement>)
    requires After(Start(initial), es).writtenFrom.Some?
    ensures AlwaysCurrent(initial, es) <==>
              After(Start(initial), es).writtenFrom == Some(|After(Start(initial), es).log|)
  {
    var s0, s := Start(initial), After(Start(initial), es);
    var n := s.writtenFrom.value;
    if n == |s.log| {
      forall fs: seq<Statement> | SameSchedule(es, fs) && InRange(fs)
        ensures After(s0, fs).stored == Fused(After(s0, fs).log) {
        RunsAlike(s0, es, s0, fs);
        StoredIsAFusion(s0, fs);
        var t := After(s0, fs);
        assert t.log[..|t.log|] == t.log;
      }
    } else {
      var fs := Sampled(es, 0, n);
      SampledRun(s0, es, n);
      RunsAlike(s0, es, s0, fs);
      StoredIsAFusion(s0, fs);
      StoredIsAFusion(s0, es);
      var t := After(s0, fs);
      assert t.log[..n] == Samples(n, n);
      SamplesFused(n, n);
      SamplesFused(|t.log|, n);
    }
  }

  /** An attestation that nothing interrupts leaves the row with the fusion of its log. */
  lemma UninterruptedAttestation(s: Race, sighting: Sighting, caller: nat)
    ensures var t := After(s, [Insert(sighting), Select(caller), Update(caller)]);
            t.log == s.log + [sighting] && t.stored == Fused(t.log)
  {
    var a, b, c := Insert(sighting), Select(caller), Update(caller);
    AfterTwo(s, a, b, [c]);
    assert [a, b, c] == [a, b] + [c] && [c][1..] == [];
  }

  lemma AfterSix(s: Race, a: Statement, b: Statement, c: Statement, d: Statement, e: Statement, f: Statement)
    ensures After(s, [a, b, c, d, e, f]) == Step(Step(Step(Step(Step(Step(s, a), b), c), d), e), f)
  {
    AfterTwo(s, a, b, [c, d, e, f]);
    assert [a, b] + [c, d, e, f] == [a, b, c, d, e, f];
    var t := Step(Step(s, a), b);
    AfterTwo(t, c, d, [e, f]);
    assert [c, d] + [e, f] == [c, d, e, f];
    AfterTwo(Step(Step(t, c), d), e, f, []);
    assert [e, f] + [] == [e, f];
  }

  /** What the first two statements of an attestation do. */
  lemma ReadAfterInsert(s: Race, sighting: Sighting, caller: nat, log: seq<Sighting>) returns (t: Race)
    requires log == s.log + [sighting]
    ensures t == Step(Step(s, Insert(sighting)), Select(caller))
    ensures t.log == log && t.readings == s.readings[caller := Reading(Fused(log), |log|)]
    ensures t.stored == s.stored && t.writtenFrom == s.writtenFrom
  {
    t := Step(Step(s, Insert(sighting)), Select(caller));
  }

  /** What the last two do, in two attestations that read in turn. */
  lemma UpdatesInReverse(s: Race, late: Reading) returns (t: Race)
    requires s.readings.Keys == {0, 1} && s.readings[0] == late
    ensures t == Step(Step(s, Update(1)), Update(0))
    ensures t.log == s.log && t.readings == map[] && t.stored == late.fused && t.writtenFrom == Some(late.of)
  {
    t := Step(Step(s, Update(1)), Update(0));
  }

  /** Two attestations, both completed: the one that read first updates last, and the row is left without the other's
      sighting. */
  lemma LostUpdate(initial: real, first: Sighting, second: Sighting)
    ensures var es := [Insert(first), Select(0), Insert(second), Select(1), Update(1), Update(0)];
            var s := After(Start(initial), es);
            && s.log == [first, second] && s.readings == map[] && s.stored == Fused([first])
            && !AlwaysCurrent(initial, es)
  {
    var a, b, c, d, e, f := Insert(first), Select(0), Insert(second), Select(1), Update(1), Update(0);
    var es := [a, b, c, d, e, f];
    var s2 := ReadAfterInsert(Start(initial), first, 0, [first]);
    var s4 := ReadAfterInsert(s2, second, 1, [first, second]);
    var s6 := UpdatesInReverse(s4, s4.readings[0]);
    AfterSix(Start(initial), a, b, c, d, e, f);
    CurrentExactly(initial, es);
  }
}
