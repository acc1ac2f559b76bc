/** Edge lifecycle: attest every sighting, store the fused confidence, close once (cascade/db/src/edges.ts). */
module Edges {
  import opened Prelude
  import opened Fusion

  datatype EdgeTable = PersonPositions | PersonEducations | OrgTechnologyRelations | TechnologyVendors | CompanyEdges

  datatype EdgeId = EdgeId(text: string)

  datatype Edge = Edge(confidence: real, validTo: Option<int>, isCurrent: bool)

  datatype Attestation = Attestation(edgeId: EdgeId, sighting: Sighting)

  datatype EdgeError = Unroutable | ConstraintViolation

  /** The edge tables and the append-only attestation log. */
  datatype Db = Db(edges: map<EdgeId, Edge>, log: seq<Attestation>)

  /** edgeId.split("_")[0] */
  function Prefix(s: string): string {
    if s == "" || s[0] == '_' then "" else [s[0]] + Prefix(s[1..])
  }

  function EdgeTableFor(id: EdgeId): Option<EdgeTable> {
    match Prefix(id.text)
    case "pos" => Some(PersonPositions)
    case "edu" => Some(PersonEducations)
    case "rel" => Some(OrgTechnologyRelations)
    case "tv" => Some(TechnologyVendors)
    case "ce" => Some(CompanyEdges)
    case _ => None
  }

  /** The value a NUMERIC(4,3) column keeps: three decimals, halves away from zero. */
  function Numeric3(c: real): real {
    if c < 0.0 then -RoundMilli(-c) else RoundMilli(c)
  }

  /** The sightings of one edge, in log order. */
  function SightingsOf(log: seq<Attestation>, id: EdgeId): seq<Sighting> {
    if log == [] then []
    else
      var last := |log| - 1;
      SightingsOf(log[..last], id) + (if log[last].edgeId == id then [log[last].sighting] else [])
  }

  class EdgeStore {
    var edges: map<EdgeId, Edge>
    var log: seq<Attestation>

    ghost function State(): Db
      reads this
    {
      Db(edges, log)
    }

    method RecomputeConfidence(edgeId: EdgeId) returns (fused: real)
      modifies this`edges
      ensures IsFusion(fused, SightingsOf(log, edgeId), DAMPENING)
      ensures edges == if edgeId in old(edges) then old(edges)[edgeId := old(edges)[edgeId].(confidence := fused)]
                       else old(edges)
    {
      var sightings: seq<Sighting> := [];
      for i := 0 to |log|
        invariant sightings == SightingsOf(log[..i], edgeId)
      {
        assert log[..i + 1][..i] == log[..i];
        if log[i].edgeId == edgeId {
          sightings := sightings + [log[i].sighting];
        }
      }
      assert log[..|log|] == log;
      fused := FuseConfidence(sightings, DAMPENING);
      if edgeId in edges {
        edges := edges[edgeId := edges[edgeId].(confidence := fused)];
      }
    }

    method Attest(edgeId: EdgeId, sourceId: SourceId, confidence: real) returns (r: Result<real, EdgeError>)
      modifies this
      ensures Step(old(State()), AttestEvent(edgeId, sourceId, confidence), State())
      ensures r.Ok? ==> IsFusion(r.value, SightingsOf(log, edgeId), DAMPENING)
      ensures r.Err? <==> EdgeTableFor(edgeId).None? || !(0.0 <= Numeric3(confidence) <= 1.0)
    {
      var table := EdgeTableFor(edgeId);
      if table.None? {
        return Err(Unroutable);
      }
      var stored := Numeric3(confidence);
      if !(0.0 <= stored <= 1.0) {
        return Err(ConstraintViolation);
      }
      log := log + [Attestation(edgeId, Sighting(sourceId, stored))];
      var fused := RecomputeConfidence(edgeId);
      r := Ok(fused);
    }

    method CloseEdge(edgeId: EdgeId, validTo: int) returns (r: Result<(), EdgeError>)
      modifies this`edges
      ensures Step(old(State()), CloseEvent(edgeId, validTo), State())
      ensures r.Err? <==> EdgeTableFor(edgeId).None?
    {
      var table := EdgeTableFor(edgeId);
      if table.None? {
        return Err(Unroutable);
      }
      if edgeId in edges && edges[edgeId].validTo.None? {
        var e := edges[edgeId];
        edges := edges[edgeId := e.(validTo := Some(validTo),
                                    isCurrent := table.value != PersonPositions && e.isCurrent)];
      }
      r := Ok(());
    }
  }

  // ---- runs --------------------------------------------------------------------------------------------

  datatype Event =
    | OpenEvent(id: EdgeId, initial: real)
    | AttestEvent(id: EdgeId, sourceId: SourceId, confidence: real)
    | CloseEvent(id: EdgeId, at: int)

  ghost predicate AppendedAndFused(s: Db, a: Attestation, s': Db) {
    && s'.log == s.log + [a]
    && s'.edges.Keys == s.edges.Keys
    && (forall id :: id in s.edges && id != a.edgeId ==> s'.edges[id] == s.edges[id])
    && (a.edgeId in s.edges ==>
          && IsFusion(s'.edges[a.edgeId].confidence, SightingsOf(s'.log, a.edgeId), DAMPENING)
          && s'.edges[a.edgeId] == s.edges[a.edgeId].(confidence := s'.edges[a.edgeId].confidence))
  }

  /** One database step. A new row carries a fresh id, so nothing has attested it yet. */
  ghost predicate Step(s: Db, e: Event, s': Db) {
    match e
    case OpenEvent(id, initial) =>
      id !in s.edges && SightingsOf(s.log, id) == []
      && s' == s.(edges := s.edges[id := Edge(initial, None, true)])
    case AttestEvent(id, src, c) =>
      if EdgeTableFor(id).None? || !(0.0 <= Numeric3(c) <= 1.0) then s' == s
      else AppendedAndFused(s, Attestation(id, Sighting(src, Numeric3(c))), s')
    case CloseEvent(id, at) =>
      && s'.log == s.log
      && s'.edges.Keys == s.edges.Keys
      && (forall x :: x in s.edges && (x != id || EdgeTableFor(id).None? || s.edges[x].validTo.Some?) ==>
                        s'.edges[x] == s.edges[x])
      && (id in s.edges && EdgeTableFor(id).Some? && s.edges[id].validTo.None? ==>
            s'.edges[id] == s.edges[id].(validTo := Some(at),
                                         isCurrent := EdgeTableFor(id) != Some(PersonPositions)
                                             && s.edges[id].isCurrent))
  }

  ghost predicate Run(states: seq<Db>, events: seq<Event>) {
    && |states| == |events| + 1
    && forall i :: 0 <= i < |events| ==> Step(states[i], events[i], states[i + 1])
  }

  /** Every edge that was ever attested stores the fusion of its log; every logged confidence is a probability. */
  ghost predicate Consistent(s: Db) {
    && (forall id :: id in s.edges && SightingsOf(s.log, id) != [] ==>
                       IsFusion(s.edges[id].confidence, SightingsOf(s.log, id), DAMPENING))
    && (forall id :: Probabilities(SightingsOf(s.log, id)))
  }

  lemma SightingsAfter(log: seq<Attestation>, a: Attestation, id: EdgeId)
    ensures SightingsOf(log + [a], id)
         == if a.edgeId == id then SightingsOf(log, id) + [a.sighting] else SightingsOf(log, id)
  {
  }

  lemma StepKeepsConsistency(s: Db, e: Event, s': Db)
    requires Consistent(s) && Step(s, e, s')
    ensures Consistent(s')
  {
    if e.AttestEvent? && s'.log != s.log {
      var a := Attestation(e.id, Sighting(e.sourceId, Numeric3(e.confidence)));
      forall id ensures Probabilities(SightingsOf(s'.log, id)) {
        SightingsAfter(s.log, a, id);
      }
      forall id | id in s'.edges && SightingsOf(s'.log, id) != []
        ensures IsFusion(s'.edges[id].confidence, SightingsOf(s'.log, id), DAMPENING)
      {
        SightingsAfter(s.log, a, id);
      }
    }
  }

  /** In every state of every run, each attested edge stores exactly the fusion of its log. */
  lemma {:induction false} RunKeepsConsistency(states: seq<Db>, events: seq<Event>)
    requires Run(states, events) && Consistent(states[0])
    ensures forall i :: 0 <= i < |states| ==> Consistent(states[i])
    decreases |events|
  {
    if events != [] {
      var n := |events| - 1;
      RunKeepsConsistency(states[..n + 1], events[..n]);
      assert states[..n + 1][n] == states[n];
      StepKeepsConsistency(states[n], events[n], states[n + 1]);
    }
  }

  /** Two edges with the same set of sightings behind them store the same confidence, in any runs. */
  lemma SameEvidenceSameConfidence(s: Db, id: EdgeId, t: Db, jd: EdgeId)
    requires Consistent(s) && Consistent(t) && id in s.edges && jd in t.edges
    requires SightingsOf(s.log, id) != [] && Elems(SightingsOf(s.log, id)) == Elems(SightingsOf(t.log, jd))
    ensures s.edges[id].confidence == t.edges[jd].confidence
  {
    assert SightingsOf(s.log, id)[0] in Elems(SightingsOf(t.log, jd));
    FusionDependsOnTheSet(SightingsOf(s.log, id), SightingsOf(t.log, jd), DAMPENING,
                          s.edges[id].confidence, t.edges[jd].confidence);
  }

  /** An attested edge has gained confidence, or kept it, and a closing date that was set has not changed. */
  ghost predicate Gained(s: Db, t: Db, id: EdgeId) {
    && id in s.edges && SightingsOf(s.log, id) != [] && id in t.edges && SightingsOf(t.log, id) != []
    && s.edges[id].confidence <= t.edges[id].confidence
    && (s.edges[id].validTo.Some? ==> t.edges[id].validTo == s.edges[id].validTo)
  }

  lemma StepNeverLowers(s: Db, e: Event, s': Db, id: EdgeId)
    requires Consistent(s) && Step(s, e, s')
    requires id in s.edges && SightingsOf(s.log, id) != []
    ensures Gained(s, s', id)
  {
    StepKeepsConsistency(s, e, s');
    if e.AttestEvent? && s'.log != s.log {
      var a := Attestation(e.id, Sighting(e.sourceId, Numeric3(e.confidence)));
      SightingsAfter(s.log, a, id);
      if id == e.id {
        NewEvidence(SightingsOf(s.log, id), a.sighting, DAMPENING, s.edges[id].confidence, s'.edges[id].confidence);
      }
    }
  }

  lemma GainedTwice(s: Db, t: Db, u: Db, id: EdgeId)
    requires Gained(s, t, id) && Gained(t, u, id)
    ensures Gained(s, u, id)
  {
  }

  lemma RunStep(states: seq<Db>, events: seq<Event>, k: nat)
    requires Run(states, events) && Consistent(states[0]) && k < |events|
    ensures Consistent(states[k]) && Step(states[k], events[k], states[k + 1])
  {
    RunKeepsConsistency(states, events);
  }

  lemma RunGains(states: seq<Db>, events: seq<Event>, k: nat, id: EdgeId)
    requires Run(states, events) && Consistent(states[0]) && k < |events|
    requires id in states[k].edges && SightingsOf(states[k].log, id) != []
    ensures Gained(states[k], states[k + 1], id)
  {
    RunStep(states, events, k);
    StepNeverLowers(states[k], events[k], states[k + 1], id);
  }

  /** Along every run: an attested confidence never falls, and a closing date, once set, never changes. */
  lemma {:induction false} AttestedEdgesOnlyGainConfidence(states: seq<Db>, events: seq<Event>, i: nat, j: nat,
      id: EdgeId)
    requires Run(states, events) && Consistent(states[0]) && i <= j < |states|
    requires id in states[i].edges && SightingsOf(states[i].log, id) != []
    ensures Gained(states[i], states[j], id)
    decreases j - i
  {
    if i < j {
      AttestedEdgesOnlyGainConfidence(states, events, i, j - 1, id);
      GainsFurther(states, events, i, j, id);
    }
  }

  lemma GainsFurther(states: seq<Db>, events: seq<Event>, i: nat, j: nat, id: EdgeId)
    requires Run(states, events) && Consistent(states[0]) && i < j < |states|
    requires Gained(states[i], states[j - 1], id)
    ensures Gained(states[i], states[j], id)
  {
    RunGains(states, events, j - 1, id);
    GainedTwice(states[i], states[j - 1], states[j], id);
  }

  /** A closing date is set at most once, attested or not. */
  lemma {:induction false} ClosedOnce(states: seq<Db>, events: seq<Event>, i: nat, j: nat, id: EdgeId)
    requires Run(states, events) && i <= j < |states|
    requires id in states[i].edges && states[i].edges[id].validTo.Some?
    ensures id in states[j].edges && states[j].edges[id].validTo == states[i].edges[id].validTo
    decreases j - i
  {
    if i < j {
      ClosedOnce(states, events, i, j - 1, id);
      assert Step(states[j - 1], events[j - 1], states[j]);
    }
  }
}
