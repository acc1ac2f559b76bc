/** Rotations opened between finding the session and rotating it, in any interleaving with each other and with every
    other session operation (packages/auth/src/session.ts, refresh.ts,
    packages/db/src/repositories/userRepository.ts). */
module RotationRaces {
  import opened Prelude
  import opened Sessions
  import Memberships
  import SessionRuns
  import SessionSafety

  /** The session each request has found and not rotated yet. */
  datatype World = World(sess: State, found: map<nat, Session>)

  /** Whole is any operation taken as one step. */
  datatype Event =
    | Find(request: nat, token: Token)
    | Rotate(request: nat, ctx: Context, mint: Mint)
    | Whole(event: SessionRuns.Event)

  datatype At = At(time: int, event: Event)

  function Next(w: World, s: At, cfg: Config): World {
    match s.event
    case Find(r, token) =>
      var o := Presented(w.sess, token, s.time, cfg);
      World(o.state, if o.result.Ok? then w.found[r := o.result.value] else w.found - {r})
    case Rotate(r, ctx, mint) =>
      if r !in w.found then w else World(Rotated(w.sess, w.found[r], ctx, mint, s.time, cfg), w.found - {r})
    case Whole(event) => w.(sess := SessionRuns.Next(w.sess, SessionRuns.At(s.time, event), cfg))
  }

  /** Time does not run back, and what is drawn at random is new. */
  ghost predicate Enabled(w: World, clock: int, s: At) {
    clock <= s.time
    && match s.event
       case Find(_, _) => true
       case Rotate(_, _, mint) => SessionRuns.Fresh(w.sess.rows, mint)
       case Whole(event) => SessionRuns.Enabled(w.sess, clock, SessionRuns.At(s.time, event))
  }

  ghost predicate Run(w: World, clock: int, steps: seq<At>, cfg: Config)
    decreases |steps|
  {
    steps == [] || (Enabled(w, clock, steps[0]) && Run(Next(w, steps[0], cfg), steps[0].time, steps[1..], cfg))
  }

  /** A refresh is a find and a rotation with nothing in between. */
  lemma RefreshIsTwoSteps(w: State, token: Token, mint: Mint, now: int, cfg: Config)
    requires Refresh(w, token, mint, now, cfg).result.Ok?
    ensures var s := Presented(w, token, now, cfg).result;
            && s.Ok? && s.value.tenant.Some?
            && Refresh(w, token, mint, now, cfg).state
               == Next(Next(World(w, map[]), At(now, Find(0, token)), cfg),
                       At(now, Rotate(0, RefreshContext(w, s.value, cfg), mint)), cfg).sess
  {
    var k := SessionRuns.FoundRow(w, token, now, cfg);
  }

  // ---- when a lineage forks ----------------------------------------------------------------------------------

  ghost predicate RowOf(rows: seq<Session>, i: int, s: Session) {
    0 <= i < |rows| && rows[i].id == s.id && rows[i].origin == s.origin
  }

  ghost predicate IsRow(rows: seq<Session>, s: Session) {
    exists i :: RowOf(rows, i, s)
  }

  /** What a request has found is a row of the table. */
  ghost predicate AllKnown(w: World) {
    forall r :: r in w.found ==> IsRow(w.sess.rows, w.found[r])
  }

  ghost predicate LiveIn(rows: seq<Session>, j: int, s: Session) {
    0 <= j < |rows| && rows[j].origin == s.origin && rows[j].revokedAt.None?
  }

  /** The rotated session was revoked after it was found, and its lineage lives on in another one. */
  ghost predicate Forks(w: World, s: At) {
    && s.event.Rotate? && s.event.request in w.found
    && var prior := w.found[s.event.request];
       && (exists i :: RowOf(w.sess.rows, i, prior) && w.sess.rows[i].revokedAt.Some?)
       && (exists j :: LiveIn(w.sess.rows, j, prior))
  }

  lemma RowsStay(w: State, x: State, found: map<nat, Session>, more: map<nat, Session>)
    requires AllKnown(World(w, found)) && |w.rows| <= |x.rows|
    requires forall i :: 0 <= i < |w.rows| ==> x.rows[i].id == w.rows[i].id && x.rows[i].origin == w.rows[i].origin
    requires forall r :: r in more ==> r in found && more[r] == found[r]
    ensures AllKnown(World(x, more))
  {
    forall r | r in more ensures IsRow(x.rows, more[r]) {
      var i :| RowOf(w.rows, i, found[r]);
      assert RowOf(x.rows, i, more[r]);
    }
  }

  lemma ForkedRows(w: World, clock: int, s: At, cfg: Config)
    requires SessionRuns.Inv(w.sess, clock, cfg) && Forks(w, s)
    ensures !SessionRuns.OneLive(Next(w, s, cfg).sess.rows)
  {
    var prior := w.found[s.event.request];
    var i :| RowOf(w.sess.rows, i, prior) && w.sess.rows[i].revokedAt.Some?;
    var j :| LiveIn(w.sess.rows, j, prior);
    assert i != j && w.sess.rows[j].id != prior.id;
    var rows, n := Next(w, s, cfg).sess.rows, |w.sess.rows|;
    assert rows[j] == w.sess.rows[j] && rows[n].origin == prior.origin;
  }

  lemma RotateExactly(w: World, clock: int, s: At, cfg: Config)
    requires SessionRuns.Inv(w.sess, clock, cfg) && AllKnown(w) && Enabled(w, clock, s)
    requires s.event.Rotate? && s.event.request in w.found
    ensures SessionRuns.OneLive(Next(w, s, cfg).sess.rows) <==> !Forks(w, s)
    ensures !Forks(w, s) ==> SessionRuns.Inv(Next(w, s, cfg).sess, s.time, cfg)
  {
    var prior := w.found[s.event.request];
    var k :| RowOf(w.sess.rows, k, prior);
    var cut := Cut(w.sess, {prior.id}, s.time, cfg);
    var row := RotatedRow(prior, s.event.ctx, s.event.mint, s.time, cfg);
    SessionRuns.CutKeeps(w.sess, {prior.id}, clock, s.time, cfg);
    if Forks(w, s) {
      ForkedRows(w, clock, s, cfg);
    } else {
      forall i | 0 <= i < |cut.rows| && cut.rows[i].origin == row.origin ensures cut.rows[i].revokedAt.Some? {
        assert LiveIn(w.sess.rows, i, prior) ==> w.sess.rows[k].revokedAt.None?;
        assert w.sess.rows[i].id != prior.id ==> !LiveIn(w.sess.rows, i, prior);
      }
      SessionRuns.AppendKeeps(cut, row, s.time, cfg);
    }
  }

  lemma StepKnown(w: World, clock: int, s: At, cfg: Config)
    requires SessionRuns.Inv(w.sess, clock, cfg) && AllKnown(w) && Enabled(w, clock, s)
    ensures AllKnown(Next(w, s, cfg))
  {
    match s.event {
      case Find(r, token) =>
        var o := Presented(w.sess, token, s.time, cfg);
        SessionSafety.PresentedGrows(w.sess, token, clock, s.time, cfg);
        if o.result.Ok? {
          var k := SessionRuns.FoundRow(w.sess, token, s.time, cfg);
          assert RowOf(o.state.rows, k, o.result.value);
          RowsStay(w.sess, o.state, w.found, w.found);
        } else {
          RowsStay(w.sess, o.state, w.found, w.found - {r});
        }
      case Rotate(r, _, _) => RowsStay(w.sess, Next(w, s, cfg).sess, w.found, Next(w, s, cfg).found);
      case Whole(event) =>
        SessionSafety.StepGrows(w.sess, clock, SessionRuns.At(s.time, event), cfg);
        RowsStay(w.sess, Next(w, s, cfg).sess, w.found, w.found);
    }
  }

  lemma StepExactly(w: World, clock: int, s: At, cfg: Config)
    requires SessionRuns.Inv(w.sess, clock, cfg) && AllKnown(w) && Enabled(w, clock, s)
    ensures SessionRuns.OneLive(Next(w, s, cfg).sess.rows) <==> !Forks(w, s)
    ensures !Forks(w, s) ==> SessionRuns.Inv(Next(w, s, cfg).sess, s.time, cfg)
  {
    match s.event {
      case Find(_, token) => SessionRuns.PresentedKeeps(w.sess, token, clock, s.time, cfg);
      case Rotate(r, _, _) =>
        if r in w.found {
          RotateExactly(w, clock, s, cfg);
        } else {
          SessionRuns.LaterKeeps(w.sess, clock, s.time, cfg);
        }
      case Whole(event) => SessionRuns.StepKeeps(w.sess, clock, SessionRuns.At(s.time, event), cfg);
    }
  }

  /** At most one unrevoked session per lineage, from here to the end of the run. */
  ghost predicate OneLiveThroughout(w: World, steps: seq<At>, cfg: Config)
    decreases |steps|
  {
    SessionRuns.OneLive(w.sess.rows) && (steps == [] || OneLiveThroughout(Next(w, steps[0], cfg), steps[1..], cfg))
  }

  ghost predicate NeverForks(w: World, steps: seq<At>, cfg: Config)
    decreases |steps|
  {
    steps == [] || (!Forks(w, steps[0]) && NeverForks(Next(w, steps[0], cfg), steps[1..], cfg))
  }

  lemma {:induction false} RunExactly(w: World, clock: int, steps: seq<At>, cfg: Config)
    requires SessionRuns.Inv(w.sess, clock, cfg) && AllKnown(w) && Run(w, clock, steps, cfg)
    ensures OneLiveThroughout(w, steps, cfg) <==> NeverForks(w, steps, cfg)
    decreases |steps|
  {
    if steps != [] {
      StepExactly(w, clock, steps[0], cfg);
      if !Forks(w, steps[0]) {
        StepKnown(w, clock, steps[0], cfg);
        RunExactly(Next(w, steps[0], cfg), steps[0].time, steps[1..], cfg);
      }
    }
  }

  /** Over every run from the empty store, with rotations interleaved in any way: a lineage never has two unrevoked
      sessions, exactly when no rotation is of a session that was revoked after it was found while its lineage lives
      on. rotate() could check just that, and does not. */
  lemma OneLiveExactly(dir: Memberships.Directory, clock: int, steps: seq<At>, cfg: Config)
    requires Run(World(State([], map[], dir), map[]), clock, steps, cfg)
    ensures OneLiveThroughout(World(State([], map[], dir), map[]), steps, cfg)
            <==> NeverForks(World(State([], map[], dir), map[]), steps, cfg)
  {
    SessionRuns.EmptyIsSafe(dir, clock, cfg);
    RunExactly(World(State([], map[], dir), map[]), clock, steps, cfg);
  }
}
