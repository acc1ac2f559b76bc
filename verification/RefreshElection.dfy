/** One refresh per browser: tabs contend for a shared storage cell that has no compare-and-swap
    (packages/auth-client/src/refreshElection.ts). */
module RefreshElection {
  import opened Prelude

  const LOCK_TTL_MS: int := 10_000

  datatype Tab = Tab(id: string)

  datatype Claim = Claim(tab: Tab, at: int)

  /** What the lock key holds: nothing, text that does not parse to a claim, or a claim. */
  datatype Cell = Absent | Garbage | Holds(claim: Claim)

  function ReadClaim(cell: Cell): Option<Claim> {
    if cell.Holds? then Some(cell.claim) else None
  }

  /** A claim of another tab that is younger than the TTL. */
  predicate Blocks(c: Option<Claim>, tab: Tab, now: int) {
    c.Some? && c.value.tab != tab && now - c.value.at < LOCK_TTL_MS
  }

  predicate Foreign(c: Option<Claim>, tab: Tab) {
    c.Some? && c.value.tab != tab
  }

  /** A write takes effect, throws (private mode), or is silently ignored (a rejected cookie domain). */
  datatype WriteOutcome = Works | Throws | Dropped

  /** One attempt with nothing in between: whether the tab proceeds, and the cell it leaves. */
  function Attempt(cell: Cell, tab: Tab, now: int, outcome: WriteOutcome): (bool, Cell) {
    if Blocks(ReadClaim(cell), tab, now) then (false, cell)
    else
      match outcome
      case Works => (true, Holds(Claim(tab, now)))
      case Throws => (true, cell)
      case Dropped => (!Foreign(ReadClaim(cell), tab), cell)
  }

  class ElectionStorage {
    var cell: Cell
    var outcome: WriteOutcome

    method GetItem() returns (c: Cell)
      ensures c == cell
    {
      c := cell;
    }

    method SetItem(c: Claim) returns (threw: bool)
      modifies this`cell
      ensures threw <==> outcome == Throws
      ensures cell == if outcome == Works then Holds(c) else old(cell)
    {
      threw := outcome == Throws;
      if outcome == Works {
        cell := Holds(c);
      }
    }

    method RemoveItem()
      modifies this`cell
      ensures cell == Absent
    {
      cell := Absent;
    }
  }

  method TryAcquireRefreshLock(storage: ElectionStorage, tabId: Tab, now: int) returns (acquired: bool)
    modifies storage`cell
    ensures (acquired, storage.cell) == Attempt(old(storage.cell), tabId, now, storage.outcome)
  {
    var raw := storage.GetItem();
    var existing := ReadClaim(raw);
    if existing.Some? && existing.value.tab != tabId && now - existing.value.at < LOCK_TTL_MS {
      return false;
    }
    var threw := storage.SetItem(Claim(tabId, now));
    if threw {
      return true;
    }
    raw := storage.GetItem();
    var confirmed := ReadClaim(raw);
    if confirmed.None? {
      return true;
    }
    acquired := confirmed.value.tab == tabId;
  }

  /** Run without interruption, a release never clears another tab's claim. */
  method ReleaseRefreshLock(storage: ElectionStorage, tabId: Tab)
    modifies storage`cell
    ensures storage.cell == if old(storage.cell).Holds? && old(storage.cell).claim.tab == tabId then Absent
        else old(storage.cell)
  {
    var raw := storage.GetItem();
    var existing := ReadClaim(raw);
    if existing.Some? && existing.value.tab == tabId {
      storage.RemoveItem();
    }
  }

  // ---- every interleaving --------------------------------------------------------------------------------

  /** Where a tab is. StoodDown keeps, as history, the clock reading of the attempt, the claim that refused it and
      the time that claim was written. */
  datatype Pc =
    | Idle
    | Checked(at: int)
    | Wrote(at: int)
    | Won
    | Releasing(own: bool)
    | StoodDown(at: int, blocker: Claim, writtenAt: int)

  /** owed counts the releases each tab still has to make, one for every attempt it won. wroteAt, lastWriter and won are
      history: when the cell was last written, by whom in this run, and which tabs have won an attempt since. */
  datatype World = World(
    cell: Cell,
    wroteAt: int,
    pcs: map<Tab, Pc>,
    owed: map<Tab, nat>,
    lastWriter: Option<Tab>,
    won: set<Tab>,
    clock: int)

  function PcOf(w: World, t: Tab): Pc {
    if t in w.pcs then w.pcs[t] else Idle
  }

  /** Between attempts and releases. A tab whose refresh is in flight may attempt again: its timer can fire. */
  predicate Resting(w: World, t: Tab) {
    PcOf(w, t).Idle? || PcOf(w, t).StoodDown? || PcOf(w, t).Won?
  }

  function Owed(w: World, t: Tab): nat {
    if t in w.owed then w.owed[t] else 0
  }

  /** The atomic accesses of an attempt and of a release; Vanish is the cookie's Max-Age, or cleared site data. */
  datatype Event =
    | Check(tab: Tab, now: int)
    | Write(tab: Tab, outcome: WriteOutcome, now: int)
    | Reread(tab: Tab, now: int)
    | BeginRelease(tab: Tab, now: int)
    | EndRelease(tab: Tab, now: int)
    | Vanish(now: int)

  function Move(w: World, t: Tab, pc: Pc): World {
    w.(pcs := w.pcs[t := pc])
  }

  function Winning(w: World, t: Tab): World {
    Move(w, t, Won).(won := w.won + {t}, owed := w.owed[t := Owed(w, t) + 1])
  }

  function Step(w0: World, e: Event): World {
    var w := w0.(clock := e.now);
    match e
    case Check(t, now) =>
      if !Resting(w, t) then w
      else if Blocks(ReadClaim(w.cell), t, now) then Move(w, t, StoodDown(now, w.cell.claim, w.wroteAt))
      else Move(w, t, Checked(now))
    case Write(t, outcome, now) =>
      if !PcOf(w, t).Checked? then w
      else
        var at := PcOf(w, t).at;
        (match outcome
         case Works =>
           Move(w, t, Wrote(at)).(cell := Holds(Claim(t, at)), wroteAt := now, lastWriter := Some(t), won := {})
         case Throws => Winning(w, t)
         case Dropped => Move(w, t, Wrote(at)))
    case Reread(t, now) =>
      if !PcOf(w, t).Wrote? then w
      else if Foreign(ReadClaim(w.cell), t) then Move(w, t, StoodDown(PcOf(w, t).at, w.cell.claim, w.wroteAt))
      else Winning(w, t)
    case BeginRelease(t, now) =>
      if !Resting(w, t) || Owed(w, t) == 0 then w
      else Move(w, t, Releasing(w.cell.Holds? && w.cell.claim.tab == t))
    case EndRelease(t, now) =>
      if !PcOf(w, t).Releasing? then w
      else
        Move(w, t, Idle).(cell := if PcOf(w, t).own then Absent else w.cell,
                          owed := w.owed[t := if Owed(w, t) > 0 then Owed(w, t) - 1 else 0])
    case Vanish(now) => w.(cell := Absent)
  }

  function Start(cell: Cell, clock: int): World {
    World(cell, clock, map[], map[], None, {}, clock)
  }

  function After(w: World, events: seq<Event>): World
    decreases events
  {
    if events == [] then w else After(Step(w, events[0]), events[1..])
  }

  /** A tab's place, and what it owes, change by its own accesses only. */
  lemma OthersKeepPc(w: World, e: Event, tab: Tab)
    requires e.Vanish? || e.tab != tab
    ensures PcOf(Step(w, e), tab) == PcOf(w, tab) && Owed(Step(w, e), tab) == Owed(w, tab)
  {
  }

  ghost predicate Timely(clock: int, events: seq<Event>)
    decreases events
  {
    events == [] || (clock <= events[0].now && Timely(events[0].now, events[1..]))
  }

  /** No claim, or one old enough to be taken over, whoever made it. */
  predicate EmptyOrStale(cell: Cell, now: int) {
    cell.Holds? ==> now - cell.claim.at >= LOCK_TTL_MS
  }

  /** What the writes of a run come to: `kinds` tells one kind of store from another. */
  ghost predicate WritesAre(events: seq<Event>, kinds: set<WriteOutcome>) {
    forall e :: e in events && e.Write? ==> e.outcome in kinds
  }

  ghost predicate NoDroppedWrite(events: seq<Event>) {
    forall e :: e in events && e.Write? ==> e.outcome != Dropped
  }

  /** Still to reread, or winner of an attempt since the last effective write. */
  predicate Carries(w: World, t: Tab) {
    PcOf(w, t).Wrote? || t in w.won
  }

  /** Once some write took effect, the last writer is still to reread or has won since, has not stood down, and no
      other tab's claim is in the cell. */
  ghost predicate LastWriterHolds(w: World) {
    w.lastWriter.Some? ==>
      && !PcOf(w, w.lastWriter.value).StoodDown?
      && Carries(w, w.lastWriter.value)
      && (w.cell == Absent || (w.cell.Holds? && w.cell.claim.tab == w.lastWriter.value))
  }

  lemma {:induction false} LastWriterAlwaysHolds(w: World, events: seq<Event>)
    requires LastWriterHolds(w)
    ensures LastWriterHolds(After(w, events))
    decreases events
  {
    if events != [] {
      LastWriterStep(w, events[0]);
      LastWriterAlwaysHolds(Step(w, events[0]), events[1..]);
    }
  }

  lemma LastWriterStep(w: World, e: Event)
    requires LastWriterHolds(w)
    ensures LastWriterHolds(Step(w, e))
  {
  }

  /** Before the first effective write the cell still has its first content, or nothing. */
  ghost predicate Untouched(w: World, cell: Cell) {
    w.lastWriter.None? ==> w.cell == cell || w.cell == Absent
  }

  /** Before the first effective write nobody has stood down, and whoever is through with an attempt has won it. */
  ghost predicate NobodyDownYet(w: World) {
    w.lastWriter.None? ==>
      forall t :: !PcOf(w, t).StoodDown? && (Owed(w, t) > 0 ==> t in w.won)
                  && (t in w.pcs ==> PcOf(w, t).Checked? || PcOf(w, t).Wrote? || t in w.won)
  }

  /** No attempt that wrote is still to reread before the first effective write. */
  ghost predicate NobodyWroteYet(w: World) {
    w.lastWriter.None? ==> forall t :: !PcOf(w, t).Wrote?
  }

  lemma {:induction false} NobodyDownBeforeFirstWrite(w: World, cell: Cell, events: seq<Event>)
    requires Timely(w.clock, events) && EmptyOrStale(cell, w.clock) && (cell.Holds? ==> NoDroppedWrite(events))
    requires Untouched(w, cell) && NobodyDownYet(w) && (cell.Holds? ==> NobodyWroteYet(w))
    ensures NobodyDownYet(After(w, events))
    decreases events
  {
    if events != [] {
      assert events[0] in events && forall x :: x in events[1..] ==> x in events;
      NobodyDownStep(w, cell, events[0]);
      NobodyDownBeforeFirstWrite(Step(w, events[0]), cell, events[1..]);
    }
  }

  lemma NobodyDownStep(w: World, cell: Cell, e: Event)
    requires w.clock <= e.now && EmptyOrStale(cell, w.clock)
    requires cell.Holds? ==> NobodyWroteYet(w) && (e.Write? ==> e.outcome != Dropped)
    requires Untouched(w, cell) && NobodyDownYet(w)
    ensures Untouched(Step(w, e), cell) && NobodyDownYet(Step(w, e))
    ensures cell.Holds? ==> NobodyWroteYet(Step(w, e))
  {
    var w' := Step(w, e);
    if w'.lastWriter.None? {
      forall t
        ensures !PcOf(w', t).StoodDown? && (cell.Holds? ==> !PcOf(w', t).Wrote?)
        ensures Owed(w', t) > 0 ==> t in w'.won
        ensures t in w'.pcs ==> PcOf(w', t).Checked? || PcOf(w', t).Wrote? || t in w'.won
      {
        if e.Vanish? || e.tab != t {
          OthersKeepPc(w, e, t);
        } else {
          assert PcOf(w.(clock := e.now), t) == PcOf(w, t) && !PcOf(w, t).StoodDown?;
        }
      }
    }
  }

  /** Some tab has made an attempt. */
  ghost predicate Attempted(events: seq<Event>) {
    exists e :: e in events && e.Check?
  }

  lemma {:induction false} AttemptsStay(w: World, events: seq<Event>)
    ensures w.pcs != map[] || Attempted(events) ==> After(w, events).pcs != map[]
    decreases events
  {
    if events != [] {
      var e := events[0];
      AttemptsStay(Step(w, e), events[1..]);
      assert e.Check? ==> e.tab in Step(w, e).pcs;
      assert Attempted(events) ==> e.Check? || Attempted(events[1..]) by {
        assert events == [e] + events[1..];
      }
    }
  }

  /** Somebody is still to write or reread, or has won since the last effective write. */
  ghost predicate SomebodyCarries(w: World) {
    exists t :: t in w.pcs && (PcOf(w, t).Checked? || Carries(w, t))
  }

  /** From an empty or stale cell, for any tabs and any interleaving of the accesses with releases and expiry,
      the tabs never all stand down: once an attempt is made there is always a tab that is still to write or reread,
      or has won since the last effective write. Silently dropped writes are allowed when the cell starts without a
      claim. */
  lemma NeverAllStandDown(cell: Cell, clock: int, events: seq<Event>)
    requires Timely(clock, events) && EmptyOrStale(cell, clock) && (cell.Holds? ==> NoDroppedWrite(events))
    requires Attempted(events)
    ensures SomebodyCarries(After(Start(cell, clock), events))
  {
    var w := After(Start(cell, clock), events);
    LastWriterAlwaysHolds(Start(cell, clock), events);
    NobodyDownBeforeFirstWrite(Start(cell, clock), cell, events);
    AttemptsStay(Start(cell, clock), events);
    LastWriterAttempted(Start(cell, clock), events);
    if w.lastWriter.Some? {
      assert Carries(w, w.lastWriter.value);
    } else {
      var t :| t in w.pcs;
      assert PcOf(w, t).Checked? || PcOf(w, t).Wrote? || t in w.won;
    }
  }

  lemma {:induction false} LastWriterAttempted(w: World, events: seq<Event>)
    requires w.lastWriter.Some? ==> w.lastWriter.value in w.pcs
    ensures After(w, events).lastWriter.Some? ==> After(w, events).lastWriter.value in After(w, events).pcs
    decreases events
  {
    if events != [] {
      LastWriterAttempted(Step(w, events[0]), events[1..]);
    }
  }

  /** Nobody is in the middle of an attempt. */
  ghost predicate Settled(w: World) {
    forall t :: !PcOf(w, t).Checked? && !PcOf(w, t).Wrote?
  }

  /** When every attempt has come to its end, somebody has won since the last effective write. */
  lemma SomebodyWins(cell: Cell, clock: int, events: seq<Event>)
    requires Timely(clock, events) && EmptyOrStale(cell, clock) && (cell.Holds? ==> NoDroppedWrite(events))
    requires Attempted(events)
    requires Settled(After(Start(cell, clock), events))
    ensures After(Start(cell, clock), events).won != {}
  {
    NeverAllStandDown(cell, clock, events);
    var w := After(Start(cell, clock), events);
    var t :| t in w.pcs && (PcOf(w, t).Checked? || Carries(w, t));
    assert !PcOf(w, t).Checked? && !PcOf(w, t).Wrote?;
    assert t in w.won;
  }

  /** On a store whose writes come to one of `kinds`, starting from `cell`, no run leaves everybody stood down. */
  ghost predicate AlwaysSomebody(cell: Cell, clock: int, kinds: set<WriteOutcome>) {
    forall events: seq<Event> :: Timely(clock, events) && WritesAre(events, kinds) && Attempted(events) ==>
      SomebodyCarries(After(Start(cell, clock), events))
  }

  /** Exactly when the election never leaves everybody stood down: if the store never drops a write silently, or no
      claim is in it to begin with. */
  lemma StandDownExactly(cell: Cell, clock: int, kinds: set<WriteOutcome>)
    requires EmptyOrStale(cell, clock)
    ensures AlwaysSomebody(cell, clock, kinds) <==> Dropped !in kinds || !cell.Holds?
  {
    if Dropped !in kinds || !cell.Holds? {
      forall events: seq<Event> | Timely(clock, events) && WritesAre(events, kinds) && Attempted(events)
        ensures SomebodyCarries(After(Start(cell, clock), events))
      {
        NeverAllStandDown(cell, clock, events);
      }
    } else {
      var other := Tab(cell.claim.tab.id + "x");
      assert other.id != cell.claim.tab.id;
      var events := [Check(other, clock), Write(other, Dropped, clock), Reread(other, clock)];
      DroppedAttempt(other, cell.claim, clock);
      assert events[0] in events && events[0].Check?;
      assert WritesAre(events, kinds) && Timely(clock, events);
      assert !SomebodyCarries(After(Start(cell, clock), events));
    }
  }

  lemma DroppedAttempt(tab: Tab, stale: Claim, now: int)
    requires stale.tab != tab && now - stale.at >= LOCK_TTL_MS
    ensures var events := [Check(tab, now), Write(tab, Dropped, now), Reread(tab, now)];
            && Timely(now, events)
            && After(Start(Holds(stale), now), events)
               == World(Holds(stale), now, map[tab := StoodDown(now, stale, now)], map[], None, {}, now)
  {
    var c, d, r := Check(tab, now), Write(tab, Dropped, now), Reread(tab, now);
    assert [c, d, r][1..] == [d, r] && [d, r][1..] == [r] && [r][1..] == [];
    assert Timely(now, [r]) && Timely(now, [d, r]) && Timely(now, [c, d, r]);
    var w := Start(Holds(stale), now);
    var w1, w2 := Step(w, c), Step(Step(w, c), d);
    var w3 := Step(w2, r);
    assert w1.pcs == map[tab := Checked(now)] && w2.pcs == map[tab := Wrote(now)];
    assert w3.pcs == map[tab := StoodDown(now, stale, now)];
    assert After(w, [c, d, r]) == After(w1, [d, r]) && After(w1, [d, r]) == After(w2, [r]);
    assert After(w2, [r]) == After(w3, []);
  }

  /** The other half: over another browser context's stale claim, with every write dropped, no attempt ever wins.
      The reread compares the tab but not the age of the claim. */
  lemma {:induction false} DroppedWritesAllStandDown(w: World, stale: Claim, events: seq<Event>)
    requires w.cell == Holds(stale) && (forall t :: PcOf(w, t) != Won && PcOf(w, t) != Releasing(true))
    requires forall e :: e in events ==> !e.Vanish? && e.tab != stale.tab && (e.Write? ==> e.outcome == Dropped)
    ensures forall t :: PcOf(After(w, events), t) != Won
    decreases events
  {
    if events != [] {
      var e := events[0];
      assert e in events && forall x :: x in events[1..] ==> x in events;
      var w' := Step(w, e);
      forall t ensures PcOf(w', t) != Won && PcOf(w', t) != Releasing(true) {
        if e.tab != t {
          OthersKeepPc(w, e, t);
        } else {
          assert PcOf(w.(clock := e.now), t) == PcOf(w, t);
        }
      }
      assert w'.cell == Holds(stale) by {
        assert PcOf(w.(clock := e.now), e.tab) == PcOf(w, e.tab);
      }
      DroppedWritesAllStandDown(w', stale, events[1..]);
    }
  }

  // ---- what can refuse a retry ------------------------------------------------------------------------------

  /** The refusing claim was younger than the TTL when the attempt read its clock, or else it reached the cell
      a whole TTL or more after it was stamped. */
  predicate RefusedByRecentOrLateClaim(pc: Pc) {
    pc.StoodDown? ==> pc.at - pc.blocker.at < LOCK_TTL_MS || pc.writtenAt - pc.blocker.at >= LOCK_TTL_MS
  }

  /** A tab that wrote has the cell written no earlier than its own check. */
  ghost predicate Explained(w: World) {
    && w.wroteAt <= w.clock
    && (forall t :: RefusedByRecentOrLateClaim(PcOf(w, t)))
    && (forall t :: PcOf(w, t).Checked? ==> PcOf(w, t).at <= w.clock)
    && (forall t :: PcOf(w, t).Wrote? ==> PcOf(w, t).at <= w.wroteAt)
  }

  lemma {:induction false} RefusalsAreExplained(w: World, events: seq<Event>)
    requires Timely(w.clock, events) && NoDroppedWrite(events) && Explained(w)
    ensures Explained(After(w, events))
    decreases events
  {
    if events != [] {
      var e := events[0];
      assert e in events && forall x :: x in events[1..] ==> x in events;
      ExplainedStep(w, e);
      RefusalsAreExplained(Step(w, e), events[1..]);
    }
  }

  lemma ExplainedStep(w: World, e: Event)
    requires w.clock <= e.now && (e.Write? ==> e.outcome != Dropped) && Explained(w)
    ensures Explained(Step(w, e))
  {
    var w' := Step(w, e);
    forall t ensures RefusedByRecentOrLateClaim(PcOf(w', t))
                  && (PcOf(w', t).Checked? ==> PcOf(w', t).at <= w'.clock)
                  && (PcOf(w', t).Wrote? ==> PcOf(w', t).at <= w'.wroteAt)
    {
      if e.Vanish? || e.tab != t {
        OthersKeepPc(w, e, t);
      } else {
        assert PcOf(w.(clock := e.now), t) == PcOf(w, t);
      }
    }
  }

  /** The attempt of this tab is refused by this very access. */
  predicate Refuses(w: World, e: Event, tab: Tab) {
    && (e.Check? || e.Reread?) && e.tab == tab
    && (e.Check? ==> Resting(w, tab)) && (e.Reread? ==> PcOf(w, tab).Wrote?)
    && PcOf(Step(w, e), tab).StoodDown?
  }

  /** The claim was stamped after `refused`, or its tab stalled for a TTL between reading its clock and writing. */
  predicate NewOrLate(pc: Pc, refused: int)
    requires pc.StoodDown?
  {
    pc.blocker.at > refused || pc.writtenAt - pc.blocker.at >= LOCK_TTL_MS
  }

  /** A tab that is refused at the end of `first` and again in a retry, begun LOCK_TTL_MS later or more, is refused the
      second time only by a claim stamped after the first refusal, or written late by a stalled tab. */
  lemma RetryRefusedOnlyByNewClaim(cell: Cell, clock: int, first: seq<Event>, refusal: Event, more: seq<Event>,
                                   tab: Tab)
    requires Timely(clock, first + [refusal] + more) && NoDroppedWrite(first + [refusal] + more)
    requires Refuses(After(Start(cell, clock), first), refusal, tab)
    requires var pc := PcOf(After(Start(cell, clock), first + [refusal] + more), tab);
             pc.StoodDown? && pc.at >= refusal.now + LOCK_TTL_MS
    ensures NewOrLate(PcOf(After(Start(cell, clock), first + [refusal] + more), tab), refusal.now)
  {
    RefusalsAreExplained(Start(cell, clock), first + [refusal] + more);
  }

  /** Every effective write comes within a TTL of its check. */
  ghost predicate Brisk(w: World, events: seq<Event>)
    decreases events
  {
    events == [] || (BriskStep(w, events[0]) && Brisk(Step(w, events[0]), events[1..]))
  }

  predicate BriskStep(w: World, e: Event) {
    e.Write? && e.outcome == Works && PcOf(w, e.tab).Checked? ==> e.now - PcOf(w, e.tab).at < LOCK_TTL_MS
  }

  /** Claims of this run are in the cell within a TTL of their stamp; only they meet a reread. */
  ghost predicate Prompt(w: World) {
    && (w.lastWriter.Some? && w.cell.Holds? ==> w.wroteAt - w.cell.claim.at < LOCK_TTL_MS)
    && (forall t :: PcOf(w, t).Wrote? ==> w.lastWriter.Some?)
    && (forall t :: PcOf(w, t).StoodDown? ==> PromptPc(PcOf(w, t)))
  }

  predicate PromptPc(pc: Pc)
    requires pc.StoodDown?
  {
    pc.at - pc.blocker.at < LOCK_TTL_MS || pc.writtenAt - pc.blocker.at < LOCK_TTL_MS
  }

  lemma PromptStep(w: World, e: Event)
    requires w.clock <= e.now && (e.Write? ==> e.outcome != Dropped) && Prompt(w) && BriskStep(w, e)
    ensures Prompt(Step(w, e))
  {
    var w' := Step(w, e);
    forall t
      ensures PcOf(w', t).Wrote? ==> w'.lastWriter.Some?
      ensures PcOf(w', t).StoodDown? ==> PromptPc(PcOf(w', t))
    {
      if e.Vanish? || e.tab != t {
        OthersKeepPc(w, e, t);
      } else {
        assert PcOf(w.(clock := e.now), t) == PcOf(w, t);
      }
    }
  }

  lemma {:induction false} PromptRun(w: World, events: seq<Event>)
    requires Timely(w.clock, events) && NoDroppedWrite(events) && Brisk(w, events) && Prompt(w)
    ensures Prompt(After(w, events))
    decreases events
  {
    if events != [] {
      assert events[0] in events && forall x :: x in events[1..] ==> x in events;
      PromptStep(w, events[0]);
      PromptRun(Step(w, events[0]), events[1..]);
    }
  }

  /** If no tab stalls for a TTL between check and write, the retry is refused only by a claim stamped after the first
      refusal. */
  lemma BriskRetryRefusedOnlyByNewClaim(cell: Cell, clock: int, first: seq<Event>, refusal: Event, more: seq<Event>,
                                        tab: Tab)
    requires Timely(clock, first + [refusal] + more) && NoDroppedWrite(first + [refusal] + more)
    requires Brisk(Start(cell, clock), first + [refusal] + more)
    requires Refuses(After(Start(cell, clock), first), refusal, tab)
    requires var pc := PcOf(After(Start(cell, clock), first + [refusal] + more), tab);
             pc.StoodDown? && pc.at >= refusal.now + LOCK_TTL_MS
    ensures PcOf(After(Start(cell, clock), first + [refusal] + more), tab).blocker.at > refusal.now
  {
    RetryRefusedOnlyByNewClaim(cell, clock, first, refusal, more, tab);
    PromptRun(Start(cell, clock), first + [refusal] + more);
    RefusalsAreExplained(Start(cell, clock), first + [refusal] + more);
  }

  /** The claim can indeed be older: b stalls after its check, and a's retry meets b's old stamp. */
  lemma StalledTabRefusesRetry(a: Tab, b: Tab, c: Tab)
    requires a != b && b != c && a != c
    ensures var w1 := Step(Step(Step(Start(Absent, 0), Check(b, 0)), Check(c, 3_000)), Write(c, Works, 3_000));
            var w2 := Step(w1, Check(a, 5_000));
            var w3 := Step(Step(Step(w2, Check(a, 15_000)), Write(a, Works, 15_000)), Write(b, Works, 15_000));
            && Refuses(w1, Check(a, 5_000), a) && Refuses(w3, Reread(a, 15_000), a)
            && PcOf(Step(w3, Reread(a, 15_000)), a) == StoodDown(15_000, Claim(b, 0), 15_000)
  {
    var w1 := Step(Step(Step(Start(Absent, 0), Check(b, 0)), Check(c, 3_000)), Write(c, Works, 3_000));
    var refusing := Holds(Claim(c, 3_000));
    assert w1 == World(refusing, 3_000, map[b := Checked(0), c := Wrote(3_000)], map[], Some(c), {}, 3_000);
    StaleOvertake(w1, a, b, c);
  }

  lemma StaleOvertake(w1: World, a: Tab, b: Tab, c: Tab)
    requires a != b && b != c && a != c
    requires w1.cell == Holds(Claim(c, 3_000)) && w1.pcs == map[b := Checked(0), c := Wrote(3_000)]
    ensures var w2 := Step(w1, Check(a, 5_000));
            var w3 := Step(Step(Step(w2, Check(a, 15_000)), Write(a, Works, 15_000)), Write(b, Works, 15_000));
            && PcOf(w2, a).StoodDown? && PcOf(w3, a) == Wrote(15_000)
            && w3.cell == Holds(Claim(b, 0)) && w3.wroteAt == 15_000
  {
    var w2 := Step(w1, Check(a, 5_000));
    var w3 := Step(Step(w2, Check(a, 15_000)), Write(a, Works, 15_000));
    assert PcOf(w3, a) == Wrote(15_000) && PcOf(w3, b) == Checked(0);
  }

  // ---- uninterrupted attempts elect one tab ----------------------------------------------------------------

  /** Attempts that are not interleaved are the three steps in a row. */
  lemma AttemptIsThreeSteps(w: World, tab: Tab, now: int, outcome: WriteOutcome)
    requires Resting(w, tab)
    ensures var w' := Step(Step(Step(w, Check(tab, now)), Write(tab, outcome, now)), Reread(tab, now));
            && w'.cell == Attempt(w.cell, tab, now, outcome).1
            && (Attempt(w.cell, tab, now, outcome).0 <==> PcOf(w', tab) == Won)
            && (!Attempt(w.cell, tab, now, outcome).0 <==> PcOf(w', tab).StoodDown?)
  {
  }

  datatype Try = Try(tab: Tab, now: int)

  /** Who won each of a series of uninterrupted attempts on a working store. */
  function Winners(cell: Cell, tries: seq<Try>): seq<bool>
    decreases tries
  {
    if tries == [] then []
    else
      var (won, cell') := Attempt(cell, tries[0].tab, tries[0].now, Works);
      [won] + Winners(cell', tries[1..])
  }

  /** While attempts follow within the TTL of the first, exactly the attempts of the first tab win. */
  lemma {:induction false} OneTabWins(holder: Claim, tries: seq<Try>)
    requires forall i :: 0 <= i < |tries| ==> holder.at <= tries[i].now < holder.at + LOCK_TTL_MS
    requires forall i, j :: 0 <= i < j < |tries| ==> tries[i].now <= tries[j].now
    ensures |Winners(Holds(holder), tries)| == |tries|
    ensures forall i :: 0 <= i < |tries| ==> (Winners(Holds(holder), tries)[i] <==> tries[i].tab == holder.tab)
    decreases tries
  {
    if tries != [] {
      var t := tries[0];
      var next := if t.tab == holder.tab then Claim(t.tab, t.now) else holder;
      forall i | 0 <= i < |tries| - 1 ensures next.at <= tries[1..][i].now < next.at + LOCK_TTL_MS {
        assert tries[1..][i] == tries[i + 1];
      }
      OneTabWins(next, tries[1..]);
      var ws := Winners(Holds(holder), tries);
      forall i | 0 <= i < |tries| ensures ws[i] <==> tries[i].tab == holder.tab {
        if i > 0 { assert ws[i] == Winners(Holds(next), tries[1..])[i - 1]; }
      }
    }
  }
}
