/** The daemon over its worker spawner, from a completed start on: accepting work, `stop`, `update`, and the
    drains both of them wait for. */
module Daemons {
  import opened JsText
  import opened WorkerSpawners

  datatype DaemonState = Stopped | Running | Draining | Updating

  datatype Purpose = ForStop | ForUpdate

  /** A call of `stop` or `update`; call `k` waits for drain `k`. `outcome` is whether it got past the drain. */
  datatype Call = Call(purpose: Purpose, outcome: Option<bool>)

  /** `loops`: the heartbeat and the capacity refresh are running. */
  datatype Daemon = Daemon(state: DaemonState, loops: bool, spawner: Spawner, calls: seq<Call>)

  const STARTED := Daemon(Running, true, EMPTY, [])

  /** `Continues(k, heard)`: call `k` goes on after its drain settled; `heard` is whether somebody listens to the
      `error` event just then, which an expired drain emits and which throws when nobody does. */
  datatype DaemonEvent =
    | Work(spec: SessionSpec)
    | ChildExit(child: nat)
    | ChildError(child: nat)
    | Stop
    | Update
    | DrainTimer(drain: nat)
    | Continues(call: nat, heard: bool)

  // ---------------------------------------------------------------------------
  // The operations
  // ---------------------------------------------------------------------------

  function DaemonAccept(o: Options, d: Daemon, spec: SessionSpec): (Daemon, AcceptResult) {
    if d.state != Running then (d, Refused(NotRunning))
    else
      var (s, result) := Accept(o, d.spawner, spec);
      (d.(spawner := s), result)
  }

  /** `stop` and `update` up to their wait: the spawner is resumed and then drained. */
  function Leave(d: Daemon, state: DaemonState, purpose: Purpose): Daemon {
    if d.state == Stopped then d
    else d.(state := state, spawner := BeginDrain(Resume(d.spawner)), calls := d.calls + [Call(purpose, None)])
  }

  predicate Ready(d: Daemon, k: nat) {
    k < |d.calls| && k < |d.spawner.drains| && d.calls[k].outcome.None? && !d.spawner.drains[k].Waiting?
  }

  function Continue(d: Daemon, k: nat, heard: bool): Daemon {
    if !Ready(d, k) then d
    else
      var ok := d.spawner.drains[k] == Resolved || heard;
      d.(calls := d.calls[k := d.calls[k].(outcome := Some(ok))],
         loops := d.loops && !ok,
         state := if ok && d.calls[k].purpose == ForStop then Stopped else d.state)
  }

  function DaemonStep(o: Options, d: Daemon, e: DaemonEvent): Daemon {
    match e
    case Work(spec) => DaemonAccept(o, d, spec).0
    case ChildExit(c) => d.(spawner := ChildExits(d.spawner, c))
    case ChildError(c) => d.(spawner := ChildErrors(d.spawner, c))
    case Stop => Leave(d, Draining, ForStop)
    case Update => Leave(d, Updating, ForUpdate)
    case DrainTimer(k) => d.(spawner := DrainExpires(d.spawner, k))
    case Continues(k, heard) => Continue(d, k, heard)
  }

  function DaemonRun(o: Options, d: Daemon, run: seq<DaemonEvent>): Daemon
    decreases |run|
  {
    if run == [] then d else DaemonRun(o, DaemonStep(o, d, run[0]), run[1..])
  }

  // ---------------------------------------------------------------------------
  // What holds in every run
  // ---------------------------------------------------------------------------

  /** Call `k` was a `stop` that got past its drain. */
  predicate StopFinished(d: Daemon, k: nat) {
    k < |d.calls| && d.calls[k] == Call(ForStop, Some(true))
  }

  /** The daemon is running until the first `stop` or `update` and accepts work just that long; a drain is resolved
      exactly if it did not expire and the table is empty; the daemon is stopped exactly if a `stop` got past its
      drain, and then its loops are torn down. */
  ghost predicate DaemonInv(o: Options, d: Daemon) {
    && Inv(o, d.spawner)
    && |d.calls| == |d.spawner.drains|
    && (d.state == Running <==> d.calls == [])
    && (d.spawner.accepting <==> d.state == Running)
    && (Resolved in d.spawner.drains ==> d.spawner.sessions == map[])
    && (forall k | 0 <= k < |d.calls| :: d.calls[k].outcome.Some? ==> d.spawner.drains[k] != Waiting)
    && (d.state == Stopped <==> exists k: nat :: StopFinished(d, k))
    && (d.state == Stopped ==> !d.loops)
  }

  lemma SettledDrains(drains: seq<DrainState>)
    ensures |Settle(drains)| == |drains|
    ensures forall k | 0 <= k < |drains| :: drains[k] != Waiting ==> Settle(drains)[k] == drains[k]
  {
  }

  lemma InvChildEnds(o: Options, d: Daemon, s: Spawner, id: string)
    requires DaemonInv(o, d) && Inv(o, s)
    requires s == EndSession(d.spawner.(children := s.children), id)
    ensures DaemonInv(o, d.(spawner := s))
  {
    hide Inv;
    SettledDrains(d.spawner.drains);
    SameCalls(d, d.(spawner := s));
    if d.spawner.sessions == map[] {
      assert s.sessions == map[];
    }
  }

  lemma SameCalls(d: Daemon, e: Daemon)
    requires d.calls == e.calls
    ensures (exists k: nat :: StopFinished(d, k)) <==> (exists k: nat :: StopFinished(e, k))
  {
    forall k: nat
      ensures StopFinished(d, k) <==> StopFinished(e, k)
    {
    }
  }

  lemma NewCallUnfinished(d: Daemon, e: Daemon, purpose: Purpose)
    requires e.calls == d.calls + [Call(purpose, None)]
    ensures (exists k: nat :: StopFinished(d, k)) <==> (exists k: nat :: StopFinished(e, k))
  {
    forall k: nat
      ensures StopFinished(d, k) <==> StopFinished(e, k)
    {
    }
  }

  lemma InvLeave(o: Options, d: Daemon, state: DaemonState, purpose: Purpose)
    requires DaemonInv(o, d) && (state == Draining || state == Updating)
    ensures DaemonInv(o, Leave(d, state, purpose))
  {
    assert Inv(o, d.spawner);
    var e := Leave(d, state, purpose);
    if d.state != Stopped {
      InvStep(o, d.spawner, Resumes);
      InvStep(o, Resume(d.spawner), Drain);
      hide Inv, StopFinished;
      NewCallUnfinished(d, e, purpose);
    }
  }

  lemma InvContinue(o: Options, d: Daemon, k: nat, heard: bool)
    requires DaemonInv(o, d)
    ensures DaemonInv(o, Continue(d, k, heard))
  {
    hide Inv;
    var e := Continue(d, k, heard);
    if Ready(d, k) {
      forall j: nat
        ensures StopFinished(e, j) <==> StopFinished(d, j) || (j == k && StopFinished(e, k))
      {
      }
      if d.state == Stopped {
        var j: nat :| StopFinished(d, j);
        assert StopFinished(e, j);
      } else if e.state == Stopped {
        assert StopFinished(e, k);
      }
    }
  }

  lemma InvTimer(o: Options, d: Daemon, k: nat)
    requires DaemonInv(o, d)
    ensures DaemonInv(o, d.(spawner := DrainExpires(d.spawner, k)))
  {
    InvStep(o, d.spawner, Expires(k));
    hide Inv, Signal, StopFinished;
    SameCalls(d, d.(spawner := DrainExpires(d.spawner, k)));
  }

  lemma InvWork(o: Options, d: Daemon, spec: SessionSpec)
    requires DaemonInv(o, d)
    ensures DaemonInv(o, DaemonAccept(o, d, spec).0)
  {
    InvStep(o, d.spawner, AcceptWork(spec));
    hide Inv;
    SameCalls(d, DaemonAccept(o, d, spec).0);
  }

  lemma DaemonInvStep(o: Options, d: Daemon, e: DaemonEvent)
    requires DaemonInv(o, d)
    ensures DaemonInv(o, DaemonStep(o, d, e))
  {
    match e {
      case Work(spec) => InvWork(o, d, spec);
      case ChildExit(c) =>
        InvStep(o, d.spawner, Exits(c));
        if ChildExits(d.spawner, c) != d.spawner {
          InvChildEnds(o, d, ChildExits(d.spawner, c), d.spawner.children[c].sessionId);
        }
      case ChildError(c) =>
        InvStep(o, d.spawner, Errors(c));
        if ChildErrors(d.spawner, c) != d.spawner {
          InvChildEnds(o, d, ChildErrors(d.spawner, c), d.spawner.children[c].sessionId);
        }
      case Stop => InvLeave(o, d, Draining, ForStop);
      case Update => InvLeave(o, d, Updating, ForUpdate);
      case DrainTimer(k) => InvTimer(o, d, k);
      case Continues(k, heard) => InvContinue(o, d, k, heard);
    }
  }

  lemma {:induction false} DaemonInvRun(o: Options, d: Daemon, run: seq<DaemonEvent>)
    requires DaemonInv(o, d)
    ensures DaemonInv(o, DaemonRun(o, d, run))
    decreases |run|
  {
    if run != [] {
      hide DaemonInv, DaemonStep;
      DaemonInvStep(o, d, run[0]);
      DaemonInvRun(o, DaemonStep(o, d, run[0]), run[1..]);
    }
  }

  lemma InvStarted(o: Options)
    ensures DaemonInv(o, STARTED)
  {
    assert forall k: nat :: !StopFinished(STARTED, k);
  }

  /** In every run after a start: the table is within capacity; each drain is resolved exactly if it did not expire
      and the table is empty; and the daemon stops only by a `stop` whose drain was resolved or expired, so that
      unless a drain expired nothing is in the table of a stopped daemon. */
  lemma DaemonSafety(o: Options, run: seq<DaemonEvent>)
    ensures var d := DaemonRun(o, STARTED, run);
            && |d.spawner.sessions| <= o.maxConcurrentSessions
            && (forall k | 0 <= k < |d.spawner.drains| :: d.spawner.drains[k] != TimedOut ==>
                  (d.spawner.drains[k] == Resolved <==> d.spawner.sessions == map[]))
            && (d.state == Stopped && TimedOut !in d.spawner.drains ==> d.spawner.sessions == map[])
  {
    InvStarted(o);
    DaemonInvRun(o, STARTED, run);
    var d := DaemonRun(o, STARTED, run);
    if d.state == Stopped {
      var k: nat :| StopFinished(d, k);
      assert d.spawner.drains[k] in d.spawner.drains;
    }
  }

  // ---------------------------------------------------------------------------
  // Which work becomes a process
  // ---------------------------------------------------------------------------

  /** The daemon accepts work exactly while it is running, has room, and the repository is listed. */
  lemma DaemonAcceptLaw(o: Options, d: Daemon, spec: SessionSpec)
    requires DaemonInv(o, d)
    ensures var (after, result) := DaemonAccept(o, d, spec);
            && (result.Accepted? <==>
                  && d.state == Running && |d.spawner.sessions| < o.maxConcurrentSessions
                  && Listed(o, spec.repository))
            && (result == Refused(NotRunning) <==> d.state != Running)
            && (result.Refused? ==> after == d)
  {
    hide Listed;
    AcceptLaw(o, d.spawner, spec);
  }

  /** The work the daemon is offered in a run. */
  function Offers(run: seq<DaemonEvent>): set<SessionSpec> {
    set e | e in run && e.Work? :: e.spec
  }

  lemma {:induction false} RequestsAreOffers(o: Options, d: Daemon, run: seq<DaemonEvent>)
    ensures Requests(AskedIn(o, d, run)) <= Offers(run)
    decreases |run|
  {
    if run != [] {
      hide DaemonStep;
      RequestsAreOffers(o, DaemonStep(o, d, run[0]), run[1..]);
      assert run == [run[0]] + run[1..];
      forall spec | spec in Requests(AskedIn(o, d, run))
        ensures spec in Offers(run)
      {
        if AcceptWork(spec) in Asked(d, run[0]) {
          assert run[0] == Work(spec) && Work(spec) in run;
        } else {
          assert spec in Offers(run[1..]);
        }
      }
    }
  }

  /** In every run after a start, each child ever spawned was spawned for work the daemon was offered, under a listed
      project that serves its repository. */
  lemma OnlyListedWorkRuns(o: Options, run: seq<DaemonEvent>, c: nat)
    requires c < |DaemonRun(o, STARTED, run).spawner.children|
    ensures var child := DaemonRun(o, STARTED, run).spawner.children[c];
            && UnderProject(o, child) && Listed(o, child.repository)
            && Work(SessionSpec(child.sessionId, child.repository)) in run
  {
    hide DaemonRun, Serves;
    DaemonDrivesSpawner(o, STARTED, run);
    RequestsAreOffers(o, STARTED, run);
    ChildrenAreListed(o, EMPTY, AskedIn(o, STARTED, run));
  }

  // ---------------------------------------------------------------------------
  // Does the daemon know every live child?
  // ---------------------------------------------------------------------------

  /** What a step of the daemon asks of its spawner. */
  function Asked(d: Daemon, e: DaemonEvent): seq<Event> {
    match e
    case Work(spec) => if d.state == Running then [AcceptWork(spec)] else []
    case ChildExit(c) => [Exits(c)]
    case ChildError(c) => [Errors(c)]
    case Stop => if d.state == Stopped then [] else [Resumes, Drain]
    case Update => if d.state == Stopped then [] else [Resumes, Drain]
    case DrainTimer(k) => [Expires(k)]
    case Continues(_, _) => []
  }

  /** What a run of the daemon asks of its spawner. */
  function AskedIn(o: Options, d: Daemon, run: seq<DaemonEvent>): seq<Event>
    decreases |run|
  {
    if run == [] then [] else Asked(d, run[0]) + AskedIn(o, DaemonStep(o, d, run[0]), run[1..])
  }

  lemma {:induction false} RunAppend(o: Options, s: Spawner, a: seq<Event>, b: seq<Event>)
    ensures Run(o, s, a + b) == Run(o, Run(o, s, a), b)
    decreases |a|
  {
    if a == [] {
      assert a + b == b;
    } else {
      RunAppend(o, Step(o, s, a[0]), a[1..], b);
      assert (a + b)[1..] == a[1..] + b;
    }
  }

  lemma StepIsAsked(o: Options, d: Daemon, e: DaemonEvent)
    ensures DaemonStep(o, d, e).spawner == Run(o, d.spawner, Asked(d, e))
  {
    var asked := Asked(d, e);
    if |asked| == 1 {
      assert asked[1..] == [];
    } else if |asked| == 2 {
      assert asked[1..] == [Drain] && [Drain][1..] == [];
    }
  }

  /** A daemon drives its spawner through one of the runs that are possible for it. */
  lemma {:induction false} DaemonDrivesSpawner(o: Options, d: Daemon, run: seq<DaemonEvent>)
    ensures DaemonRun(o, d, run).spawner == Run(o, d.spawner, AskedIn(o, d, run))
    decreases |run|
  {
    if run != [] {
      hide DaemonStep, Run;
      StepIsAsked(o, d, run[0]);
      DaemonDrivesSpawner(o, DaemonStep(o, d, run[0]), run[1..]);
      RunAppend(o, d.spawner, Asked(d, run[0]), AskedIn(o, DaemonStep(o, d, run[0]), run[1..]));
    } else {
      assert Run(o, d.spawner, []) == d.spawner;
    }
  }

  /** The daemon's event does not meet another child's entry. */
  ghost predicate DaemonOwnEntry(o: Options, d: Daemon, e: DaemonEvent) {
    match e
    case Work(spec) => DaemonAccept(o, d, spec).1.Accepted? ==> spec.sessionId !in d.spawner.sessions
    case ChildExit(c) => OwnEntry(o, d.spawner, Exits(c))
    case ChildError(c) => OwnEntry(o, d.spawner, Errors(c))
    case _ => true
  }

  ghost predicate DaemonOwnEntries(o: Options, d: Daemon, run: seq<DaemonEvent>)
    decreases |run|
  {
    run != [] ==> DaemonOwnEntry(o, d, run[0]) && DaemonOwnEntries(o, DaemonStep(o, d, run[0]), run[1..])
  }

  ghost predicate DaemonAlwaysExact(o: Options, d: Daemon, run: seq<DaemonEvent>)
    decreases |run|
  {
    TableIsExact(d.spawner) && (run != [] ==> DaemonAlwaysExact(o, DaemonStep(o, d, run[0]), run[1..]))
  }

  lemma LeavingKeepsTable(s: Spawner)
    ensures TableIsExact(BeginDrain(Resume(s))) <==> TableIsExact(s)
  {
    var t := BeginDrain(Resume(s));
    assert forall c: nat :: Tracks(t, c) == Tracks(s, c);
  }

  lemma DaemonExactStep(o: Options, d: Daemon, e: DaemonEvent)
    requires DaemonInv(o, d) && TableIsExact(d.spawner)
    ensures TableIsExact(DaemonStep(o, d, e).spawner) <==> DaemonOwnEntry(o, d, e)
  {
    assert Inv(o, d.spawner);
    hide Inv, DaemonInv, TableIsExact;
    match e {
      case Work(spec) => ExactnessLaw(o, d.spawner, AcceptWork(spec));
      case ChildExit(c) => ExactnessLaw(o, d.spawner, Exits(c));
      case ChildError(c) => ExactnessLaw(o, d.spawner, Errors(c));
      case Stop => LeavingKeepsTable(d.spawner);
      case Update => LeavingKeepsTable(d.spawner);
      case DrainTimer(k) => ExactnessLaw(o, d.spawner, Expires(k));
      case Continues(k, heard) =>
    }
  }

  /** Over every run of the daemon its table is always exact if and only if no event meets another child's entry. */
  lemma {:induction false} DaemonExactness(o: Options, d: Daemon, run: seq<DaemonEvent>)
    requires DaemonInv(o, d) && TableIsExact(d.spawner)
    ensures DaemonAlwaysExact(o, d, run) <==> DaemonOwnEntries(o, d, run)
    decreases |run|
  {
    if run != [] {
      var next := DaemonStep(o, d, run[0]);
      DaemonInvStep(o, d, run[0]);
      DaemonExactStep(o, d, run[0]);
      hide DaemonInv, DaemonStep, TableIsExact, DaemonOwnEntry;
      if TableIsExact(next.spawner) { DaemonExactness(o, next, run[1..]); }
    }
  }

  lemma {:induction false} ExactAtTheEnd(o: Options, d: Daemon, run: seq<DaemonEvent>)
    requires DaemonAlwaysExact(o, d, run)
    ensures TableIsExact(DaemonRun(o, d, run).spawner)
    decreases |run|
  {
    if run != [] {
      hide DaemonStep, TableIsExact;
      ExactAtTheEnd(o, DaemonStep(o, d, run[0]), run[1..]);
    }
  }

  /** Then the capacity bounds the processes and not only the table, in every run after a start, and unless a drain
      expired no child outlives a stop. */
  lemma CapacityBoundsProcesses(o: Options, run: seq<DaemonEvent>)
    requires DaemonOwnEntries(o, STARTED, run)
    ensures var d := DaemonRun(o, STARTED, run);
            && LiveCount(d.spawner.children) == |d.spawner.sessions| <= o.maxConcurrentSessions
            && (d.state == Stopped && TimedOut !in d.spawner.drains ==> LiveCount(d.spawner.children) == 0)
  {
    InvStarted(o);
    assert TableIsExact(STARTED.spawner);
    hide TableIsExact, DaemonOwnEntries, Inv, LiveCount;
    DaemonExactness(o, STARTED, run);
    ExactAtTheEnd(o, STARTED, run);
    DaemonInvRun(o, STARTED, run);
    DaemonSafety(o, run);
    ExactTableBoundsChildren(o, DaemonRun(o, STARTED, run).spawner);
  }

  // ---------------------------------------------------------------------------
  // After leaving the running state
  // ---------------------------------------------------------------------------

  lemma NothingStartsStep(o: Options, d: Daemon, e: DaemonEvent)
    requires DaemonInv(o, d) && d.state != Running
    ensures var after := DaemonStep(o, d, e);
            && after.state != Running && |after.spawner.children| == |d.spawner.children|
            && after.spawner.sessions.Keys <= d.spawner.sessions.Keys
            && (forall id | id in after.spawner.sessions :: after.spawner.sessions[id] == d.spawner.sessions[id])
  {
    hide Inv, Accept, Settle, StopFinished;
  }

  /** Once `stop` or `update` has left the running state no session ever starts, although every drain begins by
      resuming the spawner: no child is spawned and no entry is added or replaced. */
  lemma {:induction false} NothingStartsAfterLeaving(o: Options, d: Daemon, run: seq<DaemonEvent>)
    requires DaemonInv(o, d) && d.state != Running
    ensures var after := DaemonRun(o, d, run);
            && after.state != Running && |after.spawner.children| == |d.spawner.children|
            && after.spawner.sessions.Keys <= d.spawner.sessions.Keys
            && (forall id | id in after.spawner.sessions :: after.spawner.sessions[id] == d.spawner.sessions[id])
    decreases |run|
  {
    if run != [] {
      NothingStartsStep(o, d, run[0]);
      DaemonInvStep(o, d, run[0]);
      hide DaemonInv, DaemonStep;
      NothingStartsAfterLeaving(o, DaemonStep(o, d, run[0]), run[1..]);
    }
  }

  lemma ExitRemoves(o: Options, d: Daemon, c: nat)
    requires DaemonInv(o, d) && d.state != Running
    requires exists id | id in d.spawner.sessions :: d.spawner.sessions[id] == c
    ensures forall id | id in DaemonStep(o, d, ChildExit(c)).spawner.sessions ::
              DaemonStep(o, d, ChildExit(c)).spawner.sessions[id] != c
  {
  }

  lemma {:induction false} ExitedAreGone(o: Options, d: Daemon, run: seq<DaemonEvent>)
    requires DaemonInv(o, d) && d.state != Running
    ensures var left := DaemonRun(o, d, run).spawner.sessions;
            forall id | id in left :: ChildExit(left[id]) !in run
    decreases |run|
  {
    if run != [] {
      var next := DaemonStep(o, d, run[0]);
      NothingStartsStep(o, d, run[0]);
      DaemonInvStep(o, d, run[0]);
      NothingStartsAfterLeaving(o, next, run[1..]);
      ExitedAreGone(o, next, run[1..]);
      var left := DaemonRun(o, d, run).spawner.sessions;
      assert run == [run[0]] + run[1..];
      forall id | id in left
        ensures ChildExit(left[id]) !in run
      {
        assert id in next.spawner.sessions && id in d.spawner.sessions;
        assert left[id] == next.spawner.sessions[id] == d.spawner.sessions[id];
        if run[0] == ChildExit(left[id]) {
          ExitRemoves(o, d, left[id]);
        }
      }
    }
  }

  /** Every drain comes to an end: after a run in which each child of the table exits, the table is empty and no
      drain waits. */
  lemma DrainsEnd(o: Options, d: Daemon, run: seq<DaemonEvent>)
    requires DaemonInv(o, d) && d.state != Running
    requires forall id | id in d.spawner.sessions :: ChildExit(d.spawner.sessions[id]) in run
    ensures var after := DaemonRun(o, d, run);
            after.spawner.sessions == map[] && Waiting !in after.spawner.drains
  {
    var after := DaemonRun(o, d, run);
    NothingStartsAfterLeaving(o, d, run);
    ExitedAreGone(o, d, run);
    DaemonInvRun(o, d, run);
    assert after.spawner.sessions.Keys == {};
  }

  /** `Stopped` is final. */
  lemma {:induction false} StoppedStays(o: Options, d: Daemon, run: seq<DaemonEvent>)
    requires DaemonInv(o, d) && d.state == Stopped
    ensures DaemonRun(o, d, run).state == Stopped
    decreases |run|
  {
    if run != [] {
      DaemonInvStep(o, d, run[0]);
      StoppedStays(o, DaemonStep(o, d, run[0]), run[1..]);
    }
  }

  /** No call in the run continues with somebody listening for errors, and no further `stop` is made. */
  predicate Unheard(run: seq<DaemonEvent>) {
    forall e | e in run :: e != Stop && (e.Continues? ==> !e.heard)
  }

  /** No `stop` has got past its drain or still can without a listener: each one's drain expired. */
  predicate StopsExpired(d: Daemon) {
    |d.calls| == |d.spawner.drains|
    && forall k | 0 <= k < |d.calls| ::
         d.calls[k].purpose == ForStop ==> d.spawner.drains[k] == TimedOut && d.calls[k].outcome != Some(true)
  }

  /** A `stop` whose drain expires while nobody listens for errors never stops the daemon, not even when every
      session has ended since. */
  lemma {:induction false} UnheardExpiryNeverStops(o: Options, d: Daemon, run: seq<DaemonEvent>)
    requires DaemonInv(o, d) && StopsExpired(d) && Unheard(run)
    ensures DaemonRun(o, d, run).state != Stopped
    decreases |run|
  {
    assert d.state != Stopped;
    if run != [] {
      DaemonInvStep(o, d, run[0]);
      assert run[0] in run;
      assert forall e | e in run[1..] :: e in run;
      ExpiredStep(o, d, run[0]);
      hide DaemonInv, DaemonStep, StopsExpired;
      UnheardExpiryNeverStops(o, DaemonStep(o, d, run[0]), run[1..]);
    }
  }

  lemma ExpiredStep(o: Options, d: Daemon, e: DaemonEvent)
    requires StopsExpired(d) && e != Stop && (e.Continues? ==> !e.heard)
    ensures StopsExpired(DaemonStep(o, d, e))
  {
    SettledDrains(d.spawner.drains);
  }

  /** Two sessions under one id share an entry: when the first child exits the daemon drains and stops with the
      second child alive, never signalled. */
  lemma ShadowedChildSurvivesStop(o: Options, spec: SessionSpec)
    requires o.maxConcurrentSessions >= 2 && Listed(o, spec.repository)
    ensures var d := DaemonRun(o, STARTED, [Work(spec), Work(spec), ChildExit(0), Stop, Continues(0, false)]);
            && d.state == Stopped && d.spawner.drains == [Resolved]
            && |d.spawner.children| == 2 && d.spawner.children[0].exited
            && d.spawner.children[1].Live() && !d.spawner.children[1].signalled
            && d.spawner.children[0].sessionId == d.spawner.children[1].sessionId == spec.sessionId
  {
    var id := spec.sessionId;
    FindProjectFinds(o, spec);
    var a := Spawned(spec, FindProject(o.projects, spec.repository));
    var d1 := STARTED.(spawner := Spawner(true, map[id := 0], [a], []));
    var d2 := STARTED.(spawner := Spawner(true, map[id := 1], [a, a], []));
    var d3 := STARTED.(spawner := Spawner(true, map[], [a.(exited := true), a], []));
    var d4 := Daemon(Draining, true, Spawner(false, map[], d3.spawner.children, [Resolved]), [Call(ForStop, None)]);
    var d5 := d4.(state := Stopped, loops := false, calls := [Call(ForStop, Some(true))]);
    assert DaemonStep(o, STARTED, Work(spec)) == d1;
    assert |d1.spawner.sessions| == 1;
    assert DaemonStep(o, d1, Work(spec)) == d2 by { assert map[id := 0][id := 1] == map[id := 1]; }
    assert DaemonStep(o, d2, ChildExit(0)) == d3 by { assert map[id := 1] - {id} == map[]; }
    assert DaemonStep(o, d3, Stop) == d4;
    assert DaemonStep(o, d4, Continues(0, false)) == d5;
    var run := [Work(spec), Work(spec), ChildExit(0), Stop, Continues(0, false)];
    hide DaemonStep;
    assert DaemonRun(o, d4, run[4..]) == d5 by { assert run[4..][1..] == []; }
    assert DaemonRun(o, d3, run[3..]) == d5 by { assert run[3..][1..] == run[4..]; }
    assert DaemonRun(o, d2, run[2..]) == d5 by { assert run[2..][1..] == run[3..]; }
    assert DaemonRun(o, d1, run[1..]) == d5 by { assert run[1..][1..] == run[2..]; }
  }

  /** With a listener, `stop` finishes although its drain expired: the session is signalled and still in the table. */
  lemma ExpiredStopKeepsItsTable(o: Options, spec: SessionSpec)
    requires o.maxConcurrentSessions >= 1 && Listed(o, spec.repository)
    ensures var d := DaemonRun(o, STARTED, [Work(spec), Stop, DrainTimer(0), Continues(0, true)]);
            && d.state == Stopped && d.spawner.drains == [TimedOut] && d.spawner.sessions == map[spec.sessionId := 0]
            && |d.spawner.children| == 1 && d.spawner.children[0].Live() && d.spawner.children[0].signalled
  {
    var id := spec.sessionId;
    FindProjectFinds(o, spec);
    var a := Spawned(spec, FindProject(o.projects, spec.repository));
    var d1 := STARTED.(spawner := Spawner(true, map[id := 0], [a], []));
    var d2 := Daemon(Draining, true, Spawner(false, map[id := 0], [a], [Waiting]), [Call(ForStop, None)]);
    var d3 := d2.(spawner := Spawner(false, map[id := 0], [a.(signalled := true)], [TimedOut]));
    var d4 := d3.(state := Stopped, loops := false, calls := [Call(ForStop, Some(true))]);
    assert DaemonStep(o, STARTED, Work(spec)) == d1;
    assert DaemonStep(o, d1, Stop) == d2 by { assert id in map[id := 0]; }
    assert DaemonStep(o, d2, DrainTimer(0)) == d3;
    assert DaemonStep(o, d3, Continues(0, true)) == d4;
    var run := [Work(spec), Stop, DrainTimer(0), Continues(0, true)];
    hide DaemonStep;
    assert DaemonRun(o, d3, run[3..]) == d4 by { assert run[3..][1..] == []; }
    assert DaemonRun(o, d2, run[2..]) == d4 by { assert run[2..][1..] == run[3..]; }
    assert DaemonRun(o, d1, run[1..]) == d4 by { assert run[1..][1..] == run[2..]; }
  }

  // ---------------------------------------------------------------------------
  // The daemon object
  // ---------------------------------------------------------------------------

  class DaemonService {
    const spawner: WorkerSpawner
    var state: DaemonState
    var loops: bool
    var calls: seq<Call>

    ghost function View(): Daemon
      reads this, spawner
    {
      Daemon(state, loops, spawner.View(), calls)
    }

    ghost predicate Valid()
      reads this, spawner
    {
      DaemonInv(spawner.options, View())
    }

    /** A completed start. */
    constructor (options: Options)
      ensures Valid() && View() == STARTED && spawner.options == options && fresh(spawner)
    {
      var s := new WorkerSpawner(options);
      spawner, state, loops, calls := s, Running, true, [];
      new;
      InvStarted(options);
    }

    method Accept(spec: SessionSpec) returns (result: AcceptResult)
      requires Valid()
      modifies this, spawner
      ensures Valid() && (View(), result) == DaemonAccept(spawner.options, old(View()), spec)
    {
      InvWork(spawner.options, View(), spec);
      if state != Running {
        return Refused(NotRunning);
      }
      result := spawner.AcceptWork(spec);
    }

    method DrainSpawner()
      requires spawner.Valid()
      modifies spawner
      ensures spawner.Valid() && spawner.View() == BeginDrain(Resume(old(spawner.View())))
    {
      spawner.ResumeWork();
      spawner.Drain();
    }

    /** `stop` up to its wait for the drain. */
    method BeginStop()
      requires Valid()
      modifies this, spawner
      ensures Valid() && View() == Leave(old(View()), Draining, ForStop)
      ensures old(state) != Stopped ==> state == Draining && calls == old(calls) + [Call(ForStop, None)]
      ensures loops == old(loops) && !spawner.accepting
    {
      InvLeave(spawner.options, View(), Draining, ForStop);
      if state == Stopped {
        return;
      }
      state := Draining;
      calls := calls + [Call(ForStop, None)];
      DrainSpawner();
    }

    /** `update` up to its wait for the drain; `accepted` is false when it throws. */
    method BeginUpdate() returns (accepted: bool)
      requires Valid()
      modifies this, spawner
      ensures Valid() && View() == Leave(old(View()), Updating, ForUpdate) && accepted == (old(state) != Stopped)
      ensures old(state) != Stopped ==> state == Updating && calls == old(calls) + [Call(ForUpdate, None)]
      ensures loops == old(loops) && !spawner.accepting
    {
      InvLeave(spawner.options, View(), Updating, ForUpdate);
      if state == Stopped {
        return false;
      }
      state := Updating;
      calls := calls + [Call(ForUpdate, None)];
      DrainSpawner();
      accepted := true;
    }

    /** What follows the drain of call `k`; `ok` is false when the call rejects. */
    method AfterDrain(k: nat, heard: bool) returns (ok: bool)
      requires Valid() && Ready(View(), k)
      modifies this
      ensures Valid() && View() == Continue(old(View()), k, heard)
      ensures ok <==> spawner.drains[k] == Resolved || heard
      ensures loops == (old(loops) && !ok)
      ensures state == if ok && old(calls)[k].purpose == ForStop then Stopped else old(state)
    {
      InvContinue(spawner.options, View(), k, heard);
      ok := spawner.drains[k] == Resolved || heard;
      calls := calls[k := calls[k].(outcome := Some(ok))];
      if ok {
        loops := false;
        if calls[k].purpose == ForStop {
          state := Stopped;
        }
      }
    }
  }
}
