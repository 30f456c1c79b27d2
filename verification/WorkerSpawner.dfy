/** The session table of the worker spawner: one child process per accepted session, drained on request. */
module WorkerSpawners {
  datatype Options = Options(projects: seq<string>, maxConcurrentSessions: nat)

  datatype SessionSpec = SessionSpec(sessionId: string, repository: string)

  /** A child process as its environment and its event listeners know it: the session and repository it is for, the
      position of the project it was spawned under, and which of its two ending events, heard once each, have come. */
  datatype Child = Child(sessionId: string, repository: string, project: nat, exited: bool, errored: bool,
      signalled: bool)
  {
    predicate Live() {
      !exited && !errored
    }
  }

  datatype DrainState = Waiting | Resolved | TimedOut

  datatype Refusal = NotAccepting | AtCapacity | NotAllowed | NotRunning

  datatype AcceptResult = Accepted(child: nat) | Refused(why: Refusal)

  /** `sessions` maps a session id to the position of its child in `children`, the list of all ever spawned. */
  datatype Spawner = Spawner(accepting: bool, sessions: map<string, nat>, children: seq<Child>, drains: seq<DrainState>)

  const EMPTY := Spawner(true, map[], [], [])

  // ---------------------------------------------------------------------------
  // The operations
  // ---------------------------------------------------------------------------

  predicate EndsWith(s: string, suffix: string) {
    |suffix| <= |s| && s[|s| - |suffix|..] == suffix
  }

  predicate Matches(project: string, repository: string) {
    project == repository || EndsWith(repository, "/" + project) || EndsWith(project, "/" + repository)
  }

  /** The position of the first project that matches, or the number of projects if none does. */
  function FindProject(projects: seq<string>, repository: string): (k: nat)
    ensures k <= |projects|
    ensures forall i | 0 <= i < k :: !Matches(projects[i], repository)
    ensures k < |projects| ==> Matches(projects[k], repository)
  {
    if projects == [] || Matches(projects[0], repository) then 0
    else
      var k := FindProject(projects[1..], repository);
      assert forall i | 1 <= i < k + 1 :: projects[i] == projects[1..][i - 1];
      k + 1
  }

  function Spawned(spec: SessionSpec, project: nat): Child {
    Child(spec.sessionId, spec.repository, project, false, false, false)
  }

  /** Checks and, in the same step, spawns and enters the child; an entry under the same id is replaced. */
  function Accept(o: Options, s: Spawner, spec: SessionSpec): (Spawner, AcceptResult) {
    if !s.accepting then (s, Refused(NotAccepting))
    else if |s.sessions| >= o.maxConcurrentSessions then (s, Refused(AtCapacity))
    else
      var project := FindProject(o.projects, spec.repository);
      if project == |o.projects| then (s, Refused(NotAllowed))
      else (s.(sessions := s.sessions[spec.sessionId := |s.children|],
               children := s.children + [Spawned(spec, project)]),
            Accepted(|s.children|))
  }

  function Settle(drains: seq<DrainState>): seq<DrainState> {
    seq(|drains|, i requires 0 <= i < |drains| => if drains[i].Waiting? then Resolved else drains[i])
  }

  /** A session ended: its entry goes, whichever child it belongs to, and drains that were waiting for an empty
      table are told. */
  function EndSession(s: Spawner, sessionId: string): Spawner {
    var sessions := s.sessions - {sessionId};
    s.(sessions := sessions, drains := if sessions == map[] then Settle(s.drains) else s.drains)
  }

  function ChildExits(s: Spawner, c: nat): Spawner {
    if c < |s.children| && !s.children[c].exited then
      EndSession(s.(children := s.children[c := s.children[c].(exited := true)]), s.children[c].sessionId)
    else s
  }

  function ChildErrors(s: Spawner, c: nat): Spawner {
    if c < |s.children| && !s.children[c].errored then
      EndSession(s.(children := s.children[c := s.children[c].(errored := true)]), s.children[c].sessionId)
    else s
  }

  function BeginDrain(s: Spawner): Spawner {
    s.(accepting := false, drains := s.drains + [if s.sessions == map[] then Resolved else Waiting])
  }

  function Resume(s: Spawner): Spawner {
    s.(accepting := true)
  }

  predicate Tracks(s: Spawner, c: nat) {
    c < |s.children| && s.children[c].sessionId in s.sessions && s.sessions[s.children[c].sessionId] == c
  }

  /** The children in the table get a termination signal. */
  function Signal(s: Spawner): seq<Child> {
    seq(|s.children|, c requires 0 <= c < |s.children| =>
      if Tracks(s, c) then s.children[c].(signalled := true) else s.children[c])
  }

  function DrainExpires(s: Spawner, d: nat): Spawner {
    if d < |s.drains| && s.drains[d].Waiting? then s.(drains := s.drains[d := TimedOut], children := Signal(s)) else s
  }

  datatype Event =
    | AcceptWork(spec: SessionSpec)
    | Exits(child: nat)
    | Errors(child: nat)
    | Drain
    | Resumes
    | Expires(drain: nat)

  function Step(o: Options, s: Spawner, e: Event): Spawner {
    match e
    case AcceptWork(spec) => Accept(o, s, spec).0
    case Exits(c) => ChildExits(s, c)
    case Errors(c) => ChildErrors(s, c)
    case Drain => BeginDrain(s)
    case Resumes => Resume(s)
    case Expires(d) => DrainExpires(s, d)
  }

  function Run(o: Options, s: Spawner, run: seq<Event>): Spawner
    decreases |run|
  {
    if run == [] then s else Run(o, Step(o, s, run[0]), run[1..])
  }

  predicate EndsInSegment(whole: string, front: string, segment: string) {
    whole == front + "/" + segment
  }

  /** A project serves a repository exactly if they are equal or one is the other behind some path, whichever of
      the two is the longer. */
  lemma MatchesLaw(project: string, repository: string)
    ensures Matches(project, repository)
            <==> || project == repository
                 || (exists front :: EndsInSegment(repository, front, project))
                 || (exists front :: EndsInSegment(project, front, repository))
    ensures Matches(project, repository) <==> Matches(repository, project)
  {
    EndsWithLaw(repository, project);
    EndsWithLaw(project, repository);
  }

  lemma EndsWithLaw(whole: string, segment: string)
    ensures EndsWith(whole, "/" + segment) <==> exists front :: EndsInSegment(whole, front, segment)
  {
    var n := |whole| - |"/" + segment|;
    if EndsWith(whole, "/" + segment) {
      assert whole == whole[..n] + ("/" + segment) == whole[..n] + "/" + segment;
      assert EndsInSegment(whole, whole[..n], segment);
    }
    if front :| EndsInSegment(whole, front, segment) {
      assert whole == front + ("/" + segment);
      assert whole[|front|..] == "/" + segment && |front| == n;
    }
  }

  // ---------------------------------------------------------------------------
  // The allowlist
  // ---------------------------------------------------------------------------

  /** `project` and `repository` are equal, or one of them is the other behind some path and a slash. */
  ghost predicate Serves(project: string, repository: string) {
    || project == repository
    || (exists front :: EndsInSegment(repository, front, project))
    || (exists front :: EndsInSegment(project, front, repository))
  }

  ghost predicate Listed(o: Options, repository: string) {
    exists i | 0 <= i < |o.projects| :: Serves(o.projects[i], repository)
  }

  /** The child is for the first listed project that serves its repository. */
  ghost predicate UnderProject(o: Options, c: Child) {
    && c.project < |o.projects| && Serves(o.projects[c.project], c.repository)
    && forall i | 0 <= i < c.project :: !Serves(o.projects[i], c.repository)
  }

  lemma FindProjectFinds(o: Options, spec: SessionSpec)
    ensures var k := FindProject(o.projects, spec.repository);
            && (k < |o.projects| <==> Listed(o, spec.repository))
            && (k < |o.projects| ==> UnderProject(o, Spawned(spec, k)))
  {
    hide EndsInSegment, Matches;
    forall i | 0 <= i < |o.projects|
      ensures Matches(o.projects[i], spec.repository) <==> Serves(o.projects[i], spec.repository)
    {
      MatchesLaw(o.projects[i], spec.repository);
    }
  }

  /** Work is accepted exactly while the spawner accepts, has room, and some listed project equals the repository
      or is related to it by a path; otherwise the first of these that fails is the reason and nothing
      changes. The new child is live, knows its session, its repository and the first project that serves it. */
  lemma AcceptLaw(o: Options, s: Spawner, spec: SessionSpec)
    ensures var (t, result) := Accept(o, s, spec);
            var room := |s.sessions| < o.maxConcurrentSessions;
            && (result.Accepted? <==> s.accepting && room && Listed(o, spec.repository))
            && (result == Refused(NotAccepting) <==> !s.accepting)
            && (result == Refused(AtCapacity) <==> s.accepting && !room)
            && (result == Refused(NotAllowed) <==> s.accepting && room && !Listed(o, spec.repository))
            && (result.Refused? ==> t == s)
            && (result.Accepted? ==>
                  exists child: Child ::
                    && child.Live() && !child.signalled && UnderProject(o, child)
                    && child.sessionId == spec.sessionId && child.repository == spec.repository
                    && t == Spawner(s.accepting, s.sessions[spec.sessionId := result.child], s.children + [child],
                           s.drains)
                    && result.child == |s.children|)
  {
    hide UnderProject, Listed, Serves, EndsInSegment, Matches;
    FindProjectFinds(o, spec);
    var (t, result) := Accept(o, s, spec);
    if result.Accepted? {
      var child := Spawned(spec, FindProject(o.projects, spec.repository));
      assert child.Live() && UnderProject(o, child);
      assert t.children == s.children + [child];
    }
  }

  /** The same process, whatever has become of it. */
  predicate SameProcess(c: Child, d: Child) {
    c.sessionId == d.sessionId && c.repository == d.repository && c.project == d.project
  }

  /** Every child of `t` is one of `s`, at the same position, or a new one under a listed project, for one of the
      requests `specs`. */
  ghost predicate Descends(o: Options, s: Spawner, t: Spawner, specs: set<SessionSpec>) {
    && |s.children| <= |t.children|
    && (forall c | 0 <= c < |s.children| :: SameProcess(s.children[c], t.children[c]))
    && forall c | |s.children| <= c < |t.children| ::
         && UnderProject(o, t.children[c])
         && SessionSpec(t.children[c].sessionId, t.children[c].repository) in specs
  }

  function Requests(run: seq<Event>): set<SessionSpec> {
    set e | e in run && e.AcceptWork? :: e.spec
  }

  lemma DescendsStep(o: Options, s: Spawner, e: Event)
    ensures Descends(o, s, Step(o, s, e), Requests([e]))
  {
    hide UnderProject, Listed, Settle;
    match e {
      case AcceptWork(spec) =>
        AcceptLaw(o, s, spec);
        assert spec in Requests([e]) by { assert e in [e]; }
      case Exits(c) =>
      case Errors(c) =>
      case Drain =>
      case Resumes =>
      case Expires(d) =>
    }
  }

  lemma DescendsTrans(o: Options, s: Spawner, t: Spawner, u: Spawner, a: set<SessionSpec>, b: set<SessionSpec>)
    requires Descends(o, s, t, a) && Descends(o, t, u, b)
    ensures Descends(o, s, u, a + b)
  {
    forall c | |s.children| <= c < |u.children|
      ensures UnderProject(o, u.children[c])
      ensures SessionSpec(u.children[c].sessionId, u.children[c].repository) in a + b
    {
      if c < |t.children| {
        assert UnderProject(o, t.children[c]) && SameProcess(t.children[c], u.children[c]);
      }
    }
  }

  /** No child is ever spawned but for a request of the run and under a listed project that serves its repository. */
  lemma {:induction false} ChildrenAreListed(o: Options, s: Spawner, run: seq<Event>)
    ensures Descends(o, s, Run(o, s, run), Requests(run))
    decreases |run|
  {
    if run != [] {
      hide Step, UnderProject;
      var t := Step(o, s, run[0]);
      DescendsStep(o, s, run[0]);
      ChildrenAreListed(o, t, run[1..]);
      DescendsTrans(o, s, t, Run(o, t, run[1..]), Requests([run[0]]), Requests(run[1..]));
      assert run == [run[0]] + run[1..];
      assert Requests(run) == Requests([run[0]]) + Requests(run[1..]);
    }
  }

  /** An expiring drain signals exactly the children in the table and ends as timed out. */
  lemma ExpirySignals(o: Options, s: Spawner, d: nat)
    requires Inv(o, s) && d < |s.drains| && s.drains[d] == Waiting
    ensures var t := Step(o, s, Expires(d));
            && t.accepting == s.accepting && t.sessions == s.sessions && t.drains == s.drains[d := TimedOut]
            && |t.children| == |s.children|
            && forall c | 0 <= c < |s.children| ::
                 t.children[c] == if c in s.sessions.Values then s.children[c].(signalled := true) else s.children[c]
  {
    forall c: nat | c < |s.children|
      ensures Tracks(s, c) <==> c in s.sessions.Values
    {
    }
  }

  // ---------------------------------------------------------------------------
  // What holds in every run
  // ---------------------------------------------------------------------------

  /** The table is within capacity, each entry is a live child of that id, and no drain waits for a table that is
      empty already. */
  ghost predicate Inv(o: Options, s: Spawner) {
    && |s.sessions| <= o.maxConcurrentSessions
    && (forall id | id in s.sessions :: Tracks(s, s.sessions[id]) && s.children[s.sessions[id]].sessionId == id
                                        && s.children[s.sessions[id]].Live())
    && (s.sessions == map[] ==> Waiting !in s.drains)
  }

  lemma SizeAfterInsert(m: map<string, nat>, id: string, c: nat)
    ensures |m[id := c]| <= |m| + 1
  {
    assert m[id := c].Keys == m.Keys + {id};
    assert |m.Keys + {id}| <= |m.Keys| + 1;
  }

  lemma SizeAfterRemove(m: map<string, nat>, id: string)
    ensures |m - {id}| <= |m|
  {
    assert m.Keys == (m - {id}).Keys + (m.Keys * {id});
  }

  lemma NobodyWaits(drains: seq<DrainState>)
    ensures Waiting !in Settle(drains)
  {
  }

  lemma InvAccept(o: Options, s: Spawner, spec: SessionSpec)
    requires Inv(o, s)
    ensures Inv(o, Accept(o, s, spec).0)
  {
    SizeAfterInsert(s.sessions, spec.sessionId, |s.children|);
    var t := Accept(o, s, spec).0;
    if t != s {
      assert spec.sessionId in t.sessions;
    }
  }

  lemma InvEnd(o: Options, s: Spawner, c: nat, child: Child)
    requires Inv(o, s) && c < |s.children| && child.sessionId == s.children[c].sessionId
    ensures Inv(o, EndSession(s.(children := s.children[c := child]), child.sessionId))
  {
    SizeAfterRemove(s.sessions, child.sessionId);
    NobodyWaits(s.drains);
  }

  lemma InvDrain(o: Options, s: Spawner)
    requires Inv(o, s)
    ensures Inv(o, BeginDrain(s)) && Inv(o, Resume(s))
  {
  }

  lemma InvExpires(o: Options, s: Spawner, d: nat)
    requires Inv(o, s)
    ensures Inv(o, DrainExpires(s, d))
  {
    var t := DrainExpires(s, d);
    forall id | id in t.sessions
      ensures Tracks(t, t.sessions[id]) && t.children[t.sessions[id]].sessionId == id
          && t.children[t.sessions[id]].Live()
    {
      assert Tracks(s, s.sessions[id]);
    }
  }

  lemma InvStep(o: Options, s: Spawner, e: Event)
    requires Inv(o, s)
    ensures Inv(o, Step(o, s, e))
  {
    hide Inv, Accept, BeginDrain, Resume, DrainExpires, EndSession;
    match e {
      case AcceptWork(spec) => InvAccept(o, s, spec);
      case Exits(c) =>
        if c < |s.children| { InvEnd(o, s, c, s.children[c].(exited := true)); }
      case Errors(c) =>
        if c < |s.children| { InvEnd(o, s, c, s.children[c].(errored := true)); }
      case Drain => InvDrain(o, s);
      case Resumes => InvDrain(o, s);
      case Expires(d) => InvExpires(o, s, d);
    }
  }

  /** Over every interleaving the table stays within capacity, holds live children only and keeps no drain waiting
      in vain. */
  lemma {:induction false} InvRun(o: Options, s: Spawner, run: seq<Event>)
    requires Inv(o, s)
    ensures Inv(o, Run(o, s, run))
    decreases |run|
  {
    if run != [] {
      InvStep(o, s, run[0]);
      InvRun(o, Step(o, s, run[0]), run[1..]);
    }
  }

  // ---------------------------------------------------------------------------
  // Does the table know every live child?
  // ---------------------------------------------------------------------------

  ghost predicate TableIsExact(s: Spawner) {
    forall c: nat | c < |s.children| :: Tracks(s, c) <==> s.children[c].Live()
  }

  /** The event does not meet another child's entry: no session is accepted under an id in the table, and no child
      ends, for the first time or again, while another one is in the table under its id. */
  ghost predicate OwnEntry(o: Options, s: Spawner, e: Event) {
    match e
    case AcceptWork(spec) => Accept(o, s, spec).1.Accepted? ==> spec.sessionId !in s.sessions
    case Exits(c) => c < |s.children| && !s.children[c].exited && s.children[c].sessionId in s.sessions ==> Tracks(s, c)
    case Errors(c) => c < |s.children| && !s.children[c].errored && s.children[c].sessionId in s.sessions ==>
        Tracks(s, c)
    case Drain => true
    case Resumes => true
    case Expires(d) => true
  }

  lemma ExactEnd(o: Options, s: Spawner, c: nat, child: Child)
    requires Inv(o, s) && TableIsExact(s) && c < |s.children|
    requires child.sessionId == s.children[c].sessionId && !child.Live()
    ensures TableIsExact(EndSession(s.(children := s.children[c := child]), child.sessionId))
            <==> (child.sessionId in s.sessions ==> Tracks(s, c))
  {
    var id := child.sessionId;
    var t := EndSession(s.(children := s.children[c := child]), id);
    if id in s.sessions && !Tracks(s, c) {
      var other := s.sessions[id];
      assert t.children[other].Live() && !Tracks(t, other);
    } else {
      forall x: nat | x < |t.children|
        ensures Tracks(t, x) <==> t.children[x].Live()
      {
        assert Tracks(s, x) <==> s.children[x].Live();
      }
    }
  }

  lemma ExactAccept(o: Options, s: Spawner, spec: SessionSpec)
    requires Inv(o, s) && TableIsExact(s)
    ensures TableIsExact(Accept(o, s, spec).0) <==> OwnEntry(o, s, AcceptWork(spec))
  {
    var (t, r) := Accept(o, s, spec);
    if r.Accepted? {
      if spec.sessionId in s.sessions {
        var other := s.sessions[spec.sessionId];
        assert t.children[other].Live() && !Tracks(t, other);
      } else {
        forall c: nat | c < |t.children|
          ensures Tracks(t, c) <==> t.children[c].Live()
        {
          if c < |s.children| {
            assert Tracks(s, c) <==> s.children[c].Live();
            assert t.children[c] == s.children[c];
          }
        }
      }
    }
  }

  lemma ExactExpiry(s: Spawner, d: nat)
    requires TableIsExact(s)
    ensures TableIsExact(DrainExpires(s, d))
  {
    var t := DrainExpires(s, d);
    forall c: nat | c < |t.children|
      ensures Tracks(t, c) <==> t.children[c].Live()
    {
      assert Tracks(s, c) <==> s.children[c].Live();
    }
  }

  lemma ExactFlags(s: Spawner)
    ensures TableIsExact(BeginDrain(s)) <==> TableIsExact(s)
    ensures TableIsExact(Resume(s)) <==> TableIsExact(s)
  {
    var drained, resumed := BeginDrain(s), Resume(s);
    assert forall c: nat :: Tracks(drained, c) == Tracks(s, c);
    assert forall c: nat :: Tracks(resumed, c) == Tracks(s, c);
  }

  /** From a state whose table holds exactly the live children, a step keeps it so exactly when it does not meet
      another child's entry. */
  lemma ExactnessLaw(o: Options, s: Spawner, e: Event)
    requires Inv(o, s) && TableIsExact(s)
    ensures TableIsExact(Step(o, s, e)) <==> OwnEntry(o, s, e)
  {
    match e {
      case AcceptWork(spec) => ExactAccept(o, s, spec);
      case Exits(c) =>
        if c < |s.children| { ExactEnd(o, s, c, s.children[c].(exited := true)); }
      case Errors(c) =>
        if c < |s.children| { ExactEnd(o, s, c, s.children[c].(errored := true)); }
      case Drain => ExactFlags(s);
      case Resumes => ExactFlags(s);
      case Expires(d) => ExactExpiry(s, d);
    }
  }

  ghost predicate OwnEntries(o: Options, s: Spawner, run: seq<Event>)
    decreases |run|
  {
    run != [] ==> OwnEntry(o, s, run[0]) && OwnEntries(o, Step(o, s, run[0]), run[1..])
  }

  ghost predicate AlwaysExact(o: Options, s: Spawner, run: seq<Event>)
    decreases |run|
  {
    TableIsExact(s) && (run != [] ==> AlwaysExact(o, Step(o, s, run[0]), run[1..]))
  }

  /** The same for whole runs. */
  lemma {:induction false} ExactnessOfRuns(o: Options, s: Spawner, run: seq<Event>)
    requires Inv(o, s) && TableIsExact(s)
    ensures AlwaysExact(o, s, run) <==> OwnEntries(o, s, run)
    decreases |run|
  {
    if run != [] {
      hide Step, Inv;
      InvStep(o, s, run[0]);
      ExactnessLaw(o, s, run[0]);
      if OwnEntry(o, s, run[0]) { ExactnessOfRuns(o, Step(o, s, run[0]), run[1..]); }
    }
  }

  function LiveCount(children: seq<Child>): nat {
    if children == [] then 0
    else LiveCount(children[..|children| - 1]) + if children[|children| - 1].Live() then 1 else 0
  }

  function LiveOnes(children: seq<Child>): set<nat> {
    set c: nat | c < |children| && children[c].Live()
  }

  lemma {:induction false} LiveCountIsSize(children: seq<Child>)
    ensures LiveCount(children) == |LiveOnes(children)|
    decreases |children|
  {
    if children != [] {
      var n := |children| - 1;
      LiveCountIsSize(children[..n]);
      assert LiveOnes(children) == LiveOnes(children[..n]) + if children[n].Live() then {n} else {};
    } else {
      assert LiveOnes(children) == {};
    }
  }

  lemma {:induction false} SizeOfImage(m: map<string, nat>, ids: set<string>, image: set<nat>)
    requires ids <= m.Keys && (forall id | id in ids :: m[id] in image)
    requires forall a, b | a in ids && b in ids && m[a] == m[b] :: a == b
    requires forall c | c in image :: exists id | id in ids :: m[id] == c
    ensures |image| == |ids|
    decreases |ids|
  {
    if ids == {} {
      assert image == {};
    } else {
      var id :| id in ids;
      var rest, others := ids - {id}, image - {m[id]};
      forall c | c in others
        ensures exists x | x in rest :: m[x] == c
      {
        var x :| x in ids && m[x] == c;
        assert x in rest;
      }
      SizeOfImage(m, rest, others);
      assert ids == rest + {id} && image == others + {m[id]};
    }
  }

  function TrackedOnes(s: Spawner): set<nat> {
    set c: nat | c < |s.children| && Tracks(s, c)
  }

  lemma TrackedSize(o: Options, s: Spawner)
    requires Inv(o, s)
    ensures |TrackedOnes(s)| == |s.sessions|
  {
    var tracked := TrackedOnes(s);
    forall c | c in tracked
      ensures exists id | id in s.sessions.Keys :: s.sessions[id] == c
    {
      assert s.children[c].sessionId in s.sessions.Keys;
    }
    SizeOfImage(s.sessions, s.sessions.Keys, tracked);
    assert |s.sessions| == |s.sessions.Keys|;
  }

  lemma TrackedAreLive(o: Options, s: Spawner)
    requires Inv(o, s)
    ensures TrackedOnes(s) <= LiveOnes(s.children)
    ensures TableIsExact(s) <==> TrackedOnes(s) == LiveOnes(s.children)
  {
    if TrackedOnes(s) == LiveOnes(s.children) {
      forall c: nat | c < |s.children|
        ensures Tracks(s, c) <==> s.children[c].Live()
      {
        assert c in TrackedOnes(s) <==> c in LiveOnes(s.children);
      }
    }
  }

  lemma SizesOfPart(part: set<nat>, whole: set<nat>)
    requires part <= whole
    ensures |part| <= |whole|
    ensures |part| == |whole| <==> part == whole
  {
    var others := whole - part;
    assert whole == part + others;
    assert others == {} <==> |others| == 0;
  }

  /** There are never fewer live children than entries, and as many exactly while the table is exact; then
      the capacity bounds the processes as it bounds the table. */
  lemma ExactTableBoundsChildren(o: Options, s: Spawner)
    requires Inv(o, s)
    ensures |s.sessions| <= o.maxConcurrentSessions && |s.sessions| <= LiveCount(s.children)
    ensures LiveCount(s.children) == |s.sessions| <==> TableIsExact(s)
  {
    TrackedSize(o, s);
    TrackedAreLive(o, s);
    LiveCountIsSize(s.children);
    assert |s.sessions| <= o.maxConcurrentSessions;
    hide Inv, TableIsExact, LiveOnes, TrackedOnes;
    SizesOfPart(TrackedOnes(s), LiveOnes(s.children));
  }

  function Repeated(spec: SessionSpec, n: nat): seq<Event> {
    if n == 0 then [] else [AcceptWork(spec)] + Repeated(spec, n - 1)
  }

  /** The capacity bounds the table, not the processes: where two sessions may run, one session id accepted `n`
      times has `n` live children. */
  lemma {:induction false} LiveChildrenExceedCapacity(o: Options, s: Spawner, spec: SessionSpec, n: nat)
    requires o.maxConcurrentSessions >= 2 && Listed(o, spec.repository) && s.accepting
    requires s.sessions.Keys <= {spec.sessionId}
    ensures var t := Run(o, s, Repeated(spec, n));
            |t.sessions| <= 1 && LiveCount(t.children) == LiveCount(s.children) + n
    decreases n
  {
    assert |s.sessions| <= 1 by { AtMostOne(s.sessions.Keys, spec.sessionId);
        assert |s.sessions| == |s.sessions.Keys|; }
    if n > 0 {
      hide Listed, Matches;
      FindProjectFinds(o, spec);
      var run := Repeated(spec, n);
      var t := Accept(o, s, spec).0;
      assert t.sessions.Keys <= {spec.sessionId};
      assert t.children[..|s.children|] == s.children;
      assert run[0] == AcceptWork(spec) && run[1..] == Repeated(spec, n - 1);
      LiveChildrenExceedCapacity(o, t, spec, n - 1);
    }
  }

  lemma AtMostOne(s: set<string>, x: string)
    requires s <= {x}
    ensures |s| <= 1
  {
    assert s == {} || s == {x};
  }

  // ---------------------------------------------------------------------------
  // The spawner object
  // ---------------------------------------------------------------------------

  class WorkerSpawner {
    const options: Options
    var accepting: bool
    var sessions: map<string, nat>
    var children: seq<Child>
    var drains: seq<DrainState>

    ghost function View(): Spawner
      reads this
    {
      Spawner(accepting, sessions, children, drains)
    }

    ghost predicate Valid()
      reads this
    {
      Inv(options, View())
    }

    constructor (options: Options)
      ensures Valid() && View() == EMPTY && this.options == options
    {
      this.options := options;
      accepting, sessions, children, drains := true, map[], [], [];
    }

    method AcceptWork(spec: SessionSpec) returns (result: AcceptResult)
      requires Valid()
      modifies this
      ensures Valid() && (View(), result) == Accept(options, old(View()), spec)
    {
      InvAccept(options, View(), spec);
      if !accepting {
        return Refused(NotAccepting);
      }
      if |sessions| >= options.maxConcurrentSessions {
        return Refused(AtCapacity);
      }
      var project := 0;
      while project < |options.projects| && !Matches(options.projects[project], spec.repository)
        invariant 0 <= project <= |options.projects|
        invariant forall i | 0 <= i < project :: !Matches(options.projects[i], spec.repository)
      {
        project := project + 1;
      }
      assert project == FindProject(options.projects, spec.repository);
      if project == |options.projects| {
        return Refused(NotAllowed);
      }
      result := SpawnWorker(spec, project);
    }

    method SpawnWorker(spec: SessionSpec, project: nat) returns (result: AcceptResult)
      modifies this
      ensures View() == old(View()).(sessions := old(sessions)[spec.sessionId := |old(children)|],
                                     children := old(children) + [Spawned(spec, project)])
      ensures result == Accepted(|old(children)|)
    {
      result := Accepted(|children|);
      sessions := sessions[spec.sessionId := |children|];
      children := children + [Spawned(spec, project)];
    }

    /** The listener for a child's `exit`. */
    method OnExit(c: nat)
      requires Valid()
      modifies this
      ensures Valid() && View() == ChildExits(old(View()), c)
      ensures c < |old(children)| && !old(children)[c].exited ==>
                && sessions == old(sessions) - {old(children)[c].sessionId}
                && children == old(children)[c := old(children)[c].(exited := true)]
    {
      if c < |children| && !children[c].exited {
        InvEnd(options, View(), c, children[c].(exited := true));
        children := children[c := children[c].(exited := true)];
        Remove(children[c].sessionId);
      }
    }

    /** The listener for a child's `error`. */
    method OnError(c: nat)
      requires Valid()
      modifies this
      ensures Valid() && View() == ChildErrors(old(View()), c)
      ensures c < |old(children)| && !old(children)[c].errored ==>
                && sessions == old(sessions) - {old(children)[c].sessionId}
                && children == old(children)[c := old(children)[c].(errored := true)]
    {
      if c < |children| && !children[c].errored {
        InvEnd(options, View(), c, children[c].(errored := true));
        children := children[c := children[c].(errored := true)];
        Remove(children[c].sessionId);
      }
    }

    method Remove(sessionId: string)
      modifies this
      ensures View() == EndSession(old(View()), sessionId)
      ensures sessions == old(sessions) - {sessionId} && |drains| == |old(drains)|
      ensures forall d | 0 <= d < |drains| ::
                drains[d] == if sessions == map[] && old(drains)[d] == Waiting then Resolved else old(drains)[d]
    {
      sessions := sessions - {sessionId};
      ghost var waiting := drains;
      ghost var told := if sessions == map[] then Settle(drains) else drains;
      var d := 0;
      while d < |drains|
        invariant 0 <= d <= |drains| == |waiting|
        invariant accepting == old(accepting) && children == old(children) && sessions == old(sessions) - {sessionId}
        invariant forall i | 0 <= i < |drains| :: drains[i] == if i < d then told[i] else waiting[i]
      {
        if |sessions| == 0 && drains[d].Waiting? {
          drains := drains[d := Resolved];
        }
        d := d + 1;
      }
      assert drains == told;
    }

    method Drain()
      requires Valid()
      modifies this
      ensures Valid() && View() == BeginDrain(old(View()))
      ensures !accepting && sessions == old(sessions) && children == old(children)
      ensures drains == old(drains) + [if old(sessions) == map[] then Resolved else Waiting]
    {
      accepting := false;
      drains := drains + [if |sessions| == 0 then Resolved else Waiting];
    }

    method ResumeWork()
      requires Valid()
      modifies this`accepting
      ensures Valid() && View() == Resume(old(View()))
    {
      accepting := true;
    }

    /** The drain timer. */
    method OnDrainTimeout(d: nat)
      requires Valid()
      modifies this
      ensures Valid() && View() == DrainExpires(old(View()), d)
    {
      if d >= |drains| || !drains[d].Waiting? {
        return;
      }
      InvStep(options, View(), Expires(d));
      Terminate();
      drains := drains[d := TimedOut];
    }

    /** Sends the termination signal to every child in the table. */
    method Terminate()
      requires forall id | id in sessions :: sessions[id] < |children| && children[sessions[id]].sessionId == id
      modifies this`children
      ensures children == old(Signal(View()))
    {
      ghost var before := View();
      var rest := sessions.Keys;
      while rest != {}
        invariant rest <= sessions.Keys && |children| == |before.children|
        invariant forall c: nat | c < |children| ::
                    children[c] == if Tracks(before, c) && before.children[c].sessionId !in rest
                                   then before.children[c].(signalled := true) else before.children[c]
        decreases |rest|
      {
        var id :| id in rest;
        var c := sessions[id];
        assert Tracks(before, c) && before.children[c].sessionId == id;
        children := children[c := children[c].(signalled := true)];
        rest := rest - {id};
      }
    }
  }
}
