/** The circuit breaker in front of the Linear API: closed, open, and a half-open state,
    entered lazily, that admits one probe at a time. Times are in milliseconds. */
module CircuitBreakers {
  import opened Numbers

  datatype Config = Config(failureThreshold: int, resetTimeoutMs: real, maxResetTimeoutMs: real,
      backoffMultiplier: real) {
    /** The settings the state machine is meant for; nothing in the constructor enforces them. */
    ghost predicate Sensible() {
      failureThreshold >= 1 && 0.0 <= resetTimeoutMs <= maxResetTimeoutMs && backoffMultiplier >= 1.0
    }
  }

  datatype State = Closed | Open | HalfOpen

  datatype Breaker = Breaker(
    state: State, consecutiveFailures: nat, openedAt: real, currentResetTimeoutMs: real, probeInFlight: bool)

  function Created(c: Config): Breaker {
    Breaker(Closed, 0, 0.0, c.resetTimeoutMs, false)
  }

  /** The reset timeout after one more failed probe. */
  function Backoff(c: Config, timeout: real): real {
    Min(timeout * c.backoffMultiplier, c.maxResetTimeoutMs)
  }

  /** Reading the state turns an open breaker half-open once its timeout has passed. */
  function Observe(b: Breaker, now: real): Breaker {
    if b.state == Open && now - b.openedAt >= b.currentResetTimeoutMs
    then b.(state := HalfOpen, probeInFlight := false)
    else b
  }

  function Trip(b: Breaker, now: real): Breaker {
    b.(state := Open, openedAt := now)
  }

  datatype Action = CanProceed | RecordSuccess | RecordAuthFailure | Reset | ReadState

  datatype Event = Event(at: real, action: Action)

  /** One call, and whether it admitted its caller. */
  function Step(c: Config, b: Breaker, e: Event): (Breaker, bool) {
    match e.action
    case ReadState => (Observe(b, e.at), false)
    case CanProceed =>
      var o := Observe(b, e.at);
      (match o.state
       case Closed => (o, true)
       case Open => (o, false)
       case HalfOpen => if o.probeInFlight then (o, false) else (o.(probeInFlight := true), true))
    case RecordSuccess =>
      var s := b.(consecutiveFailures := 0, probeInFlight := false);
      (if b.state != Closed then s.(state := Closed, currentResetTimeoutMs := c.resetTimeoutMs) else s, false)
    case RecordAuthFailure =>
      var f := b.(consecutiveFailures := b.consecutiveFailures + 1, probeInFlight := false);
      (if b.state == HalfOpen then Trip(f, e.at).(currentResetTimeoutMs := Backoff(c, b.currentResetTimeoutMs))
       else if f.consecutiveFailures >= c.failureThreshold then Trip(f, e.at) else f, false)
    case Reset => (b.(state := Closed, consecutiveFailures := 0, probeInFlight := false,
        currentResetTimeoutMs := c.resetTimeoutMs), false)
  }

  function Run(c: Config, b: Breaker, run: seq<Event>): Breaker
    decreases |run|
  {
    if run == [] then b else Run(c, Step(c, b, run[0]).0, run[1..])
  }

  /** The times at which callers were admitted. */
  function Admissions(c: Config, b: Breaker, run: seq<Event>): seq<real>
    decreases |run|
  {
    if run == [] then []
    else (if Step(c, b, run[0]).1 then [run[0].at] else []) + Admissions(c, Step(c, b, run[0]).0, run[1..])
  }

  /** The clock does not go back during a run that begins at `now`. */
  predicate Ascending(now: real, run: seq<Event>)
    decreases |run|
  {
    run != [] ==> now <= run[0].at && Ascending(run[0].at, run[1..])
  }

  predicate Closes(a: Action) {
    a.RecordSuccess? || a.Reset?
  }

  predicate NeverCloses(run: seq<Event>) {
    forall i | 0 <= i < |run| :: !Closes(run[i].action)
  }

  /** Somebody reports on a call, or resets the breaker. */
  predicate Reports(a: Action) {
    Closes(a) || a.RecordAuthFailure?
  }

  // ---------------------------------------------------------------------------
  // Invariant and backoff
  // ---------------------------------------------------------------------------

  ghost predicate Inv(c: Config, b: Breaker) {
    && (b.state == Closed <==> b.consecutiveFailures < c.failureThreshold)
    && (b.probeInFlight ==> b.state == HalfOpen)
    && (b.state == Closed ==> b.currentResetTimeoutMs == c.resetTimeoutMs)
    && c.resetTimeoutMs <= b.currentResetTimeoutMs <= c.maxResetTimeoutMs
  }

  lemma BackoffGrows(c: Config, t: real, u: real)
    requires c.Sensible() && 0.0 <= t <= u <= c.maxResetTimeoutMs
    ensures t <= Backoff(c, t) <= Backoff(c, u) <= c.maxResetTimeoutMs
  {
    assert t * c.backoffMultiplier >= t && (u - t) * c.backoffMultiplier >= 0.0;
  }

  /** In every reachable state the breaker is closed exactly while its failures are below the
      threshold, and a probe is in flight only while it is half-open. */
  lemma {:induction false} InvRun(c: Config, b: Breaker, run: seq<Event>)
    requires c.Sensible() && Inv(c, b)
    ensures Inv(c, Run(c, b, run))
    decreases |run|
  {
    if run != [] {
      BackoffGrows(c, b.currentResetTimeoutMs, b.currentResetTimeoutMs);
      InvRun(c, Step(c, b, run[0]).0, run[1..]);
    }
  }

  /** How many probes have failed since the breaker last closed, `k` before the run. */
  function FailedProbes(c: Config, b: Breaker, run: seq<Event>, k: nat): nat
    decreases |run|
  {
    if run == [] then k
    else
      var a := run[0].action;
      var k' := if Closes(a) then 0 else if a.RecordAuthFailure? && b.state == HalfOpen then k + 1 else k;
      FailedProbes(c, Step(c, b, run[0]).0, run[1..], k')
  }

  function BackedOff(c: Config, k: nat): real {
    Min(c.resetTimeoutMs * Pow(c.backoffMultiplier, k), c.maxResetTimeoutMs)
  }

  lemma BackoffOfBackedOff(c: Config, k: nat)
    requires c.backoffMultiplier >= 1.0 && c.maxResetTimeoutMs >= 0.0
    ensures Backoff(c, BackedOff(c, k)) == BackedOff(c, k + 1)
  {
    var m := c.backoffMultiplier;
    var whole := c.resetTimeoutMs * Pow(m, k);
    assert c.resetTimeoutMs * Pow(m, k + 1) == whole * m;
    if whole > c.maxResetTimeoutMs {
      assert c.maxResetTimeoutMs * m >= c.maxResetTimeoutMs;
      assert (whole - c.maxResetTimeoutMs) * m >= 0.0;
    }
  }

  lemma {:induction false} BackoffRun(c: Config, b: Breaker, run: seq<Event>, k: nat)
    requires c.Sensible()
    requires b.state == Closed ==> b.currentResetTimeoutMs == c.resetTimeoutMs && k == 0
    requires b.currentResetTimeoutMs == BackedOff(c, k)
    ensures Run(c, b, run).currentResetTimeoutMs == BackedOff(c, FailedProbes(c, b, run, k))
    decreases |run|
  {
    if run != [] {
      BackoffOfBackedOff(c, k);
      var a := run[0].action;
      var k' := if Closes(a) then 0 else if a.RecordAuthFailure? && b.state == HalfOpen then k + 1 else k;
      assert BackedOff(c, 0) == c.resetTimeoutMs;
      BackoffRun(c, Step(c, b, run[0]).0, run[1..], k');
    }
  }

  /** After `k` failed probes since the last close the reset timeout is the first one
      multiplied `k` times, capped at the maximum. */
  lemma BackoffLaw(c: Config, run: seq<Event>)
    requires c.Sensible()
    ensures Run(c, Created(c), run).currentResetTimeoutMs
            == BackedOff(c, FailedProbes(c, Created(c), run, 0))
  {
    assert Pow(c.backoffMultiplier, 0) == 1.0;
    BackoffRun(c, Created(c), run, 0);
  }

  function AuthFailures(run: seq<Event>): nat
    decreases |run|
  {
    if run == [] then 0 else (if run[0].action.RecordAuthFailure? then 1 else 0) + AuthFailures(run[1..])
  }

  /** The times at which somebody asked for admission. */
  function Askings(run: seq<Event>): seq<real> {
    if run == [] then [] else (if run[0].action.CanProceed? then [run[0].at] else []) + Askings(run[1..])
  }

  /** From closed, the breaker trips exactly when the failures in a row reach the threshold,
      and until then every call is admitted. */
  lemma {:induction false} TripsAtThreshold(c: Config, b: Breaker, run: seq<Event>)
    requires c.Sensible() && Inv(c, b) && b.state == Closed && NeverCloses(run)
    ensures Run(c, b, run).state == Closed <==> b.consecutiveFailures + AuthFailures(run) < c.failureThreshold
    ensures Run(c, b, run).state == Closed ==> Admissions(c, b, run) == Askings(run)
    decreases |run|
  {
    if run != [] {
      var d := Step(c, b, run[0]).0;
      BackoffGrows(c, b.currentResetTimeoutMs, b.currentResetTimeoutMs);
      if d.state == Closed {
        TripsAtThreshold(c, d, run[1..]);
      } else {
        StaysOpen(c, d, run[1..]);
      }
    }
  }

  lemma {:induction false} StaysOpen(c: Config, b: Breaker, run: seq<Event>)
    requires b.state != Closed && NeverCloses(run)
    ensures Run(c, b, run).state != Closed
    decreases |run|
  {
    if run != [] {
      assert !Closes(run[0].action);
      StaysOpen(c, Step(c, b, run[0]).0, run[1..]);
    }
  }

  // ---------------------------------------------------------------------------
  // Admission spacing
  // ---------------------------------------------------------------------------

  /** The time that `n` further admissions take at least after one made with reset timeout `t`:
      each costs the next, longer timeout. */
  function Patience(c: Config, t: real, n: nat): real
    decreases n
  {
    if n == 0 then 0.0 else Backoff(c, t) + Patience(c, Backoff(c, t), n - 1)
  }

  /** Since an admission at `t0` with timeout `t`: the probe is out, or it failed and the
      longer timeout is running, or that has passed and nobody took the next probe yet. */
  ghost predicate Cooling(c: Config, b: Breaker, now: real, t0: real, t: real) {
    && t0 <= now
    && 0.0 <= t <= b.currentResetTimeoutMs <= c.maxResetTimeoutMs
    && match b.state
       case Closed => false
       case Open => b.openedAt >= t0 && b.currentResetTimeoutMs >= Backoff(c, t)
       case HalfOpen => b.probeInFlight || (now >= t0 + Backoff(c, t) && b.currentResetTimeoutMs >= Backoff(c, t))
  }

  lemma CoolingStep(c: Config, b: Breaker, now: real, t0: real, t: real, e: Event)
    requires c.Sensible() && Cooling(c, b, now, t0, t) && now <= e.at && !Closes(e.action)
    requires Inv(c, b)
    ensures var (d, admitted) := Step(c, b, e);
            && (admitted ==> e.at >= t0 + Backoff(c, t) && Cooling(c, d, e.at, e.at, Backoff(c, t)))
            && (!admitted ==> Cooling(c, d, e.at, t0, t))
  {
    BackoffGrows(c, t, b.currentResetTimeoutMs);
    BackoffGrows(c, t, t);
  }

  lemma InvStep(c: Config, b: Breaker, e: Event)
    requires c.Sensible() && Inv(c, b)
    ensures Inv(c, Step(c, b, e).0)
  {
    BackoffGrows(c, b.currentResetTimeoutMs, b.currentResetTimeoutMs);
  }

  lemma {:induction false} PatienceGrows(c: Config, t: real, u: real, n: nat)
    requires c.Sensible() && 0.0 <= t <= u <= c.maxResetTimeoutMs
    ensures Patience(c, t, n) <= Patience(c, u, n)
    decreases n
  {
    if n > 0 {
      BackoffGrows(c, t, u);
      PatienceGrows(c, Backoff(c, t), Backoff(c, u), n - 1);
    }
  }

  /** `n` backed-off timeouts are at least `n` plain ones. */
  lemma {:induction false} PatienceAtLeast(c: Config, t: real, u: real, n: nat)
    requires c.Sensible() && 0.0 <= u <= t <= c.maxResetTimeoutMs
    ensures Patience(c, t, n) >= n as real * u
    decreases n
  {
    if n > 0 {
      BackoffGrows(c, t, t);
      PatienceAtLeast(c, Backoff(c, t), u, n - 1);
      assert n as real * u == (n - 1) as real * u + u;
    }
  }

  /** Each of the times `a` follows the one before, the first one `t0`, by a further backed-off timeout. */
  ghost predicate SpacedAfter(c: Config, t0: real, t: real, a: seq<real>)
    decreases |a|
  {
    a != [] ==> a[0] >= t0 + Backoff(c, t) && SpacedAfter(c, a[0], Backoff(c, t), a[1..])
  }

  lemma {:induction false} SpacedSince(c: Config, t0: real, t: real, a: seq<real>, j: nat)
    requires c.Sensible() && SpacedAfter(c, t0, t, a) && j < |a|
    ensures a[j] >= t0 + Patience(c, t, j + 1)
    decreases j
  {
    assert Patience(c, t, j + 1) == Backoff(c, t) + Patience(c, Backoff(c, t), j);
    if j > 0 {
      SpacedSince(c, a[0], Backoff(c, t), a[1..], j - 1);
    }
  }

  lemma {:induction false} SpacedApart(c: Config, t0: real, t: real, a: seq<real>, i: nat, j: nat)
    requires c.Sensible() && SpacedAfter(c, t0, t, a) && i < j < |a|
    requires c.resetTimeoutMs <= t <= c.maxResetTimeoutMs
    ensures a[j] - a[i] >= Patience(c, c.resetTimeoutMs, j - i)
    decreases i
  {
    BackoffGrows(c, t, t);
    if i == 0 {
      SpacedSince(c, a[0], Backoff(c, t), a[1..], j - 1);
      PatienceGrows(c, c.resetTimeoutMs, Backoff(c, t), j);
    } else {
      SpacedApart(c, a[0], Backoff(c, t), a[1..], i - 1, j - 1);
    }
  }

  lemma AdmissionsCons(c: Config, b: Breaker, run: seq<Event>)
    requires run != []
    ensures var (d, admitted) := Step(c, b, run[0]);
            Admissions(c, b, run) == if admitted then [run[0].at] + Admissions(c, d, run[1..])
                else Admissions(c, d, run[1..])
  {
  }

  /** After an admission at `t0`, each further one waits for the next, longer timeout. */
  lemma {:induction false} LaterAdmissions(c: Config, b: Breaker, now: real, t0: real, t: real, run: seq<Event>)
    requires c.Sensible() && Inv(c, b) && Cooling(c, b, now, t0, t)
    requires Ascending(now, run) && NeverCloses(run)
    ensures SpacedAfter(c, t0, t, Admissions(c, b, run))
    decreases |run|
  {
    if run != [] {
      var e := run[0];
      var (d, admitted) := Step(c, b, e);
      CoolingStep(c, b, now, t0, t, e);
      InvStep(c, b, e);
      AdmissionsCons(c, b, run);
      if admitted {
        var rest := Admissions(c, d, run[1..]);
        LaterAdmissions(c, d, e.at, e.at, Backoff(c, t), run[1..]);
        assert ([e.at] + rest)[1..] == rest;
      } else {
        LaterAdmissions(c, d, e.at, t0, t, run[1..]);
      }
    }
  }

  /** All admissions of such a stretch, after the first one, are spaced from some timeout `t` on. */
  lemma {:induction false} AllSpaced(c: Config, b: Breaker, now: real, run: seq<Event>) returns (t: real)
    requires c.Sensible() && Inv(c, b) && b.state != Closed
    requires Ascending(now, run) && NeverCloses(run)
    ensures c.resetTimeoutMs <= t <= c.maxResetTimeoutMs
    ensures var a := Admissions(c, b, run); a != [] ==> SpacedAfter(c, a[0], t, a[1..])
    decreases |run|
  {
    t := c.resetTimeoutMs;
    if run != [] {
      hide Step;
      var e := run[0];
      var (d, admitted) := Step(c, b, e);
      InvStep(c, b, e);
      assert !Closes(e.action);
      AdmissionsCons(c, b, run);
      NotClosedStays(c, b, e);
      if admitted {
        t := d.currentResetTimeoutMs;
        ProbeCools(c, b, e);
        LaterAdmissions(c, d, e.at, e.at, t, run[1..]);
        var a := Admissions(c, b, run);
        assert a[0] == e.at && a[1..] == Admissions(c, d, run[1..]);
      } else {
        t := AllSpaced(c, d, e.at, run[1..]);
      }
    }
  }

  lemma NotClosedStays(c: Config, b: Breaker, e: Event)
    requires b.state != Closed && !Closes(e.action)
    ensures Step(c, b, e).0.state != Closed
  {
  }

  lemma ProbeCools(c: Config, b: Breaker, e: Event)
    requires c.Sensible() && Inv(c, b) && b.state != Closed && Step(c, b, e).1
    ensures var d := Step(c, b, e).0; Cooling(c, d, e.at, e.at, d.currentResetTimeoutMs)
  {
  }

  /** In a stretch that begins not closed and sees no success and no reset, whatever late failures of
      earlier calls arrive, the `j`-th admission follows the `i`-th by at least the sum of `j - i`
      successively longer timeouts. */
  lemma AdmissionSpacing(c: Config, b: Breaker, now: real, run: seq<Event>, i: nat, j: nat)
    requires c.Sensible() && Inv(c, b) && b.state != Closed
    requires Ascending(now, run) && NeverCloses(run)
    requires i < j < |Admissions(c, b, run)|
    ensures Admissions(c, b, run)[j] - Admissions(c, b, run)[i] >= Patience(c, c.resetTimeoutMs, j - i)
  {
    var a := Admissions(c, b, run);
    var t := AllSpaced(c, b, now, run);
    SpacedSequence(c, t, a, i, j);
  }

  lemma SpacedSequence(c: Config, t: real, a: seq<real>, i: nat, j: nat)
    requires c.Sensible() && c.resetTimeoutMs <= t <= c.maxResetTimeoutMs
    requires i < j < |a| && SpacedAfter(c, a[0], t, a[1..])
    ensures a[j] - a[i] >= Patience(c, c.resetTimeoutMs, j - i)
  {
    if i == 0 {
      PatienceGrows(c, c.resetTimeoutMs, t, j);
      SpacedSince(c, a[0], t, a[1..], j - 1);
      assert a[1..][j - 1] == a[j];
    } else {
      SpacedApart(c, a[0], t, a[1..], i - 1, j - 1);
      assert a[1..][j - 1] == a[j] && a[1..][i - 1] == a[i];
    }
  }

  /** Hence within `length` milliseconds of such a stretch, too short for `n` of these timeouts, at most
      `n` calls are admitted. */
  lemma AdmissionsInWindow(c: Config, b: Breaker, now: real, run: seq<Event>, length: real, n: nat)
    requires c.Sensible() && Inv(c, b) && b.state != Closed
    requires Ascending(now, run) && NeverCloses(run)
    requires forall i | 0 <= i < |run| :: run[i].at <= now + length
    requires n > 0 && Patience(c, c.resetTimeoutMs, n) > length
    ensures |Admissions(c, b, run)| <= n
  {
    if |Admissions(c, b, run)| > n {
      AdmissionSpacing(c, b, now, run, 0, n);
      AdmissionsSpan(c, b, now, run, length, 0, n);
    }
  }

  /** In particular at most one more than the number of plain reset timeouts in `length`. */
  lemma AdmissionRate(c: Config, b: Breaker, now: real, run: seq<Event>, length: real)
    requires c.Sensible() && c.resetTimeoutMs > 0.0 && Inv(c, b) && b.state != Closed
    requires Ascending(now, run) && NeverCloses(run) && length >= 0.0
    requires forall i | 0 <= i < |run| :: run[i].at <= now + length
    ensures |Admissions(c, b, run)| as real <= 1.0 + length / c.resetTimeoutMs
  {
    hide Admissions, Ascending, NeverCloses, Patience, Inv;
    var last := |Admissions(c, b, run)| - 1;
    if last > 0 {
      AdmissionSpacing(c, b, now, run, 0, last);
      AdmissionsSpan(c, b, now, run, length, 0, last);
      PatienceFits(c, length, last);
    } else {
      DivideOut(0.0, length, c.resetTimeoutMs);
    }
  }

  lemma PatienceFits(c: Config, length: real, n: nat)
    requires c.Sensible() && c.resetTimeoutMs > 0.0
    requires Patience(c, c.resetTimeoutMs, n) <= length
    ensures n as real <= length / c.resetTimeoutMs
  {
    hide Patience;
    PatienceAtLeast(c, c.resetTimeoutMs, c.resetTimeoutMs, n);
    DivideOut(n as real, length, c.resetTimeoutMs);
  }

  lemma DivideOut(n: real, length: real, unit: real)
    requires unit > 0.0 && n * unit <= length
    ensures n <= length / unit
  {
    assert length / unit * unit == length;
  }

  lemma AdmissionsSpan(c: Config, b: Breaker, now: real, run: seq<Event>, length: real, i: nat, j: nat)
    requires Ascending(now, run) && forall i | 0 <= i < |run| :: run[i].at <= now + length
    requires i <= j < |Admissions(c, b, run)|
    ensures Admissions(c, b, run)[j] - Admissions(c, b, run)[i] <= length
  {
    var a := Admissions(c, b, run);
    AdmissionTimes(c, b, now, run);
    assert a[j] in a && a[i] in a;
  }

  lemma {:induction false} AdmissionTimes(c: Config, b: Breaker, now: real, run: seq<Event>)
    requires Ascending(now, run)
    ensures forall t | t in Admissions(c, b, run) :: now <= t && exists i | 0 <= i < |run| :: run[i].at == t
    decreases |run|
  {
    if run != [] {
      var (d, admitted) := Step(c, b, run[0]);
      AdmissionsCons(c, b, run);
      AdmissionTimes(c, d, run[0].at, run[1..]);
      forall t | t in Admissions(c, b, run) ensures now <= t && exists i | 0 <= i < |run| :: run[i].at == t {
        if t in Admissions(c, d, run[1..]) {
          var i :| 0 <= i < |run[1..]| && run[1..][i].at == t;
          assert run[i + 1].at == t;
        } else {
          assert run[0].at == t;
        }
      }
    }
  }

  // ---------------------------------------------------------------------------
  // Probes
  // ---------------------------------------------------------------------------

  /** A reported outcome always leaves the half-open state, clearing the probe. */
  lemma ReportLeavesHalfOpen(c: Config, b: Breaker, e: Event)
    requires b.state == HalfOpen && Reports(e.action)
    ensures var d := Step(c, b, e).0;
            && d.state == (if Closes(e.action) then Closed else Open) && !d.probeInFlight
            && (d.state == Open ==>
                  d.openedAt == e.at && d.currentResetTimeoutMs == Backoff(c, b.currentResetTimeoutMs))
  {
  }

  /** A probe nobody reports on blocks the breaker for good: while one is in flight nothing
      changes and nobody is admitted, at any time, until a report or a reset arrives. */
  lemma {:induction false} UnreportedProbeBlocks(c: Config, b: Breaker, run: seq<Event>)
    requires b.state == HalfOpen && b.probeInFlight
    ensures Admissions(c, b, run) != [] ==> exists i | 0 <= i < |run| :: Reports(run[i].action)
    ensures (forall i | 0 <= i < |run| :: !Reports(run[i].action)) ==>
              Run(c, b, run) == b && Admissions(c, b, run) == []
    decreases |run|
  {
    if run != [] {
      if Reports(run[0].action) {
      } else {
        assert Step(c, b, run[0]) == (b, false);
        UnreportedProbeBlocks(c, b, run[1..]);
        assert forall i | 0 <= i < |run[1..]| :: run[1..][i] == run[i + 1];
      }
    }
  }

  // ---------------------------------------------------------------------------
  // An open breaker
  // ---------------------------------------------------------------------------

  /** The first time at or after `due` at which somebody asks for admission, if any. */
  function FirstAsking(run: seq<Event>, due: real): seq<real> {
    if run == [] then []
    else if run[0].action.CanProceed? && run[0].at >= due then [run[0].at]
    else FirstAsking(run[1..], due)
  }

  lemma {:induction false} FirstAskingIsFirst(run: seq<Event>, due: real) returns (k: nat)
    ensures k <= |run| && forall i | 0 <= i < k :: run[i].action.CanProceed? ==> run[i].at < due
    ensures k < |run| ==> run[k].action.CanProceed? && run[k].at >= due && FirstAsking(run, due) == [run[k].at]
    ensures k == |run| ==> FirstAsking(run, due) == []
    decreases |run|
  {
    k := 0;
    if run != [] && !(run[0].action.CanProceed? && run[0].at >= due) {
      k := FirstAskingIsFirst(run[1..], due);
      assert forall i | 0 < i < k + 1 :: run[i] == run[1..][i - 1];
      k := k + 1;
    }
  }

  /** All events of the run come before `due`. */
  predicate AllBefore(run: seq<Event>, due: real) {
    forall i | 0 <= i < |run| :: run[i].at < due
  }

  /** Until its timeout is over an open breaker refuses everybody, whatever late failures arrive. */
  lemma {:induction false} OpenBlocks(c: Config, b: Breaker, run: seq<Event>)
    requires b.state == Open && Ascending(b.openedAt, run) && NeverCloses(run)
    requires AllBefore(run, b.openedAt + b.currentResetTimeoutMs)
    ensures Admissions(c, b, run) == [] && Run(c, b, run).state == Open
    decreases |run|
  {
    if run != [] {
      var e := run[0];
      var d := Step(c, b, e).0;
      assert !Closes(e.action) && e.at < b.openedAt + b.currentResetTimeoutMs;
      assert d.state == Open && d.currentResetTimeoutMs == b.currentResetTimeoutMs && b.openedAt <= d.openedAt <= e.at;
      assert AllBefore(run[1..], d.openedAt + d.currentResetTimeoutMs);
      AscendingFrom(d.openedAt, e.at, run[1..]);
      OpenBlocks(c, d, run[1..]);
    }
  }

  lemma AscendingFrom(earlier: real, now: real, run: seq<Event>)
    requires earlier <= now && Ascending(now, run)
    ensures Ascending(earlier, run)
  {
  }

  predicate NoReports(run: seq<Event>) {
    forall i | 0 <= i < |run| :: !Reports(run[i].action)
  }

  /** Nobody has been admitted since the breaker opened. */
  ghost predicate Untried(b: Breaker, now: real) {
    || b.state == Open
    || (b.state == HalfOpen && !b.probeInFlight && now >= b.openedAt + b.currentResetTimeoutMs)
  }

  lemma UntriedStep(c: Config, b: Breaker, now: real, e: Event)
    requires Untried(b, now) && now <= e.at && !Reports(e.action)
    ensures var (d, admitted) := Step(c, b, e);
            var due := b.openedAt + b.currentResetTimeoutMs;
            && (admitted <==> e.action.CanProceed? && e.at >= due)
            && (if admitted then d.state == HalfOpen && d.probeInFlight
                else Untried(d, e.at) && d.openedAt + d.currentResetTimeoutMs == due)
  {
  }

  lemma FirstAskingCons(run: seq<Event>, due: real)
    requires run != []
    ensures FirstAsking(run, due) ==
            if run[0].action.CanProceed? && run[0].at >= due then [run[0].at] else FirstAsking(run[1..], due)
  {
  }

  lemma TailOf(now: real, run: seq<Event>)
    requires run != [] && Ascending(now, run) && NoReports(run)
    ensures now <= run[0].at && Ascending(run[0].at, run[1..]) && NoReports(run[1..]) && !Reports(run[0].action)
  {
    assert forall i | 0 <= i < |run[1..]| :: run[1..][i] == run[i + 1];
  }

  /** With no report in between, the first call that asks once the timeout is over is admitted, and
      nobody else is. */
  lemma {:induction false} OpenAdmitsOneProbe(c: Config, b: Breaker, now: real, run: seq<Event>)
    requires Ascending(now, run) && NoReports(run) && Untried(b, now)
    ensures Admissions(c, b, run) == FirstAsking(run, b.openedAt + b.currentResetTimeoutMs)
    decreases |run|
  {
    if run != [] {
      var e := run[0];
      var (d, admitted) := Step(c, b, e);
      TailOf(now, run);
      UntriedStep(c, b, now, e);
      AdmissionsCons(c, b, run);
      FirstAskingCons(run, b.openedAt + b.currentResetTimeoutMs);
      hide Admissions, FirstAsking, Untried, Ascending, Step;
      if admitted {
        ProbeAdmitsNobody(c, d, run[1..]);
      } else {
        OpenAdmitsOneProbe(c, d, e.at, run[1..]);
      }
    }
  }

  lemma ProbeAdmitsNobody(c: Config, b: Breaker, run: seq<Event>)
    requires b.state == HalfOpen && b.probeInFlight && NoReports(run)
    ensures Admissions(c, b, run) == []
  {
    hide Admissions;
    UnreportedProbeBlocks(c, b, run);
  }

  /** The reset timeout that an auth failure leaves behind when the breaker is open after it. */
  function TimeoutAfterFailure(c: Config, b: Breaker): real {
    if b.state == Closed then c.resetTimeoutMs
    else if b.state == Open then b.currentResetTimeoutMs
    else
      var longer := b.currentResetTimeoutMs * c.backoffMultiplier;
      if longer <= c.maxResetTimeoutMs then longer else c.maxResetTimeoutMs
  }

  lemma FailureOpens(c: Config, b: Breaker, at: real)
    requires Inv(c, b) && b.consecutiveFailures + 1 >= c.failureThreshold
    ensures var (d, admitted) := Step(c, b, Event(at, RecordAuthFailure));
            && !admitted && d.state == Open && d.openedAt == at
            && d.currentResetTimeoutMs == TimeoutAfterFailure(c, b) && Untried(d, at)
  {
  }

  /** An auth failure at `at` that reaches the threshold, or comes when the breaker is not closed, opens
      it: everybody is refused until the timeout has passed since `at`, and the first to ask from then
      on is the one probe. */
  lemma TripBlocks(c: Config, b: Breaker, at: real, run: seq<Event>)
    requires c.Sensible() && Inv(c, b) && b.consecutiveFailures + 1 >= c.failureThreshold
    requires Ascending(at, run)
    ensures var due := at + TimeoutAfterFailure(c, b);
            var all := [Event(at, RecordAuthFailure)] + run;
            && (NeverCloses(run) && AllBefore(run, due) ==> Admissions(c, b, all) == [])
            && (NoReports(run) ==> Admissions(c, b, all) == FirstAsking(run, due))
  {
    hide *;
    var failure := Event(at, RecordAuthFailure);
    var all := [failure] + run;
    var d := Step(c, b, failure).0;
    assert all[1..] == run;
    AdmissionsCons(c, b, all);
    FailureOpens(c, b, at);
    if NeverCloses(run) && AllBefore(run, at + TimeoutAfterFailure(c, b)) {
      OpenBlocks(c, d, run);
    }
    if NoReports(run) {
      OpenAdmitsOneProbe(c, d, at, run);
    }
  }

  /** The two breakers differ at most in when they last opened, which a closed one does not look at. */
  ghost predicate Alike(b: Breaker, d: Breaker) {
    b == d || (b.state == Closed && b.(openedAt := d.openedAt) == d)
  }

  lemma {:induction false} AlikeRun(c: Config, b: Breaker, d: Breaker, run: seq<Event>)
    requires Alike(b, d)
    ensures Admissions(c, b, run) == Admissions(c, d, run)
    ensures Run(c, b, run).state == Run(c, d, run).state
    decreases |run|
  {
    if run != [] {
      AlikeRun(c, Step(c, b, run[0]).0, Step(c, d, run[0]).0, run[1..]);
    }
  }

  /** A success or a reset forgets the past: from then on calls are admitted as by a new breaker, which
      admits all of them until the threshold is reached. */
  lemma CloseForgets(c: Config, b: Breaker, e: Event, run: seq<Event>)
    requires c.Sensible() && Inv(c, b) && Closes(e.action)
    ensures var d := Step(c, b, e).0;
            && Admissions(c, d, run) == Admissions(c, Created(c), run)
            && (NeverCloses(run) && AuthFailures(run) < c.failureThreshold ==>
                  Admissions(c, d, run) == Askings(run))
            && (NeverCloses(run) ==> (Run(c, d, run).state == Closed <==> AuthFailures(run) < c.failureThreshold))
  {
    AlikeRun(c, Step(c, b, e).0, Created(c), run);
    if NeverCloses(run) {
      TripsAtThreshold(c, Created(c), run);
    }
  }

  // ---------------------------------------------------------------------------
  // The breaker as an object
  // ---------------------------------------------------------------------------

  class CircuitBreaker {
    const config: Config
    var state: State
    var consecutiveFailures: nat
    var openedAt: real
    var currentResetTimeoutMs: real
    var probeInFlight: bool

    ghost function View(): Breaker
      reads this
    {
      Breaker(state, consecutiveFailures, openedAt, currentResetTimeoutMs, probeInFlight)
    }

    constructor (c: Config)
      ensures config == c && View() == Created(c)
      ensures state == Closed && consecutiveFailures == 0 && !probeInFlight
      ensures currentResetTimeoutMs == c.resetTimeoutMs
    {
      config := c;
      state, consecutiveFailures, openedAt := Closed, 0, 0.0;
      currentResetTimeoutMs, probeInFlight := c.resetTimeoutMs, false;
    }

    method GetState(now: real) returns (s: State)
      modifies this
      ensures View() == Step(config, old(View()), Event(now, ReadState)).0
      ensures s == state
      ensures s == if old(state) == Open && now >= old(openedAt) + old(currentResetTimeoutMs)
          then HalfOpen else old(state)
    {
      if state == Open && now - openedAt >= currentResetTimeoutMs {
        state := HalfOpen;
        probeInFlight := false;
      }
      s := state;
    }

    method MayProceed(now: real) returns (admitted: bool)
      modifies this
      ensures (View(), admitted) == Step(config, old(View()), Event(now, CanProceed))
      ensures old(state) == Closed ==> admitted && View() == old(View())
      ensures old(state) == Open ==> (admitted <==> now >= old(openedAt) + old(currentResetTimeoutMs))
      ensures old(state) == HalfOpen ==> admitted == !old(probeInFlight)
      ensures admitted && state != Closed ==> state == HalfOpen && probeInFlight
    {
      var current := GetState(now);
      match current {
        case Closed => admitted := true;
        case Open => admitted := false;
        case HalfOpen =>
          if probeInFlight {
            return false;
          }
          probeInFlight := true;
          admitted := true;
      }
    }

    method OnSuccess(now: real)
      modifies this
      ensures View() == Step(config, old(View()), Event(now, RecordSuccess)).0
      ensures state == Closed && consecutiveFailures == 0 && !probeInFlight && openedAt == old(openedAt)
      ensures currentResetTimeoutMs == if old(state) == Closed then old(currentResetTimeoutMs)
          else config.resetTimeoutMs
    {
      consecutiveFailures := 0;
      probeInFlight := false;
      if state != Closed {
        state := Closed;
        currentResetTimeoutMs := config.resetTimeoutMs;
      }
    }

    method OnAuthFailure(now: real)
      modifies this
      ensures View() == Step(config, old(View()), Event(now, RecordAuthFailure)).0
      ensures consecutiveFailures == old(consecutiveFailures) + 1 && !probeInFlight
      ensures old(state) == HalfOpen || consecutiveFailures >= config.failureThreshold ==>
                state == Open && openedAt == now
      ensures old(state) != HalfOpen && consecutiveFailures < config.failureThreshold ==>
                state == old(state) && openedAt == old(openedAt)
      ensures old(state) != HalfOpen ==> currentResetTimeoutMs == old(currentResetTimeoutMs)
    {
      probeInFlight := false;
      consecutiveFailures := consecutiveFailures + 1;
      if state == HalfOpen {
        TripNow(now);
        currentResetTimeoutMs := Backoff(config, currentResetTimeoutMs);
        return;
      }
      if consecutiveFailures >= config.failureThreshold {
        TripNow(now);
      }
    }

    method TripNow(now: real)
      modifies this`state, this`openedAt
      ensures state == Open && openedAt == now
    {
      state := Open;
      openedAt := now;
    }

    method ResetToClosed(now: real)
      modifies this
      ensures View() == Step(config, old(View()), Event(now, Reset)).0
      ensures View() == Breaker(Closed, 0, old(openedAt), config.resetTimeoutMs, false)
    {
      state := Closed;
      consecutiveFailures := 0;
      probeInFlight := false;
      currentResetTimeoutMs := config.resetTimeoutMs;
    }
  }
}
