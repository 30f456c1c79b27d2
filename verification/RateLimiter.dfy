/** The token bucket in front of the Linear API: a refill baseline that penalties push into
    the future, a queue of waiters and a timer that serves them. Times are in milliseconds. */
module RateLimiter {
  import opened JsText
  import opened Numbers

  datatype Config = Config(maxTokens: real, refillRate: real) {
    ghost predicate Valid() {
      maxTokens >= 0.0 && refillRate > 0.0
    }

    function MsPerToken(): real
      requires refillRate > 0.0
    {
      1000.0 / refillRate
    }

    /** Tokens that `ms` milliseconds are worth. */
    function Gain(ms: real): real {
      ms / 1000.0 * refillRate
    }
  }

  /** The limiter's fields; a waiter is the number of its request, a timer its due time. */
  datatype Bucket = Bucket(tokens: real, lastRefill: real, waitQueue: seq<nat>, refillTimer: Option<real>)

  function Created(c: Config, now: real): Bucket {
    Bucket(c.maxTokens, now, [], None)
  }

  function Refill(c: Config, b: Bucket, now: real): Bucket {
    if now - b.lastRefill <= 0.0 then b
    else b.(tokens := Min(c.maxTokens, b.tokens + c.Gain(now - b.lastRefill)), lastRefill := now)
  }

  /** Serve waiters in order, one token each; also returns who was served. */
  function DrainWaiters(b: Bucket): (Bucket, seq<nat>)
    decreases |b.waitQueue|
  {
    if b.waitQueue != [] && b.tokens >= 1.0 then
      var (rest, served) := DrainWaiters(b.(tokens := b.tokens - 1.0, waitQueue := b.waitQueue[1..]));
      (rest, [b.waitQueue[0]] + served)
    else (b, [])
  }

  function ScheduleRefillDrain(c: Config, b: Bucket, now: real): Bucket
    requires c.refillRate > 0.0
  {
    if b.refillTimer.Some? then b else b.(refillTimer := Some(now + c.MsPerToken()))
  }

  datatype Action =
    | Acquire(id: nat)
    | TimerFires
    | ReadAvailable
    | Penalize(seconds: real)

  datatype Event = Event(at: real, action: Action)

  /** One event, and the requests it grants. */
  function Step(c: Config, b: Bucket, e: Event): (Bucket, seq<nat>)
    requires c.refillRate > 0.0
  {
    match e.action
    case Acquire(id) =>
      var r := Refill(c, b, e.at);
      if r.tokens >= 1.0 && r.waitQueue == [] then (r.(tokens := r.tokens - 1.0), [id])
      else (ScheduleRefillDrain(c, r.(waitQueue := r.waitQueue + [id]), e.at), [])
    case TimerFires =>
      var (d, served) := DrainWaiters(Refill(c, b.(refillTimer := None), e.at));
      (if d.waitQueue != [] then ScheduleRefillDrain(c, d, e.at) else d, served)
    case ReadAvailable => (Refill(c, b, e.at), [])
    case Penalize(s) => (b.(tokens := 0.0, lastRefill := e.at + s * 1000.0), [])
  }

  function Run(c: Config, b: Bucket, run: seq<Event>): Bucket
    requires c.refillRate > 0.0
    decreases |run|
  {
    if run == [] then b else Run(c, Step(c, b, run[0]).0, run[1..])
  }

  /** The requests granted over a run, in the order of their grants. */
  function Grants(c: Config, b: Bucket, run: seq<Event>): seq<nat>
    requires c.refillRate > 0.0
    decreases |run|
  {
    if run == [] then [] else Step(c, b, run[0]).1 + Grants(c, Step(c, b, run[0]).0, run[1..])
  }

  /** A run that can happen from time `now`: the clock never goes back, and the timer fires
      only when it is set and due. */
  predicate Possible(c: Config, b: Bucket, now: real, run: seq<Event>)
    requires c.refillRate > 0.0
    decreases |run|
  {
    run != [] ==>
      && now <= run[0].at
      && (run[0].action.TimerFires? ==> b.refillTimer.Some? && b.refillTimer.value <= run[0].at)
      && Possible(c, Step(c, b, run[0]).0, run[0].at, run[1..])
  }

  /** When the last event of a run from `now` on takes place. */
  function LastTime(now: real, run: seq<Event>): real {
    if run == [] then now else run[|run| - 1].at
  }

  predicate Forward(a: Action) {
    a.Penalize? ==> a.seconds >= 0.0
  }

  predicate PenaltiesForward(run: seq<Event>) {
    forall i | 0 <= i < |run| :: Forward(run[i].action)
  }

  predicate NoPenalties(run: seq<Event>) {
    forall i | 0 <= i < |run| :: !run[i].action.Penalize?
  }

  function Requests(run: seq<Event>): seq<nat>
    decreases |run|
  {
    if run == [] then []
    else (if run[0].action.Acquire? then [run[0].action.id] else []) + Requests(run[1..])
  }

  // ---------------------------------------------------------------------------
  // The invariant
  // ---------------------------------------------------------------------------

  /** Tokens stay within bounds, a baseline in the future means an empty bucket, and the
      timer is set exactly while somebody waits. */
  ghost predicate Inv(c: Config, b: Bucket, now: real) {
    && 0.0 <= b.tokens <= c.maxTokens
    && (b.lastRefill > now ==> b.tokens == 0.0)
    && (b.waitQueue != [] <==> b.refillTimer.Some?)
  }

  /** The tokens the bucket will hold at time `t` if left alone. */
  function Credit(c: Config, b: Bucket, t: real): real {
    if t <= b.lastRefill then b.tokens else Min(c.maxTokens, b.tokens + c.Gain(t - b.lastRefill))
  }

  lemma GainLaws(c: Config, x: real, y: real)
    requires c.Valid()
    ensures c.Gain(x + y) == c.Gain(x) + c.Gain(y)
    ensures x >= 0.0 ==> c.Gain(x) >= 0.0
    ensures c.Gain(c.MsPerToken()) == 1.0
  {
  }

  lemma {:induction false} DrainFacts(b: Bucket)
    requires b.tokens >= 0.0
    ensures var (d, served) := DrainWaiters(b);
            && served + d.waitQueue == b.waitQueue
            && d == b.(tokens := b.tokens - |served| as real, waitQueue := d.waitQueue)
            && 0.0 <= d.tokens
            && (d.waitQueue == [] || d.tokens < 1.0)
    decreases |b.waitQueue|
  {
    if b.waitQueue != [] && b.tokens >= 1.0 {
      DrainFacts(b.(tokens := b.tokens - 1.0, waitQueue := b.waitQueue[1..]));
    }
  }

  lemma GainIs(c: Config, ms: real)
    ensures c.Gain(ms) == c.refillRate * ms / 1000.0
  {
  }

  lemma OneDrained(b: Bucket)
    requires b.waitQueue != [] && b.tokens >= 1.0
    ensures var d := b.(tokens := b.tokens - 1.0, waitQueue := b.waitQueue[1..]);
            DrainWaiters(b) == (DrainWaiters(d).0, [b.waitQueue[0]] + DrainWaiters(d).1)
  {
  }

  lemma NoneDrained(b: Bucket)
    requires b.waitQueue == [] || b.tokens < 1.0
    ensures DrainWaiters(b) == (b, [])
  {
  }

  lemma InvStep(c: Config, b: Bucket, now: real, e: Event)
    requires c.Valid() && Inv(c, b, now) && Possible(c, b, now, [e])
    requires Forward(e.action)
    ensures Inv(c, Step(c, b, e).0, e.at)
  {
    GainLaws(c, e.at - b.lastRefill, 0.0);
    if e.action.TimerFires? {
      DrainFacts(Refill(c, b.(refillTimer := None), e.at));
    }
  }

  lemma {:induction false} InvRun(c: Config, b: Bucket, now: real, run: seq<Event>)
    requires c.Valid() && Inv(c, b, now) && Possible(c, b, now, run) && PenaltiesForward(run)
    ensures Inv(c, Run(c, b, run), LastTime(now, run))
    decreases |run|
  {
    if run != [] {
      InvStep(c, b, now, run[0]);
      InvRun(c, Step(c, b, run[0]).0, run[0].at, run[1..]);
    }
  }

  // ---------------------------------------------------------------------------
  // Rate bound
  // ---------------------------------------------------------------------------

  lemma CreditGrows(c: Config, b: Bucket, t: real, u: real)
    requires c.Valid() && t <= u && 0.0 <= b.tokens <= c.maxTokens
    ensures Credit(c, b, t) <= Credit(c, b, u) <= Credit(c, b, t) + c.Gain(u - t)
  {
    GainLaws(c, t - b.lastRefill, u - t);
    GainLaws(c, u - t, 0.0);
    if t <= b.lastRefill < u {
      GainLaws(c, u - b.lastRefill, b.lastRefill - t);
      GainLaws(c, b.lastRefill - t, 0.0);
    }
  }

  /** Refilling cashes in credit without creating any, now or later. */
  lemma RefillKeepsCredit(c: Config, b: Bucket, now: real, t: real)
    requires c.Valid() && now <= t && 0.0 <= b.tokens <= c.maxTokens
    ensures Credit(c, Refill(c, b, now), t) == Credit(c, b, t)
    ensures 0.0 <= Refill(c, b, now).tokens <= c.maxTokens
    ensures Refill(c, b, now).tokens == Credit(c, b, now)
  {
    GainLaws(c, now - b.lastRefill, t - now);
    GainLaws(c, t - now, 0.0);
  }

  /** An event grants no more than the credit it uses up; without a penalty it uses up just that,
      except where the bucket would have overflowed. */
  lemma StepCredit(c: Config, b: Bucket, now: real, e: Event, t: real)
    requires c.Valid() && Inv(c, b, now) && now <= e.at <= t && Forward(e.action)
    ensures var (d, served) := Step(c, b, e);
            && |served| as real + Credit(c, d, e.at) <= Credit(c, b, e.at)
            && (!e.action.Penalize? ==> Credit(c, d, t) <= Credit(c, b, t))
            && (served != [] ==> Credit(c, b, e.at) >= 1.0)
  {
    var b0 := if e.action.TimerFires? then b.(refillTimer := None) else b;
    var r := Refill(c, b0, e.at);
    assert forall u :: Credit(c, b0, u) == Credit(c, b, u);
    RefillKeepsCredit(c, b0, e.at, e.at);
    RefillKeepsCredit(c, b0, e.at, t);
    if e.action.TimerFires? {
      DrainFacts(r);
    }
    var (d, served) := Step(c, b, e);
    if !e.action.Penalize? {
      assert d.tokens == r.tokens - |served| as real && d.lastRefill == r.lastRefill;
    }
  }

  /** Over any run the grants are paid for by the credit at its start and the refill during it. */
  lemma {:induction false} GrantsCostCredit(c: Config, b: Bucket, now: real, run: seq<Event>, end: real)
    requires c.Valid() && Inv(c, b, now) && Possible(c, b, now, run) && PenaltiesForward(run)
    requires now <= end && (run != [] ==> run[|run| - 1].at <= end)
    ensures |Grants(c, b, run)| as real + Credit(c, Run(c, b, run), end) <= Credit(c, b, now) + c.Gain(end - now)
    decreases |run|
  {
    if run == [] {
      CreditGrows(c, b, now, end);
    } else {
      var e := run[0];
      var d := Step(c, b, e).0;
      InvStep(c, b, now, e);
      TimesAscend(c, b, now, run);
      StepCredit(c, b, now, e, end);
      CreditGrows(c, b, now, e.at);
      GrantsCostCredit(c, d, e.at, run[1..], end);
      GainLaws(c, e.at - now, end - e.at);
    }
  }

  lemma {:induction false} TimesAscend(c: Config, b: Bucket, now: real, run: seq<Event>)
    requires c.refillRate > 0.0 && Possible(c, b, now, run) && run != []
    ensures now <= run[0].at <= run[|run| - 1].at
    decreases |run|
  {
    if |run| > 1 {
      TimesAscend(c, Step(c, b, run[0]).0, run[0].at, run[1..]);
    }
  }

  lemma GrantsWithinGain(c: Config, start: real, earlier: seq<Event>, window: seq<Event>, t0: real, t1: real)
    requires c.Valid() && PenaltiesForward(earlier) && PenaltiesForward(window)
    requires Possible(c, Created(c, start), start, earlier)
    requires var b := Run(c, Created(c, start), earlier);
             Possible(c, b, LastTime(start, earlier), window)
    requires forall i | 0 <= i < |window| :: t0 <= window[i].at <= t1
    requires t0 <= t1
    ensures |Grants(c, Run(c, Created(c, start), earlier), window)| as real <= c.maxTokens + c.Gain(t1 - t0)
  {
    GainLaws(c, t1 - t0, 0.0);
    if window != [] {
      InvRun(c, Created(c, start), start, earlier);
      var b := Run(c, Created(c, start), earlier);
      var first := window[0].at;
      GrantsCostCredit(c, b, first, window, t1);
      GainLaws(c, t1 - first, first - t0);
      GainLaws(c, first - t0, 0.0);
      var d := Run(c, b, window);
      InvRun(c, b, first, window);
      CreditGrows(c, d, d.lastRefill, Max(t1, d.lastRefill));
      GainLaws(c, t1 - d.lastRefill, 0.0);
    }
  }

  /** In every run from construction, whatever the requests, timers, reads and penalties, the grants
      within a window of time are at most a full bucket plus what the window refills. */
  lemma RateBound(c: Config, start: real, earlier: seq<Event>, window: seq<Event>, t0: real, t1: real)
    requires c.Valid() && PenaltiesForward(earlier) && PenaltiesForward(window)
    requires Possible(c, Created(c, start), start, earlier)
    requires var b := Run(c, Created(c, start), earlier);
             Possible(c, b, LastTime(start, earlier), window)
    requires forall i | 0 <= i < |window| :: t0 <= window[i].at <= t1
    requires t0 <= t1
    ensures |Grants(c, Run(c, Created(c, start), earlier), window)| as real
            <= c.maxTokens + c.refillRate * (t1 - t0) / 1000.0
  {
    hide Possible, Grants, Run;
    GainIs(c, t1 - t0);
    GrantsWithinGain(c, start, earlier, window, t0, t1);
  }

  lemma RunCons(c: Config, b: Bucket, e: Event, rest: seq<Event>)
    requires c.Valid()
    ensures Run(c, b, [e] + rest) == Run(c, Step(c, b, e).0, rest)
    ensures Grants(c, b, [e] + rest) == Step(c, b, e).1 + Grants(c, Step(c, b, e).0, rest)
  {
    assert ([e] + rest)[1..] == rest;
  }

  lemma PossibleCons(c: Config, b: Bucket, now: real, e: Event, rest: seq<Event>)
    requires c.Valid()
    ensures Possible(c, b, now, [e] + rest) <==> Possible(c, b, now, [e]) && Possible(c, Step(c, b, e).0, e.at, rest)
  {
    assert ([e] + rest)[1..] == rest;
  }

  lemma RunOfOne(c: Config, b: Bucket, e: Event)
    requires c.Valid()
    ensures Grants(c, b, [e]) == Step(c, b, e).1
  {
    RunCons(c, b, e, []);
  }

  // ---------------------------------------------------------------------------
  // What is granted at once
  // ---------------------------------------------------------------------------

  /** Requests made at one moment. */
  function Burst(t: real, ids: seq<nat>): seq<Event> {
    if ids == [] then [] else [Event(t, Acquire(ids[0]))] + Burst(t, ids[1..])
  }

  lemma {:induction false} NoneGranted(c: Config, b: Bucket, t: real, ids: seq<nat>)
    requires c.Valid() && t <= b.lastRefill && (b.tokens < 1.0 || b.waitQueue != [])
    ensures Possible(c, b, t, Burst(t, ids)) && Grants(c, b, Burst(t, ids)) == []
    ensures var d := Run(c, b, Burst(t, ids));
            && d.waitQueue == b.waitQueue + ids
            && d.refillTimer == if ids == [] || b.refillTimer.Some? then b.refillTimer
                else Some(t + 1000.0 / c.refillRate)
    decreases |ids|
  {
    if ids == [] {
      NothingHappens(c, b, t);
    } else {
      var e := Event(t, Acquire(ids[0]));
      var d := Step(c, b, e).0;
      assert d.waitQueue == b.waitQueue + [ids[0]];
      NoneGranted(c, d, t, ids[1..]);
      RunCons(c, b, e, Burst(t, ids[1..]));
      PossibleCons(c, b, t, e, Burst(t, ids[1..]));
      assert b.waitQueue + [ids[0]] + ids[1..] == b.waitQueue + ids;
    }
  }

  lemma OneGranted(c: Config, b: Bucket, t: real, id: nat)
    requires c.Valid() && t <= b.lastRefill && b.tokens >= 1.0 && b.waitQueue == []
    ensures Step(c, b, Event(t, Acquire(id))) == (b.(tokens := b.tokens - 1.0), [id])
    ensures (b.tokens - 1.0).Floor == b.tokens.Floor - 1
  {
  }

  lemma FirstOf(ids: seq<nat>, k: nat)
    requires 0 < k <= |ids|
    ensures [ids[0]] + ids[1..][..k - 1] == ids[..k] && ids[1..][k - 1..] == ids[k..]
  {
  }

  lemma {:induction false} BurstAtBaseline(c: Config, b: Bucket, t: real, ids: seq<nat>)
    requires c.Valid() && t <= b.lastRefill && b.tokens >= 0.0 && b.waitQueue == [] && b.refillTimer == None
    ensures var k := if |ids| <= b.tokens.Floor then |ids| else b.tokens.Floor;
            var d := Run(c, b, Burst(t, ids));
            && 0 <= k && Possible(c, b, t, Burst(t, ids)) && Grants(c, b, Burst(t, ids)) == ids[..k]
            && d.waitQueue == ids[k..]
            && d.refillTimer == if k < |ids| then Some(t + 1000.0 / c.refillRate) else None
    decreases |ids|
  {
    if b.tokens < 1.0 {
      NoneGranted(c, b, t, ids);
      assert [] + ids == ids;
    } else if ids == [] {
      NothingHappens(c, b, t);
    } else {
      var e := Event(t, Acquire(ids[0]));
      var d := b.(tokens := b.tokens - 1.0);
      OneGranted(c, b, t, ids[0]);
      hide Step, Run, Grants, Possible;
      BurstAtBaseline(c, d, t, ids[1..]);
      RunCons(c, b, e, Burst(t, ids[1..]));
      PossibleCons(c, b, t, e, Burst(t, ids[1..]));
      FirstOf(ids, if |ids| <= b.tokens.Floor then |ids| else b.tokens.Floor);
    }
  }

  /** What requests made at one moment of an idle bucket are granted, exactly: as many as it holds whole tokens by
      then, at `refillRate` tokens a second up to the maximum and none before the baseline, the first ones, and at
      once; the others wait for a timer due when one token more has been refilled. */
  lemma BurstLaw(c: Config, b: Bucket, now: real, t: real, ids: seq<nat>)
    requires c.Valid() && Inv(c, b, now) && now <= t && b.waitQueue == []
    ensures var level := if t <= b.lastRefill then b.tokens
                         else Min(c.maxTokens, b.tokens + c.refillRate * (t - b.lastRefill) / 1000.0);
            var k := if |ids| <= level.Floor then |ids| else level.Floor;
            var d := Run(c, b, Burst(t, ids));
            && 0 <= k && Possible(c, b, now, Burst(t, ids)) && Grants(c, b, Burst(t, ids)) == ids[..k]
            && d.waitQueue == ids[k..]
            && d.refillTimer == if k < |ids| then Some(t + 1000.0 / c.refillRate) else None
  {
    hide Possible, Run, Grants;
    var r := Refill(c, b, t);
    RefillFacts(c, b, now, t);
    BurstAtBaseline(c, r, t, ids);
    BurstRefills(c, b, now, t, ids);
    if ids == [] { NothingHappens(c, b, now); }
  }

  lemma RefillFacts(c: Config, b: Bucket, now: real, t: real)
    requires c.Valid() && Inv(c, b, now)
    ensures var r := Refill(c, b, t);
            && r == b.(tokens := r.tokens, lastRefill := r.lastRefill) && t <= r.lastRefill && r.tokens >= 0.0
            && r.tokens == if t <= b.lastRefill then b.tokens
                           else Min(c.maxTokens, b.tokens + c.refillRate * (t - b.lastRefill) / 1000.0)
  {
    GainIs(c, t - b.lastRefill);
    GainLaws(c, t - b.lastRefill, 0.0);
  }

  /** Refilling first makes no difference to requests. */
  lemma BurstRefills(c: Config, b: Bucket, now: real, t: real, ids: seq<nat>)
    requires c.Valid() && now <= t
    requires Possible(c, Refill(c, b, t), t, Burst(t, ids))
    ensures Possible(c, b, now, Burst(t, ids))
    ensures ids != [] ==> Grants(c, b, Burst(t, ids)) == Grants(c, Refill(c, b, t), Burst(t, ids))
    ensures ids != [] ==> Run(c, b, Burst(t, ids)) == Run(c, Refill(c, b, t), Burst(t, ids))
    ensures ids == [] ==> Run(c, b, Burst(t, ids)) == b && Run(c, Refill(c, b, t), Burst(t, ids)) == Refill(c, b, t)
  {
    hide Grants, Run, Possible;
    if ids != [] {
      var r := Refill(c, b, t);
      var e, rest := Event(t, Acquire(ids[0])), Burst(t, ids[1..]);
      assert Refill(c, r, t) == r;
      assert Step(c, b, e) == Step(c, r, e);
      RunCons(c, b, e, rest);
      RunCons(c, r, e, rest);
      PossibleCons(c, b, now, e, rest);
      PossibleCons(c, r, t, e, rest);
      AcquireIsPossible(c, b, now, e);
    } else {
      NothingHappens(c, b, now);
      RunOfNone(c, b);
      RunOfNone(c, Refill(c, b, t));
    }
  }

  lemma AcquireIsPossible(c: Config, b: Bucket, now: real, e: Event)
    requires c.Valid() && now <= e.at && e.action.Acquire?
    ensures Possible(c, b, now, [e])
  {
    assert [e][1..] == [];
  }

  lemma RunOfNone(c: Config, b: Bucket)
    requires c.Valid()
    ensures Run(c, b, []) == b
  {
  }

  /** A new limiter grants as many requests at once as it has `maxTokens`, in order. */
  lemma FullBurst(c: Config, start: real, ids: seq<nat>)
    requires c.Valid() && |ids| as real <= c.maxTokens
    ensures var run := Burst(start, ids);
            Possible(c, Created(c, start), start, run) && Grants(c, Created(c, start), run) == ids
  {
    InvCreated(c, start);
    BurstLaw(c, Created(c, start), start, start, ids);
    assert ids[..|ids|] == ids;
  }

  // ---------------------------------------------------------------------------
  // Penalties of negative length
  // ---------------------------------------------------------------------------

  predicate PenaltiesOf(run: seq<Event>, seconds: real) {
    forall i | 0 <= i < |run| :: run[i].action.Penalize? ==> run[i].action.seconds == seconds
  }

  /** `run`, from the creation of the limiter at time 0, grants more than the bound allows up to time `end`. */
  ghost predicate Exceeds(c: Config, run: seq<Event>, end: real)
    requires c.Valid()
  {
    && Possible(c, Created(c, 0.0), 0.0, run) && 0.0 <= end && (forall i | 0 <= i < |run| :: 0.0 <= run[i].at <= end)
    && |Grants(c, Created(c, 0.0), run)| as real > c.maxTokens + c.refillRate * end / 1000.0
  }

  /** What a penalty of `seconds` below 0 puts into the bucket at once, counting one token at most. */
  function Gift(c: Config, seconds: real): real {
    Min(1.0, c.Gain(-seconds * 1000.0))
  }

  /** How long after such a penalty a request can be granted. */
  function Pause(c: Config, seconds: real): real
    requires c.refillRate > 0.0
  {
    (1.0 - Gift(c, seconds)) * c.MsPerToken()
  }

  /** `n` times a penalty followed by a request as soon as it can be granted. */
  function Rounds(c: Config, seconds: real, t: real, n: nat): seq<Event>
    requires c.refillRate > 0.0
    decreases n
  {
    if n == 0 then []
    else
      var next := t + Pause(c, seconds);
      [Event(t, Penalize(seconds))] + ([Event(next, Acquire(n))] + Rounds(c, seconds, next, n - 1))
  }

  lemma GiftFacts(c: Config, seconds: real)
    requires c.Valid() && seconds < 0.0
    ensures 0.0 < Gift(c, seconds) <= 1.0 && Pause(c, seconds) >= 0.0
    ensures c.Gain(Pause(c, seconds)) == 1.0 - Gift(c, seconds)
    ensures c.Gain(Pause(c, seconds) - seconds * 1000.0) >= 1.0
  {
    var x := -seconds * 1000.0;
    assert x / 1000.0 * c.refillRate > 0.0;
    GainOfTokens(c, 1.0 - Gift(c, seconds));
    GainLaws(c, Pause(c, seconds), x);
  }

  lemma GainOfTokens(c: Config, n: real)
    requires c.Valid() && n >= 0.0
    ensures c.Gain(n * c.MsPerToken()) == n && n * c.MsPerToken() >= 0.0
  {
    var ms := c.MsPerToken();
    GainLaws(c, ms, 0.0);
    assert n * ms / 1000.0 * c.refillRate == n * (ms / 1000.0 * c.refillRate);
  }

  lemma OneRound(c: Config, seconds: real, b: Bucket, t: real, n: nat)
    requires c.Valid() && c.maxTokens >= 1.0 && seconds < 0.0 && b.waitQueue == [] && b.refillTimer == None
    ensures var next := t + Pause(c, seconds);
            var d := Step(c, b, Event(t, Penalize(seconds))).0;
            var (f, served) := Step(c, d, Event(next, Acquire(n)));
            && served == [n] && f.waitQueue == [] && f.refillTimer == None
            && next >= t
            && Possible(c, b, t, [Event(t, Penalize(seconds))]) && Possible(c, d, t, [Event(next, Acquire(n))])
  {
    GiftFacts(c, seconds);
    var next := t + Pause(c, seconds);
    var d := Step(c, b, Event(t, Penalize(seconds))).0;
    assert next - d.lastRefill == Pause(c, seconds) - seconds * 1000.0;
  }

  lemma {:induction false} RoundsTimes(c: Config, seconds: real, t: real, n: nat)
    requires c.Valid() && seconds < 0.0
    ensures var run := Rounds(c, seconds, t, n);
            PenaltiesOf(run, seconds) && forall i | 0 <= i < |run|
                :: t <= run[i].at <= t + n as real * Pause(c, seconds)
    decreases n
  {
    GiftFacts(c, seconds);
    hide Pause, Gift;
    if n > 0 {
      var pause := Pause(c, seconds);
      var next := t + pause;
      RoundsTimes(c, seconds, next, n - 1);
      var rest := Rounds(c, seconds, next, n - 1);
      var run := Rounds(c, seconds, t, n);
      assert n as real * pause == pause + (n - 1) as real * pause;
      assert (n - 1) as real * pause >= 0.0;
      forall i | 0 <= i < |run|
        ensures t <= run[i].at <= t + n as real * pause
        ensures run[i].action.Penalize? ==> run[i].action.seconds == seconds
      {
        if i >= 2 { assert run[i] == rest[i - 2]; }
      }
    }
  }

  lemma {:induction false} RoundsGrant(c: Config, seconds: real, b: Bucket, t: real, n: nat)
    requires c.Valid() && c.maxTokens >= 1.0 && seconds < 0.0 && b.waitQueue == [] && b.refillTimer == None
    ensures var run := Rounds(c, seconds, t, n); Possible(c, b, t, run) && |Grants(c, b, run)| == n
    decreases n
  {
    hide Step, Pause, Possible, Grants;
    if n > 0 {
      var next := t + Pause(c, seconds);
      var e0, e1 := Event(t, Penalize(seconds)), Event(next, Acquire(n));
      var d := Step(c, b, e0).0;
      var f := Step(c, d, e1).0;
      var rest := Rounds(c, seconds, next, n - 1);
      OneRound(c, seconds, b, t, n);
      RoundsGrant(c, seconds, f, next, n - 1);
      PenaltyGrantsNothing(c, b, e0);
      RunCons(c, d, e1, rest);
      PossibleCons(c, d, t, e1, rest);
      RunCons(c, b, e0, [e1] + rest);
      PossibleCons(c, b, t, e0, [e1] + rest);
    } else {
      NothingHappens(c, b, t);
    }
  }

  lemma PenaltyGrantsNothing(c: Config, b: Bucket, e: Event)
    requires c.Valid() && e.action.Penalize?
    ensures Step(c, b, e).1 == []
  {
  }

  lemma NothingHappens(c: Config, b: Bucket, t: real)
    requires c.Valid()
    ensures Possible(c, b, t, []) && Grants(c, b, []) == []
  {
  }

  /** A bucket that cannot hold one token grants nothing, whatever the penalties. */
  lemma {:induction false} SmallBucketGrantsNothing(c: Config, b: Bucket, run: seq<Event>)
    requires c.Valid() && c.maxTokens < 1.0 && b.tokens <= c.maxTokens
    ensures Grants(c, b, run) == []
    decreases |run|
  {
    if run != [] {
      SmallBucketGrantsNothing(c, Step(c, b, run[0]).0, run[1..]);
    }
  }

  /** The rate bound needs penalties that are not negative, exactly: for each setting, a length of penalties lets some
      run exceed the bound if and only if it is below 0 and the bucket can hold a token at all. */
  lemma PenaltySignLaw(c: Config, seconds: real)
    requires c.Valid()
    ensures (exists run: seq<Event>, end: real :: PenaltiesOf(run, seconds) && Exceeds(c, run, end))
            <==> seconds < 0.0 && c.maxTokens >= 1.0
  {
    hide Exceeds, PenaltiesOf;
    if seconds < 0.0 && c.maxTokens >= 1.0 {
      NegativePenaltiesExceed(c, seconds);
    } else {
      forall run: seq<Event>, end: real | PenaltiesOf(run, seconds)
        ensures !Exceeds(c, run, end)
      {
        NotExceeded(c, seconds, run, end);
      }
    }
  }

  lemma NotExceeded(c: Config, seconds: real, run: seq<Event>, end: real)
    requires c.Valid() && PenaltiesOf(run, seconds) && (seconds >= 0.0 || c.maxTokens < 1.0)
    ensures !Exceeds(c, run, end)
  {
    hide Possible, Grants;
    if Exceeds(c, run, end) {
      GainLaws(c, end, 0.0);
      GainIs(c, end);
      if c.maxTokens < 1.0 {
        SmallBucketGrantsNothing(c, Created(c, 0.0), run);
      } else {
        NothingHappens(c, Created(c, 0.0), 0.0);
        RunOfNone(c, Created(c, 0.0));
        RateBound(c, 0.0, [], run, 0.0, end);
      }
    }
  }

  lemma NegativePenaltiesExceed(c: Config, seconds: real)
    requires c.Valid() && seconds < 0.0 && c.maxTokens >= 1.0
    ensures exists run: seq<Event>, end: real :: PenaltiesOf(run, seconds) && Exceeds(c, run, end)
  {
    hide Possible, Grants;
    var gift, pause := Gift(c, seconds), Pause(c, seconds);
    GiftFacts(c, seconds);
    var n := EnoughRounds(c.maxTokens, gift);
    var run, end := Rounds(c, seconds, 0.0, n), n as real * pause;
    RoundsGrant(c, seconds, Created(c, 0.0), 0.0, n);
    RoundsTimes(c, seconds, 0.0, n);
    GainOfRounds(c, pause, n);
    GainIs(c, end);
    assert n as real * (1.0 - gift) == n as real - n as real * gift;
    assert n as real * pause >= 0.0;
    assert PenaltiesOf(run, seconds) && Exceeds(c, run, end);
  }

  lemma EnoughRounds(tokens: real, gift: real) returns (n: nat)
    requires tokens >= 0.0 && gift > 0.0
    ensures n as real * gift > tokens
  {
    var q := tokens / gift;
    n := q.Floor + 1;
    assert n as real > q;
    assert n as real * gift > q * gift == tokens;
  }

  lemma GainOfRounds(c: Config, pause: real, n: nat)
    requires c.Valid()
    ensures c.Gain(n as real * pause) == n as real * c.Gain(pause)
  {
  }

  // ---------------------------------------------------------------------------
  // Fairness
  // ---------------------------------------------------------------------------

  lemma StepServesInOrder(c: Config, b: Bucket, now: real, e: Event)
    requires c.Valid() && Inv(c, b, now) && now <= e.at
    ensures var (d, served) := Step(c, b, e); served + d.waitQueue == b.waitQueue + Requests([e])
  {
    assert [e][1..] == [];
    if e.action.TimerFires? {
      GainLaws(c, e.at - b.lastRefill, 0.0);
      DrainFacts(Refill(c, b.(refillTimer := None), e.at));
    }
  }

  lemma Regroup(served: seq<nat>, more: seq<nat>, end: seq<nat>, left: seq<nat>, waiting: seq<nat>, asked: seq<nat>,
      later: seq<nat>)
    requires more + end == left + later && served + left == waiting + asked
    ensures (served + more) + end == waiting + (asked + later)
  {
    calc {
      (served + more) + end;
      served + (more + end);
      (served + left) + later;
      waiting + (asked + later);
    }
  }

  lemma RequestsCons(e: Event, rest: seq<Event>)
    ensures Requests([e] + rest) == Requests([e]) + Requests(rest)
  {
    assert ([e] + rest)[1..] == rest && [e][1..] == [];
  }

  /** Grants follow arrival order, and nobody is lost, overtaken or served twice: over any run
      those served followed by those still waiting are those who waited followed by the newcomers. */
  lemma {:induction false} FirstComeFirstServed(c: Config, b: Bucket, now: real, run: seq<Event>)
    requires c.Valid() && Inv(c, b, now) && Possible(c, b, now, run) && PenaltiesForward(run)
    ensures Grants(c, b, run) + Run(c, b, run).waitQueue == b.waitQueue + Requests(run)
    decreases |run|
  {
    if run != [] {
      var e, rest := run[0], run[1..];
      var (d, served) := Step(c, b, e);
      StepServesInOrder(c, b, now, e);
      InvStep(c, b, now, e);
      FirstComeFirstServed(c, d, e.at, rest);
      RunCons(c, b, e, rest);
      RequestsCons(e, rest);
      Regroup(served, Grants(c, d, rest), Run(c, d, rest).waitQueue, d.waitQueue, b.waitQueue, Requests([e]),
          Requests(rest));
      assert [e] + rest == run;
    }
  }

  /** The timer will find a token: at its due time, or one token's time after the last penalty
      ended (at `p`) if that is later, the credit has reached one. */
  ghost predicate Armed(c: Config, b: Bucket, now: real, p: real)
    requires c.Valid()
  {
    && b.lastRefill <= Max(now, p)
    && (b.refillTimer.Some? ==> Credit(c, b, Max(b.refillTimer.value, p + c.MsPerToken())) >= 1.0)
  }

  function PenaltyEnd(e: Event, p: real): real {
    if e.action.Penalize? then e.at + e.action.seconds * 1000.0 else p
  }

  lemma ScheduledIsArmed(c: Config, b: Bucket, now: real, p: real)
    requires c.Valid() && c.maxTokens >= 1.0 && 0.0 <= b.tokens <= c.maxTokens
    requires b.lastRefill <= Max(now, p) && b.refillTimer == Some(now + c.MsPerToken())
    ensures Armed(c, b, now, p)
  {
    var ms := c.MsPerToken();
    var due := Max(now + ms, p + ms);
    GainLaws(c, ms, due - b.lastRefill - ms);
  }

  lemma ArmedPenalty(c: Config, b: Bucket, now: real, e: Event)
    requires c.Valid() && c.maxTokens >= 1.0 && e.action.Penalize?
    ensures Armed(c, Step(c, b, e).0, e.at, PenaltyEnd(e, now))
  {
    var p := PenaltyEnd(e, now);
    if b.refillTimer.Some? {
      GainLaws(c, c.MsPerToken(), Max(b.refillTimer.value, p + c.MsPerToken()) - p - c.MsPerToken());
    }
  }

  /** A step that leaves the timer alone leaves the credit at its due time alone as well. */
  lemma ArmedKept(c: Config, b: Bucket, d: Bucket, now: real, p: real, at: real)
    requires c.Valid() && Inv(c, b, now) && Armed(c, b, now, p) && b.refillTimer.Some? && now <= at
    requires d.refillTimer == b.refillTimer && d.lastRefill == Refill(c, b, at).lastRefill
    requires d.tokens == Refill(c, b, at).tokens
    ensures Armed(c, d, at, p)
  {
    var due := Max(b.refillTimer.value, p + c.MsPerToken());
    assert forall u :: Credit(c, d, u) == Credit(c, Refill(c, b, at), u);
    if at <= due {
      RefillKeepsCredit(c, b, at, due);
    } else {
      RefillKeepsCredit(c, b, at, at);
      CreditGrows(c, b, due, at);
    }
  }

  lemma ArmedFiring(c: Config, b: Bucket, now: real, p: real, at: real)
    requires c.Valid() && c.maxTokens >= 1.0 && Inv(c, b, now) && Armed(c, b, now, p) && now <= at
    ensures Armed(c, Step(c, b, Event(at, TimerFires)).0, at, p)
  {
    var b0 := b.(refillTimer := None);
    var r := Refill(c, b0, at);
    RefillKeepsCredit(c, b0, at, at);
    DrainFacts(r);
    var d := Step(c, b, Event(at, TimerFires)).0;
    if d.refillTimer.Some? { ScheduledIsArmed(c, d, at, p); }
  }

  lemma ArmedStep(c: Config, b: Bucket, now: real, p: real, e: Event)
    requires c.Valid() && c.maxTokens >= 1.0 && Inv(c, b, now) && Armed(c, b, now, p)
    requires Possible(c, b, now, [e]) && Forward(e.action)
    ensures Armed(c, Step(c, b, e).0, e.at, PenaltyEnd(e, p))
  {
    hide Armed;
    match e.action {
      case Penalize(s) => ArmedPenalty(c, b, now, e);
      case TimerFires => ArmedFiring(c, b, now, p, e.at);
      case ReadAvailable => ArmedQuiet(c, b, now, p, e);
      case Acquire(id) => ArmedQuiet(c, b, now, p, e);
    }
  }

  lemma ArmedQuiet(c: Config, b: Bucket, now: real, p: real, e: Event)
    requires c.Valid() && c.maxTokens >= 1.0 && Inv(c, b, now) && Armed(c, b, now, p) && now <= e.at
    requires e.action.Acquire? || e.action.ReadAvailable?
    ensures Armed(c, Step(c, b, e).0, e.at, p)
  {
    var d := Step(c, b, e).0;
    RefillKeepsCredit(c, b, e.at, e.at);
    if b.refillTimer.Some? {
      ArmedKept(c, b, d, now, p, e.at);
    } else if d.refillTimer.Some? {
      ScheduledIsArmed(c, d, e.at, p);
    }
  }

  /** The firings that come at least one token's time after the end of the last penalty. */
  function TimelyFirings(c: Config, run: seq<Event>, p: real): nat
    requires c.refillRate > 0.0
    decreases |run|
  {
    if run == [] then 0
    else (if run[0].action.TimerFires? && run[0].at >= p + c.MsPerToken() then 1 else 0) + TimelyFirings(c, run[1..], p)
  }

  lemma TimelyFiringServes(c: Config, b: Bucket, now: real, p: real, e: Event)
    requires c.Valid() && c.maxTokens >= 1.0 && Inv(c, b, now) && Armed(c, b, now, p)
    requires Possible(c, b, now, [e]) && e.action.TimerFires? && e.at >= p + c.MsPerToken()
    ensures Step(c, b, e).1 != []
  {
    var b0 := b.(refillTimer := None);
    RefillKeepsCredit(c, b0, e.at, e.at);
    CreditGrows(c, b, Max(b.refillTimer.value, p + c.MsPerToken()), e.at);
    DrainFacts(Refill(c, b0, e.at));
  }

  /** Without further penalties every timely firing serves somebody. */
  lemma {:induction false} FiringsServe(c: Config, b: Bucket, now: real, p: real, run: seq<Event>)
    requires c.Valid() && c.maxTokens >= 1.0 && Inv(c, b, now) && Armed(c, b, now, p)
    requires Possible(c, b, now, run) && NoPenalties(run)
    ensures |Grants(c, b, run)| >= TimelyFirings(c, run, p) || |Grants(c, b, run)| >= |b.waitQueue|
    decreases |run|
  {
    if run != [] {
      var e, rest := run[0], run[1..];
      var (d, served) := Step(c, b, e);
      InvStep(c, b, now, e);
      ArmedStep(c, b, now, p, e);
      StepServesInOrder(c, b, now, e);
      if e.action.TimerFires? && e.at >= p + c.MsPerToken() {
        TimelyFiringServes(c, b, now, p, e);
      }
      FiringsServe(c, d, e.at, p, rest);
      assert |served + d.waitQueue| == |b.waitQueue + Requests([e])|;
    }
  }

  lemma {:induction false} ArmedRun(c: Config, b: Bucket, now: real, p: real, run: seq<Event>) returns (q: real)
    requires c.Valid() && c.maxTokens >= 1.0 && Inv(c, b, now) && Armed(c, b, now, p)
    requires Possible(c, b, now, run) && PenaltiesForward(run)
    ensures Armed(c, Run(c, b, run), LastTime(now, run), q)
    ensures q == LastPenaltyEnd(run, p)
    decreases |run|
  {
    q := p;
    if run != [] {
      InvStep(c, b, now, run[0]);
      ArmedStep(c, b, now, p, run[0]);
      q := ArmedRun(c, Step(c, b, run[0]).0, run[0].at, PenaltyEnd(run[0], p), run[1..]);
    }
  }

  /** When the penalty given last ends; earlier ones no longer matter. */
  function LastPenaltyEnd(run: seq<Event>, p: real): real
    decreases |run|
  {
    if run == [] then p else LastPenaltyEnd(run[1..], PenaltyEnd(run[0], p))
  }

  /** Bounded waiting in every run from construction: whoever is at position `k` of the queue has been
      served after `k + 1` firings that come one token's time after the last penalty, if no further
      penalty comes. */
  lemma BoundedWaiting(c: Config, start: real, earlier: seq<Event>, later: seq<Event>, k: nat)
    requires c.Valid() && c.maxTokens >= 1.0 && PenaltiesForward(earlier) && NoPenalties(later)
    requires Possible(c, Created(c, start), start, earlier)
    requires var b := Run(c, Created(c, start), earlier);
             && Possible(c, b, LastTime(start, earlier), later)
             && k < |b.waitQueue|
    requires TimelyFirings(c, later, LastPenaltyEnd(earlier, start)) >= k + 1
    ensures var b := Run(c, Created(c, start), earlier);
            && k < |Grants(c, b, later)|
            && Grants(c, b, later)[k] == b.waitQueue[k]
  {
    var created := Created(c, start);
    var b := Run(c, created, earlier);
    var now := LastTime(start, earlier);
    InvRun(c, created, start, earlier);
    var q := ArmedRun(c, created, start, start, earlier);
    FiringsServe(c, b, now, q, later);
    FirstComeFirstServed(c, b, now, later);
    assert (Grants(c, b, later) + Run(c, b, later).waitQueue)[k] == (b.waitQueue + Requests(later))[k];
  }

  function Firings(run: seq<Event>): nat {
    if run == [] then 0 else (if run[0].action.TimerFires? then 1 else 0) + Firings(run[1..])
  }

  /** The timer is due within one token's time, and not before the first token's time is over. */
  predicate Soon(c: Config, b: Bucket, start: real, now: real)
    requires c.refillRate > 0.0
  {
    b.refillTimer.Some? ==> start + c.MsPerToken() <= b.refillTimer.value <= now + c.MsPerToken()
  }

  lemma SoonStep(c: Config, b: Bucket, start: real, now: real, e: Event)
    requires c.Valid() && Inv(c, b, now) && Soon(c, b, start, now) && start <= now <= e.at
    ensures Soon(c, Step(c, b, e).0, start, e.at)
  {
    if e.action.TimerFires? {
      GainLaws(c, e.at - b.lastRefill, 0.0);
      DrainFacts(Refill(c, b.(refillTimer := None), e.at));
    }
  }

  lemma {:induction false} SoonRun(c: Config, b: Bucket, start: real, now: real, run: seq<Event>)
    requires c.Valid() && Inv(c, b, now) && Soon(c, b, start, now) && start <= now
    requires Possible(c, b, now, run) && PenaltiesForward(run)
    ensures Soon(c, Run(c, b, run), start, LastTime(now, run))
    ensures start <= LastTime(now, run)
    ensures TimelyFirings(c, run, start) == Firings(run)
    decreases |run|
  {
    if run != [] {
      var d := Step(c, b, run[0]).0;
      InvStep(c, b, now, run[0]);
      SoonStep(c, b, start, now, run[0]);
      SoonRun(c, d, start, run[0].at, run[1..]);
    }
  }

  lemma {:induction false} NoPenaltyEnds(run: seq<Event>, p: real)
    requires NoPenalties(run)
    ensures LastPenaltyEnd(run, p) == p
    decreases |run|
  {
    if run != [] {
      assert !run[0].action.Penalize?;
      NoPenaltyEnds(run[1..], p);
    }
  }

  /** With no penalty at all, whoever is at position `k` of the queue has been served after `k + 1` firings. */
  lemma BoundedWaitingWithoutPenalties(c: Config, start: real, earlier: seq<Event>, later: seq<Event>, k: nat)
    requires c.Valid() && c.maxTokens >= 1.0 && NoPenalties(earlier) && NoPenalties(later)
    requires Possible(c, Created(c, start), start, earlier)
    requires var b := Run(c, Created(c, start), earlier);
             Possible(c, b, LastTime(start, earlier), later) && k < |b.waitQueue|
    requires Firings(later) >= k + 1
    ensures var b := Run(c, Created(c, start), earlier);
            k < |Grants(c, b, later)| && Grants(c, b, later)[k] == b.waitQueue[k]
  {
    hide Possible, Grants, Inv;
    var created := Created(c, start);
    assert Inv(c, created, start) by { InvCreated(c, start); }
    SoonRun(c, created, start, start, earlier);
    InvRun(c, created, start, earlier);
    SoonRun(c, Run(c, created, earlier), start, LastTime(start, earlier), later);
    NoPenaltyEnds(earlier, start);
    BoundedWaiting(c, start, earlier, later, k);
  }

  lemma InvCreated(c: Config, start: real)
    requires c.Valid()
    ensures Inv(c, Created(c, start), start)
  {
  }

  // ---------------------------------------------------------------------------
  // Penalties
  // ---------------------------------------------------------------------------

  /** No penalty of the run ends before `h`. */
  predicate EndsNoEarlier(run: seq<Event>, h: real) {
    forall i | 0 <= i < |run| && run[i].action.Penalize? :: run[i].at + run[i].action.seconds * 1000.0 >= h
  }

  /** While the credit at `end`, within one token's time of `h`, is below one, and no penalty ends before `h`,
      nothing is granted up to `end`. */
  lemma {:induction false} DryUntil(c: Config, b: Bucket, now: real, run: seq<Event>, h: real, end: real)
    requires c.Valid() && Inv(c, b, now) && Possible(c, b, now, run)
    requires PenaltiesForward(run) && EndsNoEarlier(run, h)
    requires Credit(c, b, end) < 1.0 && end < h + c.MsPerToken() && (run != [] ==> run[|run| - 1].at <= end)
    ensures Grants(c, b, run) == []
    decreases |run|
  {
    if run != [] {
      var e := run[0];
      var d := Step(c, b, e).0;
      TimesAscend(c, b, now, run);
      StepCredit(c, b, now, e, end);
      CreditGrows(c, b, e.at, end);
      InvStep(c, b, now, e);
      if e.action.Penalize? {
        BelowOneToken(c, end - d.lastRefill);
      }
      DryUntil(c, d, e.at, run[1..], h, end);
    }
  }

  /** After a penalty of `s` seconds nothing is granted before its end and one token's time more, in any run whose
      further penalties, if any, do not end earlier than it does. */
  lemma PenaltyHolds(c: Config, b: Bucket, now: real, at: real, s: real, run: seq<Event>)
    requires c.Valid() && Inv(c, b, now) && now <= at && s >= 0.0
    requires PenaltiesForward(run) && EndsNoEarlier(run, at + s * 1000.0)
    requires Possible(c, Step(c, b, Event(at, Penalize(s))).0, at, run)
    requires run != [] ==> run[|run| - 1].at < at + s * 1000.0 + 1000.0 / c.refillRate
    ensures Grants(c, Step(c, b, Event(at, Penalize(s))).0, run) == []
  {
    if run != [] {
      var e := Event(at, Penalize(s));
      var d := Step(c, b, e).0;
      var end := run[|run| - 1].at;
      assert Possible(c, b, now, [e]);
      InvStep(c, b, now, e);
      BelowOneToken(c, end - d.lastRefill);
      DryUntil(c, d, at, run, at + s * 1000.0, end);
    }
  }

  /** Nothing can be granted before `until` without a further penalty having come first. */
  ghost predicate Protected(c: Config, b: Bucket, now: real, until: real)
    requires c.Valid()
  {
    forall more: seq<Event> | Possible(c, b, now, more) && NoPenalties(more)
        && (forall i | 0 <= i < |more| :: more[i].at < until)
      :: Grants(c, b, more) == []
  }

  /** Until the last penalty ends, at `q`, the bucket is empty and its baseline is that end. */
  predicate Frozen(b: Bucket, now: real, q: real) {
    && b.lastRefill <= Max(now, q)
    && (now <= q ==> b.tokens == 0.0 && b.lastRefill == q)
  }

  lemma FrozenStep(c: Config, b: Bucket, now: real, q: real, e: Event)
    requires c.Valid() && Inv(c, b, now) && Frozen(b, now, q) && Possible(c, b, now, [e])
    ensures Frozen(Step(c, b, e).0, e.at, PenaltyEnd(e, q))
  {
    if e.action.TimerFires? {
      GainLaws(c, e.at - b.lastRefill, 0.0);
      DrainFacts(Refill(c, b.(refillTimer := None), e.at));
    }
  }

  lemma {:induction false} FrozenRun(c: Config, b: Bucket, now: real, q: real, run: seq<Event>)
    requires c.Valid() && Inv(c, b, now) && Frozen(b, now, q) && Possible(c, b, now, run) && PenaltiesForward(run)
    ensures Frozen(Run(c, b, run), LastTime(now, run), LastPenaltyEnd(run, q))
    decreases |run|
  {
    if run != [] {
      InvStep(c, b, now, run[0]);
      FrozenStep(c, b, now, q, run[0]);
      FrozenRun(c, Step(c, b, run[0]).0, run[0].at, PenaltyEnd(run[0], q), run[1..]);
    }
  }

  lemma FrozenIsProtected(c: Config, b: Bucket, now: real, q: real, until: real)
    requires c.Valid() && Inv(c, b, now) && Frozen(b, now, q) && now <= q && until <= q + c.MsPerToken()
    ensures Protected(c, b, now, until)
  {
    forall more: seq<Event> | Possible(c, b, now, more) && NoPenalties(more)
        && (forall i | 0 <= i < |more| :: more[i].at < until)
      ensures Grants(c, b, more) == []
    {
      if more != [] {
        var end := more[|more| - 1].at;
        BelowOneToken(c, end - q);
        DryUntil(c, b, now, more, q, end);
      }
    }
  }

  /** One token's time after now and after the last penalty's end, a request or the timer is granted a token. */
  lemma TokenComes(c: Config, b: Bucket, now: real, start: real, q: real) returns (e: Event)
    requires c.Valid() && c.maxTokens >= 1.0 && Inv(c, b, now) && Frozen(b, now, q) && Soon(c, b, start, now)
    ensures e.at == Max(now, q) + c.MsPerToken() && !e.action.Penalize?
    ensures Possible(c, b, now, [e]) && Grants(c, b, [e]) != []
  {
    var ms := c.MsPerToken();
    var t := Max(now, q) + ms;
    GainLaws(c, ms, t - ms - b.lastRefill);
    GainLaws(c, t - ms - b.lastRefill, 0.0);
    assert Credit(c, b, t) >= 1.0;
    if b.waitQueue == [] {
      e := Event(t, Acquire(0));
      RefillKeepsCredit(c, b, t, t);
    } else {
      e := Event(t, TimerFires);
      RefillKeepsCredit(c, b.(refillTimer := None), t, t);
      DrainFacts(Refill(c, b.(refillTimer := None), t));
    }
    RunOfOne(c, b, e);
    assert [e][1..] == [];
  }

  /** Exactly when a penalty keeps its promise although others follow it. Take any run from construction, a penalty
      ending at `h`, and any events before `h` after it: nothing can be granted before `h` and one token's time more
      if and only if the last penalty among them, if there is one, ends no earlier than `h`. */
  lemma PenaltyLaw(c: Config, start: real, earlier: seq<Event>, at: real, s: real, later: seq<Event>)
    requires c.Valid() && c.maxTokens >= 1.0 && PenaltiesForward(earlier) && s >= 0.0 && PenaltiesForward(later)
    requires Possible(c, Created(c, start), start, earlier) && LastTime(start, earlier) <= at
    requires Possible(c, AfterPenalty(c, start, earlier, at, s), at, later)
    requires forall i | 0 <= i < |later| :: later[i].at < at + s * 1000.0
    ensures var h := at + s * 1000.0;
            Protected(c, Run(c, AfterPenalty(c, start, earlier, at, s), later), LastTime(at, later),
                      h + 1000.0 / c.refillRate)
            <==> LastPenaltyEnd(later, h) >= h
  {
    hide Protected, Inv, Soon, Frozen, Possible;
    var h := at + s * 1000.0;
    var d := AfterPenalty(c, start, earlier, at, s);
    PenaltyState(c, start, earlier, at, s);
    InvRun(c, d, at, later);
    SoonRun(c, d, start, at, later);
    FrozenRun(c, d, at, h, later);
    var b, now, q := Run(c, d, later), LastTime(at, later), LastPenaltyEnd(later, h);
    if q >= h {
      FrozenIsProtected(c, b, now, q, h + c.MsPerToken());
    } else {
      var e := TokenComes(c, b, now, start, q);
      NotProtected(c, b, now, h + c.MsPerToken(), e);
    }
  }

  lemma NotProtected(c: Config, b: Bucket, now: real, until: real, e: Event)
    requires c.Valid() && Possible(c, b, now, [e]) && !e.action.Penalize? && e.at < until && Grants(c, b, [e]) != []
    ensures !Protected(c, b, now, until)
  {
  }

  /** The bucket after a run from construction and one penalty. */
  function AfterPenalty(c: Config, start: real, earlier: seq<Event>, at: real, s: real): Bucket
    requires c.refillRate > 0.0
  {
    Step(c, Run(c, Created(c, start), earlier), Event(at, Penalize(s))).0
  }

  lemma PenaltyState(c: Config, start: real, earlier: seq<Event>, at: real, s: real)
    requires c.Valid() && PenaltiesForward(earlier) && s >= 0.0
    requires Possible(c, Created(c, start), start, earlier) && LastTime(start, earlier) <= at
    ensures var d := AfterPenalty(c, start, earlier, at, s);
            start <= at && Inv(c, d, at) && Soon(c, d, start, at) && Frozen(d, at, at + s * 1000.0)
  {
    hide Possible;
    var created, now := Created(c, start), LastTime(start, earlier);
    InvCreated(c, start);
    InvRun(c, created, start, earlier);
    SoonRun(c, created, start, start, earlier);
    SoonStep(c, Run(c, created, earlier), start, now, Event(at, Penalize(s)));
  }

  lemma BelowOneToken(c: Config, ms: real)
    requires c.Valid() && ms < c.MsPerToken()
    ensures c.Gain(ms) < 1.0
  {
    var rest := c.MsPerToken() - ms;
    GainLaws(c, ms, rest);
    assert rest / 1000.0 * c.refillRate > 0.0;
  }

  /** Only the most recent penalty counts: a shorter one given later lets a request through
      while the longer one has yet to end. */
  lemma LaterPenaltyReplacesLonger(c: Config, at: real, long: real, short: real, id: nat)
    requires c.Valid() && c.maxTokens >= 1.0 && short >= 0.0
    requires long * 1000.0 > short * 1000.0 + 1000.0 / c.refillRate
    ensures var run := [Event(at, Penalize(long)), Event(at, Penalize(short)),
                        Event(at + short * 1000.0 + 1000.0 / c.refillRate, Acquire(id))];
            && Possible(c, Created(c, at), at, run)
            && run[2].at < at + long * 1000.0
            && Grants(c, Created(c, at), run) == [id]
  {
    var ms := c.MsPerToken();
    var e0, e1, e2 := Event(at, Penalize(long)), Event(at, Penalize(short)),
        Event(at + short * 1000.0 + ms, Acquire(id));
    var b0 := Created(c, at);
    var b1 := Step(c, b0, e0).0;
    var b2 := Step(c, b1, e1).0;
    GainLaws(c, ms, 0.0);
    assert b2 == Bucket(0.0, at + short * 1000.0, [], None);
    assert e2.at - b2.lastRefill == ms;
    assert Refill(c, b2, e2.at).tokens == 1.0;
    assert Step(c, b2, e2).1 == [id];
    RunOfOne(c, b2, e2);
    RunCons(c, b1, e1, [e2]);
    PossibleCons(c, b1, at, e1, [e2]);
    RunCons(c, b0, e0, [e1, e2]);
    PossibleCons(c, b0, at, e0, [e1, e2]);
    assert [e0] + [e1, e2] == [e0, e1, e2] && [e1] + [e2] == [e1, e2];
  }

  // ---------------------------------------------------------------------------
  // The limiter as an object
  // ---------------------------------------------------------------------------

  class TokenBucket {
    const config: Config
    var tokens: real
    var lastRefill: real
    var waitQueue: seq<nat>
    var refillTimer: Option<real>

    ghost function View(): Bucket
      reads this
    {
      Bucket(tokens, lastRefill, waitQueue, refillTimer)
    }

    constructor (c: Config, now: real)
      ensures config == c && View() == Created(c, now)
      ensures tokens == c.maxTokens && lastRefill == now && waitQueue == [] && refillTimer == None
    {
      config := c;
      tokens, lastRefill, waitQueue, refillTimer := c.maxTokens, now, [], None;
    }

    method RefillTokens(now: real)
      modifies this`tokens, this`lastRefill
      ensures View() == Refill(config, old(View()), now)
      ensures now <= old(lastRefill) ==> unchanged(this)
      ensures now > old(lastRefill) ==>
                && lastRefill == now
                && tokens == Min(config.maxTokens, old(tokens) + config.refillRate * (now - old(lastRefill)) / 1000.0)
    {
      GainIs(config, now - lastRefill);
      var elapsed := now - lastRefill;
      if elapsed <= 0.0 {
        return;
      }
      tokens := Min(config.maxTokens, tokens + config.Gain(elapsed));
      lastRefill := now;
    }

    method Drain() returns (served: seq<nat>)
      modifies this`tokens, this`waitQueue
      ensures (View(), served) == DrainWaiters(old(View()))
      ensures old(tokens) >= 0.0 ==>
                && served + waitQueue == old(waitQueue) && tokens == old(tokens) - |served| as real
                && 0.0 <= tokens && (waitQueue == [] || tokens < 1.0)
    {
      hide DrainWaiters;
      ghost var before := View();
      served := [];
      assert [] + DrainWaiters(before).1 == DrainWaiters(before).1;
      while waitQueue != [] && tokens >= 1.0
        invariant DrainWaiters(before).1 == served + DrainWaiters(View()).1
        invariant DrainWaiters(before).0 == DrainWaiters(View()).0
        decreases |waitQueue|
      {
        OneDrained(View());
        tokens := tokens - 1.0;
        served := served + [waitQueue[0]];
        waitQueue := waitQueue[1..];
      }
      NoneDrained(View());
      assert served + [] == served;
      if before.tokens >= 0.0 { DrainFacts(before); }
    }

    method Schedule(now: real)
      requires config.refillRate > 0.0
      modifies this`refillTimer
      ensures View() == ScheduleRefillDrain(config, old(View()), now)
      ensures refillTimer == if old(refillTimer).Some? then old(refillTimer) else Some(now + 1000.0 / config.refillRate)
    {
      if refillTimer.Some? {
        return;
      }
      refillTimer := Some(now + 1000.0 / config.refillRate);
    }

    /** `immediate` tells a caller that got its token from one that was queued. */
    method AcquireToken(now: real, id: nat) returns (immediate: bool)
      requires config.refillRate > 0.0
      modifies this
      ensures (View(), if immediate then [id] else []) == Step(config, old(View()), Event(now, Acquire(id)))
      ensures immediate ==> waitQueue == old(waitQueue) == [] && tokens >= 0.0
      ensures !immediate ==> waitQueue == old(waitQueue) + [id] && refillTimer.Some?
    {
      RefillTokens(now);
      if tokens >= 1.0 && |waitQueue| == 0 {
        tokens := tokens - 1.0;
        return true;
      }
      waitQueue := waitQueue + [id];
      Schedule(now);
      immediate := false;
    }

    method OnTimer(now: real) returns (served: seq<nat>)
      requires config.refillRate > 0.0
      modifies this
      ensures (View(), served) == Step(config, old(View()), Event(now, TimerFires))
    {
      refillTimer := None;
      RefillTokens(now);
      served := Drain();
      if |waitQueue| > 0 {
        Schedule(now);
      }
    }

    method PenalizeFor(now: real, seconds: real)
      requires config.refillRate > 0.0
      modifies this`tokens, this`lastRefill
      ensures View() == Step(config, old(View()), Event(now, Penalize(seconds))).0
      ensures tokens == 0.0 && lastRefill == now + seconds * 1000.0
    {
      tokens := 0.0;
      lastRefill := now + seconds * 1000.0;
    }

    method AvailableTokens(now: real) returns (n: int)
      requires config.refillRate > 0.0
      modifies this`tokens, this`lastRefill
      ensures View() == Step(config, old(View()), Event(now, ReadAvailable)).0
      ensures n as real <= Refill(config, old(View()), now).tokens < n as real + 1.0
    {
      RefillTokens(now);
      n := tokens.Floor;
    }
  }
}
